/**
 * Reading a listing page after page, each with the last row's `(created_at, id)` as the next cursor.
 * What matches may change between pages; `views[i]` is what matches when page `i` is read.
 */
module PageWalk {
  import opened Prelude
  import opened Keyset
  import opened Workflow

  /** A listing: who asks, for what, and how many rows a page. */
  datatype Query = Query(ns: Option<string>, defName: Option<string>, inState: Option<RunState>, limit: nat)

  /** A page shorter than the limit ends the walk; otherwise the rest follows. */
  function Paged(page: seq<Run>, limit: nat, rest: seq<Run>): seq<Run> {
    if |page| < limit || page == [] then page else page + rest
  }

  /** Where the page after `page` starts. */
  function CursorOf(page: seq<Run>): Option<Key> { if page == [] then None else Some(RunKey(page[|page| - 1])) }

  /** Rows of all pages. */
  ghost function Read(views: seq<map<string, Run>>, limit: nat, after: Option<Key>): seq<Run>
    decreases |views|
  {
    if views == [] then []
    else
      var page := Window(views[0], limit, after);
      Paged(page, limit, Read(views[1..], limit, CursorOf(page)))
  }

  lemma ReadOnwards(rows: map<string, Run>, rest: seq<map<string, Run>>, limit: nat, after: Option<Key>)
    ensures var page := Window(rows, limit, after);
            Read([rows] + rest, limit, after) == Paged(page, limit, Read(rest, limit, CursorOf(page)))
  {
    assert ([rows] + rest)[1..] == rest;
  }

  ghost function KeySets(views: seq<map<string, Run>>): seq<set<Key>> {
    seq(|views|, i requires 0 <= i < |views| => KeysOf(views[i]))
  }

  /** A short page was read within the given views. */
  ghost predicate Finished(views: seq<map<string, Run>>, limit: nat) { Ended(KeySets(views), limit, None) }

  ghost predicate AllOwnIds(views: seq<map<string, Run>>) { forall i :: 0 <= i < |views| ==> OwnIds(views[i]) }

  lemma WindowRunKeys(rows: map<string, Run>, limit: nat, after: Option<Key>)
    requires OwnIds(rows)
    ensures RunKeys(Window(rows, limit, after)) == Page(KeysOf(rows), limit, after)
  {
    WindowKeys(rows, limit, after);
  }

  lemma WalkOnwards(snaps: seq<set<Key>>, limit: nat, after: Option<Key>, rest: seq<set<Key>>)
    requires snaps != [] && rest == snaps[1..]
    ensures var p := Page(snaps[0], limit, after);
            Walk(snaps, limit, after) ==
            if |p| < limit || |p| == 0 then p else p + Walk(rest, limit, Some(p[|p| - 1]))
  {
  }

  lemma RunKeysConcat(a: seq<Run>, b: seq<Run>)
    ensures RunKeys(a + b) == RunKeys(a) + RunKeys(b)
  {
  }

  /** The keys read are the keyset walk over what matched at each page. */
  lemma {:induction false} ReadIsWalk(views: seq<map<string, Run>>, limit: nat, after: Option<Key>)
    requires AllOwnIds(views)
    ensures RunKeys(Read(views, limit, after)) == Walk(KeySets(views), limit, after)
    decreases |views|
  {
    if views != [] {
      var page, snaps := Window(views[0], limit, after), KeySets(views);
      WindowRunKeys(views[0], limit, after);
      assert snaps[1..] == KeySets(views[1..]);
      WalkOnwards(snaps, limit, after, KeySets(views[1..]));
      if |page| >= limit && |page| > 0 {
        ReadIsWalk(views[1..], limit, CursorOf(page));
        RunKeysConcat(page, Read(views[1..], limit, CursorOf(page)));
      }
    }
  }

  lemma KeysOfParts(rows: map<string, Run>, rows': map<string, Run>)
    ensures KeysOf(rows) <= KeysOf(rows') <==>
            forall id :: id in rows ==> id in rows' && rows'[id].createdAt == rows[id].createdAt
  {
    if KeysOf(rows) <= KeysOf(rows') {
      forall id | id in rows ensures id in rows' && rows'[id].createdAt == rows[id].createdAt {
        assert Key(rows[id].createdAt, id) in KeysOf(rows');
      }
    } else {
      var k :| k in KeysOf(rows) && k !in KeysOf(rows');
      assert k.id in rows && !(k.id in rows' && rows'[k.id].createdAt == rows[k.id].createdAt);
    }
  }

  lemma GrowOne(rows: map<string, Run>, rest: seq<map<string, Run>>)
    requires rest != [] && OwnIds(rows) && AllOwnIds(rest) && Growing(KeySets(rest)) && KeysOf(rows) <= KeysOf(rest[0])
    ensures AllOwnIds([rows] + rest) && Growing(KeySets([rows] + rest))
  {
    var s, r := KeySets([rows] + rest), KeySets(rest);
    assert forall i :: 1 <= i < |s| ==> s[i] == r[i - 1];
    assert s[0] <= r[0];
  }

  /**
   * As long as what matches keeps the keys of `base` and stays within `top`: rows come strictly downwards by
   * `(created_at, id)`, so none twice; after at most `top / limit + 1` pages a short page ends the walk; and
   * by then every run of `base` has been returned.
   */
  lemma ReadsBetween(views: seq<map<string, Run>>, limit: nat, base: set<Key>, top: set<Key>)
    requires limit > 0 && AllOwnIds(views)
    requires forall i :: 0 <= i < |views| ==> base <= KeysOf(views[i]) <= top
    ensures var read := RunKeys(Read(views, limit, None));
            && Descending(read)
            && (Finished(views, limit) ==> forall k :: k in base ==> k in read)
            && (|top| < |views| * limit ==> Finished(views, limit))
  {
    ReadIsWalk(views, limit, None);
    KeysetWalkBetween(KeySets(views), limit, base, top);
  }

  /** In particular while what matches only grows. */
  lemma ReadsEverything(views: seq<map<string, Run>>, limit: nat)
    requires limit > 0 && views != [] && AllOwnIds(views) && Growing(KeySets(views))
    ensures var read := RunKeys(Read(views, limit, None));
            && Descending(read)
            && (Finished(views, limit) ==> forall k :: k in KeysOf(views[0]) ==> k in read)
            && (|KeysOf(views[|views| - 1])| < |views| * limit ==> Finished(views, limit))
  {
    var snaps := KeySets(views);
    forall i | 0 <= i < |views| ensures KeysOf(views[0]) <= KeysOf(views[i]) <= KeysOf(views[|views| - 1]) {
      assert snaps[0] <= snaps[i] <= snaps[|views| - 1];
    }
    ReadsBetween(views, limit, KeysOf(views[0]), KeysOf(views[|views| - 1]));
  }
}
