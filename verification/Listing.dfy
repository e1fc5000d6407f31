/**
 * What a page of `list_workflow_runs_after` holds, said of its rows: newest first, ties of one
 * millisecond by descending id, strictly below the cursor, and nothing that qualifies passed over.
 */
module Listing {
  import opened Prelude
  import opened Keyset
  import opened Workflow
  import T = TableStore
  import R = RedisStore

  /** `run` comes after the position `(createdAt, id)`: created earlier, or then with the smaller id. */
  ghost predicate Older(run: Run, createdAt: int, id: string) {
    || run.createdAt < createdAt
    || (&& run.createdAt == createdAt
        && exists p :: 0 <= p <= |run.id| && p < |id| && run.id[..p] == id[..p] &&
             (p == |run.id| || run.id[p] < id[p]))
  }

  lemma OlderIsBefore(run: Run, k: Key)
    ensures Older(run, k.createdAt, k.id) <==> Before(RunKey(run), k)
  {
    TextLessIff(run.id, k.id);
  }

  /** Each row comes after the one before it. */
  ghost predicate NewestFirst(page: seq<Run>) {
    forall i, j :: 0 <= i < j < |page| ==> Older(page[j], page[i].createdAt, page[i].id)
  }

  ghost predicate PastCursor(run: Run, after: Option<Key>) {
    after.Some? ==> Older(run, after.value.createdAt, after.value.id)
  }

  lemma WindowOrder(rows: map<string, Run>, limit: nat, after: Option<Key>)
    requires OwnIds(rows)
    ensures var w := Window(rows, limit, after);
            && |w| <= limit && NewestFirst(w)
            && forall i :: 0 <= i < |w| ==> w[i].id in rows && rows[w[i].id] == w[i] && PastCursor(w[i], after)
  {
    var w, p := Window(rows, limit, after), Page(KeysOf(rows), limit, after);
    WindowKeys(rows, limit, after);
    PageProps(KeysOf(rows), limit, after);
    forall i, j | 0 <= i < j < |w| ensures Older(w[j], w[i].createdAt, w[i].id) {
      assert Before(p[j], p[i]);
      OlderIsBefore(w[j], p[i]);
    }
    forall i | 0 <= i < |w| ensures w[i].id in rows && rows[w[i].id] == w[i] && PastCursor(w[i], after) {
      assert p[i] in p;
      if after.Some? { OlderIsBefore(w[i], after.value); }
    }
  }

  /** What a page leaves out, when it is full, comes after its last row. */
  lemma WindowCovers(rows: map<string, Run>, limit: nat, after: Option<Key>, id: string)
    requires OwnIds(rows) && id in rows && PastCursor(rows[id], after) && rows[id] !in Window(rows, limit, after)
    ensures var w := Window(rows, limit, after);
            |w| == limit && (limit > 0 ==> Older(rows[id], w[limit - 1].createdAt, w[limit - 1].id))
  {
    var w, p, k := Window(rows, limit, after), Page(KeysOf(rows), limit, after), RunKey(rows[id]);
    WindowKeys(rows, limit, after);
    PageProps(KeysOf(rows), limit, after);
    if after.Some? { OlderIsBefore(rows[id], after.value); }
    assert k in Below(KeysOf(rows), after);
    assert forall i :: 0 <= i < |p| ==> w[i] == rows[p[i].id] && w[i] in w;
    if limit > 0 { OlderIsBefore(rows[id], p[limit - 1]); }
  }

  /** With room for everything, nothing is left out. */
  lemma WholeWindow(rows: map<string, Run>, after: Option<Key>, id: string)
    requires OwnIds(rows) && id in rows && PastCursor(rows[id], after)
    ensures rows[id] in Window(rows, |KeysOf(rows)|, after)
  {
    var keys := KeysOf(rows);
    var w, p, k := Window(rows, |keys|, after), Page(keys, |keys|, after), RunKey(rows[id]);
    if rows[id] !in w {
      WindowCovers(rows, |keys|, after, id);
      WindowKeys(rows, |keys|, after);
      PageProps(keys, |keys|, after);
      assert forall i :: 0 <= i < |p| ==> w[i] == rows[p[i].id] && w[i] in w;
      SetOfDescending(p);
      assert k in keys;
      SubsetSize((set x | x in p), keys - {k});
    }
  }

  // The tables

  /** The listing's filters, on a stored row. */
  ghost predicate Asked(t: T.Table, ns: Option<string>, op: Op, row: T.Row)
    requires op.ListAfter?
  {
    && (ns.Some? ==> row.ns == ns)
    && (op.inState.Some? ==> row.run.state == op.inState.value)
    && (op.defName.Some? ==>
          row.run.definitionId in t.defs && t.defs[row.run.definitionId].name == op.defName.value)
    && (if op.after.Some? then Older(row.run, op.after.value.createdAt, op.after.value.id)
        else row.run.createdAt < 0x7FFF_FFFF_FFFF_FFFF)
  }

  lemma AskedIsMatch(t: T.Table, ns: Option<string>, op: Op, id: string)
    requires op.ListAfter? && id in t.runs
    ensures Asked(t, ns, op, t.runs[id]) <==>
            && id in T.Matching(t, ns, op.defName, op.inState)
            && PastCursor(t.runs[id].run, Some(if op.after.Some? then op.after.value else Key(I64_MAX, "")))
  {
    OlderIsBefore(t.runs[id].run, Key(I64_MAX, ""));
  }

  /**
   * Over the tables a page holds the runs asked for, newest first and at most `limit` of them; one asked
   * for that is missing comes after the last row of a full page.
   */
  lemma TablePage(t: T.Table, ns: Option<string>, op: Op)
    requires op.ListAfter? && forall id :: id in t.runs ==> t.runs[id].run.id == id
    ensures var (t', reply) := T.Step(t, ns, op);
            && t' == t && reply.RunPage?
            && var page := reply.runs;
               && (forall i, j :: 0 <= i < j < |page| ==>
                     || page[j].createdAt < page[i].createdAt
                     || (&& page[j].createdAt == page[i].createdAt
                         && exists p :: 0 <= p <= |page[j].id| && p < |page[i].id| &&
                              page[j].id[..p] == page[i].id[..p] &&
                              (p == |page[j].id| || page[j].id[p] < page[i].id[p])))
               && (op.limit >= 0 ==> |page| <= op.limit)
               && (forall i :: 0 <= i < |page| ==>
                     page[i].id in t.runs && t.runs[page[i].id].run == page[i] && Asked(t, ns, op, t.runs[page[i].id]))
               && (forall id :: id in t.runs && Asked(t, ns, op, t.runs[id]) && t.runs[id].run !in page ==>
                     op.limit >= 0 && |page| == op.limit &&
                     (op.limit > 0 ==>
                        Older(t.runs[id].run, page[op.limit - 1].createdAt, page[op.limit - 1].id)))
  {
    var page := T.List(t, ns, op);
    assert T.Step(t, ns, op) == (t, RunPage(page));
    TableRows(t, ns, op);
    assert NewestFirst(page);
    forall id | id in t.runs && Asked(t, ns, op, t.runs[id]) && t.runs[id].run !in page
      ensures op.limit >= 0 && |page| == op.limit &&
              (op.limit > 0 ==> Older(t.runs[id].run, page[op.limit - 1].createdAt, page[op.limit - 1].id))
    {
      TableMisses(t, ns, op, id);
    }
  }

  lemma TableRows(t: T.Table, ns: Option<string>, op: Op)
    requires op.ListAfter? && forall id :: id in t.runs ==> t.runs[id].run.id == id
    ensures var page := T.List(t, ns, op);
            && NewestFirst(page) && (op.limit >= 0 ==> |page| <= op.limit)
            && forall i :: 0 <= i < |page| ==>
                 page[i].id in t.runs && t.runs[page[i].id].run == page[i] && Asked(t, ns, op, t.runs[page[i].id])
  {
    var rows := T.Matching(t, ns, op.defName, op.inState);
    var after := Some(if op.after.Some? then op.after.value else Key(I64_MAX, ""));
    var page := T.List(t, ns, op);
    WindowOrder(rows, if op.limit < 0 then |KeysOf(rows)| else op.limit, after);
    forall i | 0 <= i < |page| ensures Asked(t, ns, op, t.runs[page[i].id]) { AskedIsMatch(t, ns, op, page[i].id); }
  }

  lemma TableMisses(t: T.Table, ns: Option<string>, op: Op, id: string)
    requires op.ListAfter? && forall id :: id in t.runs ==> t.runs[id].run.id == id
    requires id in t.runs && Asked(t, ns, op, t.runs[id]) && t.runs[id].run !in T.List(t, ns, op)
    ensures var page := T.List(t, ns, op);
            op.limit >= 0 && |page| == op.limit &&
            (op.limit > 0 ==> Older(t.runs[id].run, page[op.limit - 1].createdAt, page[op.limit - 1].id))
  {
    var rows := T.Matching(t, ns, op.defName, op.inState);
    var after := Some(if op.after.Some? then op.after.value else Key(I64_MAX, ""));
    AskedIsMatch(t, ns, op, id);
    if op.limit < 0 { WholeWindow(rows, after, id); }
    WindowCovers(rows, if op.limit < 0 then |KeysOf(rows)| else op.limit, after, id);
  }

  // Redis

  /** `d` is the highest version registered under `name`, and of equal versions the one with the greatest id. */
  ghost predicate NewestOf(r: R.Redis, name: string, d: string) {
    && R.NameEntry(name, d) in r.byName
    && forall e :: e in r.byName && e.name == name && e.member != d ==>
         || r.byName[e] < r.byName[R.NameEntry(name, d)]
         || (&& r.byName[e] == r.byName[R.NameEntry(name, d)]
             && exists p :: 0 <= p <= |e.member| && p < |d| && e.member[..p] == d[..p] &&
                  (p == |e.member| || e.member[p] < d[p]))
  }

  /** The index entry that makes `id` a candidate. */
  ghost predicate InIndex(r: R.Redis, op: Op, id: string)
    requires op.ListAfter?
  {
    if op.defName.Some? then exists d :: NewestOf(r, op.defName.value, d) && R.DefEntry(d, id) in r.byDef
    else if op.inState.Some? then R.StateEntry(op.inState.value, id) in r.byState
    else id in r.all
  }

  /** Every version other than `d` sorts below it. */
  lemma NewestIsTop(r: R.Redis, name: string, d: string)
    ensures var versions := set e | e in r.byName && e.name == name :: Key(r.byName[e], e.member);
            NewestOf(r, name, d) <==>
            R.NameEntry(name, d) in r.byName && IsNewest(versions, Key(r.byName[R.NameEntry(name, d)], d))
  {
    var versions := set e | e in r.byName && e.name == name :: Key(r.byName[e], e.member);
    if R.NameEntry(name, d) in r.byName {
      var top := Key(r.byName[R.NameEntry(name, d)], d);
      assert top in versions;
      forall e | e in r.byName && e.name == name && e.member != d
        ensures Before(Key(r.byName[e], e.member), top) <==>
                || r.byName[e] < top.createdAt
                || (&& r.byName[e] == top.createdAt
                    && exists p :: 0 <= p <= |e.member| && p < |d| && e.member[..p] == d[..p] &&
                         (p == |e.member| || e.member[p] < d[p]))
      {
        TextLessIff(e.member, d);
      }
      assert forall e :: e in r.byName && e.name == name ==> Key(r.byName[e], e.member) in versions;
      assert forall e :: e in r.byName && e.name == name && e.member == d ==> e == R.NameEntry(name, d);
    }
  }

  lemma CandidatesAre(r: R.Redis, op: Op, id: string)
    requires op.ListAfter?
    ensures id in R.Candidates(r, op.defName, op.inState) <==> InIndex(r, op, id)
  {
    if op.defName.Some? {
      var name := op.defName.value;
      var versions := set e | e in r.byName && e.name == name :: Key(r.byName[e], e.member);
      if versions == {} {
        assert forall d :: R.NameEntry(name, d) in r.byName ==>
          Key(r.byName[R.NameEntry(name, d)], d) in versions;
      } else {
        OrderedProps(versions);
        var top := Ordered(versions)[0];
        TopIsNewest(versions);
        var e :| e in r.byName && e.name == name && Key(r.byName[e], e.member) == top;
        assert e == R.NameEntry(name, top.id);
        NewestIsTop(r, name, top.id);
        forall d | NewestOf(r, name, d) ensures d == top.id {
          NewestIsTop(r, name, d);
          BeforeOrder(top, Key(r.byName[R.NameEntry(name, d)], d), top);
        }
      }
    }
  }

  lemma TopIsNewest(ks: set<Key>)
    requires ks != {}
    ensures Ordered(ks) != [] && IsNewest(ks, Ordered(ks)[0])
  {
    OrderedProps(ks);
    var all := Ordered(ks);
    assert all[0] in all;
    forall x | x in ks && x != all[0] ensures Before(x, all[0]) {
      assert x in all;
      var i :| 0 <= i < |all| && all[i] == x;
    }
  }

  /** The listing's filters, on a hash. */
  ghost predicate Wanted(r: R.Redis, ns: Option<string>, op: Op, id: string)
    requires op.ListAfter?
  {
    && InIndex(r, op, id) && id in r.runs && (ns.Some? ==> r.runs[id].namespace == ns)
    && var run := R.DecodeRun(r.runs[id]);
       run.Some? && (op.inState.Some? ==> run.value.state == op.inState.value) && PastCursor(run.value, op.after)
  }

  /** Over Redis a page is the same of the runs in the index that the filters pick; a negative limit asks for none. */
  lemma RedisPage(r: R.Redis, ns: Option<string>, op: Op)
    requires op.ListAfter? && forall id :: id in r.runs && r.runs[id].id.Some? ==> r.runs[id].id.value == id
    ensures var (r', reply) := R.Step(r, ns, op);
            && r' == r
            && (reply.RunPage? || reply == Refused(Corrupt))
            && (reply.RunPage? ==>
                  var page := reply.runs;
                  && (forall i, j :: 0 <= i < j < |page| ==>
                        || page[j].createdAt < page[i].createdAt
                        || (&& page[j].createdAt == page[i].createdAt
                            && exists p :: 0 <= p <= |page[j].id| && p < |page[i].id| &&
                                 page[j].id[..p] == page[i].id[..p] &&
                                 (p == |page[j].id| || page[j].id[p] < page[i].id[p])))
                  && |page| <= (if op.limit < 0 then 0 else op.limit)
                  && (forall i :: 0 <= i < |page| ==>
                        && Wanted(r, ns, op, page[i].id)
                        && R.DecodeRun(r.runs[page[i].id]) == Some(page[i]))
                  && (forall id :: Wanted(r, ns, op, id) && R.DecodeRun(r.runs[id]).value !in page ==>
                        op.limit <= 0 ||
                        (&& |page| == op.limit
                         && var run, last := R.DecodeRun(r.runs[id]).value, page[op.limit - 1];
                            Older(run, last.createdAt, last.id))))
  {
    var reply := R.Step(r, ns, op).1;
    if reply.RunPage? {
      var page := RedisWindow(r, ns, op);
      assert reply == RunPage(page);
      RedisRows(r, ns, op);
      assert NewestFirst(page);
      forall id | Wanted(r, ns, op, id) && R.DecodeRun(r.runs[id]).value !in page
        ensures op.limit <= 0 || (&& |page| == op.limit
                                  && var run, last := R.DecodeRun(r.runs[id]).value, page[op.limit - 1];
                                     Older(run, last.createdAt, last.id))
      {
        RedisMisses(r, ns, op, id);
      }
    }
  }

  /** The page of whatever candidates load. */
  ghost function RedisWindow(r: R.Redis, ns: Option<string>, op: Op): seq<Run>
    requires op.ListAfter?
  {
    Window(R.Loaded(r, ns, R.Candidates(r, op.defName, op.inState), op.inState),
           if op.limit < 0 then 0 else op.limit, op.after)
  }

  lemma LoadedIsWanted(r: R.Redis, ns: Option<string>, op: Op, id: string)
    requires op.ListAfter?
    ensures var rows := R.Loaded(r, ns, R.Candidates(r, op.defName, op.inState), op.inState);
            && (Wanted(r, ns, op, id) <==> id in rows && PastCursor(rows[id], op.after))
            && (id in rows ==> id in r.runs && R.DecodeRun(r.runs[id]) == Some(rows[id]))
  {
    CandidatesAre(r, op, id);
  }

  lemma RedisRows(r: R.Redis, ns: Option<string>, op: Op)
    requires op.ListAfter? && forall id :: id in r.runs && r.runs[id].id.Some? ==> r.runs[id].id.value == id
    ensures var page := RedisWindow(r, ns, op);
            && NewestFirst(page) && |page| <= (if op.limit < 0 then 0 else op.limit)
            && forall i :: 0 <= i < |page| ==>
                 Wanted(r, ns, op, page[i].id) && R.DecodeRun(r.runs[page[i].id]) == Some(page[i])
  {
    var rows := R.Loaded(r, ns, R.Candidates(r, op.defName, op.inState), op.inState);
    var page := RedisWindow(r, ns, op);
    WindowOrder(rows, if op.limit < 0 then 0 else op.limit, op.after);
    forall i | 0 <= i < |page|
      ensures Wanted(r, ns, op, page[i].id) && R.DecodeRun(r.runs[page[i].id]) == Some(page[i])
    {
      LoadedIsWanted(r, ns, op, page[i].id);
    }
  }

  lemma RedisMisses(r: R.Redis, ns: Option<string>, op: Op, id: string)
    requires op.ListAfter? && forall id :: id in r.runs && r.runs[id].id.Some? ==> r.runs[id].id.value == id
    requires Wanted(r, ns, op, id) && R.DecodeRun(r.runs[id]).value !in RedisWindow(r, ns, op)
    ensures op.limit <= 0 ||
            (&& |RedisWindow(r, ns, op)| == op.limit
             && var run, last := R.DecodeRun(r.runs[id]).value, RedisWindow(r, ns, op)[op.limit - 1];
                Older(run, last.createdAt, last.id))
  {
    var rows := R.Loaded(r, ns, R.Candidates(r, op.defName, op.inState), op.inState);
    LoadedIsWanted(r, ns, op, id);
    WindowCovers(rows, if op.limit < 0 then 0 else op.limit, op.after, id);
  }
}
