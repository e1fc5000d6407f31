/**
 * Keyset pagination: rows in descending `(created_at, id)` order, a page being the first rows
 * strictly below a cursor, and the walk that follows each page's last key to the next page.
 */
module Keyset {
  import opened Prelude

  /** Text order, byte by byte: Rust's `str` order and the binary collation of the tables. */
  predicate TextLess(a: string, b: string) {
    b != "" && (a == "" || a[0] < b[0] || (a[0] == b[0] && TextLess(a[1..], b[1..])))
  }

  lemma {:induction false} TextLessIrreflexive(a: string)
    ensures !TextLess(a, a)
  {
    if a != "" { TextLessIrreflexive(a[1..]); }
  }

  lemma {:induction false} TextLessTransitive(a: string, b: string, c: string)
    requires TextLess(a, b) && TextLess(b, c)
    ensures TextLess(a, c)
  {
    if a != "" && a[0] == b[0] == c[0] { TextLessTransitive(a[1..], b[1..], c[1..]); }
  }

  lemma {:induction false} TextLessTotal(a: string, b: string)
    ensures TextLess(a, b) || a == b || TextLess(b, a)
  {
    if a != "" && b != "" && a[0] == b[0] {
      TextLessTotal(a[1..], b[1..]);
      assert a == [a[0]] + a[1..] && b == [b[0]] + b[1..];
    }
  }

  /** `a` and `b` agree up to `p`, where `a` ends and `b` goes on, or `a` has the smaller character. */
  predicate PartsBelow(a: string, b: string, p: nat) {
    p <= |a| && p < |b| && a[..p] == b[..p] && (p == |a| || a[p] < b[p])
  }

  lemma {:induction false} TextLessParts(a: string, b: string)
    ensures TextLess(a, b) <==> exists p: nat :: PartsBelow(a, b, p)
  {
    if b != "" {
      if a == "" || a[0] < b[0] {
        assert PartsBelow(a, b, 0);
      } else {
        TextLessParts(a[1..], b[1..]);
        if a[0] == b[0] && TextLess(a[1..], b[1..]) {
          var p: nat :| PartsBelow(a[1..], b[1..], p);
          PartsOneLater(a, b, p);
        }
        if p: nat :| PartsBelow(a, b, p) {
          assert p > 0 && a[..p][0] == b[..p][0];
          PartsOneEarlier(a, b, p);
        }
      }
    }
  }

  lemma PartsOneLater(a: string, b: string, p: nat)
    requires a != "" && b != "" && a[0] == b[0] && PartsBelow(a[1..], b[1..], p)
    ensures PartsBelow(a, b, p + 1)
  {
    assert a[..p + 1] == [a[0]] + a[1..][..p] && b[..p + 1] == [b[0]] + b[1..][..p];
  }

  lemma PartsOneEarlier(a: string, b: string, p: nat)
    requires p > 0 && PartsBelow(a, b, p)
    ensures PartsBelow(a[1..], b[1..], p - 1)
  {
    assert a[1..][..p - 1] == a[..p][1..] && b[1..][..p - 1] == b[..p][1..];
  }

  /** Text order without recursion: some common prefix after which `a` ends or has the smaller character. */
  lemma TextLessIff(a: string, b: string)
    ensures TextLess(a, b) <==>
            exists p :: 0 <= p <= |a| && p < |b| && a[..p] == b[..p] && (p == |a| || a[p] < b[p])
  {
    TextLessParts(a, b);
    if p: nat :| PartsBelow(a, b, p) { assert a[..p] == b[..p]; }
    if p :| 0 <= p <= |a| && p < |b| && a[..p] == b[..p] && (p == |a| || a[p] < b[p]) { assert PartsBelow(a, b, p); }
  }

  datatype Key = Key(createdAt: int, id: string)

  predicate Before(a: Key, b: Key) {
    a.createdAt < b.createdAt || (a.createdAt == b.createdAt && TextLess(a.id, b.id))
  }

  lemma BeforeOrder(a: Key, b: Key, c: Key)
    ensures !Before(a, a)
    ensures Before(a, b) && Before(b, c) ==> Before(a, c)
    ensures Before(a, b) || a == b || Before(b, a)
  {
    TextLessIrreflexive(a.id);
    TextLessTotal(a.id, b.id);
    if TextLess(a.id, b.id) && TextLess(b.id, c.id) { TextLessTransitive(a.id, b.id, c.id); }
  }

  ghost predicate Descending(s: seq<Key>) {
    forall i, j :: 0 <= i < j < |s| ==> Before(s[j], s[i])
  }

  ghost predicate IsNewest(ks: set<Key>, k: Key) {
    k in ks && forall x :: x in ks && x != k ==> Before(x, k)
  }

  lemma {:induction false} NewestExists(ks: set<Key>)
    requires ks != {}
    ensures exists k :: IsNewest(ks, k)
  {
    var a :| a in ks;
    if ks == {a} {
      assert IsNewest(ks, a);
    } else {
      var rest := ks - {a};
      NewestExists(rest);
      var m :| IsNewest(rest, m);
      BeforeOrder(a, m, m);
      if Before(a, m) {
        assert IsNewest(ks, m);
      } else {
        forall x | x in ks && x != a ensures Before(x, a) { BeforeOrder(x, m, a); }
        assert IsNewest(ks, a);
      }
    }
  }

  /** The keys, newest first. */
  ghost function Ordered(ks: set<Key>): seq<Key> {
    if ks == {} then []
    else
      NewestExists(ks);
      var k :| IsNewest(ks, k);
      [k] + Ordered(ks - {k})
  }

  lemma {:induction false} OrderedProps(ks: set<Key>)
    ensures Descending(Ordered(ks)) && |Ordered(ks)| == |ks|
    ensures forall k :: k in Ordered(ks) <==> k in ks
  {
    if ks != {} {
      var s := Ordered(ks);
      OrderedProps(ks - {s[0]});
      assert s == [s[0]] + Ordered(ks - {s[0]});
      assert forall i :: 1 <= i < |s| ==> s[i] in Ordered(ks - {s[0]});
    }
  }

  /** Any sort of the same keys into descending order gives this sequence. */
  lemma {:induction false} OrderedUnique(s: seq<Key>, ks: set<Key>)
    requires Descending(s) && forall k :: k in s <==> k in ks
    ensures s == Ordered(ks)
  {
    assert s != [] ==> s[0] in s;
    if ks != {} {
      var t := Ordered(ks);
      assert t[0] in ks;
      var i :| 0 <= i < |s| && s[i] == t[0];
      assert s[0] in s;
      if i > 0 { BeforeOrder(s[0], t[0], s[0]); }
      var rest := s[1..];
      forall k ensures k in rest <==> k in ks - {s[0]} {
        BeforeOrder(s[0], s[0], s[0]);
        if k in rest {
          var j :| 0 <= j < |rest| && rest[j] == k;
          assert s[j + 1] == k && s[j + 1] in s;
        }
        if k in ks - {s[0]} { assert k in s; }
      }
      OrderedUnique(rest, ks - {s[0]});
      assert s == [s[0]] + rest;
    }
  }

  ghost function Below(ks: set<Key>, after: Option<Key>): set<Key> {
    set k | k in ks && (after.None? || Before(k, after.value))
  }

  function Take<T>(s: seq<T>, n: nat): seq<T> { if n < |s| then s[..n] else s }

  /** One page of keys. */
  ghost function Page(ks: set<Key>, limit: nat, after: Option<Key>): seq<Key> {
    Take(Ordered(Below(ks, after)), limit)
  }

  lemma PageProps(ks: set<Key>, limit: nat, after: Option<Key>)
    ensures var p := Page(ks, limit, after);
            && Descending(p) && |p| <= limit && |p| <= |Below(ks, after)|
            && (forall k :: k in p ==> k in Below(ks, after))
            && (|p| < limit ==> forall k :: k in Below(ks, after) ==> k in p)
            && (|p| > 0 ==> forall k :: k in Below(ks, after) && k !in p ==> Before(k, p[|p| - 1]))
  {
    var all := Ordered(Below(ks, after));
    OrderedProps(Below(ks, after));
    var p := Page(ks, limit, after);
    assert forall k :: k in p ==> k in all;
    forall k | k in Below(ks, after) && k !in p && |p| > 0 ensures Before(k, p[|p| - 1]) {
      assert k in all;
      var i :| 0 <= i < |all| && all[i] == k;
      assert forall j :: 0 <= j < |p| ==> p[j] == all[j] && p[j] in p;
    }
  }

  /** A page is known by its content: the newest `limit` keys, in order. */
  lemma PageUnique(ks: set<Key>, limit: nat, after: Option<Key>, p: seq<Key>)
    requires Descending(p) && |p| == limit > 0
    requires forall k :: k in p ==> k in Below(ks, after)
    requires forall k :: k in Below(ks, after) && k !in p ==> Before(k, p[|p| - 1])
    ensures p == Page(ks, limit, after)
  {
    var all := Below(ks, after);
    var rest := Ordered(all - set k | k in p);
    OrderedProps(all - set k | k in p);
    JoinDescending(p, rest);
    OrderedUnique(p + rest, all);
    assert (p + rest)[..limit] == p;
  }

  /** Dropping keys that are not on a page does not change the page. */
  lemma PageOfSubset(ks: set<Key>, sub: set<Key>, limit: nat, after: Option<Key>)
    requires sub <= ks && forall k :: k in Page(ks, limit, after) ==> k in sub
    ensures Page(sub, limit, after) == Page(ks, limit, after)
  {
    var p := Page(ks, limit, after);
    PageProps(ks, limit, after);
    if |p| < limit {
      assert Below(sub, after) == Below(ks, after);
    } else if limit > 0 {
      PageUnique(sub, limit, after, p);
    }
  }

  // The walk. `snaps[i]` holds the matching keys when page `i` is read.

  ghost predicate Growing(snaps: seq<set<Key>>) {
    forall i, j :: 0 <= i <= j < |snaps| ==> snaps[i] <= snaps[j]
  }

  /** All keys read, page by page; a page shorter than the limit ends the walk. */
  ghost function Walk(snaps: seq<set<Key>>, limit: nat, after: Option<Key>): seq<Key>
    decreases |snaps|
  {
    if snaps == [] then []
    else
      var p := Page(snaps[0], limit, after);
      if |p| < limit || |p| == 0 then p else p + Walk(snaps[1..], limit, Some(p[|p| - 1]))
  }

  /** The walk reached a short page within the given snapshots. */
  ghost predicate Ended(snaps: seq<set<Key>>, limit: nat, after: Option<Key>)
    decreases |snaps|
  {
    snaps != [] &&
    (var p := Page(snaps[0], limit, after);
     |p| < limit || (|p| > 0 && Ended(snaps[1..], limit, Some(p[|p| - 1]))))
  }

  lemma JoinDescending(p: seq<Key>, w: seq<Key>)
    requires p != [] && Descending(p) && Descending(w)
    requires forall k :: k in w ==> Before(k, p[|p| - 1])
    ensures Descending(p + w)
  {
    forall i, j | 0 <= i < |p| && 0 <= j < |w| ensures Before(w[j], p[i]) {
      assert w[j] in w;
      BeforeOrder(w[j], p[|p| - 1], p[i]);
    }
  }

  ghost predicate AllWithin(snaps: seq<set<Key>>, top: set<Key>) { forall i :: 0 <= i < |snaps| ==> snaps[i] <= top }

  lemma {:induction false} WalkDescends(snaps: seq<set<Key>>, limit: nat, after: Option<Key>, top: set<Key>)
    requires limit > 0 && AllWithin(snaps, top)
    ensures var w := Walk(snaps, limit, after);
            Descending(w) && forall k :: k in w ==> k in Below(top, after)
    decreases |snaps|
  {
    if snaps != [] {
      var p := Page(snaps[0], limit, after);
      PageProps(snaps[0], limit, after);
      if |p| == limit {
        var last, rest := p[|p| - 1], snaps[1..];
        WalkDescends(rest, limit, Some(last), top);
        assert last in p;
        NarrowerCursor(top, last, after);
        JoinDescending(p, Walk(rest, limit, Some(last)));
      }
    }
  }

  lemma NarrowerCursor(ks: set<Key>, last: Key, after: Option<Key>)
    requires after.None? || Before(last, after.value)
    ensures Below(ks, Some(last)) <= Below(ks, after)
  {
    forall k | k in Below(ks, Some(last)) ensures k in Below(ks, after) {
      if after.Some? { BeforeOrder(k, last, after.value); }
    }
  }

  lemma {:induction false} WalkCovers(snaps: seq<set<Key>>, limit: nat, after: Option<Key>, k: Key)
    requires limit > 0 && Ended(snaps, limit, after) && forall i :: 0 <= i < |snaps| ==> k in snaps[i]
    requires after.None? || Before(k, after.value)
    ensures k in Walk(snaps, limit, after)
    decreases |snaps|
  {
    var p := Page(snaps[0], limit, after);
    PageProps(snaps[0], limit, after);
    if k !in p { WalkCovers(snaps[1..], limit, Some(p[|p| - 1]), k); }
  }

  /** Reading a page leaves at least that many keys fewer below the new cursor. */
  lemma PageShrinks(ks: set<Key>, p: seq<Key>, after: Option<Key>)
    requires p != [] && Descending(p) && forall k :: k in p ==> k in Below(ks, after)
    ensures |p| + |Below(ks, Some(p[|p| - 1]))| <= |Below(ks, after)|
  {
    var last := p[|p| - 1];
    assert last in p;
    var read := set k | k in p;
    var left := Below(ks, Some(last));
    SetOfDescending(p);
    NarrowerCursor(ks, last, after);
    forall k | k in read ensures k !in left {
      var i :| 0 <= i < |p| && p[i] == k;
      BeforeOrder(k, last, k);
    }
    SubsetSize(read + left, Below(ks, after));
    assert |read + left| == |read| + |left|;
  }

  lemma OneFewer(n: nat, limit: nat)
    requires n > 0
    ensures n * limit == (n - 1) * limit + limit
  {
  }

  lemma {:induction false} WalkEnds(snaps: seq<set<Key>>, limit: nat, after: Option<Key>, top: set<Key>)
    requires limit > 0 && AllWithin(snaps, top) && |Below(top, after)| < |snaps| * limit
    ensures Ended(snaps, limit, after)
    decreases |snaps|
  {
    var p := Page(snaps[0], limit, after);
    PageProps(snaps[0], limit, after);
    if |p| == limit {
      PageShrinks(top, p, after);
      OneFewer(|snaps|, limit);
      WalkEnds(snaps[1..], limit, Some(p[|p| - 1]), top);
    }
  }

  lemma {:induction false} SetOfDescending(s: seq<Key>)
    requires Descending(s)
    ensures |set k | k in s| == |s|
  {
    if s != [] {
      var rest := s[1..];
      SetOfDescending(rest);
      BeforeOrder(s[0], s[0], s[0]);
      assert (set k | k in s) == (set k | k in rest) + {s[0]};
      assert s[0] !in rest;
    }
  }

  /**
   * Walking with a positive limit over sets that may change between pages, as long as they keep the keys of
   * `base` and stay within `top`: the walk reads strictly downwards, so no key twice; it ends within
   * `top / limit + 1` pages; and by its end it has read every key of `base`.
   */
  lemma KeysetWalkBetween(snaps: seq<set<Key>>, limit: nat, base: set<Key>, top: set<Key>)
    requires limit > 0 && AllWithin(snaps, top) && forall i :: 0 <= i < |snaps| ==> base <= snaps[i]
    ensures var w := Walk(snaps, limit, None);
            && Descending(w)
            && (forall k :: k in w ==> k in top)
            && (Ended(snaps, limit, None) ==> forall k :: k in base ==> k in w)
            && (|top| < |snaps| * limit ==> Ended(snaps, limit, None))
  {
    WalkDescends(snaps, limit, None, top);
    assert Below(top, None) == top;
    if Ended(snaps, limit, None) {
      forall k | k in base ensures k in Walk(snaps, limit, None) { WalkCovers(snaps, limit, None, k); }
    }
    if |top| < |snaps| * limit { WalkEnds(snaps, limit, None, top); }
  }

  /** In particular while keys are only added. */
  lemma KeysetWalk(snaps: seq<set<Key>>, limit: nat)
    requires limit > 0 && Growing(snaps) && snaps != []
    ensures var w := Walk(snaps, limit, None);
            && Descending(w)
            && (forall k :: k in w ==> k in snaps[|snaps| - 1])
            && (Ended(snaps, limit, None) ==> forall k :: k in snaps[0] ==> k in w)
            && (|snaps[|snaps| - 1]| < |snaps| * limit ==> Ended(snaps, limit, None))
  {
    KeysetWalkBetween(snaps, limit, snaps[0], snaps[|snaps| - 1]);
  }
}
