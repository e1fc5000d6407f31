/** The consistent-hash ring that maps task names to workers. */
module HashRing {
  import opened Prelude
  import opened Decimal

  const TWO_TO_THE_64 := 0x1_0000_0000_0000_0000

  type u64 = x: int | 0 <= x < TWO_TO_THE_64

  /** Ring points with the worker each belongs to. */
  type Points = map<u64, string>

  /** The text hashed for virtual node `i`. */
  function VirtualNode(worker: string, i: nat): string { worker + "-vnode-" + Format(i) }

  /** No two virtual nodes share a text, whoever they belong to: only the hash can make them meet. */
  lemma VirtualNodesDiffer(v: string, i: nat, w: string, j: nat)
    requires VirtualNode(v, i) == VirtualNode(w, j)
    ensures v == w && i == j
  {
    var s, t := v + "-vnode-" + Format(i), w + "-vnode-" + Format(j);
    var m, n := |Format(i)|, |Format(j)|;
    assert s[|s| - m - 1] == '-' && t[|t| - n - 1] == '-';
    assert forall k :: |s| - m <= k < |s| ==> s[k] == Format(i)[k - |s| + m];
    assert forall k :: |t| - n <= k < |t| ==> t[k] == Format(j)[k - |t| + n];
    assert m == n;
    assert Format(i) == s[|s| - m..] && Format(j) == t[|t| - n..];
    FormatInjective(i, j);
    assert v == s[..|v|] && w == t[..|w|];
  }

  /** The hash and the number of virtual nodes; the hash is left open. */
  datatype Placement = Placement(hash: string -> u64, virtualNodes: nat) {
    function Point(worker: string, i: nat): u64 { hash(VirtualNode(worker, i)) }

    function FirstSeats(worker: string, n: nat): set<u64> { set i | 0 <= i < n :: Point(worker, i) }

    /** Points `worker` asks for. */
    function Seats(worker: string): set<u64> { FirstSeats(worker, virtualNodes) }

    /** A worker has as many points as virtual nodes exactly when no two of these hash alike. */
    lemma VirtualNodesCounted(worker: string)
      ensures |Seats(worker)| <= virtualNodes
      ensures |Seats(worker)| == virtualNodes <==>
              forall i: nat, j: nat :: i < j < virtualNodes ==>
                hash(VirtualNode(worker, i)) != hash(VirtualNode(worker, j))
    {
      var points := seq(virtualNodes, i requires 0 <= i < virtualNodes => Point(worker, i));
      DistinctCounted(points);
      assert forall i :: 0 <= i < virtualNodes ==> points[i] == hash(VirtualNode(worker, i)) && points[i] in points;
      assert Seats(worker) == set p | p in points;
    }

    lemma SeatsAre(worker: string)
      ensures forall i :: 0 <= i < virtualNodes ==> hash(VirtualNode(worker, i)) in Seats(worker)
      ensures forall p :: p in Seats(worker) ==> exists i :: 0 <= i < virtualNodes && p == hash(VirtualNode(worker, i))
    {
      forall i | 0 <= i < virtualNodes ensures hash(VirtualNode(worker, i)) in Seats(worker) {
        assert Point(worker, i) in Seats(worker);
      }
    }

    lemma OneMoreSeat(worker: string, n: nat)
      ensures FirstSeats(worker, n + 1) == FirstSeats(worker, n) + {Point(worker, n)}
    {
      assert Point(worker, n) in FirstSeats(worker, n + 1);
    }
  }

  function Seat(ring: Points, at: set<u64>, worker: string): Points {
    map p | p in ring.Keys + at :: if p in at then worker else ring[p]
  }

  function Add(ring: Points, at: Placement, worker: string): Points { Seat(ring, at.Seats(worker), worker) }

  function Remove(ring: Points, worker: string): Points { map p | p in ring && ring[p] != worker :: ring[p] }

  // Lookup

  /** Steps clockwise from `from` to `to`. */
  function Distance(from: u64, to: u64): u64 { if from <= to then to - from else to + TWO_TO_THE_64 - from }

  ghost predicate Nearest(ring: Points, h: u64, p: u64) {
    p in ring && forall q :: q in ring ==> Distance(h, p) <= Distance(h, q)
  }

  /** The worker at the first point clockwise from `h`. */
  ghost function Owner(ring: Points, h: u64): Option<string> {
    if p :| Nearest(ring, h, p) then Some(ring[p]) else None
  }

  lemma {:induction false} NearestExists(ring: Points, h: u64)
    requires ring != map[]
    ensures exists p :: Nearest(ring, h, p)
  {
    var k :| k in ring;
    var rest := ring - {k};
    if rest == map[] {
      assert forall q :: q in ring && q != k ==> q in rest;
      assert Nearest(ring, h, k);
    } else {
      NearestExists(rest, h);
      var p :| Nearest(rest, h, p);
      assert Nearest(ring, h, if Distance(h, p) <= Distance(h, k) then p else k);
    }
  }

  /** The owner is the worker at the one nearest point, and there is one as soon as there is a point. */
  lemma OwnerIsNearest(ring: Points, h: u64)
    ensures Owner(ring, h).None? <==> ring == map[]
    ensures forall p :: Nearest(ring, h, p) ==> Owner(ring, h) == Some(ring[p])
  {
    if ring != map[] { NearestExists(ring, h); }
  }

  /** `p` is the least point from `h` on, or the least of all when none is left. */
  ghost predicate IsFirst(ring: Points, h: u64, p: u64) {
    if p >= h then forall q :: q in ring && q >= h ==> p <= q else forall q :: q in ring ==> p <= q < h
  }

  class Ring {
    const at: Placement
    var ring: Points

    constructor (at: Placement)
      ensures this.at == at && ring == map[]
    {
      this.at := at;
      ring := map[];
    }

    method AddWorker(worker: string)
      modifies this
      ensures ring == Add(old(ring), at, worker)
      ensures forall i :: 0 <= i < at.virtualNodes ==>
                var p := at.hash(VirtualNode(worker, i)); p in ring && ring[p] == worker
      ensures forall p :: p in ring ==>
                || (p in old(ring) && ring[p] == old(ring)[p])
                || (ring[p] == worker &&
                    exists i :: 0 <= i < at.virtualNodes && p == at.hash(VirtualNode(worker, i)))
      ensures forall p :: p in old(ring) ==> p in ring
    {
      for i := 0 to at.virtualNodes
        invariant ring == Seat(old(ring), at.FirstSeats(worker, i), worker)
      {
        at.OneMoreSeat(worker, i);
        ring := ring[at.Point(worker, i) := worker];
      }
      at.SeatsAre(worker);
    }

    method RemoveWorker(worker: string)
      modifies this
      ensures ring == Remove(old(ring), worker)
      ensures forall p :: p in ring <==> p in old(ring) && old(ring)[p] != worker
      ensures forall p :: p in ring ==> ring[p] == old(ring)[p]
    {
      ring := map p | p in ring && ring[p] != worker :: ring[p];
    }

    /** First key at or after `low`. */
    method FirstFrom(low: u64) returns (first: Option<u64>)
      ensures first.None? <==> forall p :: p in ring ==> p < low
      ensures first.Some? ==> first.value in ring && low <= first.value
      ensures first.Some? ==> forall p :: p in ring && low <= p ==> first.value <= p
    {
      first := None;
      var rest := ring.Keys;
      while rest != {}
        invariant rest <= ring.Keys
        invariant first.None? <==> forall p :: p in ring && p !in rest ==> p < low
        invariant first.Some? ==> first.value in ring && low <= first.value
        invariant first.Some? ==> forall p :: p in ring && p !in rest && low <= p ==> first.value <= p
      {
        var p :| p in rest;
        rest := rest - {p};
        if low <= p && (first.None? || p < first.value) { first := Some(p); }
      }
    }

    /** The worker at the first point at or after the key's hash, or else at the first point of all. */
    method PreferredWorker(key: string) returns (worker: Option<string>)
      ensures worker == Owner(ring, at.hash(key))
      ensures worker.None? <==> ring == map[]
      ensures worker.Some? ==>
                exists p :: p in ring && worker == Some(ring[p]) && IsFirst(ring, at.hash(key), p)
    {
      OwnerIsNearest(ring, at.hash(key));
      var first := FirstFrom(at.hash(key));
      if first.None? { first := FirstFrom(0); }
      if first.None? {
        assert ring == map[];
        return None;
      }
      assert Nearest(ring, at.hash(key), first.value) && IsFirst(ring, at.hash(key), first.value);
      return Some(ring[first.value]);
    }

    method IsOwner(key: string, worker: string) returns (b: bool)
      ensures b == (Owner(ring, at.hash(key)) == Some(worker))
    {
      var preferred := PreferredWorker(key);
      return preferred == Some(worker);
    }
  }

  // Minimal movement

  function AddAll(ring: Points, at: Placement, workers: seq<string>): Points
    decreases workers
  {
    if workers == [] then ring else AddAll(Add(ring, at, workers[0]), at, workers[1..])
  }

  function RemoveAll(ring: Points, workers: seq<string>): Points
    decreases workers
  {
    if workers == [] then ring else RemoveAll(Remove(ring, workers[0]), workers[1..])
  }

  /** A point of `after` that `before` has with the same worker owns no less there if `before` has no other points. */
  lemma OwnerKept(before: Points, after: Points, h: u64)
    requires after.Keys <= before.Keys
    requires Owner(before, h).Some? ==> forall p :: Nearest(before, h, p) ==> p in after && after[p] == before[p]
    ensures Owner(after, h) == Owner(before, h)
  {
    OwnerIsNearest(before, h);
    OwnerIsNearest(after, h);
    if Owner(before, h).Some? {
      var p :| Nearest(before, h, p);
      assert Nearest(after, h, p);
    }
  }

  lemma {:induction false} RemoveAllIs(ring: Points, workers: seq<string>)
    ensures RemoveAll(ring, workers) == map p | p in ring && ring[p] !in workers :: ring[p]
    decreases workers
  {
    if workers != [] { RemoveAllIs(Remove(ring, workers[0]), workers[1..]); }
  }

  /** Removing workers moves exactly the keys they owned, and to none of them. */
  lemma MinimalMovementOnRemove(ring: Points, workers: seq<string>, h: u64)
    ensures var before, after := Owner(ring, h), Owner(RemoveAll(ring, workers), h);
            && (after != before <==> before.Some? && before.value in workers)
            && (after.Some? ==> after.value !in workers)
  {
    RemoveAllIs(ring, workers);
    OwnerIsNearest(ring, h);
    var after := RemoveAll(ring, workers);
    OwnerIsNearest(after, h);
    if ring != map[] && Owner(ring, h).value !in workers { OwnerKept(ring, after, h); }
    if after != map[] { NearestExists(after, h); }
  }

  lemma {:induction false} AddAllIs(ring: Points, at: Placement, workers: seq<string>)
    ensures var after := AddAll(ring, at, workers);
            && ring.Keys <= after.Keys
            && forall p :: p in after ==> after[p] in workers || (p in ring && after[p] == ring[p])
    decreases workers
  {
    if workers != [] { AddAllIs(Add(ring, at, workers[0]), at, workers[1..]); }
  }

  /** Adding workers leaves a key where it was or gives it to one of them, colliding points or not. */
  lemma MinimalMovementOnAdd(ring: Points, at: Placement, workers: seq<string>, h: u64)
    ensures var before, after := Owner(ring, h), Owner(AddAll(ring, at, workers), h);
            after == before || (after.Some? && after.value in workers)
  {
    AddAllIs(ring, at, workers);
    var after := AddAll(ring, at, workers);
    OwnerIsNearest(after, h);
    OwnerIsNearest(ring, h);
    if after != map[] {
      NearestExists(after, h);
      var p :| Nearest(after, h, p);
      if after[p] !in workers { assert Nearest(ring, h, p); }
    }
  }

  // Agreement

  datatype Change = Join(worker: string) | Leave(worker: string)

  function Apply(ring: Points, at: Placement, c: Change): Points {
    match c
    case Join(w) => Add(ring, at, w)
    case Leave(w) => Remove(ring, w)
  }

  function Replay(ring: Points, at: Placement, history: seq<Change>): Points
    decreases history
  {
    if history == [] then ring else Replay(Apply(ring, at, history[0]), at, history[1..])
  }

  function Enroll(workers: set<string>, c: Change): set<string> {
    match c
    case Join(w) => workers + {w}
    case Leave(w) => workers - {w}
  }

  /** Workers present at the end of a history. */
  function Present(workers: set<string>, history: seq<Change>): set<string>
    decreases history
  {
    if history == [] then workers else Present(Enroll(workers, history[0]), history[1..])
  }

  ghost predicate NoCollisions(at: Placement, workers: set<string>) {
    forall a, b :: a in workers && b in workers && a != b ==> at.Seats(a) !! at.Seats(b)
  }

  ghost predicate Names(history: seq<Change>, workers: set<string>) {
    forall i :: 0 <= i < |history| ==> history[i].worker in workers
  }

  /** The ring seats exactly `workers`, each at all its points. */
  ghost predicate Seated(ring: Points, at: Placement, workers: set<string>) {
    forall p, w :: p in ring && ring[p] == w <==> w in workers && p in at.Seats(w)
  }

  lemma ApplySeats(ring: Points, at: Placement, workers: set<string>, all: set<string>, c: Change)
    requires NoCollisions(at, all) && workers <= all && c.worker in all && Seated(ring, at, workers)
    ensures Seated(Apply(ring, at, c), at, Enroll(workers, c))
  {
    var after := Apply(ring, at, c);
    forall p, w ensures p in after && after[p] == w <==> w in Enroll(workers, c) && p in at.Seats(w) {
      assert p in ring && ring[p] == w <==> w in workers && p in at.Seats(w);
      assert w in workers && w != c.worker && p in at.Seats(w) ==> p !in at.Seats(c.worker);
    }
  }

  lemma {:induction false} ReplaySeats(ring: Points, at: Placement, workers: set<string>, all: set<string>,
      history: seq<Change>)
    requires NoCollisions(at, all) && workers <= all && Names(history, all) && Seated(ring, at, workers)
    ensures Seated(Replay(ring, at, history), at, Present(workers, history))
    decreases history
  {
    if history != [] {
      ApplySeats(ring, at, workers, all, history[0]);
      ReplaySeats(Apply(ring, at, history[0]), at, Enroll(workers, history[0]), all, history[1..]);
    }
  }

  lemma SeatedUnique(a: Points, b: Points, at: Placement, workers: set<string>)
    requires Seated(a, at, workers) && Seated(b, at, workers)
    ensures a == b
  {
    forall p ensures p in a <==> p in b {
      if p in a { assert a[p] in workers && p in at.Seats(a[p]); }
      if p in b { assert b[p] in workers && p in at.Seats(b[p]); }
    }
    forall p | p in a ensures a[p] == b[p] { assert a[p] in workers; }
  }

  /** Rings with the same final workers are the same ring. */
  ghost predicate DependsOnlyOnPresent(at: Placement, all: set<string>) {
    forall h, k :: Names(h, all) && Names(k, all) && Present({}, h) == Present({}, k)
                   ==> Replay(map[], at, h) == Replay(map[], at, k)
  }

  lemma ReplayTwo(at: Placement, c: Change, d: Change)
    ensures Replay(map[], at, [c, d]) == Apply(Apply(map[], at, c), at, d)
    ensures Present({}, [c, d]) == Enroll(Enroll({}, c), d)
  {
    assert [c, d][1..] == [d] && [d][1..] == [];
    assert Replay(Apply(map[], at, c), at, [d]) == Apply(Apply(map[], at, c), at, d);
    assert Present(Enroll({}, c), [d]) == Enroll(Enroll({}, c), d);
  }

  lemma SeatsCommuteIff(p: set<u64>, a: string, q: set<u64>, b: string)
    requires a != b
    ensures Seat(Seat(map[], p, a), q, b) == Seat(Seat(map[], q, b), p, a) <==> p !! q
  {
    var x, y := Seat(Seat(map[], p, a), q, b), Seat(Seat(map[], q, b), p, a);
    if k :| k in p && k in q {
      assert x[k] == b && y[k] == a;
    }
  }

  lemma AddsCommuteIff(at: Placement, a: string, b: string)
    requires a != b
    ensures Add(Add(map[], at, a), at, b) == Add(Add(map[], at, b), at, a) <==> at.Seats(a) !! at.Seats(b)
  {
    SeatsCommuteIff(at.Seats(a), a, at.Seats(b), b);
  }

  lemma JoinOrder(at: Placement, a: string, b: string)
    requires a != b
    ensures var h, k := [Join(a), Join(b)], [Join(b), Join(a)];
            && Present({}, h) == Present({}, k) == {a, b}
            && (Replay(map[], at, h) == Replay(map[], at, k) <==> at.Seats(a) !! at.Seats(b))
  {
    ReplayTwo(at, Join(a), Join(b));
    ReplayTwo(at, Join(b), Join(a));
    AddsCommuteIff(at, a, b);
  }

  lemma SameRing(at: Placement, all: set<string>, h: seq<Change>, k: seq<Change>)
    requires NoCollisions(at, all) && Names(h, all) && Names(k, all) && Present({}, h) == Present({}, k)
    ensures Replay(map[], at, h) == Replay(map[], at, k)
  {
    ReplaySeats(map[], at, {}, all, h);
    ReplaySeats(map[], at, {}, all, k);
    SeatedUnique(Replay(map[], at, h), Replay(map[], at, k), at, Present({}, h));
  }

  lemma OrderTells(at: Placement, all: set<string>, a: string, b: string)
    requires DependsOnlyOnPresent(at, all) && a in all && b in all && a != b
    ensures at.Seats(a) !! at.Seats(b)
  {
    JoinOrder(at, a, b);
    assert Names([Join(a), Join(b)], all) && Names([Join(b), Join(a)], all);
  }

  /** A ring's content depends on the final workers alone exactly when no two workers' points collide. */
  lemma HistoryIndependentIffNoCollisions(at: Placement, all: set<string>)
    ensures DependsOnlyOnPresent(at, all) <==> NoCollisions(at, all)
  {
    if NoCollisions(at, all) {
      forall h, k | Names(h, all) && Names(k, all) && Present({}, h) == Present({}, k)
        ensures Replay(map[], at, h) == Replay(map[], at, k)
      {
        SameRing(at, all, h, k);
      }
    }
    if DependsOnlyOnPresent(at, all) {
      forall a, b | a in all && b in all && a != b ensures at.Seats(a) !! at.Seats(b) { OrderTells(at, all, a, b); }
    }
  }

  lemma SeatedPoint(ring: Points, at: Placement, workers: set<string>, w: string, p: u64)
    requires Seated(ring, at, workers)
    ensures p in ring && ring[p] == w <==> w in workers && p in at.Seats(w)
  {
  }

  lemma OneOwner(ring: Points, at: Placement, workers: set<string>, h: u64)
    requires Seated(ring, at, workers) && workers != {} && at.virtualNodes > 0
    ensures Owner(ring, h).Some? && Owner(ring, h).value in workers
  {
    var w :| w in workers;
    var first := at.Point(w, 0);
    assert first in at.Seats(w);
    SeatedPoint(ring, at, workers, w, first);
    NearestExists(ring, h);
    var p :| Nearest(ring, h, p);
    OwnerIsNearest(ring, h);
    SeatedPoint(ring, at, workers, ring[p], p);
  }

  /** Views that name the same workers agree on every key, and exactly one worker among them owns it. */
  lemma OwnershipAgreement(at: Placement, all: set<string>, mine: seq<Change>, theirs: seq<Change>, h: u64)
    requires NoCollisions(at, all) && at.virtualNodes > 0 && Names(mine, all) && Names(theirs, all)
    requires Present({}, mine) == Present({}, theirs) != {}
    ensures Owner(Replay(map[], at, mine), h) == Owner(Replay(map[], at, theirs), h)
    ensures exists w :: w in Present({}, mine) && Owner(Replay(map[], at, mine), h) == Some(w) &&
              forall v :: v in Present({}, mine) && Owner(Replay(map[], at, theirs), h) == Some(v) ==> v == w
  {
    ReplaySeats(map[], at, {}, all, mine);
    HistoryIndependentIffNoCollisions(at, all);
    OneOwner(Replay(map[], at, mine), at, Present({}, mine), h);
  }
}
