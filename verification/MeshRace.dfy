/**
 * Concurrent writers to the membership. An upsert writes the entry under the members lock, releases
 * it, and only then changes the ring, so another writer may come in between; marking a worker holds
 * the members lock across both.
 */
module MeshRace {
  import opened Prelude
  import opened HashRing
  import opened MeshState

  /** A ring change an upsert decided on but has not made yet. */
  datatype Due = Due(worker: string, joins: bool)

  datatype Shared = Shared(mesh: Mesh, due: map<nat, Due>)

  /** Writer `id` writes its entry; its ring change lands; or any other operation runs as one step. */
  datatype Action = WriteEntry(id: nat, member: Member) | Land(id: nat) | Whole(op: Op)

  function Act(s: Shared, at: Placement, a: Action): Shared {
    match a
    case WriteEntry(id, member) =>
      var w := member.info.workerId;
      if id in s.due then s
      else Shared(s.mesh.(members := s.mesh.members[w := member]),
                  if IsAlive(s.mesh, w) == member.state.Alive? then s.due else s.due[id := Due(w, member.state.Alive?)])
    case Land(id) =>
      if id !in s.due then s
      else
        var d := s.due[id];
        Shared(s.mesh.(ring := if d.joins then Add(s.mesh.ring, at, d.worker) else Remove(s.mesh.ring, d.worker)),
            s.due - {id})
    case Whole(op) => if op.Upsert? then s else s.(mesh := Step(s.mesh, at, op))
  }

  function Acts(s: Shared, at: Placement, actions: seq<Action>): Shared
    decreases actions
  {
    if actions == [] then s else Acts(Act(s, at, actions[0]), at, actions[1..])
  }

  /** An upsert nobody interrupts is the whole operation. */
  lemma UninterruptedUpsert(m: Mesh, at: Placement, id: nat, member: Member)
    ensures Act(Act(Shared(m, map[]), at, WriteEntry(id, member)), at, Land(id)) ==
            Shared(Step(m, at, Upsert(member)), map[])
  {
    var written := Act(Shared(m, map[]), at, WriteEntry(id, member));
    assert written.due - {id} == map[];
  }

  lemma {:induction false} ActsConcat(s: Shared, at: Placement, a: seq<Action>, b: seq<Action>)
    ensures Acts(s, at, a + b) == Acts(Acts(s, at, a), at, b)
    decreases a
  {
    if a == [] {
      assert a + b == b;
    } else {
      assert (a + b)[1..] == a[1..] + b;
      ActsConcat(Act(s, at, a[0]), at, a[1..], b);
    }
  }

  /** Whatever writers do one after the other is an interleaving. */
  lemma {:induction false} SequentialIsInterleaving(m: Mesh, at: Placement, ops: seq<Op>) returns (actions: seq<Action>)
    ensures Acts(Shared(m, map[]), at, actions) == Shared(RunOps(m, at, ops), map[])
    decreases ops
  {
    if ops == [] {
      actions := [];
    } else {
      var next := Step(m, at, ops[0]);
      var rest := SequentialIsInterleaving(next, at, ops[1..]);
      var first := OneOperation(m, at, ops[0]);
      actions := first + rest;
      ActsConcat(Shared(m, map[]), at, first, rest);
    }
  }

  lemma OneOperation(m: Mesh, at: Placement, op: Op) returns (actions: seq<Action>)
    ensures Acts(Shared(m, map[]), at, actions) == Shared(Step(m, at, op), map[])
  {
    var start := Shared(m, map[]);
    if op.Upsert? {
      var write, land := WriteEntry(0, op.member), Land(0);
      actions := [write, land];
      assert actions[1..] == [land] && [land][1..] == [];
      UninterruptedUpsert(m, at, 0, op.member);
      assert Acts(Act(start, at, write), at, [land]) == Act(Act(start, at, write), at, land);
    } else {
      actions := [Whole(op)];
      assert actions[1..] == [];
      assert Acts(Act(start, at, Whole(op)), at, []) == Act(start, at, Whole(op));
    }
  }

  // Exactly when membership and ring are in step

  ghost predicate SeatsWhole(s: Shared, at: Placement, all: set<string>) { MeshState.Whole(s.mesh, at, all) }

  ghost predicate ActionNamed(a: Action, all: set<string>) {
    match a
    case WriteEntry(_, member) => member.info.workerId in all
    case Land(_) => true
    case Whole(op) => Named(op, all)
  }

  ghost predicate DueNamed(s: Shared, all: set<string>) { forall id :: id in s.due ==> s.due[id].worker in all }

  /** What the action does to `worker`'s place on the ring: takes it up, gives it up, or nothing. */
  function RingChange(s: Shared, a: Action, worker: string): Option<bool> {
    match a
    case WriteEntry(_, _) => None
    case Land(id) => if id in s.due && s.due[id].worker == worker then Some(s.due[id].joins) else None
    case Whole(op) => if (op.MarkDead? || op.MarkLeft?) && op.worker == worker then Some(false) else None
  }

  lemma ActSeats(s: Shared, at: Placement, all: set<string>, a: Action, worker: string)
    requires NoCollisions(at, all) && at.virtualNodes > 0 && SeatsWhole(s, at, all) && DueNamed(s, all)
    requires ActionNamed(a, all)
    ensures var t, change := Act(s, at, a), RingChange(s, a, worker);
            && SeatsWhole(t, at, all) && DueNamed(t, all)
            && (worker in t.mesh.ring.Values <==> if change.Some? then change.value else worker in s.mesh.ring.Values)
  {
    match a
    case WriteEntry(_, _) =>
    case Land(id) =>
      if id in s.due {
        ChangeSeats(s.mesh, at, all, if s.due[id].joins then Join(s.due[id].worker) else Leave(s.due[id].worker));
      }
    case Whole(op) =>
      if op.MarkDead? || op.MarkLeft? { ChangeSeats(s.mesh, at, all, Leave(op.worker)); }
  }

  /** What can be looked up before the action that tells whether it leaves `worker` in step. */
  ghost predicate LeavesInStep(s: Shared, a: Action, worker: string) {
    match a
    case WriteEntry(id, member) =>
      if id !in s.due && member.info.workerId == worker
      then worker in s.mesh.ring.Values <==> member.state.Alive?
      else Agrees(s.mesh, worker)
    case Land(id) =>
      if id in s.due && s.due[id].worker == worker
      then IsAlive(s.mesh, worker) == s.due[id].joins
      else Agrees(s.mesh, worker)
    case Whole(op) => ((op.MarkDead? || op.MarkLeft?) && op.worker == worker) || Agrees(s.mesh, worker)
  }

  /** A ring change that lands brings its worker in step if and only if the entry still says what it said. */
  lemma ActAgreesIff(s: Shared, at: Placement, all: set<string>, a: Action, worker: string)
    requires NoCollisions(at, all) && at.virtualNodes > 0 && SeatsWhole(s, at, all) && DueNamed(s, all)
    requires ActionNamed(a, all)
    ensures Agrees(Act(s, at, a).mesh, worker) <==> LeavesInStep(s, a, worker)
  {
    ActSeats(s, at, all, a, worker);
  }

  /** The last ring change of `worker` to land in a run. */
  function LastChange(s: Shared, at: Placement, actions: seq<Action>, worker: string): Option<bool>
    decreases actions
  {
    if actions == [] then None
    else
      var later := LastChange(Act(s, at, actions[0]), at, actions[1..], worker);
      if later.Some? then later else RingChange(s, actions[0], worker)
  }

  lemma {:induction false} ActsSeat(s: Shared, at: Placement, all: set<string>, actions: seq<Action>, worker: string)
    requires NoCollisions(at, all) && at.virtualNodes > 0 && SeatsWhole(s, at, all) && DueNamed(s, all)
    requires forall i :: 0 <= i < |actions| ==> ActionNamed(actions[i], all)
    ensures var last := LastChange(s, at, actions, worker);
            worker in Acts(s, at, actions).mesh.ring.Values <==>
            if last.Some? then last.value else worker in s.mesh.ring.Values
    decreases actions
  {
    if actions != [] {
      ActSeats(s, at, all, actions[0], worker);
      ActsSeat(Act(s, at, actions[0]), at, all, actions[1..], worker);
    }
  }

  /**
   * Over every interleaving of any number of writers, a worker is in step if and only if the last of its
   * ring changes to land says what its entry says; before any landed, only the local worker is seated.
   */
  lemma InStepIffLastLanding(at: Placement, local: string, all: set<string>, actions: seq<Action>, worker: string)
    requires NoCollisions(at, all) && at.virtualNodes > 0 && local in all
    requires forall i :: 0 <= i < |actions| ==> ActionNamed(actions[i], all)
    ensures var start := Shared(Fresh(at, local), map[]);
            var mesh, last := Acts(start, at, actions).mesh, LastChange(start, at, actions, worker);
            Agrees(mesh, worker) <==> IsAlive(mesh, worker) == if last.Some? then last.value else worker == local
  {
    FreshSeats(at, local, all);
    ActsSeat(Shared(Fresh(at, local), map[]), at, all, actions, worker);
  }

  // One writer per worker at a time

  /** `worker` has no ring change outstanding. */
  ghost predicate Settled(s: Shared, worker: string) { forall id :: id in s.due ==> s.due[id].worker != worker }

  /** The action names no worker whose ring change is outstanding. */
  ghost predicate Apart(s: Shared, a: Action) {
    match a
    case WriteEntry(_, member) => Settled(s, member.info.workerId)
    case Land(_) => true
    case Whole(op) =>
      match op
      case Upsert(_) => true
      case MarkDead(w) => Settled(s, w)
      case MarkLeft(w) => Settled(s, w)
      case PruneDead => true
  }

  /** Each outstanding change is its worker's only one, would bring the ring in step, and has not happened. */
  ghost predicate DueSound(s: Shared, all: set<string>) {
    && (forall i, j :: i in s.due && j in s.due && i != j ==> s.due[i].worker != s.due[j].worker)
    && (forall id :: id in s.due ==>
          s.due[id].worker in all && IsAlive(s.mesh, s.due[id].worker) == s.due[id].joins)
  }

  ghost predicate InStep(s: Shared, worker: string) { Settled(s, worker) ==> Agrees(s.mesh, worker) }

  lemma LandAgrees(s: Shared, at: Placement, all: set<string>, id: nat, worker: string)
    requires NoCollisions(at, all) && at.virtualNodes > 0 && SeatsWhole(s, at, all) && DueSound(s, all) && id in s.due
    requires InStep(s, worker)
    ensures var t := Act(s, at, Land(id)); SeatsWhole(t, at, all) && DueSound(t, all) && InStep(t, worker)
  {
    var d := s.due[id];
    ChangeSeats(s.mesh, at, all, if d.joins then Join(d.worker) else Leave(d.worker));
    var t := Act(s, at, Land(id));
    if Settled(t, worker) && worker != d.worker {
      assert forall i :: i in s.due && i != id ==> t.due[i] == s.due[i];
    }
  }

  lemma WriteAgrees(s: Shared, at: Placement, all: set<string>, a: Action, worker: string)
    requires SeatsWhole(s, at, all) && DueSound(s, all) && a.WriteEntry? && Apart(s, a) && ActionNamed(a, all)
    requires InStep(s, worker)
    ensures var t := Act(s, at, a); SeatsWhole(t, at, all) && DueSound(t, all) && InStep(t, worker)
  {
    var t, w := Act(s, at, a), a.member.info.workerId;
    assert a.id !in s.due && IsAlive(s.mesh, w) != a.member.state.Alive? ==> t.due[a.id].worker == w;
    if a.id !in s.due && Settled(t, worker) {
      assert Settled(s, worker) by {
        forall id | id in s.due ensures s.due[id].worker != worker { assert t.due[id] == s.due[id]; }
      }
    }
  }

  lemma WholeAgrees(s: Shared, at: Placement, all: set<string>, op: Op, worker: string)
    requires NoCollisions(at, all) && at.virtualNodes > 0 && SeatsWhole(s, at, all) && DueSound(s, all)
    requires Apart(s, Action.Whole(op)) && Named(op, all) && InStep(s, worker)
    ensures var t := Act(s, at, Action.Whole(op)); SeatsWhole(t, at, all) && DueSound(t, all) && InStep(t, worker)
  {
    match op
    case Upsert(_) =>
    case MarkDead(w) => ChangeSeats(s.mesh, at, all, Leave(w));
    case MarkLeft(w) => ChangeSeats(s.mesh, at, all, Leave(w));
    case PruneDead =>
  }

  /** Every action of the run keeps apart from the changes outstanding when it happens. */
  ghost predicate AllApart(s: Shared, at: Placement, all: set<string>, actions: seq<Action>)
    decreases actions
  {
    actions == [] ||
    (Apart(s, actions[0]) && ActionNamed(actions[0], all) && AllApart(Act(s, at, actions[0]), at, all, actions[1..]))
  }

  lemma {:induction false} ActsAgree(s: Shared, at: Placement, all: set<string>, actions: seq<Action>, worker: string)
    requires NoCollisions(at, all) && at.virtualNodes > 0 && AllApart(s, at, all, actions)
    requires SeatsWhole(s, at, all) && DueSound(s, all) && InStep(s, worker)
    ensures InStep(Acts(s, at, actions), worker)
    decreases actions
  {
    if actions != [] {
      match actions[0] {
        case WriteEntry(_, _) => WriteAgrees(s, at, all, actions[0], worker);
        case Land(id) => if id in s.due { LandAgrees(s, at, all, id, worker); }
        case Whole(op) => WholeAgrees(s, at, all, op, worker);
      }
      ActsAgree(Act(s, at, actions[0]), at, all, actions[1..], worker);
    }
  }

  /**
   * One writer per worker at a time is enough: under any interleaving of writers that keep apart from
   * each other's outstanding workers, every non-local worker with nothing outstanding has ring points
   * if and only if its entry is alive, at every point of the run.
   */
  lemma ConcurrentMembershipAgrees(at: Placement, local: string, all: set<string>, actions: seq<Action>, worker: string)
    requires NoCollisions(at, all) && at.virtualNodes > 0 && local in all && worker != local
    requires AllApart(Shared(Fresh(at, local), map[]), at, all, actions)
    ensures InStep(Acts(Shared(Fresh(at, local), map[]), at, actions), worker)
  {
    FreshSeats(at, local, all);
    ActsAgree(Shared(Fresh(at, local), map[]), at, all, actions, worker);
  }

  /** Two writers to one worker can leave a dead worker on the ring with nothing outstanding. */
  lemma OverlappingWritersDisagree(at: Placement, local: string, info: WorkerInfo)
    requires at.virtualNodes > 0 && info.workerId != local
    ensures var alive, dead := Member(info, Alive, 0), Member(info, Dead, 1);
            var s := Acts(Shared(Fresh(at, local), map[]), at,
                [WriteEntry(0, alive), WriteEntry(1, dead), Land(1), Land(0)]);
            s.due == map[] && !IsAlive(s.mesh, info.workerId) && info.workerId in s.mesh.ring.Values
  {
    var alive, dead := Member(info, Alive, 0), Member(info, Dead, 1);
    var a, b, c, d := WriteEntry(0, alive), WriteEntry(1, dead), Land(1), Land(0);
    var s := Shared(Fresh(at, local), map[]);
    FourActs(s, at, a, b, c, d);
    var s2 := Act(Act(s, at, a), at, b);
    assert s2.due == map[0 := Due(info.workerId, true), 1 := Due(info.workerId, false)];
    var s3 := Act(s2, at, c);
    assert s3.due == map[0 := Due(info.workerId, true)];
    var s4 := Act(s3, at, d);
    assert s4.mesh.ring == Add(s3.mesh.ring, at, info.workerId);
    assert at.Point(info.workerId, 0) in at.Seats(info.workerId);
    assert s4.mesh.ring[at.Point(info.workerId, 0)] == info.workerId;
  }

  lemma FourActs(s: Shared, at: Placement, a: Action, b: Action, c: Action, d: Action)
    ensures Acts(s, at, [a, b, c, d]) == Act(Act(Act(Act(s, at, a), at, b), at, c), at, d)
  {
    assert [a, b, c, d][1..] == [b, c, d] && [b, c, d][1..] == [c, d] && [c, d][1..] == [d] && [d][1..] == [];
    var t := Act(Act(s, at, a), at, b);
    assert Acts(s, at, [a, b, c, d]) == Acts(t, at, [c, d]);
    assert Acts(t, at, [c, d]) == Acts(Act(t, at, c), at, [d]);
    assert Acts(Act(t, at, c), at, [d]) == Act(Act(t, at, c), at, d);
  }
}
