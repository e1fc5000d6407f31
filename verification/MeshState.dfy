/** The membership map of a mesh node and the ring it keeps in step with it. */
module MeshState {
  import opened Prelude
  import opened HashRing

  datatype MemberState = Alive | Suspect | Dead | Left

  /** What members gossip about themselves, as far as decisions use it. */
  datatype WorkerInfo = WorkerInfo(workerId: string, localBufferLen: nat, capacity: nat)

  datatype Member = Member(info: WorkerInfo, state: MemberState, incarnation: nat)

  /** The members and the ring points. */
  datatype Mesh = Mesh(members: map<string, Member>, ring: Points)

  datatype Op = Upsert(member: Member) | MarkDead(worker: string) | MarkLeft(worker: string) | PruneDead

  function Fresh(at: Placement, local: string): Mesh { Mesh(map[], Add(map[], at, local)) }

  predicate IsAlive(m: Mesh, worker: string) { worker in m.members && m.members[worker].state.Alive? }

  function Mark(m: Mesh, worker: string, state: MemberState): Mesh {
    Mesh(if worker in m.members then m.members[worker := m.members[worker].(state := state)] else m.members,
         Remove(m.ring, worker))
  }

  function Step(m: Mesh, at: Placement, op: Op): Mesh {
    match op
    case Upsert(member) =>
      var w := member.info.workerId;
      Mesh(m.members[w := member],
           if IsAlive(m, w) == member.state.Alive? then m.ring
           else if member.state.Alive? then Add(m.ring, at, w)
           else Remove(m.ring, w))
    case MarkDead(w) => Mark(m, w, Dead)
    case MarkLeft(w) => Mark(m, w, Left)
    case PruneDead =>
      m.(members := map w | w in m.members && (m.members[w].state.Alive? || m.members[w].state.Suspect?) ::
          m.members[w])
  }

  function RunOps(m: Mesh, at: Placement, ops: seq<Op>): Mesh
    decreases ops
  {
    if ops == [] then m else RunOps(Step(m, at, ops[0]), at, ops[1..])
  }

  /** Entries sit under their own worker id. */
  ghost predicate OwnEntries(m: Mesh) { forall w :: w in m.members ==> m.members[w].info.workerId == w }

  class State {
    const localWorkerId: string
    const ring: Ring
    var members: map<string, Member>

    constructor (workerId: string, at: Placement)
      ensures localWorkerId == workerId && ring.at == at && fresh(ring)
      ensures View() == Fresh(at, workerId)
    {
      localWorkerId := workerId;
      members := map[];
      ring := new Ring(at);
      new;
      ring.AddWorker(workerId);
    }

    ghost function View(): Mesh
      reads this, ring
    {
      Mesh(members, ring.ring)
    }

    method IsLocalOwner(taskName: string) returns (b: bool)
      ensures b == (Owner(ring.ring, ring.at.hash(taskName)) == Some(localWorkerId))
    {
      b := ring.IsOwner(taskName, localWorkerId);
    }

    method UpsertMember(member: Member) returns (isNew: bool)
      modifies this, ring
      ensures View() == Step(old(View()), ring.at, Upsert(member))
      ensures isNew == (member.info.workerId !in old(members))
      ensures members == old(members)[member.info.workerId := member]
      ensures var w := member.info.workerId;
              var was := w in old(members) && old(members)[w].state.Alive?;
              ring.ring == if member.state.Alive? && !was then Add(old(ring.ring), ring.at, w)
                           else if !member.state.Alive? && was then Remove(old(ring.ring), w)
                           else old(ring.ring)
    {
      var w := member.info.workerId;
      isNew := w !in members;
      var wasAlive := w in members && members[w].state.Alive?;
      members := members[w := member];
      if wasAlive != member.state.Alive? {
        if member.state.Alive? { ring.AddWorker(w); } else { ring.RemoveWorker(w); }
      }
    }

    method MarkDead(worker: string)
      modifies this, ring
      ensures View() == Step(old(View()), ring.at, Op.MarkDead(worker))
      ensures members.Keys == old(members).Keys
      ensures forall w :: w in members ==>
                members[w] == if w == worker then old(members)[w].(state := Dead) else old(members)[w]
      ensures ring.ring == Remove(old(ring.ring), worker)
    {
      if worker in members { members := members[worker := members[worker].(state := Dead)]; }
      ring.RemoveWorker(worker);
    }

    method MarkLeft(worker: string)
      modifies this, ring
      ensures View() == Step(old(View()), ring.at, Op.MarkLeft(worker))
      ensures members.Keys == old(members).Keys
      ensures forall w :: w in members ==>
                members[w] == if w == worker then old(members)[w].(state := Left) else old(members)[w]
      ensures ring.ring == Remove(old(ring.ring), worker)
    {
      if worker in members { members := members[worker := members[worker].(state := Left)]; }
      ring.RemoveWorker(worker);
    }

    method PruneDead() returns (removed: nat)
      modifies this
      ensures View() == Step(old(View()), ring.at, Op.PruneDead)
      ensures forall w :: w in members <==>
                w in old(members) && !old(members)[w].state.Dead? && !old(members)[w].state.Left?
      ensures forall w :: w in members ==> members[w] == old(members)[w]
      ensures removed == |set w | w in old(members) && w !in members|
    {
      var before := members;
      members := map w | w in members && (members[w].state.Alive? || members[w].state.Suspect?) :: members[w];
      var gone := set w | w in before && w !in members;
      assert before.Keys == members.Keys + gone;
      return |before| - |members|;
    }

    ghost predicate Peer(m: Member)
      reads this
    {
      m.state.Alive? && m.info.workerId != localWorkerId && exists w :: w in members && members[w] == m
    }

    /** Peers in any order, then sorted by buffer length, longest first. */
    method AlivePeers() returns (peers: seq<Member>)
      requires OwnEntries(View())
      ensures forall m :: m in peers <==> Peer(m)
      ensures forall i, j :: 0 <= i < j < |peers| ==> peers[i].info.workerId != peers[j].info.workerId
      ensures BusiestFirst(peers)
    {
      peers := [];
      var rest := members.Keys;
      while rest != {}
        invariant rest <= members.Keys
        invariant forall m :: m in peers <==> Peer(m) && m.info.workerId !in rest
        invariant forall i, j :: 0 <= i < j < |peers| ==> peers[i].info.workerId != peers[j].info.workerId
        invariant BusiestFirst(peers)
      {
        var w :| w in rest;
        var m := members[w];
        if m.state.Alive? && m.info.workerId != localWorkerId {
          InsertKeeps(peers, m);
          peers := InsertByLoad(peers, m);
        }
        rest := rest - {w};
      }
    }

    /** The first peer, busiest first, with more than `minSurplus` jobs. */
    method BestStealTarget(minSurplus: nat) returns (target: Option<Member>)
      requires OwnEntries(View())
      ensures target.None? <==> forall m :: Peer(m) ==> m.info.localBufferLen <= minSurplus
      ensures target.Some? ==> Peer(target.value) && target.value.info.localBufferLen > minSurplus
      ensures target.Some? ==> forall m :: Peer(m) ==> m.info.localBufferLen <= target.value.info.localBufferLen
    {
      var peers := AlivePeers();
      assert forall m :: Peer(m) ==> m in peers;
      for i := 0 to |peers|
        invariant forall j :: 0 <= j < i ==> peers[j].info.localBufferLen <= minSurplus
      {
        if peers[i].info.localBufferLen > minSurplus {
          assert peers[i] in peers;
          return Some(peers[i]);
        }
      }
      return None;
    }
  }

  ghost predicate BusiestFirst(peers: seq<Member>) {
    forall i, j :: 0 <= i < j < |peers| ==> peers[i].info.localBufferLen >= peers[j].info.localBufferLen
  }

  function InsertByLoad(peers: seq<Member>, m: Member): seq<Member> {
    if peers == [] || peers[0].info.localBufferLen < m.info.localBufferLen then [m] + peers
    else [peers[0]] + InsertByLoad(peers[1..], m)
  }

  lemma {:induction false} InsertKeeps(peers: seq<Member>, m: Member)
    requires BusiestFirst(peers) && forall p :: p in peers ==> p.info.workerId != m.info.workerId
    requires forall i, j :: 0 <= i < j < |peers| ==> peers[i].info.workerId != peers[j].info.workerId
    ensures var after := InsertByLoad(peers, m);
            && BusiestFirst(after)
            && (forall p :: p in after <==> p == m || p in peers)
            && (forall i, j :: 0 <= i < j < |after| ==> after[i].info.workerId != after[j].info.workerId)
  {
    if peers == [] || peers[0].info.localBufferLen < m.info.localBufferLen {
    } else {
      assert peers == [peers[0]] + peers[1..];
      InsertKeeps(peers[1..], m);
      HeadInFront(peers[0], InsertByLoad(peers[1..], m));
    }
  }

  lemma HeadInFront(head: Member, tail: seq<Member>)
    requires BusiestFirst(tail)
    requires forall i, j :: 0 <= i < j < |tail| ==> tail[i].info.workerId != tail[j].info.workerId
    requires forall p :: p in tail ==>
             p.info.workerId != head.info.workerId && p.info.localBufferLen <= head.info.localBufferLen
    ensures BusiestFirst([head] + tail)
    ensures var all := [head] + tail; forall i, j :: 0 <= i < j < |all| ==> all[i].info.workerId != all[j].info.workerId
  {
    assert forall i :: 0 <= i < |tail| ==> tail[i] in tail;
  }

  // Membership and ring agree

  predicate Agrees(m: Mesh, worker: string) { worker in m.ring.Values <==> IsAlive(m, worker) }

  ghost predicate Named(op: Op, all: set<string>) {
    match op
    case Upsert(member) => member.info.workerId in all
    case MarkDead(w) => w in all
    case MarkLeft(w) => w in all
    case PruneDead => true
  }

  /** The ring holds whole seats of workers among `all`. */
  ghost predicate Whole(m: Mesh, at: Placement, all: set<string>) {
    m.ring.Values <= all && Seated(m.ring, at, m.ring.Values)
  }

  lemma SeatedValues(ring: Points, at: Placement, workers: set<string>)
    requires Seated(ring, at, workers) && at.virtualNodes > 0
    ensures ring.Values == workers
  {
    forall w | w in workers ensures w in ring.Values {
      assert at.Point(w, 0) in at.Seats(w);
      SeatedPoint(ring, at, workers, w, at.Point(w, 0));
    }
    forall w | w in ring.Values ensures w in workers {
      var p :| p in ring && ring[p] == w;
      SeatedPoint(ring, at, workers, w, p);
    }
  }

  lemma ChangeSeats(m: Mesh, at: Placement, all: set<string>, c: Change)
    requires NoCollisions(at, all) && at.virtualNodes > 0 && Whole(m, at, all) && c.worker in all
    ensures var after := Apply(m.ring, at, c);
            after.Values == Enroll(m.ring.Values, c) && Seated(after, at, after.Values)
  {
    ApplySeats(m.ring, at, m.ring.Values, all, c);
    SeatedValues(Apply(m.ring, at, c), at, Enroll(m.ring.Values, c));
  }

  /** Operations that put `worker` in step whatever came before. */
  predicate Settles(op: Op, worker: string) {
    match op
    case Upsert(member) => member.info.workerId == worker && member.state.Alive?
    case MarkDead(w) => w == worker
    case MarkLeft(w) => w == worker
    case PruneDead => false
  }

  /** Alive members are seated; the converse is what may fail for the local worker. */
  ghost predicate Invariant(m: Mesh, at: Placement, all: set<string>, worker: string) {
    Whole(m, at, all) && OwnEntries(m) && (IsAlive(m, worker) ==> worker in m.ring.Values)
  }

  lemma StepAgrees(m: Mesh, at: Placement, all: set<string>, op: Op, worker: string)
    requires NoCollisions(at, all) && at.virtualNodes > 0 && Named(op, all) && Invariant(m, at, all, worker)
    ensures Invariant(Step(m, at, op), at, all, worker)
    ensures Agrees(Step(m, at, op), worker) <==> Agrees(m, worker) || Settles(op, worker)
  {
    match op
    case Upsert(member) =>
      ChangeSeats(m, at, all, Join(member.info.workerId));
      ChangeSeats(m, at, all, Leave(member.info.workerId));
    case MarkDead(w) => ChangeSeats(m, at, all, Leave(w));
    case MarkLeft(w) => ChangeSeats(m, at, all, Leave(w));
    case PruneDead =>
  }

  lemma {:induction false} RunAgrees(m: Mesh, at: Placement, all: set<string>, ops: seq<Op>, worker: string)
    requires NoCollisions(at, all) && at.virtualNodes > 0 && (forall i :: 0 <= i < |ops| ==> Named(ops[i], all))
    requires Invariant(m, at, all, worker)
    ensures Invariant(RunOps(m, at, ops), at, all, worker)
    ensures Agrees(RunOps(m, at, ops), worker) <==>
            Agrees(m, worker) || exists i :: 0 <= i < |ops| && Settles(ops[i], worker)
    decreases ops
  {
    if ops != [] {
      StepAgrees(m, at, all, ops[0], worker);
      RunAgrees(Step(m, at, ops[0]), at, all, ops[1..], worker);
      assert forall i :: 1 <= i < |ops| ==> ops[i] == ops[1..][i - 1];
      if i :| 0 <= i < |ops[1..]| && Settles(ops[1..][i], worker) { assert Settles(ops[i + 1], worker); }
    }
  }

  lemma FreshSeats(at: Placement, local: string, all: set<string>)
    requires NoCollisions(at, all) && at.virtualNodes > 0 && local in all
    ensures Whole(Fresh(at, local), at, all) && Fresh(at, local).ring.Values == {local}
  {
    assert Seated(map[], at, {});
    ApplySeats(map[], at, {}, all, Join(local));
    SeatedValues(Add(map[], at, local), at, {} + {local});
  }

  /**
   * After any operations on a fresh node, every other worker has ring points if and only if its entry
   * is alive; the local worker does if and only if some operation announced it alive, dead or left.
   */
  lemma MembershipAgreesWithRing(at: Placement, local: string, all: set<string>, ops: seq<Op>, worker: string)
    requires NoCollisions(at, all) && at.virtualNodes > 0 && local in all
    requires forall i :: 0 <= i < |ops| ==> Named(ops[i], all)
    ensures var m := RunOps(Fresh(at, local), at, ops);
            && OwnEntries(m)
            && Seated(m.ring, at, m.ring.Values)
            && (Agrees(m, worker) <==> worker != local || exists i :: 0 <= i < |ops| && Settles(ops[i], local))
  {
    FreshSeats(at, local, all);
    RunAgrees(Fresh(at, local), at, all, ops, worker);
  }

  // Workers that are gone

  predicate Revives(op: Op, worker: string) { op.Upsert? && op.member.info.workerId == worker }

  /** The entry is absent, dead or left. */
  predicate Gone(m: Mesh, worker: string) {
    worker in m.members ==> m.members[worker].state.Dead? || m.members[worker].state.Left?
  }

  lemma {:induction false} GoneStays(m: Mesh, at: Placement, ops: seq<Op>, worker: string)
    requires Gone(m, worker) && worker !in m.ring.Values && forall i :: 0 <= i < |ops| ==> !Revives(ops[i], worker)
    ensures Gone(RunOps(m, at, ops), worker) && worker !in RunOps(m, at, ops).ring.Values
    decreases ops
  {
    if ops != [] {
      GoneOneStep(m, at, ops[0], worker);
      GoneStays(Step(m, at, ops[0]), at, ops[1..], worker);
    }
  }

  lemma GoneOneStep(m: Mesh, at: Placement, op: Op, worker: string)
    requires Gone(m, worker) && worker !in m.ring.Values && !Revives(op, worker)
    ensures Gone(Step(m, at, op), worker) && worker !in Step(m, at, op).ring.Values
  {
    var after := Step(m, at, op).ring;
    forall p | p in after ensures after[p] != worker {
      if p in m.ring { assert m.ring[p] in m.ring.Values; }
    }
  }

  /**
   * A worker marked dead or left owns nothing from then on, and the next pruning forgets it, unless it is
   * announced again. Pruning forgets nobody who is alive or suspected.
   */
  lemma MarkedIsPruned(m: Mesh, at: Placement, mark: Op, later: seq<Op>, worker: string)
    requires mark == MarkDead(worker) || mark == MarkLeft(worker)
    requires forall i :: 0 <= i < |later| ==> !Revives(later[i], worker)
    ensures var end := RunOps(Step(m, at, mark), at, later);
            && worker !in end.ring.Values
            && worker !in Step(end, at, PruneDead).members
            && forall w :: w in end.members && w !in Step(end, at, PruneDead).members ==> Gone(end, w)
  {
    var marked := Step(m, at, mark);
    assert forall p :: p in marked.ring ==> marked.ring[p] != worker;
    GoneStays(marked, at, later, worker);
  }

  /** Nodes that seat the same workers agree on every task's owner, and exactly one worker is that owner. */
  lemma NodesAgree(at: Placement, all: set<string>, a: string, mine: seq<Op>, b: string, theirs: seq<Op>, task: string)
    requires NoCollisions(at, all) && at.virtualNodes > 0 && a in all && b in all
    requires forall i :: 0 <= i < |mine| ==> Named(mine[i], all)
    requires forall i :: 0 <= i < |theirs| ==> Named(theirs[i], all)
    requires RunOps(Fresh(at, a), at, mine).ring.Values == RunOps(Fresh(at, b), at, theirs).ring.Values != {}
    ensures var x, y := RunOps(Fresh(at, a), at, mine).ring, RunOps(Fresh(at, b), at, theirs).ring;
            && Owner(x, at.hash(task)) == Owner(y, at.hash(task))
            && Owner(x, at.hash(task)).Some? && Owner(x, at.hash(task)).value in x.Values
  {
    var x, y := RunOps(Fresh(at, a), at, mine).ring, RunOps(Fresh(at, b), at, theirs).ring;
    MembershipAgreesWithRing(at, a, all, mine, a);
    MembershipAgreesWithRing(at, b, all, theirs, b);
    SeatedUnique(x, y, at, x.Values);
    OneOwner(x, at, x.Values, at.hash(task));
  }

  /** A fleet of nodes, each with its own history and all seating the fleet: one of them, and only one, owns a task. */
  lemma ExactlyOneLocalOwner(at: Placement, fleet: map<string, seq<Op>>, task: string) returns (owner: string)
    requires NoCollisions(at, fleet.Keys) && at.virtualNodes > 0 && fleet != map[]
    requires forall w, i :: w in fleet && 0 <= i < |fleet[w]| ==> Named(fleet[w][i], fleet.Keys)
    requires forall w :: w in fleet ==> RunOps(Fresh(at, w), at, fleet[w]).ring.Values == fleet.Keys
    ensures forall w :: w in fleet ==>
              (Owner(RunOps(Fresh(at, w), at, fleet[w]).ring, at.hash(task)) == Some(w) <==> w == owner)
    ensures owner in fleet
  {
    var first :| first in fleet;
    NodesAgree(at, fleet.Keys, first, fleet[first], first, fleet[first], task);
    owner := Owner(RunOps(Fresh(at, first), at, fleet[first]).ring, at.hash(task)).value;
    forall w | w in fleet
      ensures Owner(RunOps(Fresh(at, w), at, fleet[w]).ring, at.hash(task)) == Some(owner)
    {
      NodesAgree(at, fleet.Keys, first, fleet[first], w, fleet[w], task);
    }
  }
}
