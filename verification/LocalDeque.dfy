/** The bounded buffer between prefetching, the owner and thieves. */
module LocalDeque {
  import opened Prelude

  datatype Job = Job(id: string, taskName: string)

  // The deque as a value: front first

  function Truncated(jobs: seq<Job>, n: nat): seq<Job> { if |jobs| <= n then jobs else jobs[..n] }

  function Room(buffered: seq<Job>, capacity: nat): nat { if capacity < |buffered| then 0 else capacity - |buffered| }

  /** Owned tasks are named by the set `owned`: what the affinity closure answers during the call. */
  predicate Owned(j: Job, owned: set<string>) { j.taskName in owned }

  /** The jobs whose ownership is `mine`, in order. */
  function Kind(jobs: seq<Job>, owned: set<string>, mine: bool): seq<Job> {
    if jobs == [] then []
    else if Owned(jobs[0], owned) == mine then [jobs[0]] + Kind(jobs[1..], owned, mine)
    else Kind(jobs[1..], owned, mine)
  }

  function OwnedOf(jobs: seq<Job>, owned: set<string>): seq<Job> { Kind(jobs, owned, true) }

  function OthersOf(jobs: seq<Job>, owned: set<string>): seq<Job> { Kind(jobs, owned, false) }

  /** A stable sort that puts owned tasks last. */
  function SortByAffinity(jobs: seq<Job>, owned: set<string>): seq<Job> {
    if jobs == [] then [] else InsertStably(jobs[0], SortByAffinity(jobs[1..], owned), owned)
  }

  /** `j` goes before everything whose key is not smaller. */
  function InsertStably(j: Job, sorted: seq<Job>, owned: set<string>): seq<Job> {
    if sorted == [] || !Owned(j, owned) || Owned(sorted[0], owned) then [j] + sorted
    else [sorted[0]] + InsertStably(j, sorted[1..], owned)
  }

  function PushSorted(buffered: seq<Job>, capacity: nat, jobs: seq<Job>, owned: set<string>): seq<Job> {
    buffered + SortByAffinity(Truncated(jobs, Room(buffered, capacity)), owned)
  }

  function StolenCount(buffered: seq<Job>, count: nat): nat { if count < |buffered| then count else |buffered| }

  class Deque {
    const capacity: nat
    var inner: seq<Job>

    constructor (capacity: nat)
      ensures this.capacity == capacity && inner == []
    {
      this.capacity := capacity;
      inner := [];
    }

    method Push(job: Job) returns (accepted: bool)
      modifies this
      ensures accepted == (|old(inner)| < capacity)
      ensures inner == if accepted then old(inner) + [job] else old(inner)
      ensures Step(Holding(old(inner)), capacity, Op.Push(job)) ==
              History(inner, if accepted then [job] else [], [], [])
    {
      if |inner| >= capacity { return false; }
      inner := inner + [job];
      return true;
    }

    method Pop() returns (job: Option<Job>)
      modifies this
      ensures if old(inner) == [] then job.None? && inner == []
              else job.Some? && inner + [job.value] == old(inner)
      ensures Step(Holding(old(inner)), capacity, Op.Pop) ==
              History(inner, [], if job.Some? then [job.value] else [], [])
    {
      if inner == [] { return None; }
      job := Some(inner[|inner| - 1]);
      inner := inner[..|inner| - 1];
    }

    method Steal(count: nat) returns (stolen: seq<Job>)
      modifies this
      ensures stolen + inner == old(inner) && |stolen| == if count < |old(inner)| then count else |old(inner)|
      ensures Step(Holding(old(inner)), capacity, Op.Steal(count)) == History(inner, [], [], stolen)
    {
      var n := if count < |inner| then count else |inner|;
      stolen := [];
      for i := 0 to n
        invariant |stolen| == i && stolen + inner == old(inner)
      {
        stolen := stolen + [inner[0]];
        inner := inner[1..];
      }
    }

    /**
     * As many jobs from the front of the batch as there is room for go behind what is buffered, job
     * `order[k]` of the batch at place `k`: tasks in `owned` after all others, each kind in batch order.
     */
    method PushBatch(jobs: seq<Job>, owned: set<string>) returns (pushed: nat, ghost order: seq<nat>)
      modifies this
      ensures inner == PushSorted(old(inner), capacity, jobs, owned)
      ensures |inner| == |old(inner)| + pushed && inner[..|old(inner)|] == old(inner)
      ensures pushed <= |jobs| && (|old(inner)| + pushed <= capacity || pushed == 0)
      ensures pushed < |jobs| ==> |old(inner)| + pushed >= capacity
      ensures |order| == pushed && forall k :: 0 <= k < pushed ==>
                order[k] < pushed && inner[|old(inner)| + k] == jobs[order[k]]
      ensures forall i :: 0 <= i < pushed ==> i in order
      ensures forall k, l :: 0 <= k < l < pushed ==>
                var a, b := jobs[order[k]].taskName in owned, jobs[order[l]].taskName in owned;
                (a ==> b) && (a == b ==> order[k] < order[l])
      ensures Step(Holding(old(inner)), capacity, PushSortedOp(jobs, owned)) == History(inner, jobs[..pushed], [], [])
    {
      var kept := Truncated(jobs, Room(inner, capacity));
      var sorted := SortByAffinity(kept, owned);
      SortSize(kept, owned);
      for i := 0 to |sorted|
        invariant inner == old(inner) + sorted[..i]
      {
        assert sorted[..i + 1] == sorted[..i] + [sorted[i]];
        inner := inner + [sorted[i]];
      }
      assert sorted[..|sorted|] == sorted;
      order := SortedPlaces(kept, owned);
      pushed := |sorted|;
      assert kept == jobs[..pushed];
    }
  }

  // The sort

  lemma {:induction false} InsertOwned(j: Job, others: seq<Job>, mine: seq<Job>, owned: set<string>)
    requires (forall x :: x in others ==> !Owned(x, owned)) && (forall x :: x in mine ==> Owned(x, owned)) &&
             Owned(j, owned)
    ensures InsertStably(j, others + mine, owned) == others + ([j] + mine)
  {
    if others == [] {
      assert others + mine == mine;
      assert mine != [] ==> mine[0] in mine;
    } else {
      assert others[0] in others;
      assert (others + mine)[1..] == others[1..] + mine;
      InsertOwned(j, others[1..], mine, owned);
    }
  }

  lemma {:induction false} KindIsUniform(jobs: seq<Job>, owned: set<string>, mine: bool)
    ensures forall x :: x in Kind(jobs, owned, mine) ==> Owned(x, owned) == mine
  {
    if jobs != [] { KindIsUniform(jobs[1..], owned, mine); }
  }

  /** Sorting keeps each kind in order and puts other workers' tasks in front. */
  lemma {:induction false} SortIsPartition(jobs: seq<Job>, owned: set<string>)
    ensures SortByAffinity(jobs, owned) == OthersOf(jobs, owned) + OwnedOf(jobs, owned)
  {
    if jobs != [] {
      var rest := jobs[1..];
      SortIsPartition(rest, owned);
      if Owned(jobs[0], owned) {
        KindIsUniform(rest, owned, true);
        KindIsUniform(rest, owned, false);
        InsertOwned(jobs[0], OthersOf(rest, owned), OwnedOf(rest, owned), owned);
        assert OthersOf(jobs, owned) == OthersOf(rest, owned);
      } else {
        assert OwnedOf(jobs, owned) == OwnedOf(rest, owned);
      }
    }
  }

  /** `picked` is `jobs` at the places `at`. */
  predicate Picks(jobs: seq<Job>, at: seq<nat>, picked: seq<Job>) {
    |at| == |picked| && forall k :: 0 <= k < |at| ==> at[k] < |jobs| && picked[k] == jobs[at[k]]
  }

  lemma {:induction false} KindOneMore(jobs: seq<Job>, job: Job, owned: set<string>, mine: bool)
    ensures Kind(jobs + [job], owned, mine) ==
            if Owned(job, owned) == mine then Kind(jobs, owned, mine) + [job] else Kind(jobs, owned, mine)
  {
    if jobs == [] {
      assert jobs + [job] == [job];
    } else {
      assert (jobs + [job])[1..] == jobs[1..] + [job];
      KindOneMore(jobs[1..], job, owned, mine);
    }
  }

  /** `picked` are the jobs of one kind, and `at` where they stand. */
  ghost predicate KindAt(jobs: seq<Job>, owned: set<string>, mine: bool, at: seq<nat>, picked: seq<Job>) {
    && Picks(jobs, at, picked) && Increasing(at)
    && forall i :: 0 <= i < |jobs| ==> (i in at <==> (jobs[i].taskName in owned) == mine)
  }

  lemma KindAtOneMore(jobs: seq<Job>, job: Job, owned: set<string>, mine: bool, at: seq<nat>, picked: seq<Job>)
    requires KindAt(jobs, owned, mine, at, picked)
    ensures if (job.taskName in owned) == mine then KindAt(jobs + [job], owned, mine, at + [|jobs|], picked + [job])
            else KindAt(jobs + [job], owned, mine, at, picked)
  {
  }

  lemma KindOfLast(jobs: seq<Job>, rest: seq<Job>, last: Job, owned: set<string>, mine: bool, kind: seq<Job>)
    requires jobs == rest + [last] && kind == Kind(rest, owned, mine)
    ensures Kind(jobs, owned, mine) == if (last.taskName in owned) == mine then kind + [last] else kind
  {
    KindOneMore(rest, last, owned, mine);
  }

  /** Where the jobs of one kind stand in the batch. */
  lemma {:induction false} KindPlaces(jobs: seq<Job>, owned: set<string>, mine: bool, kind: seq<Job>)
      returns (at: seq<nat>)
    requires kind == Kind(jobs, owned, mine)
    ensures KindAt(jobs, owned, mine, at, kind)
    decreases jobs
  {
    if jobs == [] {
      at := [];
    } else {
      var rest, last := jobs[..|jobs| - 1], jobs[|jobs| - 1];
      var before := Kind(rest, owned, mine);
      at := KindPlaces(rest, owned, mine, before);
      KindAtOneMore(rest, last, owned, mine, at, before);
      assert jobs == rest + [last];
      KindOfLast(jobs, rest, last, owned, mine, before);
      at := if (last.taskName in owned) == mine then at + [|rest|] else at;
    }
  }

  /** Where each sorted job stood in the batch. */
  lemma SortedPlaces(jobs: seq<Job>, owned: set<string>) returns (order: seq<nat>)
    ensures |order| == |jobs| == |SortByAffinity(jobs, owned)|
    ensures forall k :: 0 <= k < |order| ==> order[k] < |jobs| && SortByAffinity(jobs, owned)[k] == jobs[order[k]]
    ensures forall i :: 0 <= i < |jobs| ==> i in order
    ensures forall k, l :: 0 <= k < l < |order| ==>
              var a, b := jobs[order[k]].taskName in owned, jobs[order[l]].taskName in owned;
              (a ==> b) && (a == b ==> order[k] < order[l])
  {
    var others := KindPlaces(jobs, owned, false, OthersOf(jobs, owned));
    var mine := KindPlaces(jobs, owned, true, OwnedOf(jobs, owned));
    SortIsPartition(jobs, owned);
    SortSize(jobs, owned);
    assert forall k :: 0 <= k < |others| ==> others[k] in others;
    assert forall k :: 0 <= k < |mine| ==> mine[k] in mine;
    order := others + mine;
  }

  lemma {:induction false} InsertKeeps(j: Job, sorted: seq<Job>, owned: set<string>)
    ensures multiset(InsertStably(j, sorted, owned)) == multiset(sorted) + multiset{j}
  {
    if sorted == [] || !Owned(j, owned) || Owned(sorted[0], owned) {
    } else {
      InsertKeeps(j, sorted[1..], owned);
      assert sorted == [sorted[0]] + sorted[1..];
    }
  }

  /** Sorting neither adds nor loses a job. */
  lemma {:induction false} SortKeeps(jobs: seq<Job>, owned: set<string>)
    ensures multiset(SortByAffinity(jobs, owned)) == multiset(jobs)
    ensures |SortByAffinity(jobs, owned)| == |jobs|
  {
    if jobs != [] {
      SortKeeps(jobs[1..], owned);
      InsertKeeps(jobs[0], SortByAffinity(jobs[1..], owned), owned);
      assert jobs == [jobs[0]] + jobs[1..];
      SameSize(SortByAffinity(jobs, owned), jobs);
    }
  }

  lemma SortSize(jobs: seq<Job>, owned: set<string>)
    ensures |SortByAffinity(jobs, owned)| == |jobs|
  {
    SortKeeps(jobs, owned);
  }

  lemma SameSize(a: seq<Job>, b: seq<Job>)
    requires multiset(a) == multiset(b)
    ensures |a| == |b|
  {
    assert |multiset(a)| == |a| && |multiset(b)| == |b|;
  }

  // Any interleaving of owner and thieves

  datatype Op = Push(job: Job) | PushSortedOp(jobs: seq<Job>, owned: set<string>) | Pop | Steal(count: nat)

  /** The buffer with what was ever accepted, popped and stolen. */
  datatype History = History(buffered: seq<Job>, accepted: seq<Job>, popped: seq<Job>, stolen: seq<Job>)

  function Holding(buffered: seq<Job>): History { History(buffered, [], [], []) }

  function Step(h: History, capacity: nat, op: Op): History {
    match op
    case Push(j) =>
      if |h.buffered| >= capacity then h
      else h.(buffered := h.buffered + [j], accepted := h.accepted + [j])
    case PushSortedOp(jobs, owned) =>
      h.(buffered := PushSorted(h.buffered, capacity, jobs, owned),
         accepted := h.accepted + Truncated(jobs, Room(h.buffered, capacity)))
    case Pop =>
      if h.buffered == [] then h
      else h.(buffered := h.buffered[..|h.buffered| - 1], popped := h.popped + [h.buffered[|h.buffered| - 1]])
    case Steal(count) =>
      var n := StolenCount(h.buffered, count);
      h.(buffered := h.buffered[n..], stolen := h.stolen + h.buffered[..n])
  }

  function RunOps(h: History, capacity: nat, ops: seq<Op>): History
    decreases ops
  {
    if ops == [] then h else RunOps(Step(h, capacity, ops[0]), capacity, ops[1..])
  }

  ghost predicate Balanced(h: History, capacity: nat) {
    && |h.buffered| <= capacity
    && multiset(h.accepted) == multiset(h.popped) + multiset(h.stolen) + multiset(h.buffered)
  }

  lemma PushBalanced(h: History, capacity: nat, jobs: seq<Job>, owned: set<string>)
    requires Balanced(h, capacity)
    ensures Balanced(Step(h, capacity, PushSortedOp(jobs, owned)), capacity)
  {
    var kept := Truncated(jobs, Room(h.buffered, capacity));
    SortKeeps(kept, owned);
    assert multiset(h.buffered + SortByAffinity(kept, owned)) == multiset(h.buffered) + multiset(kept);
  }

  lemma PopBalanced(h: History, capacity: nat)
    requires Balanced(h, capacity) && h.buffered != []
    ensures Balanced(Step(h, capacity, Op.Pop), capacity)
  {
    var n := |h.buffered| - 1;
    assert h.buffered == h.buffered[..n] + [h.buffered[n]];
  }

  lemma StealBalanced(h: History, capacity: nat, count: nat)
    requires Balanced(h, capacity)
    ensures Balanced(Step(h, capacity, Op.Steal(count)), capacity)
  {
    var n := StolenCount(h.buffered, count);
    assert h.buffered == h.buffered[..n] + h.buffered[n..];
  }

  lemma StepBalanced(h: History, capacity: nat, op: Op)
    requires Balanced(h, capacity)
    ensures Balanced(Step(h, capacity, op), capacity)
  {
    match op
    case Push(j) =>
    case PushSortedOp(jobs, owned) => PushBalanced(h, capacity, jobs, owned);
    case Pop => if h.buffered != [] { PopBalanced(h, capacity); }
    case Steal(count) => StealBalanced(h, capacity, count);
  }

  /** Over every interleaving the buffer stays within capacity and no accepted job is lost or handed out twice. */
  lemma {:induction false} NothingLost(h: History, capacity: nat, ops: seq<Op>)
    requires Balanced(h, capacity)
    ensures Balanced(RunOps(h, capacity, ops), capacity)
    decreases ops
  {
    if ops != [] {
      StepBalanced(h, capacity, ops[0]);
      NothingLost(Step(h, capacity, ops[0]), capacity, ops[1..]);
    }
  }

  predicate Taking(ops: seq<Op>) { forall i :: 0 <= i < |ops| ==> ops[i].Pop? || ops[i].Steal? }

  /** Of the jobs in `start`, thieves have the first, the owner the last, backwards, and the rest is there. */
  ghost predicate Ends(start: seq<Job>, h: History) {
    && |h.stolen| + |h.buffered| + |h.popped| == |start|
    && h.stolen == start[..|h.stolen|]
    && h.buffered == start[|h.stolen|..|start| - |h.popped|]
    && forall k :: 0 <= k < |h.popped| ==> h.popped[k] == start[|start| - 1 - k]
  }

  lemma TakingKeepsEnds(start: seq<Job>, h: History, capacity: nat, op: Op)
    requires Ends(start, h) && (op.Pop? || op.Steal?)
    ensures Ends(start, Step(h, capacity, op))
  {
  }

  /** Without pushes, thieves take a prefix in order and the owner a suffix backwards. */
  lemma {:induction false} EndsMeet(start: seq<Job>, h: History, capacity: nat, ops: seq<Op>)
    requires Taking(ops) && Ends(start, h)
    ensures Ends(start, RunOps(h, capacity, ops))
    decreases ops
  {
    if ops != [] {
      TakingKeepsEnds(start, h, capacity, ops[0]);
      EndsMeet(start, Step(h, capacity, ops[0]), capacity, ops[1..]);
    }
  }

  /** The buffer as a pushed batch leaves it. */
  lemma PushedBatch(before: seq<Job>, capacity: nat, batch: seq<Job>, owned: set<string>)
    ensures var start := PushSorted(before, capacity, batch, owned);
            var kept := |start| - |before|;
            && 0 <= kept <= |batch| && (kept < |batch| ==> |before| + kept >= capacity)
            && start[..|before|] == before
            && multiset(start[|before|..]) == multiset(batch[..kept])
            && forall i, j :: |before| <= i < j < |start| && start[i].taskName in owned ==> start[j].taskName in owned
  {
    var kept := Truncated(batch, Room(before, capacity));
    var start := PushSorted(before, capacity, batch, owned);
    SortKeeps(kept, owned);
    var order := SortedPlaces(kept, owned);
    assert kept == batch[..|kept|] && start[|before|..] == SortByAffinity(kept, owned);
    assert forall i :: |before| <= i < |start| ==> start[i] == SortByAffinity(kept, owned)[i - |before|];
  }

  /**
   * Once a batch is in and nothing more is pushed, the owner pops from the end and thieves take from the
   * front, and the two never take the same job. So of the batch the owner pops every task in `owned` it
   * gets before any other task, and thieves take them in the opposite order.
   */
  lemma AffinityOrder(before: seq<Job>, capacity: nat, batch: seq<Job>, owned: set<string>, ops: seq<Op>)
    requires Taking(ops)
    ensures var start := PushSorted(before, capacity, batch, owned);
            var kept := |start| - |before|;
            var e := RunOps(History(start, start, [], []), capacity, ops);
            && |e.popped| + |e.stolen| + |e.buffered| == |start|
            && (forall k :: 0 <= k < |e.popped| ==> e.popped[k] == start[|start| - 1 - k])
            && e.stolen == start[..|e.stolen|]
            && e.buffered == start[|e.stolen|..|start| - |e.popped|]
            && (forall k, l :: 0 <= k < l < |e.popped| && l < kept && e.popped[l].taskName in owned ==>
                  e.popped[k].taskName in owned)
            && (forall k, l :: |before| <= k < l < |e.stolen| && e.stolen[k].taskName in owned ==>
                  e.stolen[l].taskName in owned)
  {
    PushedBatch(before, capacity, batch, owned);
    TakenInOrder(PushSorted(before, capacity, batch, owned), |before|, owned, capacity, ops);
  }

  lemma TakenInOrder(start: seq<Job>, n: nat, owned: set<string>, capacity: nat, ops: seq<Op>)
    requires Taking(ops) && n <= |start|
    requires forall i, j :: n <= i < j < |start| && start[i].taskName in owned ==> start[j].taskName in owned
    ensures var e := RunOps(History(start, start, [], []), capacity, ops);
            && Ends(start, e)
            && (forall k, l :: 0 <= k < l < |e.popped| && l < |start| - n && e.popped[l].taskName in owned ==>
                  e.popped[k].taskName in owned)
            && (forall k, l :: n <= k < l < |e.stolen| && e.stolen[k].taskName in owned ==>
                  e.stolen[l].taskName in owned)
  {
    EndsMeet(start, History(start, start, [], []), capacity, ops);
    var e := RunOps(History(start, start, [], []), capacity, ops);
    OwnedLast(start, n, owned, e.popped, e.stolen);
  }

  lemma OwnedLast(start: seq<Job>, n: nat, owned: set<string>, popped: seq<Job>, stolen: seq<Job>)
    requires n <= |start| && |popped| <= |start| && stolen <= start
    requires forall i, j :: n <= i < j < |start| && start[i].taskName in owned ==> start[j].taskName in owned
    requires forall k :: 0 <= k < |popped| ==> popped[k] == start[|start| - 1 - k]
    ensures forall k, l :: 0 <= k < l < |popped| && l < |start| - n && popped[l].taskName in owned ==>
              popped[k].taskName in owned
    ensures forall k, l :: n <= k < l < |stolen| && stolen[k].taskName in owned ==> stolen[l].taskName in owned
  {
    assert forall k :: 0 <= k < |stolen| ==> stolen[k] == start[k];
  }
}
