/**
 * Concurrent state changes over Redis. `update_workflow_run_state` and `set_workflow_run_started`
 * read the run's state and creation time, each in its own round trip, and then commit the hash and
 * both `by_state` sets in one transaction. Any number of writers interleave these steps with each
 * other and with whole operations of other clients.
 */
module StateRace {
  import opened Prelude
  import opened Keyset
  import opened Workflow
  import opened Calls
  import opened RedisStore

  /** A setter in flight with what it has read so far. */
  datatype Writer = Writer(op: Op, was: Option<Option<RunState>>, at: Option<Option<int>>)

  datatype System = System(db: Redis, writers: map<nat, Writer>)

  datatype Action =
    | Begin(w: nat, op: Op)
    | ReadState(w: nat)
    | ReadCreated(w: nat)
    | Commit(w: nat)
    | Whole(ns: Option<string>, op: Op)   // any other operation; it is atomic or only reads

  function CommitDb(db: Redis, op: Op, was: Option<RunState>, at: Option<int>): Redis
    requires IsSetter(op)
  {
    var h := RunHashOf(db, op.runId);
    var h' := if op.UpdateRunState? then h.(state := Some(op.to), error := op.runError)
              else h.(state := Some(RunState.Running), startedAt := Some(op.at));
    db.(runs := db.runs[op.runId := h'], byState := MoveState(db.byState, op.runId, was, at, Target(op)))
  }

  /** Without interleaving, the steps of a writer are the whole operation. */
  lemma UninterruptedWriter(db: Redis, op: Op)
    requires IsSetter(op)
    ensures CommitDb(db, op, RunHashOf(db, op.runId).state, RunHashOf(db, op.runId).createdAt) == Step(db, None, op).0
  {
  }

  ghost predicate Enabled(s: System, a: Action) {
    match a
    case Begin(w, op) => w !in s.writers && IsSetter(op) && op.runId in s.db.runs
    case ReadState(w) => w in s.writers && IsSetter(s.writers[w].op) && s.writers[w].was.None?
    case ReadCreated(w) => w in s.writers && IsSetter(s.writers[w].op) && s.writers[w].at.None?
    case Commit(w) => w in s.writers && IsSetter(s.writers[w].op) && s.writers[w].was.Some? && s.writers[w].at.Some?
    case Whole(_, op) =>
      !IsSetter(op) && (op.CreateRun? ==> op.run.id !in s.db.runs) && (op.SetRunCompleted? ==> op.runId in s.db.runs)
  }

  ghost function Apply(s: System, a: Action): System
    requires Enabled(s, a)
  {
    match a
    case Begin(w, op) => s.(writers := s.writers[w := Writer(op, None, None)])
    case ReadState(w) =>
      s.(writers := s.writers[w := s.writers[w].(was := Some(RunHashOf(s.db, s.writers[w].op.runId).state))])
    case ReadCreated(w) =>
      s.(writers := s.writers[w := s.writers[w].(at := Some(RunHashOf(s.db, s.writers[w].op.runId).createdAt))])
    case Commit(w) =>
      var x := s.writers[w];
      System(CommitDb(s.db, x.op, x.was.value, x.at.value), s.writers - {w})
    case Whole(ns, op) => s.(db := Step(s.db, ns, op).0)
  }

  // What stays true

  ghost predicate HashesWhole(runs: map<string, RunHash>) {
    forall id :: id in runs ==> DecodeRun(runs[id]).Some? && runs[id].id == Some(id)
  }

  /** Entries point at runs and carry their creation times; they may be stale. */
  ghost predicate Scored(runs: map<string, RunHash>, byState: map<StateEntry, int>) {
    forall e :: e in byState ==> e.member in runs && Some(byState[e]) == runs[e.member].createdAt
  }

  /** Every run is in the `by_state` set of the state it is in now. */
  ghost predicate Indexed(runs: map<string, RunHash>, byState: map<StateEntry, int>) {
    forall id :: id in runs && runs[id].state.Some? ==> StateEntry(runs[id].state.value, id) in byState
  }

  ghost predicate WriterOk(x: Writer, runs: map<string, RunHash>) {
    && IsSetter(x.op) && x.op.runId in runs
    && (x.was.Some? ==> x.was.value.Some?)
    && (x.at.Some? ==> x.at.value == runs[x.op.runId].createdAt)
  }

  /** Everything but `Indexed`; it holds whatever the writers write. */
  ghost predicate Sound(s: System) {
    && HashesWhole(s.db.runs) && Scored(s.db.runs, s.db.byState)
    && forall w :: w in s.writers ==> WriterOk(s.writers[w], s.db.runs)
  }

  lemma CommitKeepsHashes(db: Redis, x: Writer)
    requires HashesWhole(db.runs) && Scored(db.runs, db.byState) && WriterOk(x, db.runs) && x.was.Some? && x.at.Some?
    ensures var db' := CommitDb(db, x.op, x.was.value, x.at.value);
            && HashesWhole(db'.runs) && Scored(db'.runs, db'.byState)
            && (forall y :: WriterOk(y, db.runs) ==> WriterOk(y, db'.runs))
  {
    var db' := CommitDb(db, x.op, x.was.value, x.at.value);
    assert forall y :: y in db.runs ==> db'.runs[y].createdAt == db.runs[y].createdAt;
  }

  lemma CommitIndexes(db: Redis, x: Writer)
    requires HashesWhole(db.runs) && WriterOk(x, db.runs) && x.was.Some? && x.at.Some?
    requires Indexed(db.runs, db.byState)
    ensures var db' := CommitDb(db, x.op, x.was.value, x.at.value);
            Indexed(db'.runs, db'.byState) <==>
            x.was.value != Some(Target(x.op)) || StateEntry(Target(x.op), x.op.runId) in db.byState
  {
    var db' := CommitDb(db, x.op, x.was.value, x.at.value);
    var id, to := x.op.runId, Target(x.op);
    assert db'.runs[id].state == Some(to);
    assert forall e: StateEntry :: e.member != id ==> (e in db'.byState <==> e in db.byState);
    assert Indexed(db'.runs, db'.byState) ==> StateEntry(to, id) in db'.byState;
  }

  ghost predicate Kept(db: Redis, db': Redis) {
    && HashesWhole(db'.runs) && Scored(db'.runs, db'.byState)
    && (forall y :: WriterOk(y, db.runs) ==> WriterOk(y, db'.runs))
    && (Indexed(db.runs, db.byState) ==> Indexed(db'.runs, db'.byState))
  }

  lemma AddRunKeeps(db: Redis, ns: Option<string>, run: Run)
    requires HashesWhole(db.runs) && Scored(db.runs, db.byState) && run.id !in db.runs
    ensures Kept(db, AddRun(db, ns, run))
  {
  }

  lemma SetCompletedKeeps(db: Redis, id: string, at: int)
    requires HashesWhole(db.runs) && Scored(db.runs, db.byState) && id in db.runs
    ensures Kept(db, db.(runs := db.runs[id := db.runs[id].(completedAt := Some(at))]))
  {
  }

  lemma OtherOpsKeepRuns(db: Redis, ns: Option<string>, op: Op)
    requires !IsSetter(op) && !op.CreateRun? && !op.SetRunCompleted?
    ensures Step(db, ns, op).0.runs == db.runs && Step(db, ns, op).0.byState == db.byState
  {
    if op.CreateNodes? { PutNodesKeepsRest(db, op.batch); }
  }

  lemma WholeKeepsHashes(db: Redis, ns: Option<string>, op: Op)
    requires HashesWhole(db.runs) && Scored(db.runs, db.byState)
    requires !IsSetter(op) && (op.CreateRun? ==> op.run.id !in db.runs) && (op.SetRunCompleted? ==> op.runId in db.runs)
    ensures Kept(db, Step(db, ns, op).0)
  {
    match op
    case CreateRun(run) => AddRunKeeps(db, ns, run);
    case SetRunCompleted(id, at) => SetCompletedKeeps(db, id, at);
    case _ => OtherOpsKeepRuns(db, ns, op);
  }

  /** The writer's target is not the state it read, as `can_transition_to` demands. */
  ghost predicate Honest(s: System, a: Action) {
    (&& a.Commit? && a.w in s.writers && IsSetter(s.writers[a.w].op)
     && s.writers[a.w].was.Some? && s.writers[a.w].was.value.Some?)
    ==> s.writers[a.w].was.value.value != Target(s.writers[a.w].op)
  }

  lemma TransitionsAreHonest(from: RunState, to: RunState)
    requires CanTransitionTo(from, to)
    ensures from != to
  {
  }

  /** The commit moves its run, or finds it already in the target's set; other actions always qualify. */
  ghost predicate Harmless(s: System, a: Action)
    requires Enabled(s, a)
  {
    a.Commit? ==>
      Honest(s, a) || StateEntry(Target(s.writers[a.w].op), s.writers[a.w].op.runId) in s.db.byState
  }

  lemma ApplyKeepsSound(s: System, a: Action)
    requires Sound(s) && Enabled(s, a)
    ensures Sound(Apply(s, a))
  {
    match a
    case Commit(w) => CommitKeepsHashes(s.db, s.writers[w]);
    case Whole(ns, op) => WholeKeepsHashes(s.db, ns, op);
    case _ =>
  }

  /** Exactly which actions keep every run in the set of its state. */
  lemma ApplyKeepsIndexIff(s: System, a: Action)
    requires Sound(s) && Indexed(s.db.runs, s.db.byState) && Enabled(s, a)
    ensures Indexed(Apply(s, a).db.runs, Apply(s, a).db.byState) <==> Harmless(s, a)
  {
    match a
    case Commit(w) => CommitIndexes(s.db, s.writers[w]);
    case Whole(ns, op) => WholeKeepsHashes(s.db, ns, op);
    case _ =>
  }

  // Whole runs

  ghost predicate IsRun(trace: seq<System>, acts: seq<Action>) {
    |trace| == |acts| + 1 &&
    forall i :: 0 <= i < |acts| ==> Enabled(trace[i], acts[i]) && trace[i + 1] == Apply(trace[i], acts[i])
  }

  lemma {:induction false} RunsStaySound(trace: seq<System>, acts: seq<Action>, n: nat)
    requires IsRun(trace, acts) && n <= |acts| && Sound(trace[0])
    ensures Sound(trace[n])
  {
    if n > 0 {
      RunsStaySound(trace, acts, n - 1);
      ApplyKeepsSound(trace[n - 1], acts[n - 1]);
    }
  }

  lemma {:induction false} HarmlessSteps(trace: seq<System>, acts: seq<Action>, n: nat)
    requires IsRun(trace, acts) && n <= |acts|
    requires Sound(trace[0]) && Indexed(trace[0].db.runs, trace[0].db.byState)
    requires forall i :: 0 <= i < n ==> Harmless(trace[i], acts[i])
    ensures Indexed(trace[n].db.runs, trace[n].db.byState)
  {
    if n > 0 {
      HarmlessSteps(trace, acts, n - 1);
      RunsStaySound(trace, acts, n - 1);
      ApplyKeepsIndexIff(trace[n - 1], acts[n - 1]);
    }
  }

  /** Every run is in the set of its state all along if and only if every commit on the way is harmless. */
  lemma RunsStayIndexedIff(trace: seq<System>, acts: seq<Action>)
    requires IsRun(trace, acts) && Sound(trace[0]) && Indexed(trace[0].db.runs, trace[0].db.byState)
    ensures (forall n :: 0 <= n <= |acts| ==> Indexed(trace[n].db.runs, trace[n].db.byState)) <==>
            (forall i :: 0 <= i < |acts| ==> Harmless(trace[i], acts[i]))
  {
    if forall i :: 0 <= i < |acts| ==> Harmless(trace[i], acts[i]) {
      forall n | 0 <= n <= |acts| ensures Indexed(trace[n].db.runs, trace[n].db.byState) {
        HarmlessSteps(trace, acts, n);
      }
    }
    if forall n :: 0 <= n <= |acts| ==> Indexed(trace[n].db.runs, trace[n].db.byState) {
      forall i | 0 <= i < |acts| ensures Harmless(trace[i], acts[i]) {
        RunsStaySound(trace, acts, i);
        ApplyKeepsIndexIff(trace[i], acts[i]);
        assert Indexed(trace[i + 1].db.runs, trace[i + 1].db.byState);
      }
    }
  }

  /** In particular when every writer moves its run, as the transition table demands. */
  lemma RunsStayIndexed(trace: seq<System>, acts: seq<Action>, n: nat)
    requires IsRun(trace, acts) && n <= |acts|
    requires Sound(trace[0]) && Indexed(trace[0].db.runs, trace[0].db.byState)
    requires forall i :: 0 <= i < |acts| ==> Honest(trace[i], acts[i])
    ensures Sound(trace[n]) && Indexed(trace[n].db.runs, trace[n].db.byState)
  {
    RunsStaySound(trace, acts, n);
    HarmlessSteps(trace, acts, n);
  }

  predicate InState(db: Redis, ns: Option<string>, id: string, st: RunState) {
    Visible(db, ns, id) && db.runs[id].state == Some(st)
  }

  /** Listing by state alone returns all visible runs in that state, and no stale entry shows. */
  lemma ListingMissesNothing(db: Redis, ns: Option<string>, st: RunState, limit: nat, after: Option<Key>)
    requires HashesWhole(db.runs) && Indexed(db.runs, db.byState)
    ensures var rows := map id | id in db.runs && InState(db, ns, id, st) && DecodeRun(db.runs[id]).Some? ::
            DecodeRun(db.runs[id]).value;
            Step(db, ns, ListAfter(None, Some(st), limit, after)).1 == RunPage(Window(rows, limit, after))
  {
    var ids := Candidates(db, None, Some(st));
    forall id | InState(db, ns, id, st) ensures id in ids {
      assert StateEntry(st, id) in db.byState;
    }
    var rows := map id | id in db.runs && InState(db, ns, id, st) && DecodeRun(db.runs[id]).Some? ::
        DecodeRun(db.runs[id]).value;
    assert Loaded(db, ns, ids, Some(st)) == rows;
  }

  /**
   * A listing that itself interleaves: the index is read at moment `i` and each run loaded at
   * `load(id)`. A run in the state at both moments is returned; one returned was in it when loaded.
   */
  lemma InterleavedListing(trace: seq<System>, acts: seq<Action>, ns: Option<string>, st: RunState, i: nat,
      load: string -> nat)
    requires IsRun(trace, acts) && i <= |acts|
    requires Sound(trace[0]) && Indexed(trace[0].db.runs, trace[0].db.byState)
    requires forall n :: 0 <= n < |acts| ==> Honest(trace[n], acts[n])
    requires forall id :: i <= load(id) <= |acts|
    ensures var listed := set id | id in Candidates(trace[i].db, None, Some(st)) &&
            InState(trace[load(id)].db, ns, id, st);
            forall id ::
              && (InState(trace[i].db, None, id, st) && InState(trace[load(id)].db, ns, id, st) ==> id in listed)
              && (id in listed ==> InState(trace[load(id)].db, ns, id, st))
  {
    RunsStayIndexed(trace, acts, i);
    forall id | InState(trace[i].db, None, id, st) ensures id in Candidates(trace[i].db, None, Some(st)) {
      assert StateEntry(st, id) in trace[i].db.byState;
    }
  }

  // What the condition is for

  lemma Extend(trace: seq<System>, acts: seq<Action>, a: Action) returns (longer: seq<System>, more: seq<Action>)
    requires IsRun(trace, acts) && Enabled(trace[|acts|], a)
    ensures longer == trace + [Apply(trace[|acts|], a)] && more == acts + [a] && IsRun(longer, more)
    ensures AllHonest(trace, acts) && Honest(trace[|acts|], a) ==> AllHonest(longer, more)
  {
    longer, more := trace + [Apply(trace[|acts|], a)], acts + [a];
  }

  lemma ReadAlone(trace: seq<System>, acts: seq<Action>, op: Op) returns (longer: seq<System>, more: seq<Action>)
    requires IsRun(trace, acts) && trace[|acts|].writers == map[]
    requires IsSetter(op) && op.runId in trace[|acts|].db.runs
    ensures IsRun(longer, more) && longer[0] == trace[0]
    ensures var db := trace[|acts|].db;
            var h := RunHashOf(db, op.runId);
            longer[|more|] == System(db, map[0 := Writer(op, Some(h.state), Some(h.createdAt))])
  {
    longer, more := Extend(trace, acts, Begin(0, op));
    longer, more := Extend(longer, more, ReadState(0));
    longer, more := Extend(longer, more, ReadCreated(0));
  }

  /** A writer nobody comes in between. */
  lemma WriteAlone(trace: seq<System>, acts: seq<Action>, ns: Option<string>, op: Op)
      returns (longer: seq<System>, more: seq<Action>)
    requires IsRun(trace, acts) && trace[|acts|].writers == map[]
    requires IsSetter(op) && op.runId in trace[|acts|].db.runs && !OutOfScope(trace[|acts|].db, ns, op.runId)
    ensures IsRun(longer, more) && longer[0] == trace[0]
    ensures longer[|more|] == System(Step(trace[|acts|].db, ns, op).0, map[])
  {
    longer, more := ReadAlone(trace, acts, op);
    UninterruptedWriter(trace[|acts|].db, op);
    InScopeAlike(trace[|acts|].db, ns, op);
    longer, more := Extend(longer, more, Commit(0));
  }

  lemma InScopeAlike(db: Redis, ns: Option<string>, op: Op)
    requires IsSetter(op) && !OutOfScope(db, ns, op.runId)
    ensures Step(db, ns, op).0 == Step(db, None, op).0
  {
  }

  /** Fresh ids on create, existing runs on update. */
  ghost predicate Regular(db: Redis, calls: seq<Call>)
    decreases calls
  {
    calls == [] ||
    (var c := calls[0];
     && (IsSetter(c.op) || c.op.SetRunCompleted? ==> c.op.runId in db.runs)
     && (c.op.CreateRun? ==> c.op.run.id !in db.runs)
     && Regular(Step(db, c.ns, c.op).0, calls[1..]))
  }

  /** Whatever clients do one after the other is a run, so what holds of all runs holds of that. */
  lemma {:induction false} SequentialIsRun(trace: seq<System>, acts: seq<Action>, calls: seq<Call>)
      returns (longer: seq<System>, more: seq<Action>)
    requires IsRun(trace, acts) && trace[|acts|].writers == map[] && Regular(trace[|acts|].db, calls)
    ensures IsRun(longer, more) && longer[0] == trace[0]
    ensures longer[|more|] == System(RunCalls(trace[|acts|].db, calls), map[])
    decreases calls
  {
    longer, more := trace, acts;
    if calls != [] {
      var c, db := calls[0], trace[|acts|].db;
      if IsSetter(c.op) && OutOfScope(db, c.ns, c.op.runId) {
        assert Step(db, c.ns, c.op).0 == db;
      } else if IsSetter(c.op) {
        longer, more := WriteAlone(trace, acts, c.ns, c.op);
      } else {
        longer, more := Extend(trace, acts, Whole(c.ns, c.op));
      }
      longer, more := SequentialIsRun(longer, more, calls[1..]);
    }
  }

  ghost predicate AllHonest(trace: seq<System>, acts: seq<Action>)
    requires IsRun(trace, acts)
  {
    forall i :: 0 <= i < |acts| ==> Honest(trace[i], acts[i])
  }

  /** Read both fields: three steps that touch only the writer's own record. */
  lemma BeginAndRead(trace: seq<System>, acts: seq<Action>, w: nat, op: Op)
      returns (longer: seq<System>, more: seq<Action>)
    requires IsRun(trace, acts) && Enabled(trace[|acts|], Begin(w, op)) && AllHonest(trace, acts)
    ensures IsRun(longer, more) && longer[0] == trace[0] && AllHonest(longer, more)
    ensures var s, s' := trace[|acts|], longer[|more|];
            && s'.db == s.db
            && var h := RunHashOf(s.db, op.runId);
               s'.writers == s.writers[w := Writer(op, Some(h.state), Some(h.createdAt))]
  {
    longer, more := Extend(trace, acts, Begin(w, op));
    longer, more := Extend(longer, more, ReadState(w));
    longer, more := Extend(longer, more, ReadCreated(w));
  }

  /** Two writers to one run, both done reading and neither committed. */
  ghost predicate BothRead(s: System, db: Redis, a: Op, b: Op)
    requires IsSetter(a) && IsSetter(b)
  {
    var was, at := Some(RunHashOf(db, a.runId).state), Some(RunHashOf(db, a.runId).createdAt);
    s.db == db && a.runId == b.runId && s.writers == map[0 := Writer(a, was, at), 1 := Writer(b, was, at)]
  }

  lemma TwoReaders(db: Redis, a: Op, b: Op) returns (trace: seq<System>, acts: seq<Action>)
    requires IsSetter(a) && IsSetter(b) && a.runId == b.runId && a.runId in db.runs
    ensures IsRun(trace, acts) && trace[0] == System(db, map[]) && AllHonest(trace, acts)
    ensures BothRead(trace[|acts|], db, a, b)
  {
    trace, acts := [System(db, map[])], [];
    trace, acts := BeginAndRead(trace, acts, 0, a);
    trace, acts := BeginAndRead(trace, acts, 1, b);
  }

  lemma LosingCommits(s: System, db: Redis, id: string)
    requires id in db.runs && db.runs[id].state == Some(RunState.Running) && db.runs[id].createdAt.Some?
    requires BothRead(s, db, SetRunStarted(id, 0), UpdateRunState(id, RunState.Completed, None))
    ensures Enabled(s, Commit(1)) && Enabled(Apply(s, Commit(1)), Commit(0))
    ensures var last := Apply(Apply(s, Commit(1)), Commit(0)).db;
            RunHashOf(last, id).state == Some(RunState.Running) && StateEntry(RunState.Running, id) !in last.byState
  {
    var between := Apply(s, Commit(1));
    assert between.writers[0] == s.writers[0];
    assert StateEntry(RunState.Running, id) !in between.db.byState;
  }

  /** A writer whose target is the state it read can lose the run: it ends in no set of its state. */
  lemma SelfTargetLosesRun(db: Redis, id: string) returns (trace: seq<System>, acts: seq<Action>)
    requires HashesWhole(db.runs) && Scored(db.runs, db.byState) && Indexed(db.runs, db.byState)
    requires id in db.runs && db.runs[id].state == Some(RunState.Running)
    ensures IsRun(trace, acts) && trace[0] == System(db, map[])
    ensures var last := trace[|acts|].db;
            RunHashOf(last, id).state == Some(RunState.Running) && StateEntry(RunState.Running, id) !in last.byState
  {
    trace, acts := TwoReaders(db, SetRunStarted(id, 0), UpdateRunState(id, RunState.Completed, None));
    LosingCommits(trace[|acts|], db, id);
    trace, acts := Extend(trace, acts, Commit(1));
    trace, acts := Extend(trace, acts, Commit(0));
  }

  lemma StaleCommits(s: System, db: Redis, id: string)
    requires HashesWhole(db.runs) && id in db.runs && db.runs[id].state == Some(RunState.Paused) && s.db == db
    requires BothRead(s, db, SetRunStarted(id, 0), UpdateRunState(id, RunState.Cancelled, None))
    ensures Enabled(s, Commit(0)) && Honest(s, Commit(0))
    ensures var between := Apply(s, Commit(0)); Enabled(between, Commit(1)) && Honest(between, Commit(1))
    ensures var last := Apply(Apply(s, Commit(0)), Commit(1)).db;
            && RunHashOf(last, id).state == Some(RunState.Cancelled)
            && StateEntry(RunState.Cancelled, id) in last.byState && StateEntry(RunState.Running, id) in last.byState
  {
    var between := Apply(s, Commit(0));
    assert between.writers[1] == s.writers[1];
    assert StateEntry(RunState.Running, id) in between.db.byState;
  }

  /** Writers that do move the run keep it findable, yet can leave it in a second, stale set. */
  lemma StaleEntryCanStay(db: Redis, id: string) returns (trace: seq<System>, acts: seq<Action>)
    requires HashesWhole(db.runs) && Scored(db.runs, db.byState) && Indexed(db.runs, db.byState)
    requires id in db.runs && db.runs[id].state == Some(RunState.Paused)
    ensures IsRun(trace, acts) && trace[0] == System(db, map[])
    ensures AllHonest(trace, acts)
    ensures var last := trace[|acts|].db;
            && RunHashOf(last, id).state == Some(RunState.Cancelled)
            && StateEntry(RunState.Cancelled, id) in last.byState && StateEntry(RunState.Running, id) in last.byState
  {
    trace, acts := TwoReaders(db, SetRunStarted(id, 0), UpdateRunState(id, RunState.Cancelled, None));
    StaleCommits(trace[|acts|], db, id);
    trace, acts := Extend(trace, acts, Commit(0));
    trace, acts := Extend(trace, acts, Commit(1));
  }
}
