/**
 * Redis against the tables: the index invariant, and exactly which operations behave alike on
 * both backends. `Abs` reads a table back out of consistent hashes.
 */
module Refinement {
  import opened Prelude
  import opened Keyset
  import opened Workflow
  import opened Calls
  import T = TableStore
  import R = RedisStore

  type Runs = map<string, R.RunHash>

  ghost predicate RunsWhole(runs: Runs) {
    forall id :: id in runs ==>
      && R.DecodeRun(runs[id]).Some? && runs[id].id == Some(id)
      && runs[id].createdAt.value <= I64_MAX
  }

  ghost predicate InAll(runs: Runs, all: map<string, int>) {
    && all.Keys == runs.Keys
    && (forall id :: id in all ==> Some(all[id]) == runs[id].createdAt)
  }

  ghost predicate InByState(runs: Runs, byState: map<R.StateEntry, int>) {
    && (forall e :: e in byState <==> e.member in runs && runs[e.member].state == Some(e.state))
    && (forall e :: e in byState ==> Some(byState[e]) == runs[e.member].createdAt)
  }

  ghost predicate InByDef(runs: Runs, byDef: map<R.DefEntry, int>) {
    && (forall e :: e in byDef <==> e.member in runs && runs[e.member].definitionId == Some(e.definitionId))
    && (forall e :: e in byDef ==> Some(byDef[e]) == runs[e.member].createdAt)
  }

  ghost predicate InChildren(runs: Runs, children: set<R.ChildEntry>) {
    forall e :: e in children <==> e.member in runs && runs[e.member].parentRunId == Some(e.parent)
  }

  /** Every run hash is whole and sits in exactly the indexes its fields call for, scored by `created_at`. */
  ghost predicate RunsIndexed(r: R.Redis) {
    && RunsWhole(r.runs) && InAll(r.runs, r.all) && InByState(r.runs, r.byState)
    && InByDef(r.runs, r.byDef) && InChildren(r.runs, r.children)
  }

  ghost predicate NodesIndexed(r: R.Redis) {
    && (forall k :: k in r.nodes ==>
          && R.DecodeNode(r.nodes[k]).Some?
          && r.nodes[k].runId == Some(k.runId) && r.nodes[k].nodeName == Some(k.name))
    && r.runNodes == r.nodes.Keys
  }

  ghost predicate DefsIndexed(r: R.Redis) {
    && (forall e :: e in r.byName <==> e.member in r.defs && r.defs[e.member].name == e.name)
    && (forall e :: e in r.byName ==> r.byName[e] == r.defs[e.member].version)
  }

  ghost predicate Inv(r: R.Redis) { RunsIndexed(r) && NodesIndexed(r) && DefsIndexed(r) }

  function AbsRuns(runs: map<string, R.RunHash>): map<string, T.Row>
    requires forall id :: id in runs ==> R.DecodeRun(runs[id]).Some?
  {
    map id | id in runs :: T.Row(R.DecodeRun(runs[id]).value, runs[id].namespace)
  }

  function AbsNodes(nodes: map<NodeKey, R.NodeHash>): map<NodeKey, Node>
    requires forall k :: k in nodes ==> R.DecodeNode(nodes[k]).Some?
  {
    map k | k in nodes :: R.DecodeNode(nodes[k]).value
  }

  ghost function Abs(r: R.Redis): T.Table
    requires Inv(r)
  {
    T.Table(r.defs, AbsRuns(r.runs), AbsNodes(r.nodes))
  }

  /** Redis stays consistent, changes as the tables do and gives the same answer. */
  ghost predicate Agrees(r: R.Redis, ns: Option<string>, op: Op)
    requires Inv(r)
  {
    var (r', reply) := R.Step(r, ns, op);
    Inv(r') && (Abs(r'), reply) == T.Step(Abs(r), ns, op)
  }

  /** Timestamps are `i64`. */
  predicate Typed(op: Op) { op.CreateRun? ==> op.run.createdAt <= I64_MAX }

  // Exactly when the backends agree, read off the table

  ghost predicate PortableList(t: T.Table, ns: Option<string>, op: Op)
    requires op.ListAfter?
  {
    var rows := T.Matching(t, ns, op.defName, op.inState);
    var cursor := Cursor(op.after);
    if op.limit < 0 then Below(KeysOf(rows), Some(cursor)) == {}
    else
      op.limit == 0 ||
      (&& (op.after.None? ==> forall id :: id in rows && NewestVersion(t, op.defName, rows[id]) ==>
          rows[id].createdAt < I64_MAX)
       && (forall k :: k in Page(KeysOf(rows), op.limit, Some(cursor)) ==>
          k.id in rows && NewestVersion(t, op.defName, rows[k.id])))
  }

  /** The run's definition is the newest of that name; vacuous without a name filter. */
  ghost predicate NewestVersion(t: T.Table, defName: Option<string>, run: Run) {
    defName.Some? ==>
      && run.definitionId in t.defs
      && forall d :: d in t.defs && t.defs[d].name == defName.value && d != run.definitionId ==>
           Before(Key(t.defs[d].version, d), Key(t.defs[run.definitionId].version, run.definitionId))
  }

  ghost predicate Portable(t: T.Table, ns: Option<string>, op: Op) {
    match op
    case CreateDefinition(d) =>
      d.id !in t.defs && forall k :: k in t.defs ==> t.defs[k].name != d.name || t.defs[k].version != d.version
    case CreateRun(run) =>
      || (run.parentRunId.Some? && T.OutOfScope(t, ns, run.parentRunId.value))
      || run.id !in t.runs
      || !T.Visible(ns, t.runs[run.id])
    case UpdateRunState(id, _, _) => ns.Some? || id in t.runs
    case SetRunStarted(id, _) => ns.Some? || id in t.runs
    case SetRunCompleted(id, _) => ns.Some? || id in t.runs
    case ListAfter(_, _, _, _) => PortableList(t, ns, op)
    case CreateNodes(batch) =>
      (exists n :: n in batch && T.OutOfScope(t, ns, n.runId)) || T.InsertNodes(t.nodes, batch).Some?
    case UpdateNode(k, u) =>
      T.OutOfScope(t, ns, k.runId) || k !in t.nodes ||
      !KeepsStaleHash(u, t.nodes[k])
    case Finalize(k, succeeded, _, _) =>
      T.OutOfScope(t, ns, k.runId) ||
      (k in t.nodes && (Finalized(t.nodes[k].status) || !succeeded || t.nodes[k].error.None?))
    case _ => true
  }

  lemma ScopeAgrees(r: R.Redis, ns: Option<string>, id: string)
    requires Inv(r)
    ensures R.OutOfScope(r, ns, id) == T.OutOfScope(Abs(r), ns, id)
    ensures R.Visible(r, ns, id) == (id in Abs(r).runs && T.Visible(ns, Abs(r).runs[id]))
    ensures !R.Corrupted(r, ns, id)
  {
  }

  lemma CreateDefinitionCase(r: R.Redis, ns: Option<string>, op: Op)
    requires Inv(r) && op.CreateDefinition?
    ensures Agrees(r, ns, op) <==> Portable(Abs(r), ns, op)
  {
  }

  // Adding a hash under a fresh id, index by index

  lemma AddWhole(runs: Runs, id: string, h: R.RunHash)
    requires RunsWhole(runs) && R.DecodeRun(h).Some? && h.id == Some(id) && h.createdAt.value <= I64_MAX
    ensures RunsWhole(runs[id := h])
  {
  }

  lemma AddToAll(runs: Runs, id: string, h: R.RunHash, all: map<string, int>)
    requires InAll(runs, all) && h.createdAt.Some?
    ensures InAll(runs[id := h], all[id := h.createdAt.value])
  {
  }

  lemma AddToByState(runs: Runs, id: string, h: R.RunHash, byState: map<R.StateEntry, int>)
    requires InByState(runs, byState) && id !in runs && h.createdAt.Some? && h.state.Some?
    ensures InByState(runs[id := h], byState[R.StateEntry(h.state.value, id) := h.createdAt.value])
  {
  }

  lemma AddToByDef(runs: Runs, id: string, h: R.RunHash, byDef: map<R.DefEntry, int>)
    requires InByDef(runs, byDef) && id !in runs && h.createdAt.Some? && h.definitionId.Some?
    ensures InByDef(runs[id := h], byDef[R.DefEntry(h.definitionId.value, id) := h.createdAt.value])
  {
  }

  lemma AddToChildren(runs: Runs, id: string, h: R.RunHash, children: set<R.ChildEntry>)
    requires InChildren(runs, children) && id !in runs
    ensures InChildren(runs[id := h],
              children + if h.parentRunId.Some? then {R.ChildEntry(h.parentRunId.value, id)} else {})
  {
  }

  lemma AddRunIndexes(r: R.Redis, ns: Option<string>, run: Run)
    requires Inv(r) && run.id !in r.runs && run.createdAt <= I64_MAX
    ensures Inv(R.AddRun(r, ns, run))
    ensures Abs(R.AddRun(r, ns, run)) == Abs(r).(runs := Abs(r).runs[run.id := T.Row(run, ns)])
  {
    var h := R.PutRun(R.NO_RUN, run, ns);
    assert R.DecodeRun(h) == Some(run) && h.namespace == ns;
    AddWhole(r.runs, run.id, h);
    AddToAll(r.runs, run.id, h, r.all);
    AddToByState(r.runs, run.id, h, r.byState);
    AddToByDef(r.runs, run.id, h, r.byDef);
    AddToChildren(r.runs, run.id, h, r.children);
    AbsRunsPut(r.runs, run.id, h);
  }

  lemma AbsRunsPut(runs: Runs, id: string, h: R.RunHash)
    requires RunsWhole(runs) && R.DecodeRun(h).Some?
    ensures AbsRuns(runs[id := h]) == AbsRuns(runs)[id := T.Row(R.DecodeRun(h).value, h.namespace)]
  {
  }

  lemma CreateRunCase(r: R.Redis, ns: Option<string>, run: Run)
    requires Inv(r) && run.createdAt <= I64_MAX
    ensures Agrees(r, ns, CreateRun(run)) <==> Portable(Abs(r), ns, CreateRun(run))
  {
    if run.parentRunId.Some? { ScopeAgrees(r, ns, run.parentRunId.value); }
    ScopeAgrees(r, ns, run.id);
    if run.id !in r.runs {
      AddRunIndexes(r, ns, run);
    }
  }

  /** Changing a hash without touching the indexed fields, `created_at` or the namespace. */
  predicate SameIndexed(h: R.RunHash, h': R.RunHash) {
    h'.id == h.id && h'.createdAt == h.createdAt && h'.definitionId == h.definitionId &&
    h'.parentRunId == h.parentRunId && h'.namespace == h.namespace
  }

  lemma PutKeepsIndexes(r: R.Redis, id: string, h: R.RunHash)
    requires Inv(r) && id in r.runs && SameIndexed(r.runs[id], h) && h.state.Some?
    ensures var runs := r.runs[id := h];
            RunsWhole(runs) && InAll(runs, r.all) && InByDef(runs, r.byDef) && InChildren(runs, r.children)
    ensures h.state == r.runs[id].state ==> InByState(r.runs[id := h], r.byState)
  {
    var runs := r.runs[id := h];
    assert RunsWhole(runs);
    assert InAll(runs, r.all);
    assert InByDef(runs, r.byDef);
    assert InChildren(runs, r.children);
  }

  lemma MoveStateIndexes(r: R.Redis, id: string, to: RunState, h: R.RunHash)
    requires Inv(r) && id in r.runs && SameIndexed(r.runs[id], h) && h.state == Some(to)
    ensures InByState(r.runs[id := h], R.MoveState(r.byState, id, r.runs[id].state, r.runs[id].createdAt, to))
  {
    var runs := r.runs[id := h];
    var moved := R.MoveState(r.byState, id, r.runs[id].state, r.runs[id].createdAt, to);
    assert RunsWhole(r.runs);
    forall e: R.StateEntry
      ensures e in moved <==> e.member in runs && runs[e.member].state == Some(e.state)
      ensures e in moved ==> Some(moved[e]) == runs[e.member].createdAt
    {
      if e.member != id {
        assert e in moved <==> e in r.byState;
      }
    }
  }

  lemma SetStateCase(r: R.Redis, id: string, to: RunState, h: R.RunHash)
    requires Inv(r) && id in r.runs && SameIndexed(r.runs[id], h) && h.state == Some(to)
    ensures var r' := R.SetState(r, id, to, h);
            Inv(r') && Abs(r') == Abs(r).(runs := Abs(r).runs[id := T.Row(R.DecodeRun(h).value, h.namespace)])
  {
    PutKeepsIndexes(r, id, h);
    MoveStateIndexes(r, id, to, h);
    AbsRunsPut(r.runs, id, h);
  }

  /** The three run setters as one: the hash they leave, and the row. */
  function SetHash(h: R.RunHash, op: Op): R.RunHash
    requires op.UpdateRunState? || op.SetRunStarted? || op.SetRunCompleted?
  {
    match op
    case UpdateRunState(_, to, e) => h.(state := Some(to), error := e)
    case SetRunStarted(_, at) => h.(state := Some(RunState.Running), startedAt := Some(at))
    case SetRunCompleted(_, at) => h.(completedAt := Some(at))
  }

  lemma SetMissingRun(r: R.Redis, op: Op)
    requires Inv(r) && (op.UpdateRunState? || op.SetRunStarted? || op.SetRunCompleted?) && op.runId !in r.runs
    ensures !Agrees(r, None, op)
  {
    var r' := R.Step(r, None, op).0;
    assert r'.runs[op.runId] == SetHash(R.NO_RUN, op);
    assert R.DecodeRun(r'.runs[op.runId]).None?;
    assert !RunsWhole(r'.runs);
  }

  lemma SetExistingRun(r: R.Redis, ns: Option<string>, op: Op)
    requires Inv(r) && (op.UpdateRunState? || op.SetRunStarted? || op.SetRunCompleted?)
    requires op.runId in r.runs && !R.OutOfScope(r, ns, op.runId)
    ensures Agrees(r, ns, op)
  {
    SetRunOnRedis(r, ns, op);
    SetRunOnTable(r, ns, op);
  }

  lemma SetRunOnRedis(r: R.Redis, ns: Option<string>, op: Op)
    requires Inv(r) && (op.UpdateRunState? || op.SetRunStarted? || op.SetRunCompleted?)
    requires op.runId in r.runs && !R.OutOfScope(r, ns, op.runId)
    ensures var h, r' := SetHash(r.runs[op.runId], op), R.Step(r, ns, op).0;
            && Inv(r') && R.DecodeRun(h).Some?
            && Abs(r') == Abs(r).(runs := Abs(r).runs[op.runId := T.Row(R.DecodeRun(h).value, h.namespace)])
  {
    var h := SetHash(r.runs[op.runId], op);
    if op.SetRunCompleted? {
      PutKeepsIndexes(r, op.runId, h);
      AbsRunsPut(r.runs, op.runId, h);
    } else {
      SetStateCase(r, op.runId, h.state.value, h);
    }
  }

  lemma SetRunOnTable(r: R.Redis, ns: Option<string>, op: Op)
    requires Inv(r) && (op.UpdateRunState? || op.SetRunStarted? || op.SetRunCompleted?)
    requires op.runId in r.runs && !R.OutOfScope(r, ns, op.runId)
    ensures var h := SetHash(r.runs[op.runId], op);
            R.DecodeRun(h).Some? &&
            T.Step(Abs(r), ns, op).0 ==
            Abs(r).(runs := Abs(r).runs[op.runId := T.Row(R.DecodeRun(h).value, h.namespace)])
  {
    assert R.DecodeRun(r.runs[op.runId]).Some?;
    assert T.Visible(ns, Abs(r).runs[op.runId]);
  }

  lemma SetRunCase(r: R.Redis, ns: Option<string>, op: Op)
    requires Inv(r) && (op.UpdateRunState? || op.SetRunStarted? || op.SetRunCompleted?)
    ensures Agrees(r, ns, op) <==> Portable(Abs(r), ns, op)
  {
    ScopeAgrees(r, ns, op.runId);
    if op.runId !in r.runs && ns.None? {
      SetMissingRun(r, op);
    } else if !R.OutOfScope(r, ns, op.runId) {
      SetExistingRun(r, ns, op);
    }
  }

  lemma ValuesAgree(loaded: map<string, Run>, t: T.Table, ns: Option<string>, p: string)
    requires forall id :: id in loaded <==>
             id in t.runs && T.Visible(ns, t.runs[id]) && t.runs[id].run.parentRunId == Some(p)
    requires forall id :: id in loaded ==> loaded[id] == t.runs[id].run
    ensures loaded.Values == set id | id in t.runs && T.Visible(ns, t.runs[id]) &&
            t.runs[id].run.parentRunId == Some(p) :: t.runs[id].run
  {
  }

  lemma GetChildrenCase(r: R.Redis, ns: Option<string>, p: string)
    requires Inv(r)
    ensures Agrees(r, ns, GetChildren(p))
  {
    var t := Abs(r);
    var ids := set e | e in r.children && e.parent == p :: e.member;
    var loaded := R.Loaded(r, ns, ids, None);
    forall id
      ensures id in loaded <==> id in t.runs && T.Visible(ns, t.runs[id]) && t.runs[id].run.parentRunId == Some(p)
    {
      ScopeAgrees(r, ns, id);
      assert id in ids <==> R.ChildEntry(p, id) in r.children;
    }
    ValuesAgree(loaded, t, ns, p);
    forall id ensures !R.Corrupted(r, ns, id) { ScopeAgrees(r, ns, id); }
  }

  lemma PutNodeIndexes(r: R.Redis, k: NodeKey, h: R.NodeHash)
    requires Inv(r) && k in r.nodes && R.DecodeNode(h).Some?
    requires h.runId == r.nodes[k].runId && h.nodeName == r.nodes[k].nodeName
    ensures var r' := r.(nodes := r.nodes[k := h]);
            Inv(r') && Abs(r') == Abs(r).(nodes := Abs(r).nodes[k := R.DecodeNode(h).value])
  {
    var r' := r.(nodes := r.nodes[k := h]);
    assert NodesIndexed(r');
    assert AbsNodes(r'.nodes) == AbsNodes(r.nodes)[k := R.DecodeNode(h).value];
  }

  predicate KeepsStaleHash(u: NodeUpdate, n: Node) {
    u.SetNodeCompleted? && u.resultHash.None? && n.resultHash.Some?
  }

  lemma UpdateDecodes(h: R.NodeHash, u: NodeUpdate)
    requires R.DecodeNode(h).Some?
    ensures var h', n := R.PutUpdate(h, u), R.DecodeNode(h).value;
            && R.DecodeNode(h').Some? && h'.runId == h.runId && h'.nodeName == h.nodeName
            && (R.DecodeNode(h').value == T.ApplyUpdate(n, u) <==> !KeepsStaleHash(u, n))
  {
  }

  /** Two backends that answer alike and write one node agree exactly when they write the same node. */
  lemma NodePutAgrees(r: R.Redis, ns: Option<string>, op: Op, k: NodeKey, h: R.NodeHash, n: Node, reply: Reply)
    requires Inv(r) && k in r.nodes
    requires R.DecodeNode(h).Some? && h.runId == r.nodes[k].runId && h.nodeName == r.nodes[k].nodeName
    requires R.Step(r, ns, op) == (r.(nodes := r.nodes[k := h]), reply)
    requires T.Step(Abs(r), ns, op) == (Abs(r).(nodes := Abs(r).nodes[k := n]), reply)
    ensures Agrees(r, ns, op) <==> R.DecodeNode(h).value == n
  {
    PutNodeIndexes(r, k, h);
    DistinctUpdates(Abs(r).nodes, k, R.DecodeNode(h).value, n);
  }

  lemma UpdateExistingNode(r: R.Redis, ns: Option<string>, k: NodeKey, u: NodeUpdate)
    requires Inv(r) && k in r.nodes && !R.OutOfScope(r, ns, k.runId) && !T.OutOfScope(Abs(r), ns, k.runId)
    ensures Agrees(r, ns, UpdateNode(k, u)) <==> !KeepsStaleHash(u, Abs(r).nodes[k])
  {
    var n := R.DecodeNode(r.nodes[k]).value;
    UpdateDecodes(r.nodes[k], u);
    NodePutAgrees(r, ns, UpdateNode(k, u), k, R.PutUpdate(r.nodes[k], u), T.ApplyUpdate(n, u), Done);
  }

  lemma UpdateNodeCase(r: R.Redis, ns: Option<string>, k: NodeKey, u: NodeUpdate)
    requires Inv(r)
    ensures Agrees(r, ns, UpdateNode(k, u)) <==> Portable(Abs(r), ns, UpdateNode(k, u))
  {
    ScopeAgrees(r, ns, k.runId);
    if k in r.nodes && !R.OutOfScope(r, ns, k.runId) {
      UpdateExistingNode(r, ns, k, u);
    }
  }

  lemma DistinctUpdates(nodes: map<NodeKey, Node>, k: NodeKey, a: Node, b: Node)
    ensures nodes[k := a] == nodes[k := b] <==> a == b
  {
    assert nodes[k := a][k] == a && nodes[k := b][k] == b;
  }

  lemma FinalizeDecodes(h: R.NodeHash, succeeded: bool, failure: Option<string>, at: int)
    requires R.DecodeNode(h).Some?
    ensures var h', n := R.PutFinalize(h, succeeded, failure, at), R.DecodeNode(h).value;
            && R.DecodeNode(h').Some? && h'.runId == h.runId && h'.nodeName == h.nodeName
            && (R.DecodeNode(h').value == T.ApplyFinalize(n, succeeded, failure, at) <==> !succeeded || n.error.None?)
  {
  }

  lemma FinalizeOnRedis(r: R.Redis, ns: Option<string>, op: Op)
    requires op.Finalize? && op.key in r.nodes && !R.OutOfScope(r, ns, op.key.runId)
    requires r.nodes[op.key].status.Some? && !Finalized(r.nodes[op.key].status.value)
    ensures var h := R.PutFinalize(r.nodes[op.key], op.succeeded, op.failure, op.at);
            R.Step(r, ns, op) == (r.(nodes := r.nodes[op.key := h]), Flag(true))
  {
  }

  lemma FinalizeOnTable(t: T.Table, ns: Option<string>, op: Op)
    requires op.Finalize? && op.key in t.nodes && !T.OutOfScope(t, ns, op.key.runId)
    requires !Finalized(t.nodes[op.key].status)
    ensures var n := T.ApplyFinalize(t.nodes[op.key], op.succeeded, op.failure, op.at);
            T.Step(t, ns, op) == (t.(nodes := t.nodes[op.key := n]), Flag(true))
  {
  }

  lemma FinalizeOpenNode(r: R.Redis, ns: Option<string>, op: Op)
    requires Inv(r) && op.Finalize? && op.key in r.nodes && !Finalized(R.DecodeNode(r.nodes[op.key]).value.status)
    requires !R.OutOfScope(r, ns, op.key.runId) && !T.OutOfScope(Abs(r), ns, op.key.runId)
    ensures Agrees(r, ns, op) <==> !op.succeeded || Abs(r).nodes[op.key].error.None?
  {
    var k, n := op.key, R.DecodeNode(r.nodes[op.key]).value;
    FinalizeOnRedis(r, ns, op);
    FinalizeOnTable(Abs(r), ns, op);
    FinalizeDecodes(r.nodes[k], op.succeeded, op.failure, op.at);
    NodePutAgrees(r, ns, op, k, R.PutFinalize(r.nodes[k], op.succeeded, op.failure, op.at),
        T.ApplyFinalize(n, op.succeeded, op.failure, op.at), Flag(true));
  }

  lemma FinalizeCase(r: R.Redis, ns: Option<string>, op: Op)
    requires Inv(r) && op.Finalize?
    ensures Agrees(r, ns, op) <==> Portable(Abs(r), ns, op)
  {
    ScopeAgrees(r, ns, op.key.runId);
    if op.key in r.nodes && !R.OutOfScope(r, ns, op.key.runId) {
      if !Finalized(R.DecodeNode(r.nodes[op.key]).value.status) { FinalizeOpenNode(r, ns, op); }
    }
  }

  lemma GetNodesCase(r: R.Redis, ns: Option<string>, op: Op)
    requires Inv(r) && op.GetNodes?
    ensures Agrees(r, ns, op)
  {
    ScopeAgrees(r, ns, op.runId);
    SameNodes(r, op.runId);
  }

  lemma SameNodes(r: R.Redis, id: string)
    requires Inv(r)
    ensures var keys := set k | k in r.runNodes && k.runId == id && k in r.nodes;
            && (forall k :: k in keys ==> R.DecodeNode(r.nodes[k]).Some?)
            && (set k | k in keys && R.DecodeNode(r.nodes[k]).Some? :: R.DecodeNode(r.nodes[k]).value) ==
               (set k | k in Abs(r).nodes && k.runId == id :: Abs(r).nodes[k])
  {
  }

  lemma GetNodeCase(r: R.Redis, ns: Option<string>, k: NodeKey)
    requires Inv(r)
    ensures Agrees(r, ns, GetNode(k))
  {
    ScopeAgrees(r, ns, k.runId);
  }

  lemma GetRunCase(r: R.Redis, ns: Option<string>, id: string)
    requires Inv(r)
    ensures Agrees(r, ns, GetRun(id))
  {
    ScopeAgrees(r, ns, id);
  }

  lemma NewNode(nodes: map<NodeKey, R.NodeHash>, n: Node)
    requires forall k :: k in nodes ==> R.DecodeNode(nodes[k]).Some?
    ensures R.DecodeNode(R.PutNode(R.NO_NODE, n)) == Some(n)
    ensures AbsNodes(nodes[KeyOf(n) := R.PutNode(R.NO_NODE, n)]) == AbsNodes(nodes)[KeyOf(n) := n]
  {
  }

  lemma AddNodeIndexes(r: R.Redis, n: Node)
    requires Inv(r) && KeyOf(n) !in r.nodes
    ensures var k := KeyOf(n);
            var r' := r.(nodes := r.nodes[k := R.PutNode(R.NO_NODE, n)], runNodes := r.runNodes + {k});
            Inv(r') && Abs(r') == Abs(r).(nodes := Abs(r).nodes[k := n])
  {
    var k, h := KeyOf(n), R.PutNode(R.NO_NODE, n);
    var r' := r.(nodes := r.nodes[k := h], runNodes := r.runNodes + {k});
    NewNode(r.nodes, n);
    assert h.runId == Some(k.runId) && h.nodeName == Some(k.name);
    assert NodesIndexed(r');
  }

  /** Redis takes any batch; it comes out as the table's when every insert is fresh. */
  lemma {:induction false} PutNodesAgrees(r: R.Redis, batch: seq<Node>)
    requires Inv(r) && T.InsertNodes(Abs(r).nodes, batch).Some?
    ensures Inv(R.PutNodes(r, batch))
    ensures Abs(R.PutNodes(r, batch)) == Abs(r).(nodes := T.InsertNodes(Abs(r).nodes, batch).value)
    decreases batch
  {
    if batch != [] {
      var k := KeyOf(batch[0]);
      AddNodeIndexes(r, batch[0]);
      PutNodesAgrees(r.(nodes := r.nodes[k := R.PutNode(R.NO_NODE, batch[0])], runNodes := r.runNodes + {k}),
          batch[1..]);
    }
  }

  lemma BatchScope(r: R.Redis, ns: Option<string>, batch: seq<Node>)
    requires Inv(r)
    ensures (exists n :: n in batch && R.OutOfScope(r, ns, n.runId)) <==>
            (exists n :: n in batch && T.OutOfScope(Abs(r), ns, n.runId))
  {
    forall n | n in batch ensures R.OutOfScope(r, ns, n.runId) == T.OutOfScope(Abs(r), ns, n.runId) {
      ScopeAgrees(r, ns, n.runId);
    }
  }

  lemma CreateOutOfScope(r: R.Redis, ns: Option<string>, batch: seq<Node>)
    requires Inv(r) && exists n :: n in batch && R.OutOfScope(r, ns, n.runId)
    ensures Agrees(r, ns, CreateNodes(batch)) && Portable(Abs(r), ns, CreateNodes(batch))
  {
    BatchScope(r, ns, batch);
    assert R.Step(r, ns, CreateNodes(batch)) == (r, Refused(RunNotFound));
    assert T.Step(Abs(r), ns, CreateNodes(batch)) == (Abs(r), Refused(RunNotFound));
  }

  lemma CreateInScope(r: R.Redis, ns: Option<string>, batch: seq<Node>)
    requires Inv(r) && !exists n :: n in batch && R.OutOfScope(r, ns, n.runId)
    ensures Agrees(r, ns, CreateNodes(batch)) <==> T.InsertNodes(Abs(r).nodes, batch).Some?
  {
    BatchScope(r, ns, batch);
    assert R.Step(r, ns, CreateNodes(batch)) == (R.PutNodes(r, batch), Done);
    var inserted := T.InsertNodes(Abs(r).nodes, batch);
    if inserted.Some? {
      PutNodesAgrees(r, batch);
      assert T.Step(Abs(r), ns, CreateNodes(batch)) == (Abs(r).(nodes := inserted.value), Done);
    } else {
      assert T.Step(Abs(r), ns, CreateNodes(batch)) == (Abs(r), Refused(Conflict));
    }
  }

  lemma CreateNodesCase(r: R.Redis, ns: Option<string>, batch: seq<Node>)
    requires Inv(r)
    ensures Agrees(r, ns, CreateNodes(batch)) <==> Portable(Abs(r), ns, CreateNodes(batch))
  {
    if exists n :: n in batch && R.OutOfScope(r, ns, n.runId) {
      CreateOutOfScope(r, ns, batch);
    } else {
      BatchScope(r, ns, batch);
      CreateInScope(r, ns, batch);
    }
  }

  // Listings

  /** Windows of a row set and of a part of it are equal exactly when the pages of keys are. */
  lemma WindowsEqual(rows: map<string, Run>, part: map<string, Run>, m: nat, n: nat, a: Option<Key>, b: Option<Key>)
    requires OwnIds(rows) && OwnIds(part)
    requires forall id :: id in part ==> id in rows && rows[id] == part[id]
    ensures Window(rows, m, a) == Window(part, n, b) <==> Page(KeysOf(rows), m, a) == Page(KeysOf(part), n, b)
  {
    var w, v := Window(rows, m, a), Window(part, n, b);
    var p, q := Page(KeysOf(rows), m, a), Page(KeysOf(part), n, b);
    WindowKeys(rows, m, a);
    WindowKeys(part, n, b);
    if p == q {
      assert forall i :: 0 <= i < |p| ==> q[i].id in part && w[i] == v[i];
    }
    if w == v {
      assert forall i :: 0 <= i < |p| ==> p[i] == q[i];
    }
  }

  /** The rows SQL joins in, cut down to the newest version of the name. */
  ghost function NewestOnly(t: T.Table, ns: Option<string>, defName: Option<string>, inState: Option<RunState>)
    : map<string, Run>
  {
    var rows := T.Matching(t, ns, defName, inState);
    map id | id in rows && NewestVersion(t, defName, rows[id]) :: rows[id]
  }

  lemma TopVersion(r: R.Redis, name: string, d: string)
    requires Inv(r) && d in r.defs && r.defs[d].name == name
    ensures var versions := set e | e in r.byName && e.name == name :: Key(r.byName[e], e.member);
            && versions != {} && Ordered(versions) != []
            && (d == Ordered(versions)[0].id <==>
                forall x :: x in r.defs && r.defs[x].name == name && x != d ==>
                  Before(Key(r.defs[x].version, x), Key(r.defs[d].version, d)))
  {
    var versions := set e | e in r.byName && e.name == name :: Key(r.byName[e], e.member);
    forall x ensures x in r.defs && r.defs[x].name == name ==> Key(r.defs[x].version, x) in versions {
      assert R.NameEntry(name, x) in r.byName <==> x in r.defs && r.defs[x].name == name;
    }
    OrderedProps(versions);
    var top := Ordered(versions)[0];
    assert top in versions && IsNewest(versions, top);
    if d != top.id {
      BeforeOrder(Key(r.defs[d].version, d), top, Key(r.defs[d].version, d));
    }
  }

  lemma CandidatesAgree(r: R.Redis, defName: Option<string>, inState: Option<RunState>, id: string)
    requires Inv(r) && id in r.runs
    ensures var run := R.DecodeRun(r.runs[id]).value;
            id in R.Candidates(r, defName, inState) <==>
              if defName.Some? then
                run.definitionId in r.defs && r.defs[run.definitionId].name == defName.value &&
                    NewestVersion(Abs(r), defName, run)
              else inState.Some? ==> run.state == inState.value
  {
    var run := R.DecodeRun(r.runs[id]).value;
    if defName.Some? {
      var name := defName.value;
      var versions := set e | e in r.byName && e.name == name :: Key(r.byName[e], e.member);
      assert R.DefEntry(run.definitionId, id) in r.byDef;
      if run.definitionId in r.defs && r.defs[run.definitionId].name == name {
        TopVersion(r, name, run.definitionId);
      } else if versions != {} {
        OrderedProps(versions);
        assert Ordered(versions)[0] in versions;
      }
    } else if inState.Some? {
      assert R.StateEntry(inState.value, id) in r.byState <==> run.state == inState.value;
    }
  }

  lemma LoadedRow(r: R.Redis, ns: Option<string>, defName: Option<string>, inState: Option<RunState>, id: string)
    requires Inv(r)
    ensures var loaded, rows := R.Loaded(r, ns, R.Candidates(r, defName, inState), inState),
            NewestOnly(Abs(r), ns, defName, inState);
            (id in loaded <==> id in rows) && (id in loaded ==> loaded[id] == rows[id])
  {
    if id in r.runs { CandidatesAgree(r, defName, inState, id); }
    LoadedFrom(r, ns, defName, inState, R.Candidates(r, defName, inState), id);
  }

  lemma LoadedFrom(r: R.Redis, ns: Option<string>, defName: Option<string>, inState: Option<RunState>,
      ids: set<string>, id: string)
    requires Inv(r)
    requires id in r.runs ==>
               var run := R.DecodeRun(r.runs[id]).value;
               (id in ids <==>
                if defName.Some? then
                  run.definitionId in r.defs && r.defs[run.definitionId].name == defName.value &&
                      NewestVersion(Abs(r), defName, run)
                else inState.Some? ==> run.state == inState.value)
    ensures var loaded, rows := R.Loaded(r, ns, ids, inState), NewestOnly(Abs(r), ns, defName, inState);
            (id in loaded <==> id in rows) && (id in loaded ==> loaded[id] == rows[id])
  {
    ScopeAgrees(r, ns, id);
  }

  lemma LoadedRows(r: R.Redis, ns: Option<string>, defName: Option<string>, inState: Option<RunState>)
    requires Inv(r)
    ensures R.Loaded(r, ns, R.Candidates(r, defName, inState), inState) == NewestOnly(Abs(r), ns, defName, inState)
  {
    var loaded := R.Loaded(r, ns, R.Candidates(r, defName, inState), inState);
    var rows := NewestOnly(Abs(r), ns, defName, inState);
    forall id ensures (id in loaded <==> id in rows) && (id in loaded ==> loaded[id] == rows[id]) {
      LoadedRow(r, ns, defName, inState, id);
    }
  }

  /** Below the sentinel cursor lie exactly the keys older than `i64::MAX`. */
  lemma SentinelCursor(k: Key)
    ensures Before(k, Key(I64_MAX, "")) <==> k.createdAt < I64_MAX
  {
  }

  function Cursor(after: Option<Key>): Key { if after.Some? then after.value else Key(I64_MAX, "") }

  ghost predicate Part(all: map<string, Run>, part: map<string, Run>) {
    forall id :: id in part ==> id in all && all[id] == part[id]
  }

  /** Pages with the sentinel over all rows and without it over a part of them agree if ... */
  lemma PagesAgree(all: map<string, Run>, part: map<string, Run>, limit: nat, after: Option<Key>)
    requires Part(all, part)
    requires after.None? ==> forall id :: id in part ==> part[id].createdAt < I64_MAX
    requires forall k :: k in Page(KeysOf(all), limit, Some(Cursor(after))) ==> k.id in part
    ensures Page(KeysOf(all), limit, Some(Cursor(after))) == Page(KeysOf(part), limit, after)
  {
    var rows, sub, c := KeysOf(all), KeysOf(part), Some(Cursor(after));
    forall k | k in sub ensures k in rows && (after.None? ==> Before(k, c.value)) { SentinelCursor(k); }
    assert Below(sub, after) == Below(sub, c);
    PageProps(rows, limit, c);
    forall k | k in Page(rows, limit, c) ensures k in sub {
      assert k in rows;
      assert k == Key(part[k.id].createdAt, k.id);
    }
    PageOfSubset(rows, sub, limit, c);
  }

  /** ... and only if. */
  lemma PagesDisagree(all: map<string, Run>, part: map<string, Run>, limit: nat, after: Option<Key>)
    requires Part(all, part) && limit > 0
    requires forall id :: id in part ==> part[id].createdAt <= I64_MAX
    requires Page(KeysOf(all), limit, Some(Cursor(after))) == Page(KeysOf(part), limit, after)
    ensures after.None? ==> forall id :: id in part ==> part[id].createdAt < I64_MAX
    ensures forall k :: k in Page(KeysOf(all), limit, Some(Cursor(after))) ==> k.id in part
  {
    var p := Page(KeysOf(part), limit, after);
    PageProps(KeysOf(all), limit, Some(Cursor(after)));
    PageProps(KeysOf(part), limit, after);
    if after.None? {
      forall id | id in part ensures part[id].createdAt < I64_MAX {
        var k := Key(part[id].createdAt, id);
        assert k in Below(KeysOf(part), None);
        SentinelCursor(k);
        assert |p| > 0 ==> p[|p| - 1] in p;
        if |p| > 0 { SentinelCursor(p[|p| - 1]); }
      }
    }
  }

  lemma PositivePageCase(t: T.Table, ns: Option<string>, op: Op)
    requires op.ListAfter? && op.limit > 0
    requires forall id :: id in t.runs ==> t.runs[id].run.createdAt <= I64_MAX
    ensures Page(KeysOf(T.Matching(t, ns, op.defName, op.inState)), op.limit, Some(Cursor(op.after))) ==
            Page(KeysOf(NewestOnly(t, ns, op.defName, op.inState)), op.limit, op.after)
            <==> PortableList(t, ns, op)
  {
    var all := T.Matching(t, ns, op.defName, op.inState);
    var part := NewestOnly(t, ns, op.defName, op.inState);
    if PortableList(t, ns, op) {
      PagesAgree(all, part, op.limit, op.after);
    }
    if Page(KeysOf(all), op.limit, Some(Cursor(op.after))) == Page(KeysOf(part), op.limit, op.after) {
      PagesDisagree(all, part, op.limit, op.after);
    }
  }

  lemma NegativeLimitCase(rows: set<Key>, cursor: Option<Key>)
    ensures Page(rows, |rows|, cursor) == [] <==> Below(rows, cursor) == {}
  {
    PageProps(rows, |rows|, cursor);
    OrderedProps(Below(rows, cursor));
    if rows == {} { assert Below(rows, cursor) == {}; }
  }

  /** The page Redis gives, read off the tables. */
  ghost function RedisPage(t: T.Table, ns: Option<string>, op: Op): seq<Run>
    requires op.ListAfter?
  {
    Window(NewestOnly(t, ns, op.defName, op.inState), if op.limit < 0 then 0 else op.limit, op.after)
  }

  lemma RedisListing(r: R.Redis, ns: Option<string>, op: Op)
    requires Inv(r) && op.ListAfter?
    ensures R.Step(r, ns, op) ==
            (r, RunPage(RedisPage(Abs(r), ns, op)))
  {
    forall id ensures !R.Corrupted(r, ns, id) { ScopeAgrees(r, ns, id); }
    LoadedRows(r, ns, op.defName, op.inState);
  }

  lemma ListingsAgree(t: T.Table, ns: Option<string>, op: Op)
    requires op.ListAfter?
    requires forall id :: id in t.runs ==> t.runs[id].run.id == id && t.runs[id].run.createdAt <= I64_MAX
    ensures T.List(t, ns, op) == RedisPage(t, ns, op) <==> PortableList(t, ns, op)
  {
    var rows := T.Matching(t, ns, op.defName, op.inState);
    var part := NewestOnly(t, ns, op.defName, op.inState);
    var cursor := Cursor(op.after);
    var m := if op.limit < 0 then |KeysOf(rows)| else op.limit;
    var n := if op.limit < 0 then 0 else op.limit;
    WindowsEqual(rows, part, m, n, Some(cursor), op.after);
    if op.limit < 0 {
      NegativeLimitCase(KeysOf(rows), Some(cursor));
    } else if op.limit > 0 {
      PositivePageCase(t, ns, op);
    }
  }

  lemma ListCase(r: R.Redis, ns: Option<string>, op: Op)
    requires Inv(r) && op.ListAfter?
    ensures Agrees(r, ns, op) <==> Portable(Abs(r), ns, op)
  {
    RedisListing(r, ns, op);
    ListingsAgree(Abs(r), ns, op);
  }

  // The theorem

  /** On consistent Redis data, an operation agrees with the tables exactly when it is portable. */
  lemma AgreesIffPortable(r: R.Redis, ns: Option<string>, op: Op)
    requires Inv(r) && Typed(op)
    ensures Agrees(r, ns, op) <==> Portable(Abs(r), ns, op)
  {
    match op
    case CreateDefinition(_) => CreateDefinitionCase(r, ns, op);
    case CreateRun(run) => CreateRunCase(r, ns, run);
    case GetRun(id) => GetRunCase(r, ns, id);
    case UpdateRunState(_, _, _) => SetRunCase(r, ns, op);
    case SetRunStarted(_, _) => SetRunCase(r, ns, op);
    case SetRunCompleted(_, _) => SetRunCase(r, ns, op);
    case ListAfter(_, _, _, _) => ListCase(r, ns, op);
    case GetChildren(p) => GetChildrenCase(r, ns, p);
    case CreateNodes(batch) => CreateNodesCase(r, ns, batch);
    case GetNode(k) => GetNodeCase(r, ns, k);
    case GetNodes(_) => GetNodesCase(r, ns, op);
    case UpdateNode(k, u) => UpdateNodeCase(r, ns, k, u);
    case Finalize(_, _, _, _) => FinalizeCase(r, ns, op);
  }

  ghost function RunRedis(r: R.Redis, calls: seq<Call>): (R.Redis, seq<Reply>)
    decreases calls
  {
    if calls == [] then (r, [])
    else
      var (r1, reply) := R.Step(r, calls[0].ns, calls[0].op);
      var (r2, replies) := RunRedis(r1, calls[1..]);
      (r2, [reply] + replies)
  }

  ghost function RunTable(t: T.Table, calls: seq<Call>): (T.Table, seq<Reply>)
    decreases calls
  {
    if calls == [] then (t, [])
    else
      var (t1, reply) := T.Step(t, calls[0].ns, calls[0].op);
      var (t2, replies) := RunTable(t1, calls[1..]);
      (t2, [reply] + replies)
  }

  ghost predicate AllPortable(t: T.Table, calls: seq<Call>)
    decreases calls
  {
    calls == [] ||
    (&& Typed(calls[0].op) && Portable(t, calls[0].ns, calls[0].op)
     && AllPortable(T.Step(t, calls[0].ns, calls[0].op).0, calls[1..]))
  }

  /** Over any run of portable calls, from any stores, Redis keeps its indexes and answers as the tables do. */
  lemma {:induction false} RedisRefinesTable(r: R.Redis, calls: seq<Call>)
    requires Inv(r) && AllPortable(Abs(r), calls)
    ensures Inv(RunRedis(r, calls).0)
    ensures (Abs(RunRedis(r, calls).0), RunRedis(r, calls).1) == RunTable(Abs(r), calls)
    decreases calls
  {
    if calls != [] {
      AgreesIffPortable(r, calls[0].ns, calls[0].op);
      RedisRefinesTable(R.Step(r, calls[0].ns, calls[0].op).0, calls[1..]);
    }
  }

  lemma EmptyIsConsistent()
    ensures Inv(R.EMPTY) && Abs(R.EMPTY) == T.EMPTY
  {
  }
}
