/**
 * Tenant isolation over Redis, where the indexes are shared by every namespace and a scoped store
 * filters what it loads. The projection drops foreign runs, their nodes and all index entries
 * that point at them.
 */
module RedisIsolation {
  import opened Prelude
  import opened Workflow
  import opened RedisStore
  import opened Calls

  /** Ids of the tenant's runs. */
  function Owned(runs: map<string, RunHash>, ns: string): set<string> {
    set id | id in runs && runs[id].namespace == Some(ns)
  }

  predicate Mine(r: Redis, ns: string, id: string) { id in Owned(r.runs, ns) }

  // Each structure cut to the runs in `own`, or with `inside` false to all others

  function CutRuns(m: map<string, RunHash>, own: set<string>, inside: bool): map<string, RunHash> {
    map id | id in m && (id in own) == inside :: m[id]
  }
  function CutAll(m: map<string, int>, own: set<string>, inside: bool): map<string, int> {
    map id | id in m && (id in own) == inside :: m[id]
  }
  function CutByState(m: map<StateEntry, int>, own: set<string>, inside: bool): map<StateEntry, int> {
    map e | e in m && (e.member in own) == inside :: m[e]
  }
  function CutByDef(m: map<DefEntry, int>, own: set<string>, inside: bool): map<DefEntry, int> {
    map e | e in m && (e.member in own) == inside :: m[e]
  }
  function CutChildren(s: set<ChildEntry>, own: set<string>, inside: bool): set<ChildEntry> {
    set e | e in s && (e.member in own) == inside
  }
  function CutNodes(m: map<NodeKey, NodeHash>, own: set<string>, inside: bool): map<NodeKey, NodeHash> {
    map k | k in m && (k.runId in own) == inside :: m[k]
  }
  function CutRunNodes(s: set<NodeKey>, own: set<string>, inside: bool): set<NodeKey> {
    set k | k in s && (k.runId in own) == inside
  }

  function Cut(r: Redis, own: set<string>, inside: bool): Redis {
    Redis(r.defs, r.byName, CutRuns(r.runs, own, inside), CutAll(r.all, own, inside),
          CutByState(r.byState, own, inside), CutByDef(r.byDef, own, inside), CutChildren(r.children, own, inside),
          CutNodes(r.nodes, own, inside), CutRunNodes(r.runNodes, own, inside))
  }

  /** What exists for `ns`; definitions are shared by every tenant. */
  function Project(r: Redis, ns: string): Redis { Cut(r, Owned(r.runs, ns), true) }

  /** Foreign runs, their nodes and the index entries that point at them. */
  function Foreign(r: Redis, ns: string): Redis { Cut(r, Owned(r.runs, ns), false).(defs := map[], byName := map[]) }

  /** Index entries and nodes belong to runs that exist. */
  ghost predicate Anchored(r: Redis) {
    && r.all.Keys <= r.runs.Keys
    && (forall e :: e in r.byState ==> e.member in r.runs)
    && (forall e :: e in r.byDef ==> e.member in r.runs)
    && (forall e :: e in r.children ==> e.member in r.runs)
    && (forall k :: k in r.nodes ==> k.runId in r.runs)
    && (forall k :: k in r.runNodes ==> k.runId in r.runs)
  }

  ghost predicate TakesForeignId(r: Redis, ns: string, op: Op) {
    op.CreateRun? &&
    !(op.run.parentRunId.Some? && OutOfScope(r, Some(ns), op.run.parentRunId.value)) &&
    op.run.id in r.runs && !Mine(r, ns, op.run.id)
  }

  ghost predicate Commutes(r: Redis, ns: string, op: Op) {
    var (r', reply) := Step(r, Some(ns), op);
    (Project(r', ns), reply) == Step(Project(r, ns), Some(ns), op)
  }

  lemma ScopeProjects(r: Redis, ns: string, id: string)
    ensures OutOfScope(r, Some(ns), id) == !Mine(r, ns, id) == OutOfScope(Project(r, ns), Some(ns), id)
    ensures Visible(r, Some(ns), id) == Mine(r, ns, id)
    ensures Visible(r, Some(ns), id) == Visible(Project(r, ns), Some(ns), id)
    ensures Mine(r, ns, id) ==> RunHashOf(Project(r, ns), id) == RunHashOf(r, id)
    ensures Corrupted(r, Some(ns), id) == Corrupted(Project(r, ns), Some(ns), id)
  {
  }

  lemma LoadedProjects(r: Redis, ns: string, ids: set<string>, own: set<string>, inState: Option<RunState>)
    requires forall id :: Mine(r, ns, id) ==> (id in ids <==> id in own)
    ensures Loaded(Project(r, ns), Some(ns), own, inState) == Loaded(r, Some(ns), ids, inState)
    ensures (exists id :: id in ids && Corrupted(r, Some(ns), id)) <==>
            (exists id :: id in own && Corrupted(Project(r, ns), Some(ns), id))
  {
    forall id
      ensures Visible(r, Some(ns), id) == Visible(Project(r, ns), Some(ns), id)
      ensures Corrupted(r, Some(ns), id) == Corrupted(Project(r, ns), Some(ns), id)
      ensures Corrupted(r, Some(ns), id) ==> Mine(r, ns, id)
    {
      ScopeProjects(r, ns, id);
    }
  }

  lemma CandidatesProject(r: Redis, ns: string, defName: Option<string>, inState: Option<RunState>, id: string)
    requires Mine(r, ns, id)
    ensures id in Candidates(r, defName, inState) <==> id in Candidates(Project(r, ns), defName, inState)
  {
    var q := Project(r, ns);
    assert forall e :: e in r.byDef && e.member == id <==> e in q.byDef && e.member == id;
    assert forall e :: e in r.byState && e.member == id <==> e in q.byState && e.member == id;
  }

  lemma ListCommutes(r: Redis, ns: string, op: Op)
    requires op.ListAfter?
    ensures Commutes(r, ns, op)
  {
    forall id | Mine(r, ns, id)
      ensures id in Candidates(r, op.defName, op.inState) <==> id in Candidates(Project(r, ns), op.defName, op.inState)
    {
      CandidatesProject(r, ns, op.defName, op.inState, id);
    }
    LoadedProjects(r, ns, Candidates(r, op.defName, op.inState), Candidates(Project(r, ns), op.defName, op.inState),
        op.inState);
  }

  lemma ChildrenCommute(r: Redis, ns: string, p: string)
    ensures Commutes(r, ns, GetChildren(p))
  {
    var q := Project(r, ns);
    var ids := set e | e in r.children && e.parent == p :: e.member;
    var own := set e | e in q.children && e.parent == p :: e.member;
    forall id | Mine(r, ns, id) ensures id in ids <==> id in own {
      assert id in ids <==> ChildEntry(p, id) in r.children;
      assert id in own <==> ChildEntry(p, id) in q.children;
    }
    LoadedProjects(r, ns, ids, own, None);
  }

  /** The node keys of a run `GetNodes` reads. */
  function NodeKeys(r: Redis, id: string): set<NodeKey> { set k | k in r.runNodes && k.runId == id && k in r.nodes }

  lemma NodeKeysProject(r: Redis, ns: string, id: string)
    requires Mine(r, ns, id)
    ensures NodeKeys(Project(r, ns), id) == NodeKeys(r, id)
    ensures forall k :: k in NodeKeys(r, id) ==> k in Project(r, ns).nodes && Project(r, ns).nodes[k] == r.nodes[k]
  {
  }

  lemma NodesCommute(r: Redis, ns: string, id: string)
    ensures Commutes(r, ns, GetNodes(id))
  {
    var q := Project(r, ns);
    ScopeProjects(r, ns, id);
    if Mine(r, ns, id) {
      NodeKeysProject(r, ns, id);
      var keys := NodeKeys(r, id);
      assert (set k | k in keys && DecodeNode(r.nodes[k]).Some? :: DecodeNode(r.nodes[k]).value) ==
             (set k | k in keys && DecodeNode(q.nodes[k]).Some? :: DecodeNode(q.nodes[k]).value);
    }
  }

  lemma GetRunCommutes(r: Redis, ns: string, id: string)
    ensures Commutes(r, ns, GetRun(id))
  {
    ScopeProjects(r, ns, id);
  }

  lemma GetNodeCommutes(r: Redis, ns: string, k: NodeKey)
    ensures Commutes(r, ns, GetNode(k))
  {
    ScopeProjects(r, ns, k.runId);
  }

  // Writes, structure by structure

  lemma OwnedPut(runs: map<string, RunHash>, ns: string, id: string, h: RunHash)
    requires h.namespace == Some(ns)
    ensures Owned(runs[id := h], ns) == Owned(runs, ns) + {id}
  {
  }

  lemma CutRunsPut(m: map<string, RunHash>, own: set<string>, id: string, h: RunHash)
    requires id in m ==> id in own
    ensures CutRuns(m[id := h], own + {id}, true) == CutRuns(m, own, true)[id := h]
    ensures CutRuns(m[id := h], own + {id}, false) == CutRuns(m, own, false)
  {
  }

  lemma CutAllPut(m: map<string, int>, own: set<string>, id: string, score: int)
    requires id in m ==> id in own
    ensures CutAll(m[id := score], own + {id}, true) == CutAll(m, own, true)[id := score]
    ensures CutAll(m[id := score], own + {id}, false) == CutAll(m, own, false)
  {
  }

  lemma CutByStatePut(m: map<StateEntry, int>, own: set<string>, x: StateEntry, score: int)
    requires forall e :: e in m && e.member == x.member ==> x.member in own
    ensures CutByState(m[x := score], own + {x.member}, true) == CutByState(m, own, true)[x := score]
    ensures CutByState(m[x := score], own + {x.member}, false) == CutByState(m, own, false)
  {
  }

  lemma CutByStateDrop(m: map<StateEntry, int>, own: set<string>, x: StateEntry)
    requires x.member in own
    ensures CutByState(m - {x}, own, true) == CutByState(m, own, true) - {x}
    ensures CutByState(m - {x}, own, false) == CutByState(m, own, false)
  {
  }

  lemma CutByDefPut(m: map<DefEntry, int>, own: set<string>, x: DefEntry, score: int)
    requires forall e :: e in m && e.member == x.member ==> x.member in own
    ensures CutByDef(m[x := score], own + {x.member}, true) == CutByDef(m, own, true)[x := score]
    ensures CutByDef(m[x := score], own + {x.member}, false) == CutByDef(m, own, false)
  {
  }

  lemma CutChildrenPut(s: set<ChildEntry>, own: set<string>, id: string, more: set<ChildEntry>)
    requires forall e :: e in s && e.member == id ==> id in own
    requires forall e :: e in more ==> e.member == id
    ensures CutChildren(s + more, own + {id}, true) == CutChildren(s, own, true) + more
    ensures CutChildren(s + more, own + {id}, false) == CutChildren(s, own, false)
  {
  }

  lemma CutNodesPut(m: map<NodeKey, NodeHash>, own: set<string>, k: NodeKey, h: NodeHash)
    requires k.runId in own
    ensures CutNodes(m[k := h], own, true) == CutNodes(m, own, true)[k := h]
    ensures CutNodes(m[k := h], own, false) == CutNodes(m, own, false)
  {
  }

  lemma CutRunNodesPut(s: set<NodeKey>, own: set<string>, k: NodeKey)
    requires k.runId in own
    ensures CutRunNodes(s + {k}, own, true) == CutRunNodes(s, own, true) + {k}
    ensures CutRunNodes(s + {k}, own, false) == CutRunNodes(s, own, false)
  {
  }

  /** A run new to the tenant brings no nodes along. */
  lemma CutNodesGrow(r: Redis, own: set<string>, id: string)
    requires Anchored(r) && (id in r.runs ==> id in own)
    ensures forall b :: CutNodes(r.nodes, own + {id}, b) == CutNodes(r.nodes, own, b)
    ensures forall b :: CutRunNodes(r.runNodes, own + {id}, b) == CutRunNodes(r.runNodes, own, b)
  {
  }

  lemma MoveStateCommutes(m: map<StateEntry, int>, own: set<string>, id: string, was: Option<RunState>,
      at: Option<int>, to: RunState)
    requires id in own
    ensures CutByState(MoveState(m, id, was, at, to), own, true) == MoveState(CutByState(m, own, true), id, was, at, to)
    ensures CutByState(MoveState(m, id, was, at, to), own, false) == CutByState(m, own, false)
  {
    if was.Some? && at.Some? && was.value != to {
      CutByStateDrop(m, own, StateEntry(was.value, id));
      CutByStatePut(m - {StateEntry(was.value, id)}, own, StateEntry(to, id), at.value);
      assert own + {id} == own;
    }
  }

  lemma SetStateCommutes(r: Redis, ns: string, id: string, to: RunState, h: RunHash)
    requires Mine(r, ns, id) && h.namespace == Some(ns)
    ensures Project(SetState(r, id, to, h), ns) == SetState(Project(r, ns), id, to, h)
    ensures Foreign(SetState(r, id, to, h), ns) == Foreign(r, ns)
  {
    var own, o := Owned(r.runs, ns), RunHashOf(r, id);
    ScopeProjects(r, ns, id);
    OwnedPut(r.runs, ns, id, h);
    assert own + {id} == own;
    CutRunsPut(r.runs, own, id, h);
    MoveStateCommutes(r.byState, own, id, o.state, o.createdAt, to);
  }

  lemma PutHashProjects(r: Redis, ns: string, id: string, h: RunHash)
    requires Mine(r, ns, id) && h.namespace == Some(ns)
    ensures var r' := r.(runs := r.runs[id := h]);
            && Project(r', ns) == Project(r, ns).(runs := Project(r, ns).runs[id := h])
            && Foreign(r', ns) == Foreign(r, ns)
  {
    var own := Owned(r.runs, ns);
    OwnedPut(r.runs, ns, id, h);
    assert own + {id} == own;
    CutRunsPut(r.runs, own, id, h);
  }

  lemma UpdateRunStateCommutes(r: Redis, ns: string, id: string, to: RunState, e: Option<string>)
    ensures Commutes(r, ns, UpdateRunState(id, to, e))
    ensures Foreign(Step(r, Some(ns), UpdateRunState(id, to, e)).0, ns) == Foreign(r, ns)
  {
    ScopeProjects(r, ns, id);
    if Mine(r, ns, id) { SetStateCommutes(r, ns, id, to, RunHashOf(r, id).(state := Some(to), error := e)); }
  }

  lemma SetRunStartedCommutes(r: Redis, ns: string, id: string, at: int)
    ensures Commutes(r, ns, SetRunStarted(id, at))
    ensures Foreign(Step(r, Some(ns), SetRunStarted(id, at)).0, ns) == Foreign(r, ns)
  {
    ScopeProjects(r, ns, id);
    if Mine(r, ns, id) {
      SetStateCommutes(r, ns, id, RunState.Running,
          RunHashOf(r, id).(state := Some(RunState.Running), startedAt := Some(at)));
    }
  }

  lemma SetRunCompletedCommutes(r: Redis, ns: string, id: string, at: int)
    ensures Commutes(r, ns, SetRunCompleted(id, at))
    ensures Foreign(Step(r, Some(ns), SetRunCompleted(id, at)).0, ns) == Foreign(r, ns)
  {
    ScopeProjects(r, ns, id);
    if Mine(r, ns, id) { PutHashProjects(r, ns, id, RunHashOf(r, id).(completedAt := Some(at))); }
  }

  lemma PutNodeProjects(r: Redis, ns: string, k: NodeKey, h: NodeHash)
    requires Mine(r, ns, k.runId)
    ensures var r' := r.(nodes := r.nodes[k := h]);
            && Project(r', ns) == Project(r, ns).(nodes := Project(r, ns).nodes[k := h])
            && Foreign(r', ns) == Foreign(r, ns)
    ensures NodeHashOf(Project(r, ns), k) == NodeHashOf(r, k)
  {
    CutNodesPut(r.nodes, Owned(r.runs, ns), k, h);
  }

  lemma AddNodeProjects(r: Redis, ns: string, k: NodeKey, h: NodeHash)
    requires Mine(r, ns, k.runId)
    ensures var r' := r.(nodes := r.nodes[k := h], runNodes := r.runNodes + {k});
            && Project(r', ns) ==
               Project(r, ns).(nodes := Project(r, ns).nodes[k := h], runNodes := Project(r, ns).runNodes + {k})
            && Foreign(r', ns) == Foreign(r, ns)
    ensures NodeHashOf(Project(r, ns), k) == NodeHashOf(r, k)
  {
    CutNodesPut(r.nodes, Owned(r.runs, ns), k, h);
    CutRunNodesPut(r.runNodes, Owned(r.runs, ns), k);
  }

  lemma UpdateNodeCommutes(r: Redis, ns: string, k: NodeKey, u: NodeUpdate)
    ensures Commutes(r, ns, UpdateNode(k, u)) && Foreign(Step(r, Some(ns), UpdateNode(k, u)).0, ns) == Foreign(r, ns)
  {
    ScopeProjects(r, ns, k.runId);
    if Mine(r, ns, k.runId) && k in r.nodes {
      PutNodeProjects(r, ns, k, PutUpdate(r.nodes[k], u));
    }
  }

  lemma FinalizeCommutes(r: Redis, ns: string, op: Op)
    requires op.Finalize?
    ensures Commutes(r, ns, op) && Foreign(Step(r, Some(ns), op).0, ns) == Foreign(r, ns)
  {
    var k := op.key;
    var (r', reply) := Step(r, Some(ns), op);
    ScopeProjects(r, ns, k.runId);
    if reply == Flag(true) {
      assert r' == r.(nodes := r.nodes[k := r'.nodes[k]]);
      PutNodeProjects(r, ns, k, r'.nodes[k]);
      assert NodeHashOf(Project(r, ns), k) == NodeHashOf(r, k);
    } else {
      assert r' == r;
    }
  }

  lemma {:induction false} PutNodesProjects(r: Redis, ns: string, batch: seq<Node>)
    requires forall n :: n in batch ==> Mine(r, ns, n.runId)
    ensures Project(PutNodes(r, batch), ns) == PutNodes(Project(r, ns), batch)
    ensures Foreign(PutNodes(r, batch), ns) == Foreign(r, ns)
    decreases batch
  {
    if batch != [] {
      var k := KeyOf(batch[0]);
      assert batch[0] in batch && Mine(r, ns, k.runId);
      var h := PutNode(NodeHashOf(r, k), batch[0]);
      AddNodeProjects(r, ns, k, h);
      var r' := r.(nodes := r.nodes[k := h], runNodes := r.runNodes + {k});
      assert forall n :: n in batch[1..] ==> Mine(r', ns, n.runId);
      PutNodesProjects(r', ns, batch[1..]);
    }
  }

  lemma CreateNodesCommutes(r: Redis, ns: string, batch: seq<Node>)
    ensures Commutes(r, ns, CreateNodes(batch)) &&
            Foreign(Step(r, Some(ns), CreateNodes(batch)).0, ns) == Foreign(r, ns)
  {
    forall id ensures OutOfScope(r, Some(ns), id) == !Mine(r, ns, id) == OutOfScope(Project(r, ns), Some(ns), id) {
      ScopeProjects(r, ns, id);
    }
    if forall n :: n in batch ==> Mine(r, ns, n.runId) { PutNodesProjects(r, ns, batch); }
  }

  /** The indexes of a run new to the tenant, or already its own. */
  lemma CutIndexesPut(r: Redis, own: set<string>, run: Run)
    requires Anchored(r) && (run.id in r.runs ==> run.id in own)
    ensures var id := run.id;
            var more := if run.parentRunId.Some? then {ChildEntry(run.parentRunId.value, id)} else {};
            var s, d, at := StateEntry(run.state, id), DefEntry(run.definitionId, id), run.createdAt;
            && CutAll(r.all[id := at], own + {id}, true) == CutAll(r.all, own, true)[id := at]
            && CutAll(r.all[id := at], own + {id}, false) == CutAll(r.all, own, false)
            && CutByState(r.byState[s := at], own + {id}, true) == CutByState(r.byState, own, true)[s := at]
            && CutByState(r.byState[s := at], own + {id}, false) == CutByState(r.byState, own, false)
            && CutByDef(r.byDef[d := at], own + {id}, true) == CutByDef(r.byDef, own, true)[d := at]
            && CutByDef(r.byDef[d := at], own + {id}, false) == CutByDef(r.byDef, own, false)
            && CutChildren(r.children + more, own + {id}, true) == CutChildren(r.children, own, true) + more
            && CutChildren(r.children + more, own + {id}, false) == CutChildren(r.children, own, false)
  {
    var id := run.id;
    CutAllPut(r.all, own, id, run.createdAt);
    CutByStatePut(r.byState, own, StateEntry(run.state, id), run.createdAt);
    CutByDefPut(r.byDef, own, DefEntry(run.definitionId, id), run.createdAt);
    CutChildrenPut(r.children, own, id, if run.parentRunId.Some? then {ChildEntry(run.parentRunId.value, id)} else {});
  }

  lemma AddRunProjects(r: Redis, ns: string, run: Run)
    requires Anchored(r) && (run.id in r.runs ==> Mine(r, ns, run.id))
    ensures Project(AddRun(r, Some(ns), run), ns) == AddRun(Project(r, ns), Some(ns), run)
    ensures Foreign(AddRun(r, Some(ns), run), ns) == Foreign(r, ns)
  {
    var own, id := Owned(r.runs, ns), run.id;
    var h := PutRun(RunHashOf(r, id), run, Some(ns));
    assert RunHashOf(Project(r, ns), id) == RunHashOf(r, id);
    OwnedPut(r.runs, ns, id, h);
    CutRunsPut(r.runs, own, id, h);
    CutNodesGrow(r, own, id);
    CutIndexesPut(r, own, run);
    var r' := AddRun(r, Some(ns), run);
    assert r'.runs == r.runs[id := h];
    assert Project(r', ns) == Cut(r', own + {id}, true);
  }

  lemma CreateRunCommutes(r: Redis, ns: string, run: Run)
    requires Anchored(r)
    ensures Commutes(r, ns, CreateRun(run)) <==> !TakesForeignId(r, ns, CreateRun(run))
    ensures Foreign(Step(r, Some(ns), CreateRun(run)).0, ns) == Foreign(r, ns)
  {
    if run.parentRunId.Some? { ScopeProjects(r, ns, run.parentRunId.value); }
    ScopeProjects(r, ns, run.id);
    if run.parentRunId.Some? && OutOfScope(r, Some(ns), run.parentRunId.value) {
      assert Step(r, Some(ns), CreateRun(run)) == (r, Refused(ParentNotFound));
    } else if run.id !in r.runs || Mine(r, ns, run.id) {
      AddRunProjects(r, ns, run);
      assert Step(r, Some(ns), CreateRun(run)) == (AddRun(r, Some(ns), run), Done);
    } else {
      assert Step(r, Some(ns), CreateRun(run)) == (r, Refused(Conflict));
    }
  }

  lemma CreateDefinitionCommutes(r: Redis, ns: string, d: Definition)
    ensures Commutes(r, ns, CreateDefinition(d)) &&
            Foreign(Step(r, Some(ns), CreateDefinition(d)).0, ns) == Foreign(r, ns)
  {
  }

  lemma ReadsCommute(r: Redis, ns: string, op: Op)
    requires op.GetRun? || op.ListAfter? || op.GetChildren? || op.GetNode? || op.GetNodes?
    ensures Commutes(r, ns, op) && Step(r, Some(ns), op).0 == r
  {
    match op
    case GetRun(id) => GetRunCommutes(r, ns, id);
    case ListAfter(_, _, _, _) => ListCommutes(r, ns, op);
    case GetChildren(p) => ChildrenCommute(r, ns, p);
    case GetNode(k) => GetNodeCommutes(r, ns, k);
    case GetNodes(id) => NodesCommute(r, ns, id);
  }

  /** A scoped call acts on its own tenant's projection and on nothing else, unless the run id is taken elsewhere. */
  lemma StepIsolated(r: Redis, ns: string, op: Op)
    requires Anchored(r)
    ensures Commutes(r, ns, op) <==> !TakesForeignId(r, ns, op)
    ensures Foreign(Step(r, Some(ns), op).0, ns) == Foreign(r, ns)
  {
    match op
    case CreateDefinition(d) => CreateDefinitionCommutes(r, ns, d);
    case CreateRun(run) => CreateRunCommutes(r, ns, run);
    case CreateNodes(batch) => CreateNodesCommutes(r, ns, batch);
    case UpdateRunState(id, to, e) => UpdateRunStateCommutes(r, ns, id, to, e);
    case SetRunStarted(id, at) => SetRunStartedCommutes(r, ns, id, at);
    case SetRunCompleted(id, at) => SetRunCompletedCommutes(r, ns, id, at);
    case UpdateNode(k, u) => UpdateNodeCommutes(r, ns, k, u);
    case Finalize(_, _, _, _) => FinalizeCommutes(r, ns, op);
    case _ => ReadsCommute(r, ns, op);
  }

  // Whole runs

  lemma {:induction false} PutNodesAnchored(r: Redis, batch: seq<Node>)
    requires Anchored(r) && forall n :: n in batch ==> n.runId in r.runs
    ensures Anchored(PutNodes(r, batch))
    decreases batch
  {
    if batch != [] {
      var k := KeyOf(batch[0]);
      assert batch[0] in batch;
      PutNodesAnchored(r.(nodes := r.nodes[k := PutNode(NodeHashOf(r, k), batch[0])], runNodes := r.runNodes + {k}),
          batch[1..]);
    }
  }

  lemma AddRunAnchored(r: Redis, ns: Option<string>, run: Run)
    requires Anchored(r)
    ensures Anchored(AddRun(r, ns, run))
  {
  }

  lemma SetStateAnchored(r: Redis, id: string, to: RunState, h: RunHash)
    requires Anchored(r)
    ensures Anchored(SetState(r, id, to, h))
  {
  }

  lemma NodeWriteAnchored(r: Redis, ns: string, op: Op)
    requires Anchored(r) && (op.UpdateNode? || op.Finalize?)
    ensures Anchored(Step(r, Some(ns), op).0)
  {
    var r' := Step(r, Some(ns), op).0;
    assert r' == r.(nodes := r'.nodes);
    assert forall k :: k in r'.nodes ==> k in r.nodes || (k == op.key && k.runId in r.runs);
  }

  lemma SetCompletedAnchored(r: Redis, ns: string, op: Op)
    requires Anchored(r) && op.SetRunCompleted?
    ensures Anchored(Step(r, Some(ns), op).0)
  {
    var r' := Step(r, Some(ns), op).0;
    assert r' == r.(runs := r'.runs) && r.runs.Keys <= r'.runs.Keys;
  }

  lemma StepKeepsAnchored(r: Redis, ns: string, op: Op)
    requires Anchored(r)
    ensures Anchored(Step(r, Some(ns), op).0)
  {
    if op.CreateRun? {
      AddRunAnchored(r, Some(ns), op.run);
    } else if op.UpdateRunState? {
      SetStateAnchored(r, op.runId, op.to, RunHashOf(r, op.runId).(state := Some(op.to), error := op.runError));
    } else if op.SetRunStarted? {
      var h := RunHashOf(r, op.runId).(state := Some(RunState.Running), startedAt := Some(op.at));
      SetStateAnchored(r, op.runId, RunState.Running, h);
    } else if op.SetRunCompleted? {
      SetCompletedAnchored(r, ns, op);
    } else if op.CreateNodes? {
      if forall n :: n in op.batch ==> !OutOfScope(r, Some(ns), n.runId) { PutNodesAnchored(r, op.batch); }
    } else if op.UpdateNode? || op.Finalize? {
      NodeWriteAnchored(r, ns, op);
    }
  }

  /** Cutting away another tenant's runs first makes no difference. */
  lemma CutOfCut(r: Redis, own: set<string>, other: set<string>)
    requires own !! other
    ensures Cut(Cut(r, other, false), own, true) == Cut(r, own, true)
  {
    var f := Cut(r, other, false);
    assert CutRuns(f.runs, own, true) == CutRuns(r.runs, own, true);
    assert CutAll(f.all, own, true) == CutAll(r.all, own, true);
    assert CutByState(f.byState, own, true) == CutByState(r.byState, own, true);
    assert CutByDef(f.byDef, own, true) == CutByDef(r.byDef, own, true);
    assert CutChildren(f.children, own, true) == CutChildren(r.children, own, true);
    assert CutNodes(f.nodes, own, true) == CutNodes(r.nodes, own, true);
    assert CutRunNodes(f.runNodes, own, true) == CutRunNodes(r.runNodes, own, true);
  }

  /** One tenant's data is among what is foreign to any other. */
  lemma ProjectOfForeign(r: Redis, ns: string, other: string)
    requires other != ns
    ensures Project(Foreign(r, other), ns) == Project(r, ns).(defs := map[], byName := map[])
  {
    var own, theirs := Owned(r.runs, ns), Owned(r.runs, other);
    assert Owned(CutRuns(r.runs, theirs, false), ns) == own;
    CutOfCut(r, own, theirs);
  }

  lemma StepKeepsDefs(r: Redis, ns: Option<string>, op: Op)
    requires !op.CreateDefinition?
    ensures Step(r, ns, op).0.defs == r.defs && Step(r, ns, op).0.byName == r.byName
  {
    if op.CreateNodes? { PutNodesKeepsRest(r, op.batch); }
  }

  lemma OthersInvisible(r: Redis, ns: string, other: string, op: Op)
    requires Anchored(r) && other != ns && !op.CreateDefinition?
    ensures Project(Step(r, Some(other), op).0, ns) == Project(r, ns)
  {
    StepIsolated(r, other, op);
    StepKeepsDefs(r, Some(other), op);
    ProjectOfForeign(r, ns, other);
    ProjectOfForeign(Step(r, Some(other), op).0, ns, other);
    SameUpToDefs(Project(Step(r, Some(other), op).0, ns), Project(r, ns));
  }

  lemma SameUpToDefs(a: Redis, b: Redis)
    requires a.(defs := map[], byName := map[]) == b.(defs := map[], byName := map[])
    requires a.defs == b.defs && a.byName == b.byName
    ensures a == b
  {
    assert a == a.(defs := map[], byName := map[]).(defs := a.defs, byName := a.byName);
  }

  /** Answers, in the run of `calls` from `r`, to those that concern `ns`. */
  ghost function Answers(r: Redis, calls: seq<Call>, ns: string): seq<Reply>
    decreases calls
  {
    if calls == [] then []
    else
      var (r', reply) := Step(r, calls[0].ns, calls[0].op);
      (if Concerns(calls[0], ns) then [reply] else []) + Answers(r', calls[1..], ns)
  }

  ghost predicate FreshIds(r: Redis, calls: seq<Call>, ns: string)
    decreases calls
  {
    calls == [] ||
    (&& (calls[0].ns == Some(ns) ==> !TakesForeignId(r, ns, calls[0].op))
     && FreshIds(Step(r, calls[0].ns, calls[0].op).0, calls[1..], ns))
  }

  /** As over the tables: one tenant is answered as if the other tenants had never been there. */
  lemma {:induction false} TenantIsolation(r: Redis, calls: seq<Call>, ns: string)
    requires Anchored(r) && FreshIds(r, calls, ns)
    requires forall c :: c in calls ==> c.ns.Some?
    ensures Answers(r, calls, ns) == Answers(Project(r, ns), Own(calls, ns), ns)
    ensures Project(RunCalls(r, calls), ns) == RunCalls(Project(r, ns), Own(calls, ns))
    decreases calls
  {
    if calls != [] {
      var c, rest := calls[0], calls[1..];
      assert c in calls;
      var r' := Step(r, c.ns, c.op).0;
      StepKeepsAnchored(r, c.ns.value, c.op);
      assert forall x :: x in rest ==> x in calls;
      TenantIsolation(r', rest, ns);
      if Concerns(c, ns) {
        StepIsolated(r, ns, c.op);
        if c.op.CreateDefinition? {
          assert Step(r, c.ns, c.op) == Step(r, Some(ns), c.op);
          assert Step(Project(r, ns), c.ns, c.op) == Step(Project(r, ns), Some(ns), c.op);
        }
        var own := Own(calls, ns);
        assert own == [c] + Own(rest, ns);
        assert own[1..] == Own(rest, ns);
      } else {
        OthersInvisible(r, ns, c.ns.value, c.op);
        assert Own(calls, ns) == Own(rest, ns);
      }
    }
  }
}
