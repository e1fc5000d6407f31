/**
 * The workflow store over Redis hashes and hand-kept indexes. A sorted set family such as
 * `runs:by_state:{state}` is one map from `(state, member)` to score, a set family one set of
 * pairs, so that an empty set and an absent key are the same thing, as they are in Redis.
 */
module RedisStore {
  import opened Prelude
  import opened Keyset
  import opened Workflow
  import opened Calls

  /** Fields present in `wf:run:{id}`. */
  datatype RunHash = RunHash(
    id: Option<string>, definitionId: Option<string>, params: Option<string>, state: Option<RunState>,
    startedAt: Option<int>, completedAt: Option<int>, error: Option<string>,
    parentRunId: Option<string>, parentNodeName: Option<string>, namespace: Option<string>,
    createdAt: Option<int>)

  const NO_RUN := RunHash(None, None, None, None, None, None, None, None, None, None, None)

  /** Fields present in `wf:node:{run}:{name}`. */
  datatype NodeHash = NodeHash(
    id: Option<string>, runId: Option<string>, nodeName: Option<string>, jobId: Option<string>,
    status: Option<NodeStatus>, resultHash: Option<string>, fanOutCount: Option<int>,
    fanInData: Option<string>, startedAt: Option<int>, completedAt: Option<int>, error: Option<string>,
    compensationJobId: Option<string>, compensationStartedAt: Option<int>,
    compensationCompletedAt: Option<int>, compensationError: Option<string>)

  const NO_NODE := NodeHash(None, None, None, None, None, None, None, None, None, None, None, None, None, None, None)

  datatype StateEntry = StateEntry(state: RunState, member: string)
  datatype DefEntry = DefEntry(definitionId: string, member: string)
  datatype NameEntry = NameEntry(name: string, member: string)
  datatype ChildEntry = ChildEntry(parent: string, member: string)

  datatype Redis = Redis(
    defs: map<string, Definition>,       // wf:def:{id}
    byName: map<NameEntry, int>,         // wf:def:by_name:{name}, score version
    runs: map<string, RunHash>,          // wf:run:{id}
    all: map<string, int>,               // wf:runs:all, score created_at
    byState: map<StateEntry, int>,       // wf:runs:by_state:{state}
    byDef: map<DefEntry, int>,           // wf:runs:by_def:{definition}
    children: set<ChildEntry>,           // wf:children:{parent}
    nodes: map<NodeKey, NodeHash>,       // wf:node:{run}:{name}
    runNodes: set<NodeKey>)              // wf:run_nodes:{run}

  const EMPTY := Redis(map[], map[], map[], map[], map[], map[], {}, map[], {})

  function RunHashOf(r: Redis, id: string): RunHash { if id in r.runs then r.runs[id] else NO_RUN }

  function NodeHashOf(r: Redis, k: NodeKey): NodeHash { if k in r.nodes then r.nodes[k] else NO_NODE }

  predicate OutOfScope(r: Redis, ns: Option<string>, runId: string) {
    ns.Some? && RunHashOf(r, runId).namespace != ns
  }

  function Or<T>(a: Option<T>, b: Option<T>): Option<T> { if a.Some? then a else b }

  // Decoding

  function DecodeRun(h: RunHash): Option<Run> {
    if h.id.None? || h.definitionId.None? || h.state.None? || h.createdAt.None? then None
    else Some(Run(h.id.value, h.definitionId.value, h.params, h.state.value, h.startedAt, h.completedAt,
                  h.error, h.parentRunId, h.parentNodeName, h.createdAt.value))
  }

  function DecodeNode(h: NodeHash): Option<Node> {
    if h.id.None? || h.runId.None? || h.nodeName.None? || h.status.None? then None
    else Some(Node(h.id.value, h.runId.value, h.nodeName.value, h.jobId, h.status.value, h.resultHash,
                   h.fanOutCount, h.fanInData, h.startedAt, h.completedAt, h.error, h.compensationJobId,
                   h.compensationStartedAt, h.compensationCompletedAt, h.compensationError))
  }

  // HSET of a record: fields the record leaves out keep what the hash had

  function PutRun(h: RunHash, run: Run, ns: Option<string>): RunHash {
    RunHash(Some(run.id), Some(run.definitionId), Or(run.params, h.params), Some(run.state),
            Or(run.startedAt, h.startedAt), Or(run.completedAt, h.completedAt), Or(run.error, h.error),
            Or(run.parentRunId, h.parentRunId), Or(run.parentNodeName, h.parentNodeName),
            Or(ns, h.namespace), Some(run.createdAt))
  }

  function PutNode(h: NodeHash, n: Node): NodeHash {
    NodeHash(Some(n.id), Some(n.runId), Some(n.nodeName), Or(n.jobId, h.jobId), Some(n.status),
             Or(n.resultHash, h.resultHash), Or(n.fanOutCount, h.fanOutCount), Or(n.fanInData, h.fanInData),
             Or(n.startedAt, h.startedAt), Or(n.completedAt, h.completedAt), Or(n.error, h.error),
             Or(n.compensationJobId, h.compensationJobId),
             Or(n.compensationStartedAt, h.compensationStartedAt),
             Or(n.compensationCompletedAt, h.compensationCompletedAt),
             Or(n.compensationError, h.compensationError))
  }

  function PutUpdate(h: NodeHash, u: NodeUpdate): NodeHash {
    match u
    case SetStatus(s) => h.(status := Some(s))
    case SetJob(j) => h.(jobId := Some(j))
    case SetStarted(at) => h.(status := Some(NodeStatus.Running), startedAt := Some(at))
    case SetNodeCompleted(at, hash) =>
      h.(status := Some(NodeStatus.Completed), completedAt := Some(at), resultHash := Or(hash, h.resultHash))
    case SetNodeError(e) => h.(status := Some(NodeStatus.Failed), error := Some(e))
    case SetFanOutCount(c) => h.(fanOutCount := Some(c), status := Some(NodeStatus.Running))
    case SetCompensationJob(j, at) =>
      h.(status := Some(NodeStatus.Compensating), compensationJobId := Some(j), compensationStartedAt := Some(at))
    case SetCompensated(at) => h.(status := Some(NodeStatus.Compensated), compensationCompletedAt := Some(at))
    case SetCompensationFailed(e, at) =>
      h.(status := Some(NodeStatus.CompensationFailed), compensationCompletedAt := Some(at),
          compensationError := Some(e))
  }

  function PutFinalize(h: NodeHash, succeeded: bool, failure: Option<string>, at: int): NodeHash {
    if succeeded then h.(status := Some(NodeStatus.Completed), completedAt := Some(at), error := None)
    else
      h.(status := Some(NodeStatus.Failed), error := Some(if failure.Some? then failure.value else DEFAULT_FAILURE))
  }

  // Whole operations

  function PutNodes(r: Redis, batch: seq<Node>): Redis
    decreases batch
  {
    if batch == [] then r
    else
      var k := KeyOf(batch[0]);
      PutNodes(r.(nodes := r.nodes[k := PutNode(NodeHashOf(r, k), batch[0])], runNodes := r.runNodes + {k}), batch[1..])
  }

  lemma {:induction false} PutNodesKeepsRest(r: Redis, batch: seq<Node>)
    ensures var r' := PutNodes(r, batch); r' == r.(nodes := r'.nodes, runNodes := r'.runNodes)
    decreases batch
  {
    if batch != [] {
      var k := KeyOf(batch[0]);
      PutNodesKeepsRest(r.(nodes := r.nodes[k := PutNode(NodeHashOf(r, k), batch[0])], runNodes := r.runNodes + {k}),
          batch[1..]);
    }
  }

  /** ZREM from the old state's set and ZADD to the new one's, scored by `created_at`. */
  function MoveState(
    byState: map<StateEntry, int>, id: string, was: Option<RunState>, createdAt: Option<int>, to: RunState)
    : map<StateEntry, int>
  {
    if was.Some? && createdAt.Some? && was.value != to
    then (byState - {StateEntry(was.value, id)})[StateEntry(to, id) := createdAt.value]
    else byState
  }

  function SetState(r: Redis, id: string, to: RunState, h': RunHash): Redis {
    var h := RunHashOf(r, id);
    r.(runs := r.runs[id := h'], byState := MoveState(r.byState, id, h.state, h.createdAt, to))
  }

  function AddRun(r: Redis, ns: Option<string>, run: Run): Redis {
    r.(runs := r.runs[run.id := PutRun(RunHashOf(r, run.id), run, ns)],
       children := r.children + (if run.parentRunId.Some? then {ChildEntry(run.parentRunId.value, run.id)} else {}),
       all := r.all[run.id := run.createdAt],
       byState := r.byState[StateEntry(run.state, run.id) := run.createdAt],
       byDef := r.byDef[DefEntry(run.definitionId, run.id) := run.createdAt])
  }

  /** Ids in the index the listing picked; a definition name stands for its highest version. */
  ghost function Candidates(r: Redis, defName: Option<string>, inState: Option<RunState>): set<string> {
    if defName.Some? then
      var versions := set e | e in r.byName && e.name == defName.value :: Key(r.byName[e], e.member);
      if versions == {} then {}
      else
        OrderedProps(versions);
        var top := Ordered(versions)[0].id;
        set e | e in r.byDef && e.definitionId == top :: e.member
    else if inState.Some? then set e | e in r.byState && e.state == inState.value :: e.member
    else r.all.Keys
  }

  predicate Visible(r: Redis, ns: Option<string>, id: string) {
    id in r.runs && (ns.None? || r.runs[id].namespace == ns)
  }

  predicate Corrupted(r: Redis, ns: Option<string>, id: string) { Visible(r, ns, id) && DecodeRun(r.runs[id]).None? }

  /** Candidates that load and are in the wanted state. */
  function Loaded(r: Redis, ns: Option<string>, ids: set<string>, inState: Option<RunState>): map<string, Run> {
    map id | id in ids && Visible(r, ns, id) && DecodeRun(r.runs[id]).Some? &&
             (inState.Some? ==> DecodeRun(r.runs[id]).value.state == inState.value)
           :: DecodeRun(r.runs[id]).value
  }

  ghost function Step(r: Redis, ns: Option<string>, op: Op): (Redis, Reply) {
    match op
    case CreateDefinition(d) =>
      (r.(defs := r.defs[d.id := d], byName := r.byName[NameEntry(d.name, d.id) := d.version]), Done)
    case CreateRun(run) =>
      if run.parentRunId.Some? && OutOfScope(r, ns, run.parentRunId.value) then (r, Refused(ParentNotFound))
      else if OutOfScope(r, ns, run.id) && run.id in r.runs then (r, Refused(Conflict))
      else (AddRun(r, ns, run), Done)
    case GetRun(id) =>
      (r, if !Visible(r, ns, id) then RunReply(None)
          else if Corrupted(r, ns, id) then Refused(Corrupt)
          else RunReply(DecodeRun(r.runs[id])))
    case UpdateRunState(id, to, e) =>
      (if OutOfScope(r, ns, id) then r
       else SetState(r, id, to, RunHashOf(r, id).(state := Some(to), error := e)), Done)
    case SetRunStarted(id, at) =>
      (if OutOfScope(r, ns, id) then r
       else
         var h := RunHashOf(r, id).(state := Some(RunState.Running), startedAt := Some(at));
         SetState(r, id, RunState.Running, h), Done)
    case SetRunCompleted(id, at) =>
      (if OutOfScope(r, ns, id) then r
       else r.(runs := r.runs[id := RunHashOf(r, id).(completedAt := Some(at))]), Done)
    case ListAfter(defName, inState, limit, after) =>
      var ids := Candidates(r, defName, inState);
      (r, if exists id :: id in ids && Corrupted(r, ns, id) then Refused(Corrupt)
          else RunPage(Window(Loaded(r, ns, ids, inState), if limit < 0 then 0 else limit, after)))
    case GetChildren(p) =>
      var ids := set e | e in r.children && e.parent == p :: e.member;
      (r, if exists id :: id in ids && Corrupted(r, ns, id) then Refused(Corrupt)
          else RunSet(Loaded(r, ns, ids, None).Values))
    case CreateNodes(batch) =>
      if exists n :: n in batch && OutOfScope(r, ns, n.runId) then (r, Refused(RunNotFound))
      else (PutNodes(r, batch), Done)
    case GetNode(k) =>
      (r, if OutOfScope(r, ns, k.runId) || k !in r.nodes then NodeReply(None)
          else if DecodeNode(r.nodes[k]).None? then Refused(Corrupt)
          else NodeReply(DecodeNode(r.nodes[k])))
    case GetNodes(id) =>
      var keys := set k | k in r.runNodes && k.runId == id && k in r.nodes;
      (r, if OutOfScope(r, ns, id) then NodeSet({})
          else if exists k :: k in keys && DecodeNode(r.nodes[k]).None? then Refused(Corrupt)
          else NodeSet(set k | k in keys && DecodeNode(r.nodes[k]).Some? :: DecodeNode(r.nodes[k]).value))
    case UpdateNode(k, u) =>
      if OutOfScope(r, ns, k.runId) || k !in r.nodes then (r, Refused(NodeNotFound))
      else (r.(nodes := r.nodes[k := PutUpdate(r.nodes[k], u)]), Done)
    case Finalize(k, succeeded, failure, at) =>
      var h := NodeHashOf(r, k);
      if OutOfScope(r, ns, k.runId) || (h.status.Some? && Finalized(h.status.value)) then (r, Flag(false))
      else
        (r.(nodes := r.nodes[k := PutFinalize(h, succeeded, failure, at)]), Flag(true))
  }

  ghost function RunCalls(r: Redis, calls: seq<Call>): Redis
    decreases calls
  {
    if calls == [] then r else RunCalls(Step(r, calls[0].ns, calls[0].op).0, calls[1..])
  }
}
