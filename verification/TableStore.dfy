/**
 * The workflow store over flat tables: what the shared Diesel statements do, statement by
 * statement. A store is scoped to one namespace or, with `None`, to none.
 */
module TableStore {
  import opened Prelude
  import opened Keyset
  import opened Workflow
  import opened Calls

  datatype Row = Row(run: Run, ns: Option<string>)

  datatype Table = Table(defs: map<string, Definition>, runs: map<string, Row>, nodes: map<NodeKey, Node>)

  const EMPTY := Table(map[], map[], map[])

  /** An unscoped store sees every row, a scoped one only its own. */
  predicate Visible(ns: Option<string>, row: Row) { ns.None? || row.ns == ns }

  predicate OutOfScope(t: Table, ns: Option<string>, runId: string) {
    ns.Some? && !(runId in t.runs && t.runs[runId].ns == ns)
  }

  /** Rewrites one run if it is there and visible. */
  function UpdateRun(t: Table, ns: Option<string>, runId: string, f: Run -> Run): Table {
    if runId in t.runs && Visible(ns, t.runs[runId])
    then t.(runs := t.runs[runId := Row(f(t.runs[runId].run), t.runs[runId].ns)])
    else t
  }

  function ApplyUpdate(n: Node, u: NodeUpdate): Node {
    match u
    case SetStatus(s) => n.(status := s)
    case SetJob(j) => n.(jobId := Some(j))
    case SetStarted(at) => n.(status := NodeStatus.Running, startedAt := Some(at))
    case SetNodeCompleted(at, hash) => n.(status := NodeStatus.Completed, completedAt := Some(at), resultHash := hash)
    case SetNodeError(e) => n.(status := NodeStatus.Failed, error := Some(e))
    case SetFanOutCount(c) => n.(fanOutCount := Some(c), status := NodeStatus.Running)
    case SetCompensationJob(j, at) =>
      n.(status := NodeStatus.Compensating, compensationJobId := Some(j), compensationStartedAt := Some(at))
    case SetCompensated(at) => n.(status := NodeStatus.Compensated, compensationCompletedAt := Some(at))
    case SetCompensationFailed(e, at) =>
      n.(status := NodeStatus.CompensationFailed, compensationCompletedAt := Some(at), compensationError := Some(e))
  }

  function ApplyFinalize(n: Node, succeeded: bool, failure: Option<string>, at: int): Node {
    if succeeded then n.(status := NodeStatus.Completed, completedAt := Some(at))
    else n.(status := NodeStatus.Failed, error := Some(if failure.Some? then failure.value else DEFAULT_FAILURE))
  }

  /** INSERTs in one transaction; `None` when a unique key or the primary key is taken. */
  function InsertNodes(nodes: map<NodeKey, Node>, batch: seq<Node>): Option<map<NodeKey, Node>>
    decreases batch
  {
    if batch == [] then Some(nodes)
    else if KeyOf(batch[0]) in nodes || exists k :: k in nodes && nodes[k].id == batch[0].id then None
    else InsertNodes(nodes[KeyOf(batch[0]) := batch[0]], batch[1..])
  }

  predicate Matches(t: Table, ns: Option<string>, defName: Option<string>, inState: Option<RunState>, row: Row) {
    && Visible(ns, row)
    && (defName.Some? ==> row.run.definitionId in t.defs && t.defs[row.run.definitionId].name == defName.value)
    && (inState.Some? ==> row.run.state == inState.value)
  }

  function Matching(t: Table, ns: Option<string>, defName: Option<string>, inState: Option<RunState>)
    : map<string, Run>
  {
    map id | id in t.runs && Matches(t, ns, defName, inState, t.runs[id]) :: t.runs[id].run
  }

  /** No cursor binds `(i64::MAX, "")`; a negative LIMIT is none, as in SQLite. */
  ghost function List(t: Table, ns: Option<string>, op: Op): seq<Run>
    requires op.ListAfter?
  {
    var rows := Matching(t, ns, op.defName, op.inState);
    Window(rows, if op.limit < 0 then |KeysOf(rows)| else op.limit,
           Some(if op.after.Some? then op.after.value else Key(I64_MAX, "")))
  }

  ghost function Step(t: Table, ns: Option<string>, op: Op): (Table, Reply) {
    match op
    case CreateDefinition(d) =>
      if d.id in t.defs || exists k :: k in t.defs && t.defs[k].name == d.name && t.defs[k].version == d.version
      then (t, Refused(Conflict))
      else (t.(defs := t.defs[d.id := d]), Done)
    case CreateRun(run) =>
      if run.parentRunId.Some? && OutOfScope(t, ns, run.parentRunId.value) then (t, Refused(ParentNotFound))
      else if run.id in t.runs then (t, Refused(Conflict))
      else (t.(runs := t.runs[run.id := Row(run, ns)]), Done)
    case GetRun(id) =>
      (t, RunReply(if id in t.runs && Visible(ns, t.runs[id]) then Some(t.runs[id].run) else None))
    case UpdateRunState(id, to, e) => (UpdateRun(t, ns, id, (r: Run) => r.(state := to, error := e)), Done)
    case SetRunStarted(id, at) =>
      (UpdateRun(t, ns, id, (r: Run) => r.(state := RunState.Running, startedAt := Some(at))), Done)
    case SetRunCompleted(id, at) => (UpdateRun(t, ns, id, (r: Run) => r.(completedAt := Some(at))), Done)
    case ListAfter(_, _, _, _) => (t, RunPage(List(t, ns, op)))
    case GetChildren(p) =>
      (t, RunSet(set id | id in t.runs && Visible(ns, t.runs[id]) && t.runs[id].run.parentRunId == Some(p) ::
          t.runs[id].run))
    case CreateNodes(batch) =>
      if exists n :: n in batch && OutOfScope(t, ns, n.runId) then (t, Refused(RunNotFound))
      else
        var inserted := InsertNodes(t.nodes, batch);
        if inserted.None? then (t, Refused(Conflict)) else (t.(nodes := inserted.value), Done)
    case GetNode(k) =>
      (t, NodeReply(if !OutOfScope(t, ns, k.runId) && k in t.nodes then Some(t.nodes[k]) else None))
    case GetNodes(id) =>
      (t, NodeSet(if OutOfScope(t, ns, id) then {} else set k | k in t.nodes && k.runId == id :: t.nodes[k]))
    case UpdateNode(k, u) =>
      if OutOfScope(t, ns, k.runId) || k !in t.nodes then (t, Refused(NodeNotFound))
      else (t.(nodes := t.nodes[k := ApplyUpdate(t.nodes[k], u)]), Done)
    case Finalize(k, succeeded, failure, at) =>
      if OutOfScope(t, ns, k.runId) || k !in t.nodes || Finalized(t.nodes[k].status) then (t, Flag(false))
      else
        (t.(nodes := t.nodes[k := ApplyFinalize(t.nodes[k], succeeded, failure, at)]), Flag(true))
  }

  ghost function RunCalls(t: Table, calls: seq<Call>): Table
    decreases calls
  {
    if calls == [] then t else RunCalls(Step(t, calls[0].ns, calls[0].op).0, calls[1..])
  }
}
