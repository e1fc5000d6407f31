/** Runs, nodes and the two state machines of the workflow store. */
module Workflow {
  import opened Prelude
  import opened Keyset

  datatype RunState =
    | Pending | Running | Paused | Completed | CompletedWithFailures | Failed | Cancelled
    | Compensating | Compensated | CompensationFailed

  predicate CanTransitionTo(from: RunState, to: RunState) {
    match from
    case Pending => to.Running?
    case Running => to in {RunState.Completed, CompletedWithFailures, RunState.Failed, Cancelled, Paused,
      RunState.Compensating}
    case Paused => to.Running? || to.Cancelled?
    case CompletedWithFailures => to.Compensating?
    case Completed => to.Compensating?
    case Failed => to.Compensating?
    case Compensating => to.Compensated? || to.CompensationFailed?
    case _ => false
  }

  datatype NodeStatus =
    | Pending | Ready | Running | Completed | Failed | Skipped | WaitingApproval | CacheHit
    | Compensating | Compensated | CompensationFailed
  {
    predicate IsTerminal() {
      Completed? || Failed? || Skipped? || CacheHit? || Compensated? || CompensationFailed?
    }
  }

  /** A workflow run as callers see it; the namespace is the store's own business. */
  datatype Run = Run(
    id: string, definitionId: string, params: Option<string>, state: RunState,
    startedAt: Option<int>, completedAt: Option<int>, error: Option<string>,
    parentRunId: Option<string>, parentNodeName: Option<string>, createdAt: int)

  datatype Node = Node(
    id: string, runId: string, nodeName: string, jobId: Option<string>, status: NodeStatus,
    resultHash: Option<string>, fanOutCount: Option<int>, fanInData: Option<string>,
    startedAt: Option<int>, completedAt: Option<int>, error: Option<string>,
    compensationJobId: Option<string>, compensationStartedAt: Option<int>,
    compensationCompletedAt: Option<int>, compensationError: Option<string>)

  datatype Definition = Definition(id: string, name: string, version: int)

  datatype NodeKey = NodeKey(runId: string, name: string)

  function KeyOf(n: Node): NodeKey { NodeKey(n.runId, n.nodeName) }

  /** The node setters, each with what it writes. */
  datatype NodeUpdate =
    | SetStatus(status: NodeStatus)
    | SetJob(jobId: string)
    | SetStarted(at: int)
    | SetNodeCompleted(at: int, resultHash: Option<string>)
    | SetNodeError(error: string)
    | SetFanOutCount(count: int)
    | SetCompensationJob(jobId: string, at: int)
    | SetCompensated(at: int)
    | SetCompensationFailed(error: string, at: int)

  /** Storage operations of one store. Creating one node is a batch of one. */
  datatype Op =
    | CreateDefinition(def: Definition)
    | CreateRun(run: Run)
    | GetRun(runId: string)
    | UpdateRunState(runId: string, to: RunState, runError: Option<string>)
    | SetRunStarted(runId: string, at: int)
    | SetRunCompleted(runId: string, at: int)
    | ListAfter(defName: Option<string>, inState: Option<RunState>, limit: int, after: Option<Key>)
    | GetChildren(parentId: string)
    | CreateNodes(batch: seq<Node>)
    | GetNode(key: NodeKey)
    | GetNodes(runId: string)
    | UpdateNode(key: NodeKey, update: NodeUpdate)
    | Finalize(key: NodeKey, succeeded: bool, failure: Option<string>, at: int)

  /** The operations that write a run's state. */
  predicate IsSetter(op: Op) { op.UpdateRunState? || op.SetRunStarted? }

  /** The state such an operation writes. */
  function Target(op: Op): RunState
    requires IsSetter(op)
  {
    if op.UpdateRunState? then op.to else RunState.Running
  }

  datatype StoreError = NodeNotFound | RunNotFound | ParentNotFound | Conflict | Corrupt

  /** Answers whose order the backends leave open are sets. */
  datatype Reply =
    | Done
    | Refused(error: StoreError)
    | RunReply(run: Option<Run>)
    | RunPage(runs: seq<Run>)
    | RunSet(runSet: set<Run>)
    | NodeReply(node: Option<Node>)
    | NodeSet(nodeSet: set<Node>)
    | Flag(won: bool)

  const I64_MAX: int := 0x7FFF_FFFF_FFFF_FFFF

  const DEFAULT_FAILURE := "fan-out child failed"

  /** Statuses `finalize_fan_out_parent` leaves alone: fewer than the terminal ones. */
  predicate Finalized(s: NodeStatus) { s.Completed? || s.Failed? || s.Skipped? || s.CacheHit? }

  function RunKey(run: Run): Key { Key(run.createdAt, run.id) }

  function RunKeys(runs: seq<Run>): seq<Key> { seq(|runs|, i requires 0 <= i < |runs| => RunKey(runs[i])) }

  ghost function KeysOf(rows: map<string, Run>): set<Key> {
    set id | id in rows :: Key(rows[id].createdAt, id)
  }

  /** The page of `rows` below the cursor, newest first. */
  ghost function Window(rows: map<string, Run>, limit: nat, after: Option<Key>): seq<Run> {
    var page := Page(KeysOf(rows), limit, after);
    seq(|page|, i requires 0 <= i < |page| =>
      PageProps(KeysOf(rows), limit, after);
      assert page[i] in page;
      rows[page[i].id])
  }

  ghost predicate OwnIds(rows: map<string, Run>) { forall id :: id in rows ==> rows[id].id == id }

  lemma WindowKeys(rows: map<string, Run>, limit: nat, after: Option<Key>)
    requires OwnIds(rows)
    ensures var w, p := Window(rows, limit, after), Page(KeysOf(rows), limit, after);
            && |w| == |p|
            && forall i :: 0 <= i < |p| ==>
                 p[i].id in rows && w[i] == rows[p[i].id] && Key(w[i].createdAt, w[i].id) == p[i]
  {
    var p := Page(KeysOf(rows), limit, after);
    PageProps(KeysOf(rows), limit, after);
    assert forall i :: 0 <= i < |p| ==> p[i] in p;
  }
}

/** Operations with the store they go through. */
module Calls {
  import opened Prelude
  import opened Workflow

  /** An operation together with the namespace of the store that issues it. */
  datatype Call = Call(ns: Option<string>, op: Op)

  /** Calls whose effect `ns` may see: its own, and definitions registered by anyone. */
  predicate Concerns(c: Call, ns: string) { c.ns == Some(ns) || c.op.CreateDefinition? }

  function Own(calls: seq<Call>, ns: string): seq<Call> {
    if calls == [] then []
    else (if Concerns(calls[0], ns) then [calls[0]] else []) + Own(calls[1..], ns)
  }
}
