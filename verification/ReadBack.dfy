/**
 * What each operation of the workflow store does, told by what is read back: which read tells beforehand
 * whether a write is refused, and what every read answers afterwards.
 */
module ReadBack {
  import opened Prelude
  import opened Workflow
  import T = TableStore
  import R = RedisStore

  // Reads of the tables

  ghost function SeenRun(t: T.Table, ns: Option<string>, id: string): Option<Run>
    ensures T.Step(t, ns, GetRun(id)) == (t, RunReply(SeenRun(t, ns, id)))
  {
    T.Step(t, ns, GetRun(id)).1.run
  }

  ghost function SeenNode(t: T.Table, ns: Option<string>, k: NodeKey): Option<Node>
    ensures T.Step(t, ns, GetNode(k)) == (t, NodeReply(SeenNode(t, ns, k)))
  {
    T.Step(t, ns, GetNode(k)).1.node
  }

  /** A run is read by the unscoped store and by stores of its namespace; a node by whoever reads its run. */
  lemma ReadsAreScoped(t: T.Table, ns: Option<string>, id: string, k: NodeKey)
    ensures SeenRun(t, None, id) == (if id in t.runs then Some(t.runs[id].run) else None)
    ensures ns.Some? ==>
              SeenRun(t, ns, id) == (if id in t.runs && t.runs[id].ns == ns then SeenRun(t, None, id) else None)
    ensures SeenNode(t, None, k) == (if k in t.nodes then Some(t.nodes[k]) else None)
    ensures ns.Some? ==>
              SeenNode(t, ns, k) == (if SeenRun(t, ns, k.runId).Some? then SeenNode(t, None, k) else None)
  {
  }

  /** Listing a run's nodes or a parent's children gives what reading them one by one gives. */
  lemma ListsAreReads(t: T.Table, ns: Option<string>, id: string)
    requires forall k :: k in t.nodes ==> KeyOf(t.nodes[k]) == k
    requires forall x :: x in t.runs ==> t.runs[x].run.id == x
    ensures var (t', reply) := T.Step(t, ns, GetNodes(id));
            t' == t && reply.NodeSet? &&
            forall n :: n in reply.nodeSet <==> n.runId == id && SeenNode(t, ns, KeyOf(n)) == Some(n)
    ensures var (t', reply) := T.Step(t, ns, GetChildren(id));
            t' == t && reply.RunSet? &&
            forall run :: run in reply.runSet <==> run.parentRunId == Some(id) && SeenRun(t, ns, run.id) == Some(run)
  {
    var nodes := T.Step(t, ns, GetNodes(id)).1.nodeSet;
    forall n: Node | n.runId == id && SeenNode(t, ns, KeyOf(n)) == Some(n) ensures n in nodes {
      assert KeyOf(n) in t.nodes && t.nodes[KeyOf(n)] == n;
    }
    var runs := T.Step(t, ns, GetChildren(id)).1.runSet;
    forall run: Run | run.parentRunId == Some(id) && SeenRun(t, ns, run.id) == Some(run) ensures run in runs {
      assert run.id in t.runs && t.runs[run.id].run == run;
    }
  }

  // Writes of the tables

  /**
   * Creating a run is refused if a scoped store cannot read its parent, or else if its id is anybody's;
   * otherwise the creator and the unscoped store read it back, and every other read stays.
   */
  lemma CreatedRunReadsBack(t: T.Table, ns: Option<string>, run: Run)
    ensures var (t', reply) := T.Step(t, ns, CreateRun(run));
            var orphan := run.parentRunId.Some? && ns.Some? && SeenRun(t, ns, run.parentRunId.value).None?;
            var taken := SeenRun(t, None, run.id).Some?;
            && (reply == Refused(ParentNotFound) <==> orphan)
            && (reply == Refused(Conflict) <==> !orphan && taken)
            && (reply == Done <==> !orphan && !taken)
            && (reply != Done ==> t' == t)
            && (reply == Done ==>
                  && SeenRun(t', ns, run.id) == SeenRun(t', None, run.id) == Some(run)
                  && (forall other: Option<string> :: other.Some? && other != ns ==> SeenRun(t', other, run.id).None?)
                  && (forall other, id :: id != run.id ==> SeenRun(t', other, id) == SeenRun(t, other, id))
                  && t'.nodes == t.nodes && t'.defs == t.defs)
  {
  }

  /** What the three run setters make of a run they reach, field by field. */
  predicate RunWritten(was: Run, op: Op, now: Run)
    requires op.UpdateRunState? || op.SetRunStarted? || op.SetRunCompleted?
  {
    && now.id == was.id && now.definitionId == was.definitionId && now.params == was.params
    && now.parentRunId == was.parentRunId && now.parentNodeName == was.parentNodeName
    && now.createdAt == was.createdAt
    && now.state == (if op.UpdateRunState? then op.to else if op.SetRunStarted? then RunState.Running else was.state)
    && now.error == (if op.UpdateRunState? then op.runError else was.error)
    && now.startedAt == (if op.SetRunStarted? then Some(op.at) else was.startedAt)
    && now.completedAt == (if op.SetRunCompleted? then Some(op.at) else was.completedAt)
  }

  lemma SetRunRow(t: T.Table, ns: Option<string>, op: Op)
    requires op.UpdateRunState? || op.SetRunStarted? || op.SetRunCompleted?
    ensures var (t', reply) := T.Step(t, ns, op);
            && reply == Done
            && (if op.runId in t.runs && (ns.Some? ==> t.runs[op.runId].ns == ns)
                then
                  && op.runId in t'.runs && RunWritten(t.runs[op.runId].run, op, t'.runs[op.runId].run)
                  && t' == t.(runs := t.runs[op.runId := T.Row(t'.runs[op.runId].run, t.runs[op.runId].ns)])
                else t' == t)
  {
    match op
    case UpdateRunState(_, _, _) =>
    case SetRunStarted(_, _) =>
    case SetRunCompleted(_, _) =>
  }

  /** A run setter changes the run its caller reads, for everyone who reads it, and nothing else; it never refuses. */
  lemma SetRunReadsBack(t: T.Table, ns: Option<string>, op: Op, other: Option<string>, id: string)
    requires op.UpdateRunState? || op.SetRunStarted? || op.SetRunCompleted?
    ensures var (t', reply) := T.Step(t, ns, op);
            && reply == Done && t'.nodes == t.nodes && t'.defs == t.defs
            && (SeenRun(t', other, id).Some? <==> SeenRun(t, other, id).Some?)
            && (id != op.runId || SeenRun(t, ns, id).None? ==> SeenRun(t', other, id) == SeenRun(t, other, id))
            && (id == op.runId && SeenRun(t, ns, id).Some? && SeenRun(t, other, id).Some? ==>
                  RunWritten(SeenRun(t, other, id).value, op, SeenRun(t', other, id).value))
  {
    var t' := T.Step(t, ns, op).0;
    SetRunRow(t, ns, op);
    ReadsAreScoped(t, ns, id, NodeKey(id, ""));
    ReadsAreScoped(t, other, id, NodeKey(id, ""));
    ReadsAreScoped(t', other, id, NodeKey(id, ""));
  }

  /** The node setters, field by field: which of them writes it, and what. The result hash stands apart. */
  predicate NodeWritten(was: Node, u: NodeUpdate, now: Node) {
    && now.id == was.id && now.runId == was.runId && now.nodeName == was.nodeName && now.fanInData == was.fanInData
    && now.jobId == (if u.SetJob? then Some(u.jobId) else was.jobId)
    && now.fanOutCount == (if u.SetFanOutCount? then Some(u.count) else was.fanOutCount)
    && now.startedAt == (if u.SetStarted? then Some(u.at) else was.startedAt)
    && now.completedAt == (if u.SetNodeCompleted? then Some(u.at) else was.completedAt)
    && now.error == (if u.SetNodeError? then Some(u.error) else was.error)
    && now.compensationJobId == (if u.SetCompensationJob? then Some(u.jobId) else was.compensationJobId)
    && now.compensationStartedAt == (if u.SetCompensationJob? then Some(u.at) else was.compensationStartedAt)
    && now.compensationCompletedAt ==
       (if u.SetCompensated? || u.SetCompensationFailed? then Some(u.at) else was.compensationCompletedAt)
    && now.compensationError == (if u.SetCompensationFailed? then Some(u.error) else was.compensationError)
    && StatusSet(was.status, u, now.status)
  }

  predicate StatusSet(was: NodeStatus, u: NodeUpdate, now: NodeStatus) {
    now == (if u.SetStatus? then u.status
            else if u.SetStarted? || u.SetFanOutCount? then NodeStatus.Running
            else if u.SetNodeCompleted? then NodeStatus.Completed
            else if u.SetNodeError? then NodeStatus.Failed
            else if u.SetCompensationJob? then NodeStatus.Compensating
            else if u.SetCompensated? then NodeStatus.Compensated
            else if u.SetCompensationFailed? then NodeStatus.CompensationFailed
            else was)
  }

  /** A node setter is refused if and only if its caller cannot read the node; otherwise only that node changes. */
  lemma SetNodeReadsBack(t: T.Table, ns: Option<string>, k: NodeKey, u: NodeUpdate)
    ensures var (t', reply) := T.Step(t, ns, UpdateNode(k, u));
            var was, now := SeenNode(t, ns, k), SeenNode(t', ns, k);
            && (if was.None? then t' == t && reply == Refused(NodeNotFound)
                else
                  && reply == Done && now.Some? && NodeWritten(was.value, u, now.value)
                  && now.value.resultHash == (if u.SetNodeCompleted? then u.resultHash else was.value.resultHash))
            && t'.runs == t.runs && t'.defs == t.defs
            && (forall other, l :: l != k ==> SeenNode(t', other, l) == SeenNode(t, other, l))
  {
  }

  /** What finalizing makes of an open node, but for the error of one that succeeds. */
  predicate NodeFinalized(was: Node, op: Op, now: Node)
    requires op.Finalize?
  {
    && now == was.(status := now.status, completedAt := now.completedAt, error := now.error)
    && now.status == (if op.succeeded then NodeStatus.Completed else NodeStatus.Failed)
    && now.completedAt == (if op.succeeded then Some(op.at) else was.completedAt)
    && (!op.succeeded ==> now.error == Some(if op.failure.Some? then op.failure.value else "fan-out child failed"))
  }

  /** Finalizing wins if and only if its caller reads the node in none of the four ended statuses. */
  lemma FinalizeReadsBack(t: T.Table, ns: Option<string>, op: Op)
    requires op.Finalize?
    ensures var (t', reply) := T.Step(t, ns, op);
            var was, now := SeenNode(t, ns, op.key), SeenNode(t', ns, op.key);
            && (reply == Flag(true) || reply == Flag(false))
            && (reply == Flag(true) <==>
                was.Some? && was.value.status !in
                {NodeStatus.Completed, NodeStatus.Failed, NodeStatus.Skipped, NodeStatus.CacheHit})
            && (reply == Flag(false) ==> t' == t)
            && (reply == Flag(true) ==>
                  && now.Some? && NodeFinalized(was.value, op, now.value)
                  && (op.succeeded ==> now.value.error == was.value.error))
            && t'.runs == t.runs && t'.defs == t.defs
            && (forall other, l :: l != op.key ==> SeenNode(t', other, l) == SeenNode(t, other, l))
  {
  }

  /** Keys and ids of a batch are its own and nobody else's. */
  ghost predicate FreshNodes(nodes: map<NodeKey, Node>, batch: seq<Node>) {
    && (forall i, j :: 0 <= i < j < |batch| ==> KeyOf(batch[i]) != KeyOf(batch[j]) && batch[i].id != batch[j].id)
    && (forall i :: 0 <= i < |batch| ==> KeyOf(batch[i]) !in nodes)
    && (forall i, k :: 0 <= i < |batch| && k in nodes ==> nodes[k].id != batch[i].id)
  }

  lemma FreshAfterFirst(nodes: map<NodeKey, Node>, batch: seq<Node>)
    requires batch != []
    ensures FreshNodes(nodes, batch) <==>
            && KeyOf(batch[0]) !in nodes && (forall k :: k in nodes ==> nodes[k].id != batch[0].id)
            && FreshNodes(nodes[KeyOf(batch[0]) := batch[0]], batch[1..])
  {
    var more, rest := nodes[KeyOf(batch[0]) := batch[0]], batch[1..];
    assert more[KeyOf(batch[0])] == batch[0];
    if FreshNodes(nodes, batch) {
      assert forall i :: 0 <= i < |rest| ==> rest[i] == batch[i + 1];
    }
    if KeyOf(batch[0]) !in nodes && (forall k :: k in nodes ==> nodes[k].id != batch[0].id) && FreshNodes(more, rest) {
      assert forall i :: 1 <= i < |batch| ==> batch[i] == rest[i - 1];
      assert forall k :: k in nodes ==> k in more && more[k] == nodes[k];
    }
  }

  /** A batch is inserted if and only if its keys and ids are fresh. */
  lemma {:induction false} InsertedIffFresh(nodes: map<NodeKey, Node>, batch: seq<Node>)
    ensures T.InsertNodes(nodes, batch).Some? <==> FreshNodes(nodes, batch)
    decreases batch
  {
    if batch != [] {
      FreshAfterFirst(nodes, batch);
      InsertedIffFresh(nodes[KeyOf(batch[0]) := batch[0]], batch[1..]);
    }
  }

  /** `all` is `nodes` with the batch added. */
  ghost predicate Added(nodes: map<NodeKey, Node>, batch: seq<Node>, all: map<NodeKey, Node>) {
    && (forall k :: k in all <==> k in nodes || exists i :: 0 <= i < |batch| && KeyOf(batch[i]) == k)
    && (forall k :: k in nodes ==> k in all && all[k] == nodes[k])
    && (forall i :: 0 <= i < |batch| ==> KeyOf(batch[i]) in all && all[KeyOf(batch[i])] == batch[i])
  }

  lemma AddedAfterFirst(nodes: map<NodeKey, Node>, batch: seq<Node>, all: map<NodeKey, Node>)
    requires batch != [] && KeyOf(batch[0]) !in nodes
    requires Added(nodes[KeyOf(batch[0]) := batch[0]], batch[1..], all)
    ensures Added(nodes, batch, all)
  {
    var more, rest := nodes[KeyOf(batch[0]) := batch[0]], batch[1..];
    assert forall i :: 1 <= i < |batch| ==> batch[i] == rest[i - 1];
    forall k ensures k in all <==> k in nodes || exists i :: 0 <= i < |batch| && KeyOf(batch[i]) == k {
      if i :| 0 <= i < |rest| && KeyOf(rest[i]) == k { assert KeyOf(batch[i + 1]) == k; }
    }
    assert forall k :: k in nodes ==> k in more && more[k] == nodes[k];
  }

  lemma {:induction false} InsertedIsAdded(nodes: map<NodeKey, Node>, batch: seq<Node>)
    requires T.InsertNodes(nodes, batch).Some?
    ensures Added(nodes, batch, T.InsertNodes(nodes, batch).value)
    decreases batch
  {
    if batch != [] {
      InsertedIsAdded(nodes[KeyOf(batch[0]) := batch[0]], batch[1..]);
      AddedAfterFirst(nodes, batch, T.InsertNodes(nodes, batch).value);
    }
  }

  /**
   * Creating nodes is refused if a scoped store cannot read one of their runs, or else if a key or an id is
   * not fresh; otherwise each is read back by whoever reads its run, and every other read stays.
   */
  lemma CreatedNodesReadBack(t: T.Table, ns: Option<string>, batch: seq<Node>)
    ensures var (t', reply) := T.Step(t, ns, CreateNodes(batch));
            var orphans := ns.Some? && exists i :: 0 <= i < |batch| && SeenRun(t, ns, batch[i].runId).None?;
            && (reply == Refused(RunNotFound) <==> orphans)
            && (reply == Refused(Conflict) <==> !orphans && !FreshNodes(t.nodes, batch))
            && (reply == Done <==> !orphans && FreshNodes(t.nodes, batch))
            && (reply != Done ==> t' == t)
            && (reply == Done ==>
                  && t'.runs == t.runs && t'.defs == t.defs
                  && (forall i :: 0 <= i < |batch| ==> SeenNode(t', ns, KeyOf(batch[i])) == Some(batch[i]))
                  && (forall other, k :: (forall i :: 0 <= i < |batch| ==> KeyOf(batch[i]) != k) ==>
                        SeenNode(t', other, k) == SeenNode(t, other, k)))
  {
    InsertedIffFresh(t.nodes, batch);
    OrphansAreOutOfScope(t, ns, batch);
    if T.Step(t, ns, CreateNodes(batch)).1 == Done {
      InsertedIsAdded(t.nodes, batch);
      CreatedNodesSeen(t, ns, batch, T.InsertNodes(t.nodes, batch).value);
    }
  }

  lemma OrphansAreOutOfScope(t: T.Table, ns: Option<string>, batch: seq<Node>)
    ensures (exists n :: n in batch && T.OutOfScope(t, ns, n.runId)) <==>
            (ns.Some? && exists i :: 0 <= i < |batch| && SeenRun(t, ns, batch[i].runId).None?)
  {
    assert forall i :: 0 <= i < |batch| ==> batch[i] in batch;
    if n :| n in batch && T.OutOfScope(t, ns, n.runId) {
      var i :| 0 <= i < |batch| && batch[i] == n;
      assert SeenRun(t, ns, batch[i].runId).None?;
    }
  }

  lemma CreatedNodesSeen(t: T.Table, ns: Option<string>, batch: seq<Node>, all: map<NodeKey, Node>)
    requires Added(t.nodes, batch, all)
    requires forall n :: n in batch ==> !T.OutOfScope(t, ns, n.runId)
    ensures var t' := t.(nodes := all);
            && (forall i :: 0 <= i < |batch| ==> SeenNode(t', ns, KeyOf(batch[i])) == Some(batch[i]))
            && (forall other, k :: (forall i :: 0 <= i < |batch| ==> KeyOf(batch[i]) != k) ==>
                  SeenNode(t', other, k) == SeenNode(t, other, k))
  {
    assert forall i :: 0 <= i < |batch| ==> batch[i] in batch;
  }

  /** A definition is refused if and only if its id, or its name with its version, is registered. */
  lemma CreatedDefinitionStays(t: T.Table, ns: Option<string>, d: Definition)
    ensures var (t', reply) := T.Step(t, ns, CreateDefinition(d));
            var known := d.id in t.defs ||
                         exists x :: x in t.defs && t.defs[x].name == d.name && t.defs[x].version == d.version;
            && (if known then t' == t && reply == Refused(Conflict)
                else reply == Done && t' == t.(defs := t.defs[d.id := d]))
  {
  }

  // Redis, on the fields of the hashes; operations that behave as the tables do are in Refinement

  /** `now` holds what `was` held, but for the fields the setter writes; an absent run starts from no fields. */
  predicate RunHashSet(was: R.RunHash, op: Op, now: R.RunHash)
    requires op.UpdateRunState? || op.SetRunStarted? || op.SetRunCompleted?
  {
    && now == was.(state := now.state, error := now.error, startedAt := now.startedAt, completedAt := now.completedAt)
    && now.state ==
       (if op.UpdateRunState? then Some(op.to) else if op.SetRunStarted? then Some(RunState.Running) else was.state)
    && now.error == (if op.UpdateRunState? then op.runError else was.error)
    && now.startedAt == (if op.SetRunStarted? then Some(op.at) else was.startedAt)
    && now.completedAt == (if op.SetRunCompleted? then Some(op.at) else was.completedAt)
  }

  /** The run's hash, in the eyes of `ns`. */
  predicate Reaches(r: R.Redis, ns: Option<string>, id: string) {
    ns.Some? ==> id in r.runs && r.runs[id].namespace == ns
  }

  lemma ReachesIsScope(r: R.Redis, ns: Option<string>, id: string)
    ensures R.OutOfScope(r, ns, id) <==> !Reaches(r, ns, id)
  {
  }

  /** On Redis too, but an unscoped setter reaches runs that do not exist. */
  lemma RedisSetRun(r: R.Redis, ns: Option<string>, op: Op)
    requires op.UpdateRunState? || op.SetRunStarted? || op.SetRunCompleted?
    ensures var (r', reply) := R.Step(r, ns, op);
            && reply == Done
            && r' == r.(runs := r'.runs, byState := r'.byState)
            && (!Reaches(r, ns, op.runId) ==> r' == r)
            && (Reaches(r, ns, op.runId) ==>
                  && op.runId in r'.runs && RunHashSet(R.RunHashOf(r, op.runId), op, r'.runs[op.runId])
                  && r'.runs == r.runs[op.runId := r'.runs[op.runId]])
  {
    ReachesIsScope(r, ns, op.runId);
    match op
    case UpdateRunState(_, _, _) =>
    case SetRunStarted(_, _) =>
    case SetRunCompleted(_, _) =>
  }

  /** A setter that changes the state takes the run from the old state's set to the new one's; others leave the sets. */
  lemma RedisMovesRun(r: R.Redis, ns: Option<string>, op: Op, e: R.StateEntry)
    requires op.UpdateRunState? || op.SetRunStarted? || op.SetRunCompleted?
    requires Reaches(r, ns, op.runId) && op.runId in r.runs
    requires r.runs[op.runId].state.Some? && r.runs[op.runId].createdAt.Some?
    ensures var r' := R.Step(r, ns, op).0;
            var was, now := r.runs[op.runId].state.value, r'.runs[op.runId].state.value;
            if was == now || e.member != op.runId || (e.state != was && e.state != now)
            then e in r'.byState <==> e in r.byState
            else (e in r'.byState <==> e.state == now) &&
                 (e in r'.byState ==> r'.byState[e] == r.runs[op.runId].createdAt.value)
  {
  }

  /** The node setters on a hash, field by field; completing without a result hash keeps the one there was. */
  predicate NodeHashSet(was: R.NodeHash, u: NodeUpdate, now: R.NodeHash) {
    && now.id == was.id && now.runId == was.runId && now.nodeName == was.nodeName && now.fanInData == was.fanInData
    && now.jobId == (if u.SetJob? then Some(u.jobId) else was.jobId)
    && now.fanOutCount == (if u.SetFanOutCount? then Some(u.count) else was.fanOutCount)
    && now.startedAt == (if u.SetStarted? then Some(u.at) else was.startedAt)
    && now.completedAt == (if u.SetNodeCompleted? then Some(u.at) else was.completedAt)
    && now.error == (if u.SetNodeError? then Some(u.error) else was.error)
    && now.compensationJobId == (if u.SetCompensationJob? then Some(u.jobId) else was.compensationJobId)
    && now.compensationStartedAt == (if u.SetCompensationJob? then Some(u.at) else was.compensationStartedAt)
    && now.compensationCompletedAt ==
       (if u.SetCompensated? || u.SetCompensationFailed? then Some(u.at) else was.compensationCompletedAt)
    && now.compensationError == (if u.SetCompensationFailed? then Some(u.error) else was.compensationError)
    && now.resultHash == (if u.SetNodeCompleted? && u.resultHash.Some? then u.resultHash else was.resultHash)
    && (if u.SetJob? then now.status == was.status
        else now.status.Some? && StatusSet(NodeStatus.Pending, u, now.status.value))
  }

  lemma RedisSetNode(r: R.Redis, ns: Option<string>, k: NodeKey, u: NodeUpdate)
    ensures var (r', reply) := R.Step(r, ns, UpdateNode(k, u));
            if Reaches(r, ns, k.runId) && k in r.nodes then
              && reply == Done && r' == r.(nodes := r'.nodes)
              && k in r'.nodes && NodeHashSet(r.nodes[k], u, r'.nodes[k])
              && r'.nodes == r.nodes[k := r'.nodes[k]]
            else r' == r && reply == Refused(NodeNotFound)
  {
  }

  /** On Redis a missing node is open, a success clears the error, and everything else is as over the tables. */
  lemma RedisFinalize(r: R.Redis, ns: Option<string>, op: Op)
    requires op.Finalize?
    ensures var (r', reply) := R.Step(r, ns, op);
            var was := if op.key in r.nodes then r.nodes[op.key] else R.NO_NODE;
            var open := was.status.None? || was.status.value !in
                        {NodeStatus.Completed, NodeStatus.Failed, NodeStatus.Skipped, NodeStatus.CacheHit};
            && reply == Flag(Reaches(r, ns, op.key.runId) && open)
            && (reply == Flag(false) ==> r' == r)
            && (reply == Flag(true) ==>
                  && op.key in r'.nodes && r' == r.(nodes := r.nodes[op.key := r'.nodes[op.key]])
                  && var now := r'.nodes[op.key];
                     && now == was.(status := now.status, completedAt := now.completedAt, error := now.error)
                     && now.status == Some(if op.succeeded then NodeStatus.Completed else NodeStatus.Failed)
                     && now.completedAt == (if op.succeeded then Some(op.at) else was.completedAt)
                     && now.error == (if op.succeeded then None
                                      else if op.failure.Some? then op.failure else Some("fan-out child failed")))
  {
  }

  /**
   * A run created on Redis is refused like over the tables, but for an id its own namespace has: then it is
   * written over the old hash, whose optional fields stay where the record has none.
   */
  lemma RedisCreateRun(r: R.Redis, ns: Option<string>, run: Run)
    ensures var (r', reply) := R.Step(r, ns, CreateRun(run));
            var orphan := run.parentRunId.Some? && !Reaches(r, ns, run.parentRunId.value);
            var foreign := run.id in r.runs && !Reaches(r, ns, run.id);
            && (reply == Refused(ParentNotFound) <==> orphan)
            && (reply == Refused(Conflict) <==> !orphan && foreign)
            && (reply == Done <==> !orphan && !foreign)
            && (reply != Done ==> r' == r)
            && (reply == Done ==>
                  && run.id in r'.runs
                  && var was, now := R.RunHashOf(r, run.id), r'.runs[run.id];
                     && r' == r.(runs := r.runs[run.id := now], children := r'.children,
                         all := r.all[run.id := run.createdAt],
                         byState := r.byState[R.StateEntry(run.state, run.id) := run.createdAt],
                         byDef := r.byDef[R.DefEntry(run.definitionId, run.id) := run.createdAt])
                     && (forall e :: e in r'.children <==>
                           e in r.children || (e.member == run.id && run.parentRunId == Some(e.parent)))
                     && now.id == Some(run.id) && now.definitionId == Some(run.definitionId)
                     && now.state == Some(run.state) && now.createdAt == Some(run.createdAt)
                     && now.params == (if run.params.Some? then run.params else was.params)
                     && now.startedAt == (if run.startedAt.Some? then run.startedAt else was.startedAt)
                     && now.completedAt == (if run.completedAt.Some? then run.completedAt else was.completedAt)
                     && now.error == (if run.error.Some? then run.error else was.error)
                     && now.parentRunId == (if run.parentRunId.Some? then run.parentRunId else was.parentRunId)
                     && now.parentNodeName ==
                        (if run.parentNodeName.Some? then run.parentNodeName else was.parentNodeName)
                     && now.namespace == (if ns.Some? then ns else was.namespace))
  {
  }

  /** A node created on Redis is written over the old hash, whose optional fields stay where the record has none. */
  lemma RedisCreateNode(r: R.Redis, ns: Option<string>, n: Node)
    ensures var (r', reply) := R.Step(r, ns, CreateNodes([n]));
            var k := NodeKey(n.runId, n.nodeName);
            && (!Reaches(r, ns, n.runId) ==> r' == r && reply == Refused(RunNotFound))
            && (Reaches(r, ns, n.runId) ==>
                  && reply == Done && k in r'.nodes
                  && r' == r.(nodes := r.nodes[k := r'.nodes[k]], runNodes := r.runNodes + {k})
                  && NodeHashPut(R.NodeHashOf(r, k), n, r'.nodes[k]))
  {
    assert n in [n] && forall x :: x in [n] ==> x == n;
    ReachesIsScope(r, ns, n.runId);
    OneNode(r, n);
    PutNodeFields(R.NodeHashOf(r, KeyOf(n)), n);
  }

  lemma PutNodeFields(was: R.NodeHash, n: Node)
    ensures NodeHashPut(was, n, R.PutNode(was, n))
  {
  }

  lemma OneNode(r: R.Redis, n: Node)
    ensures var k := KeyOf(n);
            R.PutNodes(r, [n]) ==
            r.(nodes := r.nodes[k := R.PutNode(R.NodeHashOf(r, k), n)], runNodes := r.runNodes + {k})
  {
    var k := KeyOf(n);
    var r' := r.(nodes := r.nodes[k := R.PutNode(R.NodeHashOf(r, k), n)], runNodes := r.runNodes + {k});
    assert [n][1..] == [] && R.PutNodes(r', []) == r';
  }

  predicate NodeHashPut(was: R.NodeHash, n: Node, now: R.NodeHash) {
    && now.id == Some(n.id) && now.runId == Some(n.runId) && now.nodeName == Some(n.nodeName)
    && now.status == Some(n.status)
    && now.jobId == (if n.jobId.Some? then n.jobId else was.jobId)
    && now.resultHash == (if n.resultHash.Some? then n.resultHash else was.resultHash)
    && now.fanOutCount == (if n.fanOutCount.Some? then n.fanOutCount else was.fanOutCount)
    && now.fanInData == (if n.fanInData.Some? then n.fanInData else was.fanInData)
    && now.startedAt == (if n.startedAt.Some? then n.startedAt else was.startedAt)
    && now.completedAt == (if n.completedAt.Some? then n.completedAt else was.completedAt)
    && now.error == (if n.error.Some? then n.error else was.error)
    && now.compensationJobId == (if n.compensationJobId.Some? then n.compensationJobId else was.compensationJobId)
    && now.compensationStartedAt ==
       (if n.compensationStartedAt.Some? then n.compensationStartedAt else was.compensationStartedAt)
    && now.compensationCompletedAt ==
       (if n.compensationCompletedAt.Some? then n.compensationCompletedAt else was.compensationCompletedAt)
    && now.compensationError == (if n.compensationError.Some? then n.compensationError else was.compensationError)
  }

  /** A batch is its nodes one after the other. */
  lemma {:induction false} RedisBatchOneByOne(r: R.Redis, batch: seq<Node>, n: Node)
    ensures R.PutNodes(r, batch + [n]) == R.PutNodes(R.PutNodes(r, batch), [n])
    decreases batch
  {
    if batch == [] {
      assert batch + [n] == [n];
    } else {
      var k := KeyOf(batch[0]);
      assert (batch + [n])[1..] == batch[1..] + [n];
      RedisBatchOneByOne(
        r.(nodes := r.nodes[k := R.PutNode(R.NodeHashOf(r, k), batch[0])], runNodes := r.runNodes + {k}),
        batch[1..], n);
    }
  }
}
