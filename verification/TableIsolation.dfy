/**
 * Tenant isolation over the tables. A store scoped to a namespace sees the projection of the
 * database onto it: foreign runs, and nodes of foreign runs, might as well not exist.
 */
module TableIsolation {
  import opened Prelude
  import opened Workflow
  import opened TableStore
  import opened Calls

  predicate Mine(t: Table, ns: string, runId: string) { runId in t.runs && t.runs[runId].ns == Some(ns) }

  /** What exists for `ns`; definitions are shared by every tenant. */
  function Project(t: Table, ns: string): Table {
    Table(t.defs,
          map id | id in t.runs && Mine(t, ns, id) :: t.runs[id],
          map k | k in t.nodes && Mine(t, ns, k.runId) :: t.nodes[k])
  }

  /** What exists for everyone else. */
  function Foreign(t: Table, ns: string): Table {
    Table(map[],
          map id | id in t.runs && !Mine(t, ns, id) :: t.runs[id],
          map k | k in t.nodes && !Mine(t, ns, k.runId) :: t.nodes[k])
  }

  ghost predicate NodesOwned(t: Table) { forall k :: k in t.nodes ==> k.runId in t.runs }

  /** The call would succeed but for an id some other tenant holds. */
  ghost predicate TakesForeignId(t: Table, ns: string, op: Op) {
    match op
    case CreateRun(run) =>
      && !(run.parentRunId.Some? && OutOfScope(t, Some(ns), run.parentRunId.value))
      && run.id in t.runs && !Mine(t, ns, run.id)
    case CreateNodes(batch) =>
      && (forall n :: n in batch ==> Mine(t, ns, n.runId))
      && InsertNodes(Project(t, ns).nodes, batch).Some?
      && ForeignIdIn(t, ns, batch)
    case _ => false
  }

  ghost predicate Commutes(t: Table, ns: string, op: Op) {
    var (t', reply) := Step(t, Some(ns), op);
    (Project(t', ns), reply) == Step(Project(t, ns), Some(ns), op)
  }

  lemma ScopeProjects(t: Table, ns: string, id: string)
    ensures OutOfScope(Project(t, ns), Some(ns), id) == OutOfScope(t, Some(ns), id) == !Mine(t, ns, id)
  {
  }

  lemma MatchingProjects(t: Table, ns: string, defName: Option<string>, inState: Option<RunState>)
    ensures Matching(Project(t, ns), Some(ns), defName, inState) == Matching(t, Some(ns), defName, inState)
  {
  }

  lemma ReadsCommute(t: Table, ns: string, op: Op)
    requires op.GetRun? || op.ListAfter? || op.GetChildren? || op.GetNode? || op.GetNodes?
    ensures Commutes(t, ns, op) && Step(t, Some(ns), op).0 == t
  {
    match op
    case GetRun(id) =>
    case ListAfter(defName, inState, _, _) => MatchingProjects(t, ns, defName, inState);
    case GetChildren(p) =>
      var q := Project(t, ns);
      assert forall id :: id in q.runs <==> id in t.runs && Visible(Some(ns), t.runs[id]);
      assert forall id :: id in q.runs ==> q.runs[id] == t.runs[id] && Visible(Some(ns), q.runs[id]);
      assert (set id | id in t.runs && Visible(Some(ns), t.runs[id]) && t.runs[id].run.parentRunId == Some(p)
                     :: t.runs[id].run) ==
             (set id | id in q.runs && Visible(Some(ns), q.runs[id]) && q.runs[id].run.parentRunId == Some(p)
                     :: q.runs[id].run);
    case GetNode(k) => ScopeProjects(t, ns, k.runId);
    case GetNodes(id) =>
      var q := Project(t, ns);
      ScopeProjects(t, ns, id);
      assert Mine(t, ns, id) ==>
        (set k | k in t.nodes && k.runId == id :: t.nodes[k]) == (set k | k in q.nodes && k.runId == id :: q.nodes[k]);
  }

  /** Rewriting one visible row, its namespace kept. */
  lemma PutRunProjects(t: Table, ns: string, id: string, run: Run)
    requires Mine(t, ns, id)
    ensures var t' := t.(runs := t.runs[id := Row(run, Some(ns))]);
            && Project(t', ns) == Project(t, ns).(runs := Project(t, ns).runs[id := Row(run, Some(ns))])
            && Foreign(t', ns) == Foreign(t, ns)
  {
    var t' := t.(runs := t.runs[id := Row(run, Some(ns))]);
    assert forall x :: Mine(t', ns, x) == Mine(t, ns, x);
  }

  lemma PutNodeProjects(t: Table, ns: string, k: NodeKey, n: Node)
    requires Mine(t, ns, k.runId)
    ensures var t' := t.(nodes := t.nodes[k := n]);
            && Project(t', ns) == Project(t, ns).(nodes := Project(t, ns).nodes[k := n])
            && Foreign(t', ns) == Foreign(t, ns)
  {
    var t' := t.(nodes := t.nodes[k := n]);
    assert forall x :: Mine(t', ns, x) == Mine(t, ns, x);
  }

  lemma RunSettersCommute(t: Table, ns: string, op: Op)
    requires op.UpdateRunState? || op.SetRunStarted? || op.SetRunCompleted?
    ensures Commutes(t, ns, op) && Foreign(Step(t, Some(ns), op).0, ns) == Foreign(t, ns)
  {
    if Mine(t, ns, op.runId) {
      var t' := Step(t, Some(ns), op).0;
      PutRunProjects(t, ns, op.runId, t'.runs[op.runId].run);
    }
  }

  lemma NodeSettersCommute(t: Table, ns: string, op: Op)
    requires op.UpdateNode? || op.Finalize?
    ensures Commutes(t, ns, op) && Foreign(Step(t, Some(ns), op).0, ns) == Foreign(t, ns)
  {
    ScopeProjects(t, ns, op.key.runId);
    if Mine(t, ns, op.key.runId) && op.key in t.nodes {
      var t' := Step(t, Some(ns), op).0;
      PutNodeProjects(t, ns, op.key, t'.nodes[op.key]);
      assert Project(t, ns).nodes[op.key] == t.nodes[op.key];
    }
  }

  lemma AddRunProjects(t: Table, ns: string, run: Run)
    requires NodesOwned(t) && run.id !in t.runs
    ensures var t' := t.(runs := t.runs[run.id := Row(run, Some(ns))]);
            && Project(t', ns) == Project(t, ns).(runs := Project(t, ns).runs[run.id := Row(run, Some(ns))])
            && Foreign(t', ns) == Foreign(t, ns)
  {
    var t' := t.(runs := t.runs[run.id := Row(run, Some(ns))]);
    forall k | k in t.nodes ensures Mine(t', ns, k.runId) == Mine(t, ns, k.runId) { assert k.runId != run.id; }
    assert Project(t', ns).nodes == Project(t, ns).nodes;
    assert Foreign(t', ns).nodes == Foreign(t, ns).nodes;
    assert Project(t', ns).runs == Project(t, ns).runs[run.id := Row(run, Some(ns))];
    assert Foreign(t', ns).runs == Foreign(t, ns).runs;
  }

  lemma CreateRunCommutes(t: Table, ns: string, run: Run)
    requires NodesOwned(t)
    ensures Commutes(t, ns, CreateRun(run)) <==> !TakesForeignId(t, ns, CreateRun(run))
    ensures Foreign(Step(t, Some(ns), CreateRun(run)).0, ns) == Foreign(t, ns)
  {
    if run.parentRunId.Some? { ScopeProjects(t, ns, run.parentRunId.value); }
    if run.id !in t.runs { AddRunProjects(t, ns, run); }
  }

  ghost predicate HoldsId(nodes: map<NodeKey, Node>, id: string) { exists k :: k in nodes && nodes[k].id == id }

  lemma HolderSplits(t: Table, ns: string, id: string)
    ensures HoldsId(t.nodes, id) <==> HoldsId(Project(t, ns).nodes, id) || HoldsId(Foreign(t, ns).nodes, id)
  {
    if HoldsId(t.nodes, id) {
      var k :| k in t.nodes && t.nodes[k].id == id;
      if Mine(t, ns, k.runId) {
        assert k in Project(t, ns).nodes;
      } else {
        assert k in Foreign(t, ns).nodes;
      }
    }
  }

  ghost predicate ForeignIdIn(t: Table, ns: string, batch: seq<Node>) {
    exists n :: n in batch && HoldsId(Foreign(t, ns).nodes, n.id)
  }

  lemma {:induction false} InsertProjects(t: Table, ns: string, batch: seq<Node>)
    requires forall n :: n in batch ==> Mine(t, ns, n.runId)
    ensures var full, mine := InsertNodes(t.nodes, batch), InsertNodes(Project(t, ns).nodes, batch);
            && (full.Some? <==> mine.Some? && !ForeignIdIn(t, ns, batch))
            && (full.Some? ==>
                  var t' := t.(nodes := full.value);
                  Project(t', ns) == Project(t, ns).(nodes := mine.value) && Foreign(t', ns) == Foreign(t, ns))
    decreases batch
  {
    if batch != [] {
      var n, k := batch[0], KeyOf(batch[0]);
      var t1 := t.(nodes := t.nodes[k := n]);
      assert n in batch && Mine(t, ns, n.runId);
      assert k in t.nodes <==> k in Project(t, ns).nodes;
      HolderSplits(t, ns, n.id);
      if k !in t.nodes && !HoldsId(t.nodes, n.id) {
        PutNodeProjects(t, ns, k, n);
        assert forall m :: m in batch[1..] ==> Mine(t1, ns, m.runId);
        InsertProjects(t1, ns, batch[1..]);
        assert ForeignIdIn(t, ns, batch) <==> ForeignIdIn(t1, ns, batch[1..]) by {
          assert forall m :: m in batch <==> m == n || m in batch[1..];
        }
      }
    }
  }

  lemma CreateNodesCommutes(t: Table, ns: string, batch: seq<Node>)
    ensures Commutes(t, ns, CreateNodes(batch)) <==> !TakesForeignId(t, ns, CreateNodes(batch))
    ensures Foreign(Step(t, Some(ns), CreateNodes(batch)).0, ns) == Foreign(t, ns)
  {
    forall id ensures OutOfScope(Project(t, ns), Some(ns), id) == OutOfScope(t, Some(ns), id) == !Mine(t, ns, id) {
      ScopeProjects(t, ns, id);
    }
    if forall n :: n in batch ==> Mine(t, ns, n.runId) {
      InsertProjects(t, ns, batch);
    }
  }

  lemma CreateDefinitionCommutes(t: Table, ns: string, d: Definition)
    ensures Commutes(t, ns, CreateDefinition(d))
    ensures Foreign(Step(t, Some(ns), CreateDefinition(d)).0, ns) == Foreign(t, ns)
  {
    var t' := t.(defs := t.defs[d.id := d]);
    assert Project(t', ns) == Project(t, ns).(defs := t'.defs);
    assert Foreign(t', ns) == Foreign(t, ns);
  }

  lemma StepKeepsDefs(t: Table, ns: Option<string>, op: Op)
    requires !op.CreateDefinition?
    ensures Step(t, ns, op).0.defs == t.defs
  {
  }

  /** A scoped call acts on its own tenant's projection and on nothing else, unless an id is taken elsewhere. */
  lemma StepIsolated(t: Table, ns: string, op: Op)
    requires NodesOwned(t)
    ensures Commutes(t, ns, op) <==> !TakesForeignId(t, ns, op)
    ensures Foreign(Step(t, Some(ns), op).0, ns) == Foreign(t, ns)
  {
    match op
    case CreateDefinition(d) => CreateDefinitionCommutes(t, ns, d);
    case CreateRun(run) => CreateRunCommutes(t, ns, run);
    case CreateNodes(batch) => CreateNodesCommutes(t, ns, batch);
    case UpdateRunState(_, _, _) => RunSettersCommute(t, ns, op);
    case SetRunStarted(_, _) => RunSettersCommute(t, ns, op);
    case SetRunCompleted(_, _) => RunSettersCommute(t, ns, op);
    case UpdateNode(_, _) => NodeSettersCommute(t, ns, op);
    case Finalize(_, _, _, _) => NodeSettersCommute(t, ns, op);
    case _ => ReadsCommute(t, ns, op);
  }

  lemma {:induction false} InsertedKeys(nodes: map<NodeKey, Node>, batch: seq<Node>)
    ensures var r := InsertNodes(nodes, batch);
            r.Some? ==> forall k :: k in r.value ==> k in nodes || exists n :: n in batch && KeyOf(n) == k
    decreases batch
  {
    if batch != [] {
      InsertedKeys(nodes[KeyOf(batch[0]) := batch[0]], batch[1..]);
    }
  }

  lemma StepKeepsNodesOwned(t: Table, ns: string, op: Op)
    requires NodesOwned(t)
    ensures NodesOwned(Step(t, Some(ns), op).0)
  {
    if op.CreateNodes? {
      InsertedKeys(t.nodes, op.batch);
    }
  }

  /** One tenant's rows are among what is foreign to any other. */
  lemma ProjectOfForeign(t: Table, ns: string, other: string)
    requires other != ns
    ensures Project(Foreign(t, other), ns) == Project(t, ns).(defs := map[])
  {
    var f := Foreign(t, other);
    assert forall id :: Mine(f, ns, id) == Mine(t, ns, id);
    assert Project(f, ns).runs == Project(t, ns).runs;
    assert Project(f, ns).nodes == Project(t, ns).nodes;
  }

  lemma OthersInvisible(t: Table, ns: string, other: string, op: Op)
    requires NodesOwned(t) && other != ns && !op.CreateDefinition?
    ensures Project(Step(t, Some(other), op).0, ns) == Project(t, ns)
  {
    var t' := Step(t, Some(other), op).0;
    StepIsolated(t, other, op);
    StepKeepsDefs(t, Some(other), op);
    ProjectOfForeign(t, ns, other);
    ProjectOfForeign(t', ns, other);
    assert Project(t', ns).runs == Project(t, ns).runs && Project(t', ns).nodes == Project(t, ns).nodes;
  }

  // Whole runs

  /** Answers, in the run of `calls` from `t`, to those that concern `ns`. */
  ghost function Answers(t: Table, calls: seq<Call>, ns: string): seq<Reply>
    decreases calls
  {
    if calls == [] then []
    else
      var (t', reply) := Step(t, calls[0].ns, calls[0].op);
      (if Concerns(calls[0], ns) then [reply] else []) + Answers(t', calls[1..], ns)
  }

  ghost predicate FreshIds(t: Table, calls: seq<Call>, ns: string)
    decreases calls
  {
    calls == [] ||
    (&& (calls[0].ns == Some(ns) ==> !TakesForeignId(t, ns, calls[0].op))
     && FreshIds(Step(t, calls[0].ns, calls[0].op).0, calls[1..], ns))
  }

  lemma DefinitionsUnscoped(t: Table, a: Option<string>, b: Option<string>, op: Op)
    requires op.CreateDefinition?
    ensures Step(t, a, op) == Step(t, b, op)
  {
  }

  /**
   * Any interleaving of calls by any scoped stores: one tenant gets the answers, and its data ends
   * up, as if the other tenants had never been there.
   */
  lemma {:induction false} TenantIsolation(t: Table, calls: seq<Call>, ns: string)
    requires NodesOwned(t) && FreshIds(t, calls, ns)
    requires forall c :: c in calls ==> c.ns.Some?
    ensures Answers(t, calls, ns) == Answers(Project(t, ns), Own(calls, ns), ns)
    ensures Project(RunCalls(t, calls), ns) == RunCalls(Project(t, ns), Own(calls, ns))
    decreases calls
  {
    if calls != [] {
      var c, rest := calls[0], calls[1..];
      assert c in calls;
      var t' := Step(t, c.ns, c.op).0;
      StepKeepsNodesOwned(t, c.ns.value, c.op);
      assert forall x :: x in rest ==> x in calls;
      TenantIsolation(t', rest, ns);
      if Concerns(c, ns) {
        StepIsolated(t, ns, c.op);
        if c.op.CreateDefinition? {
          DefinitionsUnscoped(t, c.ns, Some(ns), c.op);
          DefinitionsUnscoped(Project(t, ns), c.ns, Some(ns), c.op);
        }
        var own := Own(calls, ns);
        assert own == [c] + Own(rest, ns);
        assert own[1..] == Own(rest, ns);
      } else {
        OthersInvisible(t, ns, c.ns.value, c.op);
        assert Own(calls, ns) == Own(rest, ns);
      }
    }
  }
}
