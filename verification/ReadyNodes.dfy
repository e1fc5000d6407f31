/**
 * The DAG scheduler: which nodes may start, and what every run driven by that answer does. A run
 * repeatedly starts a node the scheduler returned, or ends one: a started node completes or fails, a
 * pending one hits the cache, and either may be skipped.
 */
module ReadyNodes {
  import opened Prelude
  import opened Workflow

  datatype Edge = Edge(from: string, to: string)

  datatype Graph = Graph(nodes: seq<string>, edges: seq<Edge>)

  /** The last listed node of that name has completed, as collecting statuses into a map leaves it. */
  ghost predicate LastCompleted(nodes: seq<Node>, name: string) {
    exists p :: 0 <= p < |nodes| && nodes[p].nodeName == name && nodes[p].status.Completed? &&
      forall q :: p < q < |nodes| ==> nodes[q].nodeName != name
  }

  ghost predicate IsReady(node: Node, nodes: seq<Node>, g: Graph) {
    node.status.Pending? && forall e :: e in g.edges && e.to == node.nodeName ==> LastCompleted(nodes, e.from)
  }

  /** The statuses as the final map holds them. */
  ghost predicate Collected(status: map<string, NodeStatus>, nodes: seq<Node>) {
    forall name :: (name in status && status[name].Completed?) <==> LastCompleted(nodes, name)
  }

  lemma CollectOne(status: map<string, NodeStatus>, nodes: seq<Node>, node: Node)
    requires Collected(status, nodes)
    ensures Collected(status[node.nodeName := node.status], nodes + [node])
  {
    var more := nodes + [node];
    forall name ensures LastCompleted(more, name) <==>
        if name == node.nodeName then node.status.Completed? else LastCompleted(nodes, name)
    {
      assert more[|nodes|] == node;
      if LastCompleted(nodes, name) && name != node.nodeName {
        var p :| 0 <= p < |nodes| && nodes[p].nodeName == name && nodes[p].status.Completed? &&
          forall q :: p < q < |nodes| ==> nodes[q].nodeName != name;
        assert more[p] == nodes[p];
      }
      if LastCompleted(more, name) && name != node.nodeName {
        var p :| 0 <= p < |more| && more[p].nodeName == name && more[p].status.Completed? &&
          forall q :: p < q < |more| ==> more[q].nodeName != name;
        assert nodes[p] == more[p];
        assert forall q :: p < q < |nodes| ==> nodes[q] == more[q];
      }
    }
  }

  /** The two loops over the graph: every node listed, then each edge's source under its target. */
  method Predecessors(g: Graph) returns (preds: map<string, seq<string>>)
    ensures forall n, p :: n in preds && p in preds[n] ==> Edge(p, n) in g.edges
    ensures forall e :: e in g.edges ==> e.to in preds && e.from in preds[e.to]
  {
    preds := map[];
    for i := 0 to |g.nodes|
      invariant forall n :: n in preds ==> preds[n] == []
    {
      if g.nodes[i] !in preds { preds := preds[g.nodes[i] := []]; }
    }
    for i := 0 to |g.edges|
      invariant forall n, p :: n in preds && p in preds[n] ==> Edge(p, n) in g.edges[..i]
      invariant forall e :: e in g.edges[..i] ==> e.to in preds && e.from in preds[e.to]
    {
      var e := g.edges[i];
      assert g.edges[..i + 1] == g.edges[..i] + [e];
      var sofar := if e.to in preds then preds[e.to] else [];
      preds := preds[e.to := sofar + [e.from]];
    }
    assert g.edges[..|g.edges|] == g.edges;
  }

  /** The statuses collected into a map: of nodes of one name, the last. */
  method StatusMap(all: seq<Node>) returns (status: map<string, NodeStatus>)
    ensures Collected(status, all)
  {
    status := map[];
    for i := 0 to |all|
      invariant Collected(status, all[..i])
    {
      assert all[..i + 1] == all[..i] + [all[i]];
      CollectOne(status, all[..i], all[i]);
      status := status[all[i].nodeName := all[i].status];
    }
    assert all[..|all|] == all;
  }

  /** The answer is `all` at the positions `at`: all the ready ones, each once and in order. */
  method ComputeReadyNodes(all: seq<Node>, g: Graph) returns (ready: seq<Node>, ghost at: seq<nat>)
    ensures |at| == |ready| && forall k :: 0 <= k < |at| ==> at[k] < |all| && ready[k] == all[at[k]]
    ensures forall k, l :: 0 <= k < l < |at| ==> at[k] < at[l]
    ensures forall i :: 0 <= i < |all| ==>
              (i in at <==>
               && all[i].status.Pending?
               && forall e :: e in g.edges && e.to == all[i].nodeName ==>
                    exists p :: 0 <= p < |all| && all[p].nodeName == e.from && all[p].status.Completed? &&
                      forall q :: p < q < |all| ==> all[q].nodeName != e.from)
    ensures forall n :: n in ready <==> n in all && IsReady(n, all, g)
    ensures forall st, n :: Lists(all, st) ==>
              (Startable(g, st, n) <==> exists k :: 0 <= k < |ready| && ready[k].nodeName == n)
  {
    var preds := Predecessors(g);
    var status := StatusMap(all);
    ready, at := [], [];
    for i := 0 to |all|
      invariant Selects(at, i, all, g)
      invariant |at| == |ready| && forall k :: 0 <= k < |at| ==> ready[k] == all[at[k]]
    {
      var node := all[i];
      var ok := node.status.Pending? &&
        (node.nodeName in preds ==>
           forall p :: p in preds[node.nodeName] ==> p in status && status[p].Completed?);
      assert ok == IsReady(node, all, g) by {
        assert forall e :: e in g.edges && e.to == node.nodeName ==> e.from in preds[node.nodeName];
        assert node.nodeName in preds ==> forall p :: p in preds[node.nodeName] ==> Edge(p, node.nodeName) in g.edges;
      }
      if ok { ready, at := ready + [node], at + [i]; }
    }
    SelectedNodes(at, all, g, ready);
    SelectedNames(at, all, g, ready);
  }

  /** `at` lists the ready positions below `n`, in order. */
  ghost predicate Selects(at: seq<nat>, n: nat, all: seq<Node>, g: Graph)
    requires n <= |all|
  {
    && (forall k :: 0 <= k < |at| ==> at[k] < n)
    && (forall k, l :: 0 <= k < l < |at| ==> at[k] < at[l])
    && (forall i :: 0 <= i < n ==> (i in at <==> IsReady(all[i], all, g)))
  }

  lemma SelectedNodes(at: seq<nat>, all: seq<Node>, g: Graph, ready: seq<Node>)
    requires Selects(at, |all|, all, g)
    requires |at| == |ready| && forall k :: 0 <= k < |at| ==> ready[k] == all[at[k]]
    ensures forall n :: n in ready <==> n in all && IsReady(n, all, g)
  {
    forall n | n in ready ensures n in all && IsReady(n, all, g) {
      var k :| 0 <= k < |ready| && ready[k] == n;
      assert at[k] in at;
    }
    forall n | n in all && IsReady(n, all, g) ensures n in ready {
      var i :| 0 <= i < |all| && all[i] == n;
      var k :| 0 <= k < |at| && at[k] == i;
      assert ready[k] == n;
    }
  }

  /** With unique names, the names in the answer are exactly the startable ones. */
  lemma SelectedNames(at: seq<nat>, all: seq<Node>, g: Graph, ready: seq<Node>)
    requires Selects(at, |all|, all, g)
    requires |at| == |ready| && forall k :: 0 <= k < |at| ==> ready[k] == all[at[k]]
    ensures forall st, n :: Lists(all, st) ==>
              (Startable(g, st, n) <==> exists k :: 0 <= k < |ready| && ready[k].nodeName == n)
  {
    forall st, n | Lists(all, st)
      ensures Startable(g, st, n) <==> exists k :: 0 <= k < |ready| && ready[k].nodeName == n
    {
      if Startable(g, st, n) {
        var i :| 0 <= i < |all| && all[i].nodeName == n;
        ReadyIffStartable(all, st, g, i);
        var k :| 0 <= k < |at| && at[k] == i;
        assert ready[k].nodeName == n;
      }
      if k :| 0 <= k < |ready| && ready[k].nodeName == n {
        assert at[k] in at;
        ReadyIffStartable(all, st, g, at[k]);
      }
    }
  }

  // Runs

  /** Status of every node of the run, by its name, which is unique within a run. */
  type Statuses = map<string, NodeStatus>

  function Initial(names: set<string>): Statuses { map n | n in names :: NodeStatus.Pending }

  datatype Action =
    | Start(name: string)
    | Complete(name: string)
    | Fail(name: string)
    | Skip(name: string)
    | Hit(name: string)

  predicate Is(st: Statuses, n: string, s: NodeStatus) { n in st && st[n] == s }

  predicate Completed(st: Statuses, n: string) { Is(st, n, NodeStatus.Completed) }

  /** What `ComputeReadyNodes` returns for these statuses. */
  predicate Startable(g: Graph, st: Statuses, n: string) {
    n in st && st[n].Pending? && forall e :: e in g.edges && e.to == n ==> Completed(st, e.from)
  }

  predicate Enabled(g: Graph, st: Statuses, a: Action) {
    match a
    case Start(n) => Startable(g, st, n)
    case Complete(n) => Is(st, n, NodeStatus.Running)
    case Fail(n) => Is(st, n, NodeStatus.Running)
    case Skip(n) => Is(st, n, NodeStatus.Pending) || Is(st, n, NodeStatus.Running)
    case Hit(n) => Is(st, n, NodeStatus.Pending)
  }

  function Outcome(a: Action): NodeStatus {
    match a
    case Start(_) => NodeStatus.Running
    case Complete(_) => NodeStatus.Completed
    case Fail(_) => NodeStatus.Failed
    case Skip(_) => NodeStatus.Skipped
    case Hit(_) => NodeStatus.CacheHit
  }

  function Apply(st: Statuses, a: Action): Statuses { st[a.name := Outcome(a)] }

  function After(st: Statuses, acts: seq<Action>): Statuses {
    if acts == [] then st else Apply(After(st, acts[..|acts| - 1]), acts[|acts| - 1])
  }

  predicate ValidRun(g: Graph, st: Statuses, acts: seq<Action>) {
    acts == [] ||
    (var rest := acts[..|acts| - 1];
     ValidRun(g, st, rest) && Enabled(g, After(st, rest), acts[|acts| - 1]))
  }

  /** `nodes` are the nodes of a run, their names unique, and `st` their statuses. */
  ghost predicate Lists(nodes: seq<Node>, st: Statuses) {
    && (forall i, j :: 0 <= i < j < |nodes| ==> nodes[i].nodeName != nodes[j].nodeName)
    && (forall n :: n in st <==> exists i :: 0 <= i < |nodes| && nodes[i].nodeName == n)
    && (forall i :: 0 <= i < |nodes| ==> st[nodes[i].nodeName] == nodes[i].status)
  }

  lemma ReadyIffStartable(nodes: seq<Node>, st: Statuses, g: Graph, i: nat)
    requires Lists(nodes, st) && i < |nodes|
    ensures IsReady(nodes[i], nodes, g) <==> Startable(g, st, nodes[i].nodeName)
  {
    forall p ensures LastCompleted(nodes, p) <==> Completed(st, p) {
      if Completed(st, p) {
        var k :| 0 <= k < |nodes| && nodes[k].nodeName == p;
        assert nodes[k].status.Completed? && forall q :: k < q < |nodes| ==> nodes[q].nodeName != p;
      }
    }
  }

  lemma RestThenLast(acts: seq<Action>)
    requires acts != []
    ensures acts == acts[..|acts| - 1] + [acts[|acts| - 1]]
  {
  }

  /** Each status tells what happened to the node. */
  predicate Tells(st: Statuses, names: set<string>, acts: seq<Action>, n: string) {
    && (Is(st, n, NodeStatus.Pending) <==> n in names && forall a :: a in acts ==> a.name != n)
    && (Is(st, n, NodeStatus.Running) <==>
        Start(n) in acts && Complete(n) !in acts && Fail(n) !in acts && Skip(n) !in acts)
    && (Is(st, n, NodeStatus.Completed) <==> Complete(n) in acts)
    && (Is(st, n, NodeStatus.Failed) <==> Fail(n) in acts)
    && (Is(st, n, NodeStatus.Skipped) <==> Skip(n) in acts)
    && (Is(st, n, NodeStatus.CacheHit) <==> Hit(n) in acts)
    && (Complete(n) in acts || Fail(n) in acts ==> Start(n) in acts)
  }

  lemma ActionTells(g: Graph, names: set<string>, st: Statuses, acts: seq<Action>, a: Action, n: string)
    requires Tells(st, names, acts, n) && Enabled(g, st, a)
    ensures Tells(Apply(st, a), names, acts + [a], n)
  {
    if a.name != n {
      assert forall s :: Is(Apply(st, a), n, s) <==> Is(st, n, s);
    } else {
      assert Apply(st, a)[n] == Outcome(a);
      assert !Is(st, n, NodeStatus.Completed) && !Is(st, n, NodeStatus.Failed);
      assert !Is(st, n, NodeStatus.Skipped) && !Is(st, n, NodeStatus.CacheHit);
    }
  }

  /** In every run each status tells what happened to the node, and every ending is final. */
  lemma {:induction false} StatusTellsHistory(g: Graph, names: set<string>, acts: seq<Action>, n: string)
    requires ValidRun(g, Initial(names), acts)
    ensures Tells(After(Initial(names), acts), names, acts, n)
  {
    if acts != [] {
      var rest, last := acts[..|acts| - 1], acts[|acts| - 1];
      StatusTellsHistory(g, names, rest, n);
      ActionTells(g, names, After(Initial(names), rest), rest, last, n);
      RestThenLast(acts);
    }
  }

  /** An action that ends the node has been taken. */
  predicate HasEnded(acts: seq<Action>, n: string) {
    Complete(n) in acts || Fail(n) in acts || Skip(n) in acts || Hit(n) in acts
  }

  lemma ExtendIff(g: Graph, names: set<string>, acts: seq<Action>, a: Action)
    requires ValidRun(g, Initial(names), acts)
    ensures ValidRun(g, Initial(names), acts + [a]) <==> Enabled(g, After(Initial(names), acts), a)
  {
    assert (acts + [a])[..|acts|] == acts;
  }

  /**
   * Which actions can come next, told from the actions so far alone: a node starts once, after all its
   * predecessors completed; completes or fails only after it started; is skipped or hits the cache only
   * before; and does none of that after it ended.
   */
  lemma NextIff(g: Graph, names: set<string>, acts: seq<Action>, n: string)
    requires ValidRun(g, Initial(names), acts)
    ensures ValidRun(g, Initial(names), acts + [Start(n)]) <==>
            && n in names && Start(n) !in acts && !HasEnded(acts, n)
            && forall e :: e in g.edges && e.to == n ==> Complete(e.from) in acts
    ensures ValidRun(g, Initial(names), acts + [Complete(n)]) <==> Start(n) in acts && !HasEnded(acts, n)
    ensures ValidRun(g, Initial(names), acts + [Fail(n)]) <==> Start(n) in acts && !HasEnded(acts, n)
    ensures ValidRun(g, Initial(names), acts + [Skip(n)]) <==> n in names && !HasEnded(acts, n)
    ensures ValidRun(g, Initial(names), acts + [Hit(n)]) <==> n in names && Start(n) !in acts && !HasEnded(acts, n)
  {
    var st := After(Initial(names), acts);
    ExtendIff(g, names, acts, Start(n));
    ExtendIff(g, names, acts, Complete(n));
    ExtendIff(g, names, acts, Fail(n));
    ExtendIff(g, names, acts, Skip(n));
    ExtendIff(g, names, acts, Hit(n));
    StatusTellsHistory(g, names, acts, n);
    KnownStatuses(g, names, acts);
    assert Is(st, n, NodeStatus.Pending) <==> n in names && Start(n) !in acts && !HasEnded(acts, n);
    forall e | e in g.edges && e.to == n ensures Completed(st, e.from) <==> Complete(e.from) in acts {
      StatusTellsHistory(g, names, acts, e.from);
    }
  }

  lemma {:induction false} KnownStatuses(g: Graph, names: set<string>, acts: seq<Action>)
    requires ValidRun(g, Initial(names), acts)
    ensures var st := After(Initial(names), acts);
            st.Keys == names && forall n :: n in names ==> st[n].Pending? || Started(st[n]) || Halted(st[n])
    ensures forall a :: a in acts ==> a.name in names
  {
    if acts != [] {
      KnownStatuses(g, names, acts[..|acts| - 1]);
      RestThenLast(acts);
    }
  }

  // Walks, cycles and blocked nodes

  ghost predicate IsWalk(g: Graph, w: seq<string>) {
    |w| >= 1 && forall i :: 0 <= i < |w| - 1 ==> Edge(w[i], w[i + 1]) in g.edges
  }

  ghost predicate OnCycle(g: Graph, n: string) {
    exists w :: IsWalk(g, w) && |w| >= 2 && w[0] == n && w[|w| - 1] == n
  }

  /** Downstream of (or on) a cycle, or of a name that is no node of the run. */
  ghost predicate Blocked(g: Graph, names: set<string>, n: string) {
    exists w :: IsWalk(g, w) && w[|w| - 1] == n && (w[0] !in names || OnCycle(g, w[0]))
  }

  /** Ended in a way that lets no successor start: only `Completed` does. */
  predicate Halted(s: NodeStatus) { s.Failed? || s.Skipped? || s.CacheHit? }

  /** Blocked, or downstream of a halted node. */
  ghost predicate Held(g: Graph, names: set<string>, st: Statuses, n: string) {
    || Blocked(g, names, n)
    || exists w :: IsWalk(g, w) && |w| >= 2 && w[|w| - 1] == n && w[0] in st && Halted(st[w[0]])
  }

  // Order of completion

  function Order(acts: seq<Action>): seq<string> {
    if acts == [] then []
    else
      var last := acts[|acts| - 1];
      Order(acts[..|acts| - 1]) + (if last.Complete? then [last.name] else [])
  }

  /** Each listed node comes once and after all its predecessors. */
  ghost predicate Topological(g: Graph, order: seq<string>) {
    (forall i, j :: 0 <= i < j < |order| ==> order[i] != order[j]) &&
    forall i, e :: 0 <= i < |order| && e in g.edges && e.to == order[i] ==> e.from in order[..i]
  }

  predicate Started(s: NodeStatus) { s.Running? || s.Completed? || s.Failed? }

  /** What every state of a run satisfies, with the completions so far. */
  ghost predicate RunInv(g: Graph, names: set<string>, st: Statuses, order: seq<string>) {
    && st.Keys == names
    && (forall n :: n in names ==> st[n].Pending? || Started(st[n]) || Halted(st[n]))
    && (forall n :: n in order <==> Completed(st, n))
    && (forall e :: e in g.edges && e.to in names && Started(st[e.to]) ==> e.from in order)
    && Topological(g, order)
  }

  lemma ApplyKeepsRunInv(g: Graph, names: set<string>, st: Statuses, order: seq<string>, a: Action)
    requires RunInv(g, names, st, order) && Enabled(g, st, a)
    ensures RunInv(g, names, Apply(st, a), order + if a.Complete? then [a.name] else [])
  {
    var st' := Apply(st, a);
    assert st'.Keys == names;
    if a.Complete? {
      var order' := order + [a.name];
      assert a.name !in order;
      assert forall i :: 0 <= i < |order| ==> order'[i] == order[i] && order'[..i] == order[..i];
      assert order'[..|order|] == order;
    } else {
      assert order + [] == order;
    }
  }

  lemma {:induction false} RunsKeepRunInv(g: Graph, names: set<string>, acts: seq<Action>)
    requires ValidRun(g, Initial(names), acts)
    ensures RunInv(g, names, After(Initial(names), acts), Order(acts))
  {
    if acts != [] {
      var rest := acts[..|acts| - 1];
      RunsKeepRunInv(g, names, rest);
      ApplyKeepsRunInv(g, names, After(Initial(names), rest), Order(rest), acts[|acts| - 1]);
    }
  }

  /** A walk into a completed node runs through strictly earlier completions. */
  lemma {:induction false} WalkBacktracks(g: Graph, order: seq<string>, w: seq<string>, i: nat) returns (j: nat)
    requires Topological(g, order) && IsWalk(g, w) && i < |order| && w[|w| - 1] == order[i]
    ensures j < |order| && order[j] == w[0] && j + |w| - 1 <= i
    decreases |w|
  {
    if |w| == 1 {
      j := i;
    } else {
      var u := w[..|w| - 1];
      assert Edge(w[|w| - 2], w[|w| - 1]) in g.edges;
      assert u[|u| - 1] in order[..i];
      var k :| 0 <= k < i && order[k] == u[|u| - 1];
      j := WalkBacktracks(g, order, u, k);
    }
  }

  lemma CompletedOffCycles(g: Graph, order: seq<string>, n: string)
    requires Topological(g, order) && n in order
    ensures !OnCycle(g, n)
  {
    var i :| 0 <= i < |order| && order[i] == n;
    forall c | IsWalk(g, c) && |c| >= 2 && c[0] == n ensures c[|c| - 1] != n {
      if c[|c| - 1] == n { var j := WalkBacktracks(g, order, c, i); }
    }
  }

  lemma WalkFromOrder(g: Graph, order: seq<string>, w: seq<string>)
    requires Topological(g, order) && IsWalk(g, w) && w[|w| - 1] in order
    ensures w[0] in order
  {
    var i :| 0 <= i < |order| && order[i] == w[|w| - 1];
    var j := WalkBacktracks(g, order, w, i);
  }

  /** Every walk into a started node comes from a completed one. */
  lemma WalkIntoStarted(g: Graph, names: set<string>, st: Statuses, order: seq<string>, w: seq<string>)
    requires RunInv(g, names, st, order) && IsWalk(g, w) && |w| >= 2
    requires w[|w| - 1] in names && Started(st[w[|w| - 1]])
    ensures w[0] in order
  {
    var u := w[..|w| - 1];
    assert Edge(w[|w| - 2], w[|w| - 1]) in g.edges;
    assert IsWalk(g, u) && u[|u| - 1] in order;
    WalkFromOrder(g, order, u);
  }

  lemma StartedOffCycles(g: Graph, names: set<string>, st: Statuses, order: seq<string>, n: string)
    requires RunInv(g, names, st, order) && n in names && Started(st[n])
    ensures !OnCycle(g, n)
  {
    if c :| IsWalk(g, c) && |c| >= 2 && c[0] == n && c[|c| - 1] == n {
      WalkIntoStarted(g, names, st, order, c);
      CompletedOffCycles(g, order, n);
    }
  }

  lemma StartedNotHeld(g: Graph, names: set<string>, st: Statuses, order: seq<string>, n: string)
    requires RunInv(g, names, st, order) && n in names && Started(st[n])
    ensures !Held(g, names, st, n)
  {
    forall w | IsWalk(g, w) && w[|w| - 1] == n
      ensures w[0] in names && !OnCycle(g, w[0]) && (|w| >= 2 ==> !Halted(st[w[0]]))
    {
      if |w| == 1 {
        StartedOffCycles(g, names, st, order, n);
      } else {
        WalkIntoStarted(g, names, st, order, w);
        CompletedOffCycles(g, order, w[0]);
      }
    }
  }

  lemma BlockedDownstream(g: Graph, names: set<string>, e: Edge)
    requires e in g.edges && Blocked(g, names, e.from)
    ensures Blocked(g, names, e.to)
  {
    var w :| IsWalk(g, w) && w[|w| - 1] == e.from && (w[0] !in names || OnCycle(g, w[0]));
    var w' := w + [e.to];
    assert IsWalk(g, w') && w'[|w'| - 1] == e.to;
  }

  lemma BlockedHasBlockedPredecessor(g: Graph, names: set<string>, n: string)
    requires n in names && Blocked(g, names, n)
    ensures exists e :: e in g.edges && e.to == n && (e.from !in names || Blocked(g, names, e.from))
  {
    var w :| IsWalk(g, w) && w[|w| - 1] == n && (w[0] !in names || OnCycle(g, w[0]));
    if |w| == 1 {
      var c :| IsWalk(g, c) && |c| >= 2 && c[0] == n && c[|c| - 1] == n;
      var u := c[..|c| - 1];
      assert IsWalk(g, u) && OnCycle(g, u[0]);
      assert Edge(c[|c| - 2], n) in g.edges && Blocked(g, names, c[|c| - 2]);
    } else {
      var u := w[..|w| - 1];
      assert IsWalk(g, u) && Edge(w[|w| - 2], n) in g.edges && Blocked(g, names, w[|w| - 2]);
    }
  }

  lemma HeldHasHeldPredecessor(g: Graph, names: set<string>, st: Statuses, n: string)
    requires st.Keys == names && n in names && Held(g, names, st, n)
    ensures exists e :: e in g.edges && e.to == n &&
              (e.from !in names || Held(g, names, st, e.from) || Halted(st[e.from]))
  {
    if Blocked(g, names, n) {
      BlockedHasBlockedPredecessor(g, names, n);
    } else {
      var w :| IsWalk(g, w) && |w| >= 2 && w[|w| - 1] == n && w[0] in st && Halted(st[w[0]]);
      var u := w[..|w| - 1];
      assert Edge(w[|w| - 2], n) in g.edges && IsWalk(g, u) && u[|u| - 1] == w[|w| - 2];
      assert |u| >= 2 ==> Held(g, names, st, w[|w| - 2]);
    }
  }

  /** In no run has a held node started, nor can it: it is pending, or was skipped or hit the cache. */
  lemma HeldNeverStarts(g: Graph, names: set<string>, acts: seq<Action>, n: string)
    requires ValidRun(g, Initial(names), acts)
    requires n in names && Held(g, names, After(Initial(names), acts), n)
    ensures var st := After(Initial(names), acts);
            n in st && !Started(st[n]) && !Startable(g, st, n)
  {
    var st, order := After(Initial(names), acts), Order(acts);
    RunsKeepRunInv(g, names, acts);
    if Started(st[n]) { StartedNotHeld(g, names, st, order, n); }
    HeldHasHeldPredecessor(g, names, st, n);
    var e :| e in g.edges && e.to == n && (e.from !in names || Held(g, names, st, e.from) || Halted(st[e.from]));
    if e.from in names && Started(st[e.from]) && !Halted(st[e.from]) { StartedNotHeld(g, names, st, order, e.from); }
    assert !Completed(st, e.from);
  }

  lemma {:induction false} HaltedStays(g: Graph, st: Statuses, acts: seq<Action>, n: string)
    requires ValidRun(g, st, acts) && n in st && Halted(st[n])
    ensures n in After(st, acts) && After(st, acts)[n] == st[n]
  {
    if acts != [] { HaltedStays(g, st, acts[..|acts| - 1], n); }
  }

  /** Being held is for good. */
  lemma HeldStays(g: Graph, names: set<string>, st: Statuses, acts: seq<Action>, n: string)
    requires ValidRun(g, st, acts) && Held(g, names, st, n)
    ensures Held(g, names, After(st, acts), n)
  {
    if !Blocked(g, names, n) {
      var w :| IsWalk(g, w) && |w| >= 2 && w[|w| - 1] == n && w[0] in st && Halted(st[w[0]]);
      HaltedStays(g, st, acts, w[0]);
    }
  }

  /** In no run does a node on a cycle, or downstream of one, start or become startable. */
  lemma BlockedNeverStarts(g: Graph, names: set<string>, acts: seq<Action>, n: string)
    requires ValidRun(g, Initial(names), acts)
    requires n in names && Blocked(g, names, n)
    ensures n in After(Initial(names), acts) && !Started(After(Initial(names), acts)[n])
    ensures !Startable(g, After(Initial(names), acts), n)
    ensures AllSucceed(acts) ==> Is(After(Initial(names), acts), n, NodeStatus.Pending)
  {
    HeldNeverStarts(g, names, acts, n);
    RunsKeepRunInv(g, names, acts);
    if AllSucceed(acts) { NoneHalted(g, names, acts); }
  }

  // Progress

  lemma {:induction false} Pigeonhole(w: seq<string>, u: set<string>) returns (i: nat, j: nat)
    requires |w| > |u| && forall k :: 0 <= k < |w| ==> w[k] in u
    ensures i < j < |w| && w[i] == w[j]
    decreases |w|
  {
    var last := w[|w| - 1];
    var rest := w[..|w| - 1];
    if last in rest {
      i :| 0 <= i < |rest| && rest[i] == last;
      j := |w| - 1;
    } else {
      i, j := Pigeonhole(rest, u - {last});
    }
  }

  predicate Stops(st: Statuses, x: string) { x !in st || Halted(st[x]) }

  /** Walk back from `n` inside `u` until reaching a name that stops it or taking `len` steps. */
  lemma {:induction false} WalkBack(g: Graph, st: Statuses, u: set<string>, n: string, len: nat)
      returns (w: seq<string>)
    requires n in u
    requires forall m :: m in u ==> exists e :: e in g.edges && e.to == m && (Stops(st, e.from) || e.from in u)
    ensures IsWalk(g, w) && w[|w| - 1] == n
    ensures (|w| >= 2 && Stops(st, w[0])) || (|w| == len + 1 && forall k :: 0 <= k < |w| ==> w[k] in u)
    decreases len
  {
    if len == 0 {
      w := [n];
    } else {
      var e :| e in g.edges && e.to == n && (Stops(st, e.from) || e.from in u);
      if Stops(st, e.from) {
        w := [e.from, n];
      } else {
        var v := WalkBack(g, st, u, e.from, len - 1);
        w := v + [n];
      }
    }
  }

  /** No node can start and none is running: only skipping and cache hits are left. */
  ghost predicate Stuck(g: Graph, st: Statuses) { forall n :: !Startable(g, st, n) && !Is(st, n, NodeStatus.Running) }

  /** When nothing can start or end any more, whatever is pending is held. */
  lemma StuckIsHeld(g: Graph, names: set<string>, st: Statuses, order: seq<string>, n: string)
    requires RunInv(g, names, st, order) && Stuck(g, st) && Is(st, n, NodeStatus.Pending)
    ensures Held(g, names, st, n)
  {
    var u := set m | m in names && st[m].Pending?;
    forall m | m in u
      ensures exists e :: e in g.edges && e.to == m && (Stops(st, e.from) || e.from in u)
    {
      assert !Startable(g, st, m);
      var e :| e in g.edges && e.to == m && !Completed(st, e.from);
      assert !Is(st, e.from, NodeStatus.Running);
    }
    var w := WalkBack(g, st, u, n, |u|);
    if !Stops(st, w[0]) {
      var i, j := Pigeonhole(w, u);
      LoopBlocks(g, names, w, i, j);
    }
  }

  /** A walk that passes a node twice ends downstream of a cycle. */
  lemma LoopBlocks(g: Graph, names: set<string>, w: seq<string>, i: nat, j: nat)
    requires IsWalk(g, w) && i < j < |w| && w[i] == w[j]
    ensures Blocked(g, names, w[|w| - 1])
  {
    var c, v := w[i..j + 1], w[i..];
    assert IsWalk(g, c) && c[0] == w[i] && c[|c| - 1] == w[j];
    assert IsWalk(g, v) && v[|v| - 1] == w[|w| - 1] && OnCycle(g, v[0]);
  }

  // Length

  function InStatus(st: Statuses, s: NodeStatus): set<string> { set n | n in st && st[n] == s }

  function Ended(st: Statuses): set<string> { set n | n in st && (st[n].Completed? || Halted(st[n])) }

  function StartedBy(acts: seq<Action>): set<string> { set i | 0 <= i < |acts| && acts[i].Start? :: acts[i].name }

  lemma StartedByLast(acts: seq<Action>)
    requires acts != []
    ensures var last := acts[|acts| - 1];
            StartedBy(acts) == StartedBy(acts[..|acts| - 1]) + if last.Start? then {last.name} else {}
  {
    var rest, n := acts[..|acts| - 1], |acts| - 1;
    forall x | x in StartedBy(acts) ensures x in StartedBy(rest) || (acts[n].Start? && x == acts[n].name) {
      var i :| 0 <= i < |acts| && acts[i].Start? && acts[i].name == x;
      if i < n { assert rest[i] == acts[i]; }
    }
    forall x | x in StartedBy(rest) ensures x in StartedBy(acts) {
      var i :| 0 <= i < |rest| && rest[i].Start? && rest[i].name == x;
      assert acts[i] == rest[i];
    }
  }

  /** What the set of started nodes has to do with the statuses. */
  ghost predicate StartsSound(names: set<string>, st: Statuses, started: set<string>) {
    && st.Keys == names && started <= names
    && (forall n :: n in names && Started(st[n]) ==> n in started)
    && (forall n :: n in started ==> !st[n].Pending? && !st[n].CacheHit?)
  }

  lemma ActionStarts(g: Graph, names: set<string>, st: Statuses, started: set<string>, a: Action)
    requires StartsSound(names, st, started) && Enabled(g, st, a)
    ensures StartsSound(names, Apply(st, a), started + if a.Start? then {a.name} else {})
  {
    assert Apply(st, a).Keys == names;
  }

  lemma ActionEnds(g: Graph, st: Statuses, a: Action)
    requires Enabled(g, st, a)
    ensures a.name !in Ended(st) && Ended(Apply(st, a)) == Ended(st) + if a.Start? then {} else {a.name}
  {
    var st' := Apply(st, a);
    forall n ensures n in Ended(st') <==> n in Ended(st) || (!a.Start? && n == a.name) {
      if n != a.name { assert n in st' <==> n in st; }
    }
  }

  lemma ActionCounts(g: Graph, names: set<string>, st: Statuses, started: set<string>, a: Action)
    requires StartsSound(names, st, started) && Enabled(g, st, a)
    ensures |started + if a.Start? then {a.name} else {}| + |Ended(Apply(st, a))| == |started| + |Ended(st)| + 1
  {
    ActionEnds(g, st, a);
    if a.Start? {
      assert a.name !in started;
      assert Ended(st) + {} == Ended(st);
    } else {
      assert started + {} == started;
    }
  }

  /** Every action starts a node for the first time or ends it for good. */
  lemma {:induction false} StepsTaken(g: Graph, names: set<string>, acts: seq<Action>)
    requires ValidRun(g, Initial(names), acts)
    ensures var st := After(Initial(names), acts);
            StartsSound(names, st, StartedBy(acts)) && |acts| == |StartedBy(acts)| + |Ended(st)|
  {
    if acts == [] {
      assert Ended(Initial(names)) == {} && StartedBy(acts) == {};
    } else {
      var rest := acts[..|acts| - 1];
      StepsTaken(g, names, rest);
      StartedByLast(acts);
      ActionStarts(g, names, After(Initial(names), rest), StartedBy(rest), acts[|acts| - 1]);
      ActionCounts(g, names, After(Initial(names), rest), StartedBy(rest), acts[|acts| - 1]);
    }
  }

  lemma StepBound(g: Graph, names: set<string>, acts: seq<Action>)
    requires ValidRun(g, Initial(names), acts)
    ensures |acts| <= 2 * |names|
  {
    StepsTaken(g, names, acts);
    SubsetSize(StartedBy(acts), names);
    SubsetSize(Ended(After(Initial(names), acts)), names);
  }

  /**
   * However a run went, once nothing can start or is running: a node that was neither skipped nor a
   * cache hit is still pending if and only if it is held, and has completed or failed otherwise;
   * completions came in topological order; and each node took at most two steps.
   */
  lemma MaximalRun(g: Graph, names: set<string>, acts: seq<Action>)
    requires ValidRun(g, Initial(names), acts) && Stuck(g, After(Initial(names), acts))
    ensures var st := After(Initial(names), acts);
            && st.Keys == names
            && (forall n :: n in names && !st[n].Skipped? && !st[n].CacheHit? ==>
                  if Held(g, names, st, n) then st[n].Pending? else st[n].Completed? || st[n].Failed?)
            && Topological(g, Order(acts))
            && |acts| == |StartedBy(acts)| + |Ended(st)| <= 2 * |names|
  {
    var st := After(Initial(names), acts);
    RunsKeepRunInv(g, names, acts);
    forall n | n in names && !st[n].Skipped? && !st[n].CacheHit?
      ensures if Held(g, names, st, n) then st[n].Pending? else st[n].Completed? || st[n].Failed?
    {
      assert !Is(st, n, NodeStatus.Running);
      if st[n].Pending? {
        StuckIsHeld(g, names, st, Order(acts), n);
      } else {
        StartedNotHeld(g, names, st, Order(acts), n);
      }
    }
    StepsTaken(g, names, acts);
    StepBound(g, names, acts);
  }

  // Runs in which everything succeeds

  predicate AllSucceed(acts: seq<Action>) { forall i :: 0 <= i < |acts| ==> acts[i].Start? || acts[i].Complete? }

  predicate Unhalted(st: Statuses) { forall n :: n in st ==> !Halted(st[n]) }

  lemma {:induction false} NoneHalted(g: Graph, names: set<string>, acts: seq<Action>)
    requires ValidRun(g, Initial(names), acts) && AllSucceed(acts)
    ensures Unhalted(After(Initial(names), acts))
  {
    if acts != [] {
      var rest, last := acts[..|acts| - 1], acts[|acts| - 1];
      NoneHalted(g, names, rest);
      var before := After(Initial(names), rest);
      assert After(Initial(names), acts) == Apply(before, last) && !Halted(Outcome(last));
      forall n | n in Apply(before, last) ensures !Halted(Apply(before, last)[n]) {
        if n != last.name { assert !Halted(before[n]); }
      }
    }
  }

  lemma SuccessSteps(g: Graph, names: set<string>, acts: seq<Action>)
    requires ValidRun(g, Initial(names), acts) && AllSucceed(acts)
    ensures var st := After(Initial(names), acts);
            |acts| == 2 * |InStatus(st, NodeStatus.Completed)| + |InStatus(st, NodeStatus.Running)|
  {
    var st := After(Initial(names), acts);
    var c, r := InStatus(st, NodeStatus.Completed), InStatus(st, NodeStatus.Running);
    RunsKeepRunInv(g, names, acts);
    NoneHalted(g, names, acts);
    StepsTaken(g, names, acts);
    assert Ended(st) == c;
    assert StartedBy(acts) == c + r;
  }

  /** Then a maximal run completes exactly the nodes that are not blocked, in two steps each. */
  lemma MaximalSuccess(g: Graph, names: set<string>, acts: seq<Action>)
    requires ValidRun(g, Initial(names), acts) && AllSucceed(acts) && Stuck(g, After(Initial(names), acts))
    ensures var st := After(Initial(names), acts);
            && (forall n :: n in names ==>
                  Is(st, n, if Blocked(g, names, n) then NodeStatus.Pending else NodeStatus.Completed))
            && Topological(g, Order(acts))
            && |acts| == 2 * |set n | n in names && !Blocked(g, names, n)|
  {
    var st := After(Initial(names), acts);
    NoneHalted(g, names, acts);
    MaximalRun(g, names, acts);
    SuccessSteps(g, names, acts);
    assert forall n :: n in names ==> (Held(g, names, st, n) <==> Blocked(g, names, n));
    assert InStatus(st, NodeStatus.Running) == {} by {
      assert forall n :: !Is(st, n, NodeStatus.Running);
    }
    assert InStatus(st, NodeStatus.Completed) == set n | n in names && !Blocked(g, names, n);
  }

  /** Unless the run is stuck, it goes on with a node the scheduler returns, or with a running one completing. */
  lemma Progress(g: Graph, names: set<string>, acts: seq<Action>) returns (a: Action)
    requires ValidRun(g, Initial(names), acts) && !Stuck(g, After(Initial(names), acts))
    ensures (a.Start? || a.Complete?) && ValidRun(g, Initial(names), acts + [a])
  {
    var st := After(Initial(names), acts);
    var n :| Startable(g, st, n) || Is(st, n, NodeStatus.Running);
    a := if Startable(g, st, n) then Start(n) else Complete(n);
    assert (acts + [a])[..|acts|] == acts;
  }

  /** Every run can go on, with starts and completions alone, until it is stuck. */
  lemma {:induction false} RunsFinish(g: Graph, names: set<string>, acts: seq<Action>) returns (more: seq<Action>)
    requires ValidRun(g, Initial(names), acts)
    ensures AllSucceed(more) && ValidRun(g, Initial(names), acts + more)
    ensures Stuck(g, After(Initial(names), acts + more))
    decreases 2 * |names| - |acts|
  {
    if Stuck(g, After(Initial(names), acts)) {
      more := [];
      assert acts + more == acts;
    } else {
      var a := Progress(g, names, acts);
      StepBound(g, names, acts + [a]);
      var rest := RunsFinish(g, names, acts + [a]);
      more := [a] + rest;
      assert acts + more == acts + [a] + rest;
    }
  }

  ghost predicate Acyclic(g: Graph) { forall n :: !OnCycle(g, n) }

  ghost predicate EdgesJoin(g: Graph, names: set<string>) {
    forall e :: e in g.edges ==> e.from in names && e.to in names
  }

  lemma AcyclicNothingBlocked(g: Graph, names: set<string>, n: string)
    requires Acyclic(g) && EdgesJoin(g, names) && n in names
    ensures !Blocked(g, names, n)
  {
    forall w | IsWalk(g, w) && w[|w| - 1] == n ensures w[0] in names {
      if |w| > 1 { assert Edge(w[0], w[1]) in g.edges; }
    }
  }

  /** Over a DAG such a run can go on until every node is completed, so one that ends has 2n steps. */
  lemma DagRunCompletes(g: Graph, names: set<string>, acts: seq<Action>)
    requires Acyclic(g) && EdgesJoin(g, names) && ValidRun(g, Initial(names), acts) && AllSucceed(acts)
    ensures !Stuck(g, After(Initial(names), acts)) ||
            ((forall n :: n in names ==> Completed(After(Initial(names), acts), n)) && |acts| == 2 * |names|)
    ensures |acts| <= 2 * |names|
    ensures |acts| == 2 * |names| ==> forall n :: n in names ==> Completed(After(Initial(names), acts), n)
  {
    var st := After(Initial(names), acts);
    RunsKeepRunInv(g, names, acts);
    forall n | n in names ensures !Blocked(g, names, n) { AcyclicNothingBlocked(g, names, n); }
    if Stuck(g, st) {
      MaximalSuccess(g, names, acts);
      assert (set n | n in names && !Blocked(g, names, n)) == names;
    }
    SuccessSteps(g, names, acts);
    SubsetSizes(InStatus(st, NodeStatus.Completed), InStatus(st, NodeStatus.Running), names);
  }

  /** And it does: every run of starts and completions over a DAG extends to one that completes every node. */
  lemma DagRunExtends(g: Graph, names: set<string>, acts: seq<Action>) returns (more: seq<Action>)
    requires Acyclic(g) && EdgesJoin(g, names) && ValidRun(g, Initial(names), acts) && AllSucceed(acts)
    ensures ValidRun(g, Initial(names), acts + more) && AllSucceed(acts + more)
    ensures forall n :: n in names ==> Complete(n) in acts + more
    ensures |acts + more| == 2 * |names|
  {
    more := RunsFinish(g, names, acts);
    DagRunCompletes(g, names, acts + more);
    forall n | n in names ensures Complete(n) in acts + more { StatusTellsHistory(g, names, acts + more, n); }
  }

  lemma SubsetSizes(c: set<string>, r: set<string>, names: set<string>)
    requires c <= names && r <= names && c !! r
    ensures 2 * |c| + |r| <= 2 * |names|
    ensures 2 * |c| + |r| == 2 * |names| ==> c == names
  {
    var rest := names - c;
    assert names == c + rest;
    assert |names| == |c| + |rest|;
    assert rest == r + (rest - r);
    assert |rest| == |r| + |rest - r|;
  }
}
