/**
 * Finalizing a fan-out parent: the compare-and-swap lets one caller through. What happens to one
 * node's status in a run of calls is a trace of events; the theorem is about traces, and both
 * backends produce them.
 */
module FanOut {
  import opened Prelude
  import opened Workflow
  import opened Calls
  import T = TableStore
  import R = RedisStore

  /** A finalize that returned true or false, a setter's or creator's write, or no effect. */
  datatype Event = Win(succeeded: bool) | Lose | Write(status: NodeStatus) | Other

  ghost predicate Next(s: Option<NodeStatus>, e: Event, s': Option<NodeStatus>) {
    match e
    case Win(ok) =>
      (s.None? || !Finalized(s.value)) && s' == Some(if ok then NodeStatus.Completed else NodeStatus.Failed)
    case Lose => s' == s
    case Write(w) => s' == Some(w)
    case Other => s' == s
  }

  /** `statuses[i]` before and `statuses[i + 1]` after `events[i]`. */
  ghost predicate IsTrace(statuses: seq<Option<NodeStatus>>, events: seq<Event>) {
    |statuses| == |events| + 1 && forall i :: 0 <= i < |events| ==> Next(statuses[i], events[i], statuses[i + 1])
  }

  /** The statuses a finalize leaves alone. */
  const ENDED: set<NodeStatus> :=
    {NodeStatus.Completed, NodeStatus.Failed, NodeStatus.Skipped, NodeStatus.CacheHit}

  ghost predicate Reopens(e: Event) { e.Write? && !Finalized(e.status) }

  lemma {:induction false} StaysFinalized(statuses: seq<Option<NodeStatus>>, events: seq<Event>, i: nat, j: nat)
    requires IsTrace(statuses, events) && i <= j <= |events|
    requires statuses[i].Some? && Finalized(statuses[i].value)
    requires forall m :: i <= m < j ==> !Reopens(events[m])
    ensures statuses[j].Some? && Finalized(statuses[j].value)
    decreases j
  {
    if i < j { StaysFinalized(statuses, events, i, j - 1); }
  }

  lemma {:induction false} StaysPut(statuses: seq<Option<NodeStatus>>, events: seq<Event>, i: nat, j: nat)
    requires IsTrace(statuses, events) && i <= j <= |events|
    requires statuses[i].Some? && Finalized(statuses[i].value)
    requires forall m :: i <= m < j ==> !events[m].Write?
    ensures statuses[j] == statuses[i]
    decreases j
  {
    if i < j { StaysPut(statuses, events, i, j - 1); }
  }

  /** Between two finalizes that both returned true, something wrote an unfinalized status. */
  lemma BetweenTwoWins(statuses: seq<Option<NodeStatus>>, events: seq<Event>, i: nat, j: nat)
    requires IsTrace(statuses, events) && i < j < |events|
    requires events[i].Win? && events[j].Win?
    ensures exists m :: i < m < j && Reopens(events[m])
  {
    assert Next(statuses[i], events[i], statuses[i + 1]);
    assert Next(statuses[j], events[j], statuses[j + 1]);
    if forall m :: i < m < j ==> !Reopens(events[m]) {
      StaysFinalized(statuses, events, i + 1, j);
      assert false;
    }
  }

  /** With no writer about, one finalize at most returns true and the node keeps that caller's verdict. */
  lemma OneWinner(statuses: seq<Option<NodeStatus>>, events: seq<Event>, i: nat)
    requires IsTrace(statuses, events) && i < |events| && events[i].Win?
    requires forall m :: 0 <= m < |events| ==> !events[m].Write?
    ensures forall j :: 0 <= j < |events| && events[j].Win? ==> j == i
    ensures statuses[|events|] == Some(if events[i].succeeded then NodeStatus.Completed else NodeStatus.Failed)
  {
    forall j | 0 <= j < |events| && events[j].Win? && j != i ensures false {
      if i < j { BetweenTwoWins(statuses, events, i, j); } else { BetweenTwoWins(statuses, events, j, i); }
    }
    assert Next(statuses[i], events[i], statuses[i + 1]);
    StaysPut(statuses, events, i + 1, |events|);
  }

  function Effect(e: Event): Option<NodeStatus> {
    match e
    case Win(ok) => Some(if ok then NodeStatus.Completed else NodeStatus.Failed)
    case Write(w) => Some(w)
    case _ => None
  }

  /** Status written by the last of `events` that wrote one. */
  function LastWritten(events: seq<Event>): Option<NodeStatus> {
    if events == [] then None
    else
      var last := Effect(events[|events| - 1]);
      if last.Some? then last else LastWritten(events[..|events| - 1])
  }

  lemma {:induction false} StatusIsLastWritten(statuses: seq<Option<NodeStatus>>, events: seq<Event>)
    requires IsTrace(statuses, events) && statuses[0].None?
    ensures statuses[|events|] == LastWritten(events)
  {
    if events != [] {
      var n := |events| - 1;
      assert Next(statuses[n], events[n], statuses[n + 1]);
      StatusIsLastWritten(statuses[..n + 1], events[..n]);
    }
  }

  /** Finalized is narrower than terminal: a compensated node can be finalized again. */
  lemma FinalizedIsNarrower(s: NodeStatus)
    ensures Finalized(s) ==> s.IsTerminal()
    ensures s.IsTerminal() && !Finalized(s) <==> s.Compensated? || s.CompensationFailed?
  {
  }

  // Events of real calls

  function StatusWritten(u: NodeUpdate): Option<NodeStatus> {
    match u
    case SetStatus(s) => Some(s)
    case SetJob(_) => None
    case SetStarted(_) => Some(NodeStatus.Running)
    case SetNodeCompleted(_, _) => Some(NodeStatus.Completed)
    case SetNodeError(_) => Some(NodeStatus.Failed)
    case SetFanOutCount(_) => Some(NodeStatus.Running)
    case SetCompensationJob(_, _) => Some(NodeStatus.Compensating)
    case SetCompensated(_) => Some(NodeStatus.Compensated)
    case SetCompensationFailed(_, _) => Some(NodeStatus.CompensationFailed)
  }

  /** Status the batch's last node under that key carries. */
  function BatchStatus(batch: seq<Node>, k: NodeKey): Option<NodeStatus> {
    if batch == [] then None
    else
      var later := BatchStatus(batch[1..], k);
      if later.Some? then later else if KeyOf(batch[0]) == k then Some(batch[0].status) else None
  }

  /** What a call and its answer amount to for node `k`. */
  function EventOf(op: Op, reply: Reply, k: NodeKey): Event {
    match op
    case Finalize(key, succeeded, _, _) =>
      if key != k then Other else if reply == Flag(true) then Win(succeeded) else Lose
    case UpdateNode(key, u) =>
      if key == k && reply.Done? && StatusWritten(u).Some? then Write(StatusWritten(u).value) else Other
    case CreateNodes(batch) =>
      if reply.Done? && BatchStatus(batch, k).Some? then Write(BatchStatus(batch, k).value) else Other
    case _ => Other
  }

  function TableStatus(t: T.Table, k: NodeKey): Option<NodeStatus> {
    if k in t.nodes then Some(t.nodes[k].status) else None
  }

  function RedisStatus(r: R.Redis, k: NodeKey): Option<NodeStatus> { R.NodeHashOf(r, k).status }

  lemma {:induction false} InsertedStatus(nodes: map<NodeKey, Node>, batch: seq<Node>, k: NodeKey)
    requires T.InsertNodes(nodes, batch).Some?
    ensures var r := T.InsertNodes(nodes, batch).value;
            if BatchStatus(batch, k).Some? then k in r && Some(r[k].status) == BatchStatus(batch, k)
            else (k in r <==> k in nodes) && (k in r ==> r[k] == nodes[k])
    decreases batch
  {
    if batch != [] {
      InsertedStatus(nodes[KeyOf(batch[0]) := batch[0]], batch[1..], k);
    }
  }

  lemma {:induction false} PutStatus(r: R.Redis, batch: seq<Node>, k: NodeKey)
    ensures RedisStatus(R.PutNodes(r, batch), k) == R.Or(BatchStatus(batch, k), RedisStatus(r, k))
    decreases batch
  {
    if batch != [] {
      var x := KeyOf(batch[0]);
      PutStatus(r.(nodes := r.nodes[x := R.PutNode(R.NodeHashOf(r, x), batch[0])], runNodes := r.runNodes + {x}),
          batch[1..], k);
    }
  }

  lemma TableEvent(t: T.Table, ns: Option<string>, op: Op, k: NodeKey)
    ensures var (t', reply) := T.Step(t, ns, op);
            Next(TableStatus(t, k), EventOf(op, reply, k), TableStatus(t', k))
  {
    if op.CreateNodes? && T.InsertNodes(t.nodes, op.batch).Some? { InsertedStatus(t.nodes, op.batch, k); }
  }

  ghost predicate RedisFollows(r: R.Redis, ns: Option<string>, op: Op, k: NodeKey) {
    var (r', reply) := R.Step(r, ns, op);
    Next(RedisStatus(r, k), EventOf(op, reply, k), RedisStatus(r', k))
  }

  lemma RedisCreateEvent(r: R.Redis, ns: Option<string>, batch: seq<Node>, k: NodeKey)
    ensures RedisFollows(r, ns, CreateNodes(batch), k)
  {
    PutStatus(r, batch, k);
  }

  lemma UpdateWrites(h: R.NodeHash, u: NodeUpdate)
    ensures R.PutUpdate(h, u).status == R.Or(StatusWritten(u), h.status)
  {
  }

  lemma RedisUpdateEvent(r: R.Redis, ns: Option<string>, key: NodeKey, u: NodeUpdate, k: NodeKey)
    ensures RedisFollows(r, ns, UpdateNode(key, u), k)
  {
    var (r', reply) := R.Step(r, ns, UpdateNode(key, u));
    if reply.Done? {
      UpdateWrites(r.nodes[key], u);
      assert r'.nodes == r.nodes[key := R.PutUpdate(r.nodes[key], u)];
    } else {
      assert r' == r;
    }
  }

  lemma RedisFinalizeEvent(r: R.Redis, ns: Option<string>, op: Op, k: NodeKey)
    requires op.Finalize?
    ensures RedisFollows(r, ns, op, k)
  {
    var (r', reply) := R.Step(r, ns, op);
    if reply == Flag(true) {
      assert r'.nodes == r.nodes[op.key := r'.nodes[op.key]];
      assert r'.nodes[op.key].status == Some(if op.succeeded then NodeStatus.Completed else NodeStatus.Failed);
    } else {
      assert r' == r && reply == Flag(false);
    }
  }

  lemma RedisEvent(r: R.Redis, ns: Option<string>, op: Op, k: NodeKey)
    ensures RedisFollows(r, ns, op, k)
  {
    match op
    case CreateNodes(batch) => RedisCreateEvent(r, ns, batch, k);
    case UpdateNode(key, u) => RedisUpdateEvent(r, ns, key, u, k);
    case Finalize(_, _, _, _) => RedisFinalizeEvent(r, ns, op, k);
    case _ => assert R.Step(r, ns, op).0.nodes == r.nodes;
  }

  // Traces of whole runs

  ghost function TableTrace(t: T.Table, calls: seq<Call>, k: NodeKey): (seq<Option<NodeStatus>>, seq<Event>)
    decreases calls
  {
    if calls == [] then ([TableStatus(t, k)], [])
    else
      var (t', reply) := T.Step(t, calls[0].ns, calls[0].op);
      var (ss, es) := TableTrace(t', calls[1..], k);
      ([TableStatus(t, k)] + ss, [EventOf(calls[0].op, reply, k)] + es)
  }

  ghost function RedisTrace(r: R.Redis, calls: seq<Call>, k: NodeKey): (seq<Option<NodeStatus>>, seq<Event>)
    decreases calls
  {
    if calls == [] then ([RedisStatus(r, k)], [])
    else
      var (r', reply) := R.Step(r, calls[0].ns, calls[0].op);
      var (ss, es) := RedisTrace(r', calls[1..], k);
      ([RedisStatus(r, k)] + ss, [EventOf(calls[0].op, reply, k)] + es)
  }

  lemma ConsTrace(s: Option<NodeStatus>, e: Event, ss: seq<Option<NodeStatus>>, es: seq<Event>)
    requires IsTrace(ss, es) && Next(s, e, ss[0])
    ensures IsTrace([s] + ss, [e] + es)
  {
  }

  lemma {:induction false} TableTraceValid(t: T.Table, calls: seq<Call>, k: NodeKey)
    ensures var (ss, es) := TableTrace(t, calls, k);
            && IsTrace(ss, es) && |es| == |calls|
            && ss[0] == TableStatus(t, k) && ss[|calls|] == TableStatus(T.RunCalls(t, calls), k)
    decreases calls
  {
    if calls != [] {
      var (t', reply) := T.Step(t, calls[0].ns, calls[0].op);
      TableEvent(t, calls[0].ns, calls[0].op, k);
      TableTraceValid(t', calls[1..], k);
      var (ss, es) := TableTrace(t', calls[1..], k);
      ConsTrace(TableStatus(t, k), EventOf(calls[0].op, reply, k), ss, es);
    }
  }

  lemma {:induction false} RedisTraceValid(r: R.Redis, calls: seq<Call>, k: NodeKey)
    ensures var (ss, es) := RedisTrace(r, calls, k);
            && IsTrace(ss, es) && |es| == |calls|
            && ss[0] == RedisStatus(r, k) && ss[|calls|] == RedisStatus(R.RunCalls(r, calls), k)
    decreases calls
  {
    if calls != [] {
      var (r', reply) := R.Step(r, calls[0].ns, calls[0].op);
      RedisEvent(r, calls[0].ns, calls[0].op, k);
      RedisTraceValid(r', calls[1..], k);
      var (ss, es) := RedisTrace(r', calls[1..], k);
      ConsTrace(RedisStatus(r, k), EventOf(calls[0].op, reply, k), ss, es);
    }
  }

  /** Over any calls of any stores, on either backend: two wins for a node have a reopening write between them. */
  lemma FinalizeOnce(t: T.Table, r: R.Redis, calls: seq<Call>, k: NodeKey, i: nat, j: nat)
    requires i < j < |calls|
    ensures var es := TableTrace(t, calls, k).1;
            |es| == |calls| &&
            (es[i].Win? && es[j].Win? ==> exists m :: i < m < j && es[m].Write? && es[m].status !in ENDED)
    ensures var es := RedisTrace(r, calls, k).1;
            |es| == |calls| &&
            (es[i].Win? && es[j].Win? ==> exists m :: i < m < j && es[m].Write? && es[m].status !in ENDED)
  {
    TableTraceValid(t, calls, k);
    RedisTraceValid(r, calls, k);
    var (ss, es) := TableTrace(t, calls, k);
    if es[i].Win? && es[j].Win? { BetweenTwoWins(ss, es, i, j); }
    var (rs, res) := RedisTrace(r, calls, k);
    if res[i].Win? && res[j].Win? { BetweenTwoWins(rs, res, i, j); }
  }

  /** Where no call writes the node's status, the one winner's verdict is what the store ends with. */
  lemma WinnersVerdictStands(t: T.Table, r: R.Redis, calls: seq<Call>, k: NodeKey, i: nat)
    requires i < |calls|
    ensures var es := TableTrace(t, calls, k).1;
            |es| == |calls| &&
            (es[i].Win? && (forall m :: 0 <= m < |es| ==> !es[m].Write?) ==>
               && (forall j :: 0 <= j < |es| && es[j].Win? ==> j == i)
               && TableStatus(T.RunCalls(t, calls), k) ==
                  Some(if es[i].succeeded then NodeStatus.Completed else NodeStatus.Failed))
    ensures var es := RedisTrace(r, calls, k).1;
            |es| == |calls| &&
            (es[i].Win? && (forall m :: 0 <= m < |es| ==> !es[m].Write?) ==>
               && (forall j :: 0 <= j < |es| && es[j].Win? ==> j == i)
               && RedisStatus(R.RunCalls(r, calls), k) ==
                  Some(if es[i].succeeded then NodeStatus.Completed else NodeStatus.Failed))
  {
    TableTraceValid(t, calls, k);
    RedisTraceValid(r, calls, k);
    var (ss, es) := TableTrace(t, calls, k);
    if es[i].Win? && forall m :: 0 <= m < |es| ==> !es[m].Write? { OneWinner(ss, es, i); }
    var (rs, res) := RedisTrace(r, calls, k);
    if res[i].Win? && forall m :: 0 <= m < |res| ==> !res[m].Write? { OneWinner(rs, res, i); }
  }

  /**
   * After any calls of any stores on an empty store, a finalize answers true if and only if the run is
   * in the caller's scope and the last of those calls to write the node's status left it open. Only on
   * Redis may there have been none: a node nobody created can be finalized there.
   */
  lemma FinalizeWinsIff(calls: seq<Call>, ns: Option<string>, op: Op)
    requires op.Finalize?
    ensures var t, last := T.RunCalls(T.EMPTY, calls), LastWritten(TableTrace(T.EMPTY, calls, op.key).1);
            T.Step(t, ns, op).1 == Flag(true) <==>
            !T.OutOfScope(t, ns, op.key.runId) && last.Some? && last.value !in ENDED
    ensures var r, last := R.RunCalls(R.EMPTY, calls), LastWritten(RedisTrace(R.EMPTY, calls, op.key).1);
            R.Step(r, ns, op).1 == Flag(true) <==>
            !R.OutOfScope(r, ns, op.key.runId) && (last.None? || last.value !in ENDED)
  {
    TableTraceValid(T.EMPTY, calls, op.key);
    RedisTraceValid(R.EMPTY, calls, op.key);
    var (ss, es) := TableTrace(T.EMPTY, calls, op.key);
    StatusIsLastWritten(ss, es);
    var (rs, res) := RedisTrace(R.EMPTY, calls, op.key);
    StatusIsLastWritten(rs, res);
    FinalizeTests(T.RunCalls(T.EMPTY, calls), R.RunCalls(R.EMPTY, calls), ns, op);
  }

  lemma FinalizeTests(t: T.Table, r: R.Redis, ns: Option<string>, op: Op)
    requires op.Finalize?
    ensures var s := TableStatus(t, op.key);
            T.Step(t, ns, op).1 == Flag(true) <==>
            !T.OutOfScope(t, ns, op.key.runId) && s.Some? && s.value !in ENDED
    ensures var s := RedisStatus(r, op.key);
            R.Step(r, ns, op).1 == Flag(true) <==>
            !R.OutOfScope(r, ns, op.key.runId) && (s.None? || s.value !in ENDED)
  {
  }
}
