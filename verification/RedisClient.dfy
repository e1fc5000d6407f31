/** The Redis store as it runs: commands against the shared key space, one method per operation. */
module RedisClient {
  import opened Prelude
  import opened Keyset
  import opened Workflow
  import opened RedisStore

  /** The key space, shared by every store that connects to it. */
  class Database {
    var defs: map<string, Definition>
    var byName: map<NameEntry, int>
    var runs: map<string, RunHash>
    var all: map<string, int>
    var byState: map<StateEntry, int>
    var byDef: map<DefEntry, int>
    var children: set<ChildEntry>
    var nodes: map<NodeKey, NodeHash>
    var runNodes: set<NodeKey>

    constructor ()
      ensures View() == EMPTY
    {
      defs, byName, runs, all, byState, byDef := map[], map[], map[], map[], map[], map[];
      children, nodes, runNodes := {}, map[], {};
    }

    ghost function View(): Redis
      reads this
    {
      Redis(defs, byName, runs, all, byState, byDef, children, nodes, runNodes)
    }
  }

  /** A run hash that holds an id holds its own. */
  ghost predicate SelfNamed(r: Redis) {
    forall id :: id in r.runs && r.runs[id].id.Some? ==> r.runs[id].id.value == id
  }

  lemma StepKeepsSelfNamed(r: Redis, ns: Option<string>, op: Op)
    requires SelfNamed(r)
    ensures SelfNamed(Step(r, ns, op).0) && SelfNamed(EMPTY)
  {
    if op.CreateNodes? { PutNodesKeepsRest(r, op.batch); }
  }

  /** `runs` lists the values of `rows`, each once. */
  ghost predicate Enumerates(runs: seq<Run>, rows: map<string, Run>) {
    && (forall i :: 0 <= i < |runs| ==> runs[i].id in rows && rows[runs[i].id] == runs[i])
    && (forall i, j :: 0 <= i < j < |runs| ==> runs[i].id != runs[j].id)
    && (forall id :: id in rows ==> rows[id] in runs && rows[id].id == id)
  }

  lemma EnumerateOne(runs: seq<Run>, rows: map<string, Run>, id: string, run: Run)
    requires Enumerates(runs, rows) && id !in rows && run.id == id
    ensures Enumerates(runs + [run], rows[id := run])
  {
    var next := runs + [run];
    assert next[|runs|] == run;
    forall k | k in rows ensures rows[k] in next {
      var i :| 0 <= i < |runs| && runs[i] == rows[k];
      assert next[i] == rows[k];
    }
  }

  lemma LoadOne(r: Redis, ns: Option<string>, done: set<string>, inState: Option<RunState>, id: string, runs: seq<Run>)
    requires SelfNamed(r) && id !in done && Enumerates(runs, Loaded(r, ns, done, inState)) && !Corrupted(r, ns, id)
    ensures var run := if Visible(r, ns, id) then DecodeRun(r.runs[id]) else None;
            var wanted := run.Some? && (inState.None? || run.value.state == inState.value);
            Enumerates(if wanted then runs + [run.value] else runs, Loaded(r, ns, done + {id}, inState))
  {
    var before, after := Loaded(r, ns, done, inState), Loaded(r, ns, done + {id}, inState);
    var run := if Visible(r, ns, id) then DecodeRun(r.runs[id]) else None;
    if run.Some? && (inState.None? || run.value.state == inState.value) {
      assert after == before[id := run.value];
      EnumerateOne(runs, before, id, run.value);
    } else {
      assert after == before;
    }
  }

  // The in-memory sort, filter and cut of a listing

  function Insert(run: Run, runs: seq<Run>): seq<Run> {
    if runs == [] || Before(RunKey(runs[0]), RunKey(run)) then [run] + runs
    else [runs[0]] + Insert(run, runs[1..])
  }

  function SortRuns(runs: seq<Run>): seq<Run> {
    if runs == [] then [] else Insert(runs[0], SortRuns(runs[1..]))
  }

  function BelowCursor(runs: seq<Run>, after: Option<Key>): seq<Run> {
    if runs == [] then []
    else (if after.None? || Before(RunKey(runs[0]), after.value) then [runs[0]] else []) + BelowCursor(runs[1..], after)
  }

  ghost predicate NewestFirst(runs: seq<Run>) {
    forall i, j :: 0 <= i < j < |runs| ==> Before(RunKey(runs[j]), RunKey(runs[i]))
  }

  lemma HeadFirst(head: Run, rest: seq<Run>)
    requires NewestFirst(rest) && forall x :: x in rest ==> Before(RunKey(x), RunKey(head))
    ensures NewestFirst([head] + rest)
  {
    assert forall j :: 0 <= j < |rest| ==> rest[j] in rest;
  }

  lemma {:induction false} InsertSorted(run: Run, runs: seq<Run>)
    requires NewestFirst(runs) && forall x :: x in runs ==> RunKey(x) != RunKey(run)
    ensures NewestFirst(Insert(run, runs))
    ensures forall x :: x in Insert(run, runs) <==> x == run || x in runs
  {
    if runs == [] {
    } else if Before(RunKey(runs[0]), RunKey(run)) {
      forall x | x in runs ensures Before(RunKey(x), RunKey(run)) {
        if x != runs[0] { BeforeOrder(RunKey(x), RunKey(runs[0]), RunKey(run)); }
      }
      HeadFirst(run, runs);
    } else {
      assert runs[0] in runs && runs == [runs[0]] + runs[1..];
      BeforeOrder(RunKey(run), RunKey(runs[0]), RunKey(run));
      InsertSorted(run, runs[1..]);
      HeadFirst(runs[0], Insert(run, runs[1..]));
    }
  }

  lemma {:induction false} SortSorts(runs: seq<Run>)
    requires forall i, j :: 0 <= i < j < |runs| ==> runs[i].id != runs[j].id
    ensures NewestFirst(SortRuns(runs))
    ensures forall x :: x in SortRuns(runs) <==> x in runs
  {
    if runs != [] {
      SortSorts(runs[1..]);
      assert runs == [runs[0]] + runs[1..];
      InsertSorted(runs[0], SortRuns(runs[1..]));
    }
  }

  lemma {:induction false} BelowCursorKeeps(runs: seq<Run>, after: Option<Key>)
    requires NewestFirst(runs)
    ensures NewestFirst(BelowCursor(runs, after))
    ensures forall x :: x in BelowCursor(runs, after) <==> x in runs && (after.None? || Before(RunKey(x), after.value))
  {
    if runs != [] {
      var rest := BelowCursor(runs[1..], after);
      BelowCursorKeeps(runs[1..], after);
      assert runs == [runs[0]] + runs[1..];
      HeadFirst(runs[0], rest);
      assert [] + rest == rest;
    }
  }

  lemma KeptKey(runs: seq<Run>, rows: map<string, Run>, kept: seq<Run>, after: Option<Key>, k: Key)
    requires Enumerates(runs, rows)
    requires forall x :: x in kept <==> x in runs && (after.None? || Before(RunKey(x), after.value))
    ensures k in RunKeys(kept) <==> k in Below(KeysOf(rows), after)
  {
    if k in RunKeys(kept) {
      var i :| 0 <= i < |kept| && RunKeys(kept)[i] == k;
      assert kept[i] in kept && kept[i].id in rows;
    }
    if k in Below(KeysOf(rows), after) {
      assert rows[k.id] in runs;
      var i :| 0 <= i < |kept| && kept[i] == rows[k.id];
      assert RunKeys(kept)[i] == k;
    }
  }

  lemma KeptKeys(runs: seq<Run>, rows: map<string, Run>, kept: seq<Run>, after: Option<Key>)
    requires Enumerates(runs, rows) && NewestFirst(kept)
    requires forall x :: x in kept <==> x in runs && (after.None? || Before(RunKey(x), after.value))
    ensures RunKeys(kept) == Ordered(Below(KeysOf(rows), after))
  {
    forall k ensures k in RunKeys(kept) <==> k in Below(KeysOf(rows), after) { KeptKey(runs, rows, kept, after, k); }
    OrderedUnique(RunKeys(kept), Below(KeysOf(rows), after));
  }

  lemma KeptPage(rows: map<string, Run>, kept: seq<Run>, limit: nat, after: Option<Key>)
    requires OwnIds(rows) && forall x :: x in kept ==> x.id in rows && rows[x.id] == x
    requires RunKeys(kept) == Ordered(Below(KeysOf(rows), after))
    ensures Take(kept, limit) == Window(rows, limit, after)
  {
    WindowKeys(rows, limit, after);
    var page := Page(KeysOf(rows), limit, after);
    assert |page| == |Take(kept, limit)|;
    forall i | 0 <= i < |page| ensures Take(kept, limit)[i] == Window(rows, limit, after)[i] {
      assert page[i] == RunKeys(kept)[i];
      assert kept[i] in kept;
    }
  }

  /** Sorting, filtering and cutting what was loaded gives the page of the listing. */
  lemma SortedPage(runs: seq<Run>, rows: map<string, Run>, limit: nat, after: Option<Key>)
    requires Enumerates(runs, rows)
    ensures Take(BelowCursor(SortRuns(runs), after), limit) == Window(rows, limit, after)
  {
    SortSorts(runs);
    BelowCursorKeeps(SortRuns(runs), after);
    KeptKeys(runs, rows, BelowCursor(SortRuns(runs), after), after);
    KeptPage(rows, BelowCursor(SortRuns(runs), after), limit, after);
  }

  lemma NewestIsFirst(ks: set<Key>, top: Key)
    requires top in ks && forall k :: k in ks ==> k == top || Before(k, top)
    ensures Ordered(ks) != [] && Ordered(ks)[0] == top
  {
    OrderedProps(ks);
    var first := Ordered(ks)[0];
    assert first in Ordered(ks);
    BeforeOrder(first, top, first);
  }

  class Store {
    const db: Database
    const ns: Option<string>

    constructor (db: Database, ns: Option<string>)
      ensures this.db == db && this.ns == ns
    {
      this.db := db;
      this.ns := ns;
    }

    method RunOutOfScope(runId: string) returns (b: bool)
      ensures b == OutOfScope(db.View(), ns, runId)
    {
      if ns.None? { return false; }
      var stored := if runId in db.runs then db.runs[runId].namespace else None;
      return stored != ns;
    }

    method CreateWorkflowDefinition(d: Definition) returns (reply: Reply)
      modifies db
      ensures (db.View(), reply) == Step(old(db.View()), ns, CreateDefinition(d))
    {
      db.defs := db.defs[d.id := d];
      db.byName := db.byName[NameEntry(d.name, d.id) := d.version];
      return Done;
    }

    /** The HSETs of one run: a field the record leaves out is not written. */
    method HsetRun(was: RunHash, run: Run) returns (h: RunHash)
      ensures h == PutRun(was, run, ns)
    {
      h := was.(id := Some(run.id), definitionId := Some(run.definitionId));
      if run.params.Some? { h := h.(params := run.params); }
      h := h.(state := Some(run.state));
      if run.startedAt.Some? { h := h.(startedAt := run.startedAt); }
      if run.completedAt.Some? { h := h.(completedAt := run.completedAt); }
      if run.error.Some? { h := h.(error := run.error); }
      if run.parentRunId.Some? { h := h.(parentRunId := run.parentRunId); }
      if run.parentNodeName.Some? { h := h.(parentNodeName := run.parentNodeName); }
      if ns.Some? { h := h.(namespace := ns); }
      h := h.(createdAt := Some(run.createdAt));
    }

    method CreateWorkflowRun(run: Run) returns (reply: Reply)
      modifies db
      ensures (db.View(), reply) == Step(old(db.View()), ns, CreateRun(run))
    {
      if run.parentRunId.Some? {
        var hidden := RunOutOfScope(run.parentRunId.value);
        if hidden { return Refused(ParentNotFound); }
      }
      var foreign := RunOutOfScope(run.id);
      if ns.Some? && foreign && run.id in db.runs { return Refused(Conflict); }
      var h := HsetRun(if run.id in db.runs then db.runs[run.id] else NO_RUN, run);
      if run.parentRunId.Some? {
        db.children := db.children + {ChildEntry(run.parentRunId.value, run.id)};
      }
      assert run.parentRunId.None? ==> db.children == old(db.children) + {};
      db.runs := db.runs[run.id := h];
      db.all := db.all[run.id := run.createdAt];
      db.byState := db.byState[StateEntry(run.state, run.id) := run.createdAt];
      db.byDef := db.byDef[DefEntry(run.definitionId, run.id) := run.createdAt];
      return Done;
    }

    method GetWorkflowRun(runId: string) returns (reply: Reply)
      ensures reply == Step(db.View(), ns, GetRun(runId)).1
    {
      if runId !in db.runs { return RunReply(None); }
      var h := db.runs[runId];
      if ns.Some? && h.namespace != ns { return RunReply(None); }
      var run := DecodeRun(h);
      if run.None? { return Refused(Corrupt); }
      return RunReply(run);
    }

    method UpdateWorkflowRunState(runId: string, to: RunState, error: Option<string>) returns (reply: Reply)
      modifies db
      ensures (db.View(), reply) == Step(old(db.View()), ns, UpdateRunState(runId, to, error))
    {
      var hidden := RunOutOfScope(runId);
      if hidden { return Done; }
      var h := if runId in db.runs then db.runs[runId] else NO_RUN;
      var was, createdAt := h.state, h.createdAt;
      db.runs := db.runs[runId := h.(state := Some(to), error := error)];
      if was.Some? && createdAt.Some? && was.value != to {
        db.byState := db.byState - {StateEntry(was.value, runId)};
        db.byState := db.byState[StateEntry(to, runId) := createdAt.value];
      }
      return Done;
    }

    method SetWorkflowRunStarted(runId: string, startedAt: int) returns (reply: Reply)
      modifies db
      ensures (db.View(), reply) == Step(old(db.View()), ns, SetRunStarted(runId, startedAt))
    {
      var hidden := RunOutOfScope(runId);
      if hidden { return Done; }
      var h := if runId in db.runs then db.runs[runId] else NO_RUN;
      var createdAt, was := h.createdAt, h.state;
      db.runs := db.runs[runId := h.(state := Some(RunState.Running), startedAt := Some(startedAt))];
      if was.Some? && createdAt.Some? && was.value != RunState.Running {
        db.byState := db.byState - {StateEntry(was.value, runId)};
        db.byState := db.byState[StateEntry(RunState.Running, runId) := createdAt.value];
      }
      return Done;
    }

    method SetWorkflowRunCompleted(runId: string, completedAt: int) returns (reply: Reply)
      modifies db
      ensures (db.View(), reply) == Step(old(db.View()), ns, SetRunCompleted(runId, completedAt))
    {
      var hidden := RunOutOfScope(runId);
      if hidden { return Done; }
      var h := if runId in db.runs then db.runs[runId] else NO_RUN;
      db.runs := db.runs[runId := h.(completedAt := Some(completedAt))];
      return Done;
    }

    /** ZREVRANGE of the name's versions, first entry. */
    method NewestDefinition(name: string) returns (id: Option<string>)
      ensures var versions := set e | e in db.byName && e.name == name :: Key(db.byName[e], e.member);
              if versions == {} then id.None?
              else Ordered(versions) != [] && id == Some(Ordered(versions)[0].id)
    {
      var versions := set e | e in db.byName && e.name == name :: Key(db.byName[e], e.member);
      if versions == {} { return None; }
      var top :| top in versions;
      var rest := versions - {top};
      while rest != {}
        invariant top in versions && rest <= versions
        invariant forall k :: k in versions && k !in rest ==> k == top || Before(k, top)
      {
        var k :| k in rest;
        if Before(top, k) {
          forall j | j in versions && j !in rest ensures j == k || Before(j, k) { BeforeOrder(j, top, k); }
          top := k;
        } else {
          BeforeOrder(top, k, k);
        }
        rest := rest - {k};
      }
      NewestIsFirst(versions, top);
      return Some(top.id);
    }

    /** Members of the index the filters pick. */
    method PickIndex(defName: Option<string>, inState: Option<RunState>) returns (ids: set<string>)
      ensures ids == Candidates(db.View(), defName, inState)
    {
      if defName.Some? {
        var top := NewestDefinition(defName.value);
        if top.None? { return {}; }
        return set e | e in db.byDef && e.definitionId == top.value :: e.member;
      }
      if inState.Some? { return set e | e in db.byState && e.state == inState.value :: e.member; }
      return db.all.Keys;
    }

    /** HGETALL of each id, dropping absent runs, other stores' runs and other states. */
    method LoadRuns(ids: set<string>, inState: Option<RunState>) returns (loaded: Option<seq<Run>>)
      requires SelfNamed(db.View())
      ensures loaded.None? <==> exists id :: id in ids && Corrupted(db.View(), ns, id)
      ensures loaded.Some? ==> Enumerates(loaded.value, Loaded(db.View(), ns, ids, inState))
    {
      var rest, runs: seq<Run> := ids, [];
      while rest != {}
        invariant rest <= ids
        invariant forall id :: id in ids && Corrupted(db.View(), ns, id) ==> id in rest
        invariant Enumerates(runs, Loaded(db.View(), ns, ids - rest, inState))
      {
        var id :| id in rest;
        var reply := GetWorkflowRun(id);
        if reply.Refused? { return None; }
        LoadOne(db.View(), ns, ids - rest, inState, id, runs);
        assert ids - (rest - {id}) == (ids - rest) + {id};
        rest := rest - {id};
        if reply.run.Some? && (inState.None? || reply.run.value.state == inState.value) {
          runs := runs + [reply.run.value];
        }
      }
      assert ids - rest == ids;
      return Some(runs);
    }

    method ListWorkflowRunsAfter(defName: Option<string>, inState: Option<RunState>, limit: int, after: Option<Key>)
      returns (reply: Reply)
      requires SelfNamed(db.View())
      ensures reply == Step(db.View(), ns, ListAfter(defName, inState, limit, after)).1
    {
      var ids := PickIndex(defName, inState);
      var loaded := LoadRuns(ids, inState);
      if loaded.None? { return Refused(Corrupt); }
      SortedPage(loaded.value, Loaded(db.View(), ns, ids, inState), if limit < 0 then 0 else limit, after);
      return RunPage(Take(BelowCursor(SortRuns(loaded.value), after), if limit < 0 then 0 else limit));
    }

    method GetChildWorkflowRuns(parentId: string) returns (reply: Reply)
      requires SelfNamed(db.View())
      ensures reply == Step(db.View(), ns, GetChildren(parentId)).1
    {
      var ids := set e | e in db.children && e.parent == parentId :: e.member;
      var loaded := LoadRuns(ids, None);
      if loaded.None? { return Refused(Corrupt); }
      var found := set run | run in loaded.value;
      assert found == Loaded(db.View(), ns, ids, None).Values;
      return RunSet(found);
    }

    /** The script behind every node setter: write the fields only if the hash exists. */
    method SetNodeFields(key: NodeKey, u: NodeUpdate) returns (reply: Reply)
      modifies db
      ensures (db.View(), reply) == Step(old(db.View()), ns, UpdateNode(key, u))
    {
      var hidden := RunOutOfScope(key.runId);
      if hidden || key !in db.nodes { return Refused(NodeNotFound); }
      db.nodes := db.nodes[key := PutUpdate(db.nodes[key], u)];
      return Done;
    }

    /** The finalize script. */
    method FinalizeFanOutParent(key: NodeKey, succeeded: bool, failure: Option<string>, at: int) returns (reply: Reply)
      modifies db
      ensures (db.View(), reply) == Step(old(db.View()), ns, Finalize(key, succeeded, failure, at))
    {
      var hidden := RunOutOfScope(key.runId);
      if hidden { return Flag(false); }
      var h := if key in db.nodes then db.nodes[key] else NO_NODE;
      if h.status.Some? && Finalized(h.status.value) { return Flag(false); }
      if succeeded {
        db.nodes := db.nodes[key := h.(status := Some(NodeStatus.Completed), completedAt := Some(at), error := None)];
      } else {
        var message := if failure.Some? then failure.value else DEFAULT_FAILURE;
        db.nodes := db.nodes[key := h.(status := Some(NodeStatus.Failed), error := Some(message))];
      }
      return Flag(true);
    }

    method CreateWorkflowNodesBatch(batch: seq<Node>) returns (reply: Reply)
      modifies db
      ensures (db.View(), reply) == Step(old(db.View()), ns, CreateNodes(batch))
    {
      var checked: set<string> := {};
      for i := 0 to |batch|
        invariant db.View() == old(db.View())
        invariant forall id :: id in checked ==> !OutOfScope(db.View(), ns, id)
        invariant forall j :: 0 <= j < i ==> batch[j].runId in checked
      {
        if batch[i].runId !in checked {
          checked := checked + {batch[i].runId};
          var hidden := RunOutOfScope(batch[i].runId);
          if hidden {
            assert batch[i] in batch;
            return Refused(RunNotFound);
          }
        }
      }
      for i := 0 to |batch|
        invariant PutNodes(db.View(), batch[i..]) == PutNodes(old(db.View()), batch)
      {
        var k := KeyOf(batch[i]);
        assert batch[i..][1..] == batch[i + 1..];
        var h := if k in db.nodes then db.nodes[k] else NO_NODE;
        db.nodes := db.nodes[k := PutNode(h, batch[i])];
        db.runNodes := db.runNodes + {k};
      }
      return Done;
    }

    method GetWorkflowNode(key: NodeKey) returns (reply: Reply)
      ensures reply == Step(db.View(), ns, GetNode(key)).1
    {
      var hidden := RunOutOfScope(key.runId);
      if hidden || key !in db.nodes { return NodeReply(None); }
      var node := DecodeNode(db.nodes[key]);
      if node.None? { return Refused(Corrupt); }
      return NodeReply(node);
    }

    method GetWorkflowNodes(runId: string) returns (reply: Reply)
      ensures reply == Step(db.View(), ns, GetNodes(runId)).1
    {
      var hidden := RunOutOfScope(runId);
      if hidden { return NodeSet({}); }
      var keys := set k | k in db.runNodes && k.runId == runId && k in db.nodes;
      var rest, found: set<Node> := keys, {};
      while rest != {}
        invariant rest <= keys
        invariant forall k :: k in keys && k !in rest ==> DecodeNode(db.nodes[k]).Some?
        invariant found == set k | k in keys && k !in rest && DecodeNode(db.nodes[k]).Some? ::
                  DecodeNode(db.nodes[k]).value
      {
        var k :| k in rest;
        var node := DecodeNode(db.nodes[k]);
        if node.None? { return Refused(Corrupt); }
        found, rest := found + {node.value}, rest - {k};
      }
      return NodeSet(found);
    }
  }
}
