/**
 * The keyset walk over Redis. A definition name stands for its newest version at each page anew, so
 * between pages not only state changes matter but also newly registered versions.
 */
module RedisWalk {
  import opened Prelude
  import opened Keyset
  import opened Workflow
  import opened Calls
  import opened PageWalk
  import opened Refinement
  import S = StoreWalk
  import T = TableStore
  import R = RedisStore

  /** The keys a listing reads: everything but the nodes. */
  function Bare(r: R.Redis): R.Redis { r.(nodes := map[], runNodes := {}) }

  ghost predicate Listable(r: R.Redis) { Inv(Bare(r)) }

  ghost function View(r: R.Redis): T.Table
    requires Listable(r)
  {
    Abs(Bare(r))
  }

  ghost function Rows(t: T.Table, q: Query): map<string, Run> { NewestOnly(t, q.ns, q.defName, q.inState) }

  ghost function Keys(t: T.Table, q: Query): set<Key> { KeysOf(Rows(t, q)) }

  ghost function Listing(r: R.Redis, q: Query, after: Option<Key>): Reply {
    R.Step(r, q.ns, ListAfter(q.defName, q.inState, q.limit, after)).1
  }

  ghost function ReadPage(r: R.Redis, q: Query, after: Option<Key>): seq<Run> {
    if Listing(r, q, after).RunPage? then Listing(r, q, after).runs else []
  }

  lemma BareLoads(r: R.Redis, q: Query)
    ensures R.Candidates(Bare(r), q.defName, q.inState) == R.Candidates(r, q.defName, q.inState)
    ensures var ids := R.Candidates(r, q.defName, q.inState);
            R.Loaded(Bare(r), q.ns, ids, q.inState) == R.Loaded(r, q.ns, ids, q.inState)
  {
  }

  lemma BareLists(r: R.Redis, q: Query, after: Option<Key>)
    ensures Listing(Bare(r), q, after) == Listing(r, q, after)
  {
    BareLoads(r, q);
    assert forall id :: R.Corrupted(r, q.ns, id) == R.Corrupted(Bare(r), q.ns, id);
  }

  lemma PageRead(r: R.Redis, q: Query, after: Option<Key>)
    requires Listable(r)
    ensures Listing(r, q, after) == RunPage(Window(Rows(View(r), q), q.limit, after))
  {
    BareLists(r, q, after);
    RedisListing(Bare(r), q.ns, ListAfter(q.defName, q.inState, q.limit, after));
  }

  // One call between pages

  /** Fresh ids on create, existing or scoped runs on update, and no definition renamed. */
  ghost predicate Regular(r: R.Redis, c: Call) {
    match c.op
    case CreateDefinition(d) => d.id in r.defs ==> r.defs[d.id].name == d.name
    case CreateRun(run) => run.createdAt <= I64_MAX && (run.id in r.runs ==> R.OutOfScope(r, c.ns, run.id))
    case UpdateRunState(id, _, _) => c.ns.Some? || id in r.runs
    case SetRunStarted(id, _) => c.ns.Some? || id in r.runs
    case SetRunCompleted(id, _) => c.ns.Some? || id in r.runs
    case _ => true
  }

  predicate TouchesRuns(op: Op) {
    op.CreateRun? || op.UpdateRunState? || op.SetRunStarted? || op.SetRunCompleted?
  }

  /** What the call makes of runs and definitions. */
  ghost function Next(t: T.Table, c: Call): T.Table {
    if c.op.CreateDefinition? then t.(defs := t.defs[c.op.def.id := c.op.def])
    else if TouchesRuns(c.op) then T.Step(t, c.ns, c.op).0
    else t
  }

  lemma BareHash(r: R.Redis, ns: Option<string>, id: string)
    ensures R.RunHashOf(Bare(r), id) == R.RunHashOf(r, id) && R.OutOfScope(Bare(r), ns, id) == R.OutOfScope(r, ns, id)
  {
  }

  lemma BareCreate(r: R.Redis, ns: Option<string>, run: Run)
    ensures Bare(R.Step(r, ns, CreateRun(run)).0) == R.Step(Bare(r), ns, CreateRun(run)).0
  {
    BareHash(r, ns, run.id);
    if run.parentRunId.Some? { BareHash(r, ns, run.parentRunId.value); }
    assert Bare(R.AddRun(r, ns, run)) == R.AddRun(Bare(r), ns, run);
  }

  lemma BareSet(r: R.Redis, c: Call)
    requires c.op.UpdateRunState? || c.op.SetRunStarted? || c.op.SetRunCompleted?
    ensures Bare(R.Step(r, c.ns, c.op).0) == R.Step(Bare(r), c.ns, c.op).0
  {
    BareHash(r, c.ns, c.op.runId);
    var h := SetHash(R.RunHashOf(r, c.op.runId), c.op);
    if !c.op.SetRunCompleted? {
      var to := Target(c.op);
      assert Bare(R.SetState(r, c.op.runId, to, h)) == R.SetState(Bare(r), c.op.runId, to, h);
    }
  }

  lemma BareStep(r: R.Redis, c: Call)
    requires TouchesRuns(c.op) || c.op.CreateDefinition?
    ensures Bare(R.Step(r, c.ns, c.op).0) == R.Step(Bare(r), c.ns, c.op).0
  {
    match c.op
    case CreateRun(run) => BareCreate(r, c.ns, run);
    case CreateDefinition(_) =>
    case _ => BareSet(r, c);
  }

  lemma FinalizeApart(r: R.Redis, c: Call)
    requires c.op.Finalize?
    ensures Bare(R.Step(r, c.ns, c.op).0) == Bare(r)
  {
    var (r', reply) := R.Step(r, c.ns, c.op);
    assert reply == Flag(false) ==> r' == r;
    assert reply == Flag(true) ==> r' == r.(nodes := r.nodes[c.op.key := r'.nodes[c.op.key]]);
  }

  lemma UpdateApart(r: R.Redis, c: Call)
    requires c.op.UpdateNode?
    ensures Bare(R.Step(r, c.ns, c.op).0) == Bare(r)
  {
  }

  lemma NodesApart(r: R.Redis, c: Call)
    requires !TouchesRuns(c.op) && !c.op.CreateDefinition?
    ensures Bare(R.Step(r, c.ns, c.op).0) == Bare(r)
  {
    if c.op.CreateNodes? {
      R.PutNodesKeepsRest(r, c.op.batch);
    } else if c.op.UpdateNode? {
      UpdateApart(r, c);
    } else if c.op.Finalize? {
      FinalizeApart(r, c);
    }
  }

  lemma DefinitionView(r: R.Redis, c: Call)
    requires Listable(r) && c.op.CreateDefinition? && Regular(r, c)
    ensures var r' := R.Step(Bare(r), c.ns, c.op).0; Inv(r') && Abs(r') == Next(View(r), c)
  {
    var r' := R.Step(Bare(r), c.ns, c.op).0;
    assert r'.defs == r.defs[c.op.def.id := c.op.def];
    assert DefsIndexed(r');
  }

  lemma StepView(r: R.Redis, c: Call)
    requires Listable(r) && Regular(r, c)
    ensures Listable(R.Step(r, c.ns, c.op).0) && View(R.Step(r, c.ns, c.op).0) == Next(View(r), c)
  {
    if c.op.CreateDefinition? {
      BareStep(r, c);
      DefinitionView(r, c);
    } else if TouchesRuns(c.op) {
      BareStep(r, c);
      if c.op.CreateRun? { ScopeAgrees(Bare(r), c.ns, c.op.run.id); }
      AgreesIffPortable(Bare(r), c.ns, c.op);
    } else {
      NodesApart(r, c);
    }
  }

  /** After registering `d`, definition `top` is still the newest of its name. */
  ghost predicate StaysNewest(defs: map<string, Definition>, d: Definition, top: string) {
    if d.id == top
    then forall x :: x in defs && defs[x].name == d.name && x != top ==>
        Before(Key(defs[x].version, x), Key(d.version, top))
    else top in defs && Before(Key(d.version, d.id), Key(defs[top].version, top))
  }

  /** As on the tables; and under a name filter no listed run's definition is overtaken by another version. */
  ghost predicate Quiet(t: T.Table, q: Query, c: Call) {
    if c.op.CreateDefinition? then
      q.defName == Some(c.op.def.name) ==>
        forall id :: id in Rows(t, q) ==> StaysNewest(t.defs, c.op.def, Rows(t, q)[id].definitionId)
    else
      (&& IsSetter(c.op) && c.op.runId in Rows(t, q)
       && T.Visible(c.ns, t.runs[c.op.runId]) && q.inState.Some?)
      ==> Target(c.op) == q.inState.value
  }

  lemma NewestAfter(t: T.Table, d: Definition, run: Run, defName: Option<string>)
    requires d.id in t.defs ==> t.defs[d.id].name == d.name
    requires NewestVersion(t, defName, run)
    requires defName.Some? ==> run.definitionId in t.defs && t.defs[run.definitionId].name == defName.value
    ensures NewestVersion(t.(defs := t.defs[d.id := d]), defName, run) <==>
            (defName == Some(d.name) ==> StaysNewest(t.defs, d, run.definitionId))
  {
    var defs' := t.defs[d.id := d];
    if defName.Some? {
      assert forall x :: x in defs' && x != d.id ==> x in t.defs && defs'[x] == t.defs[x];
      if d.id != run.definitionId && defName.value == d.name { assert d.id in defs'; }
    }
  }

  lemma DefinitionKeepsIff(t: T.Table, q: Query, c: Call)
    requires c.op.CreateDefinition? && (c.op.def.id in t.defs ==> t.defs[c.op.def.id].name == c.op.def.name)
    ensures Keys(t, q) <= Keys(Next(t, c), q) <==> Quiet(t, q, c)
  {
    var rows, rows' := Rows(t, q), Rows(Next(t, c), q);
    KeysOfParts(rows, rows');
    forall id | id in rows
      ensures (id in rows' && rows'[id].createdAt == rows[id].createdAt) <==>
              (q.defName == Some(c.op.def.name) ==> StaysNewest(t.defs, c.op.def, rows[id].definitionId))
    {
      NewestAfter(t, c.op.def, rows[id], q.defName);
    }
  }

  lemma StateSetKeepsIff(t: T.Table, q: Query, t': T.Table, id: string, to: RunState)
    requires S.StateSet(t, t', id, to)
    ensures Keys(t, q) <= Keys(t', q) <==> !(id in Rows(t, q) && q.inState.Some? && to != q.inState.value)
  {
    var rows, rows' := Rows(t, q), Rows(t', q);
    KeysOfParts(rows, rows');
    forall x | x in rows && x != id ensures x in rows' && rows'[x] == rows[x] {}
    if id in rows && q.inState.Some? && to != q.inState.value { assert id !in rows'; }
  }

  lemma OthersKeepRow(t: T.Table, q: Query, c: Call, id: string)
    requires !c.op.CreateDefinition? && !IsSetter(c.op) && id in Rows(t, q)
    ensures id in Rows(Next(t, c), q) && Rows(Next(t, c), q)[id].createdAt == Rows(t, q)[id].createdAt
  {
    S.OthersKeepRuns(t, c, id);
    assert Next(t, c).defs == t.defs;
  }

  lemma OthersKeepKeys(t: T.Table, q: Query, c: Call)
    requires !c.op.CreateDefinition? && !IsSetter(c.op)
    ensures Keys(t, q) <= Keys(Next(t, c), q)
  {
    KeysOfParts(Rows(t, q), Rows(Next(t, c), q));
    forall id | id in Rows(t, q)
      ensures id in Rows(Next(t, c), q) && Rows(Next(t, c), q)[id].createdAt == Rows(t, q)[id].createdAt
    {
      OthersKeepRow(t, q, c, id);
    }
  }

  /** A call loses none of the runs the listing shows if and only if it is quiet. */
  lemma KeepsKeysIffQuiet(t: T.Table, q: Query, c: Call)
    requires c.op.CreateDefinition? && c.op.def.id in t.defs ==> t.defs[c.op.def.id].name == c.op.def.name
    ensures Keys(t, q) <= Keys(Next(t, c), q) <==> Quiet(t, q, c)
  {
    if c.op.CreateDefinition? {
      DefinitionKeepsIff(t, q, c);
    } else if IsSetter(c.op) {
      S.SetterSets(t, c);
      if c.op.runId in t.runs && T.Visible(c.ns, t.runs[c.op.runId]) {
        StateSetKeepsIff(t, q, Next(t, c), c.op.runId, Target(c.op));
      }
    } else {
      OthersKeepKeys(t, q, c);
    }
  }

  // Reading everything

  ghost predicate AllQuiet(r: R.Redis, q: Query, calls: seq<Call>)
    requires Listable(r)
    decreases calls
  {
    calls == [] ||
    (Quiet(View(r), q, calls[0]) && Regular(r, calls[0]) &&
     (StepView(r, calls[0]); AllQuiet(R.Step(r, calls[0].ns, calls[0].op).0, q, calls[1..])))
  }

  lemma {:induction false} CallsKeepKeys(r: R.Redis, q: Query, calls: seq<Call>)
    requires Listable(r) && AllQuiet(r, q, calls)
    ensures Listable(R.RunCalls(r, calls)) && Keys(View(r), q) <= Keys(View(R.RunCalls(r, calls)), q)
    decreases calls
  {
    if calls != [] {
      StepView(r, calls[0]);
      KeepsKeysIffQuiet(View(r), q, calls[0]);
      CallsKeepKeys(R.Step(r, calls[0].ns, calls[0].op).0, q, calls[1..]);
    }
  }

  /** Rows of all pages; `gaps[i]` are the calls other clients make after page `i`. */
  ghost function ReadAll(r: R.Redis, gaps: seq<seq<Call>>, q: Query, after: Option<Key>): seq<Run>
    decreases |gaps|
  {
    var page := ReadPage(r, q, after);
    Paged(page, q.limit, if gaps == [] then [] else ReadAll(R.RunCalls(r, gaps[0]), gaps[1..], q, CursorOf(page)))
  }

  /** Between pages every call is quiet and regular. */
  ghost predicate QuietGaps(r: R.Redis, gaps: seq<seq<Call>>, q: Query)
    requires Listable(r)
    decreases |gaps|
  {
    gaps == [] ||
    (AllQuiet(r, q, gaps[0]) && (CallsKeepKeys(r, q, gaps[0]); QuietGaps(R.RunCalls(r, gaps[0]), gaps[1..], q)))
  }

  /** What the listing shows at each page. */
  ghost function Views(r: R.Redis, gaps: seq<seq<Call>>, q: Query): (s: seq<map<string, Run>>)
    requires Listable(r) && QuietGaps(r, gaps, q)
    ensures |s| == |gaps| + 1 && s[0] == Rows(View(r), q)
    decreases |gaps|
  {
    [Rows(View(r), q)] +
    if gaps == [] then []
    else CallsKeepKeys(r, q, gaps[0]); Views(R.RunCalls(r, gaps[0]), gaps[1..], q)
  }

  lemma RowsOwnIds(r: R.Redis, q: Query)
    requires Listable(r)
    ensures OwnIds(Rows(View(r), q))
  {
  }

  lemma {:induction false} ViewsGrow(r: R.Redis, gaps: seq<seq<Call>>, q: Query)
    requires Listable(r) && QuietGaps(r, gaps, q)
    ensures AllOwnIds(Views(r, gaps, q)) && Growing(KeySets(Views(r, gaps, q)))
    decreases |gaps|
  {
    RowsOwnIds(r, q);
    if gaps != [] {
      var r' := R.RunCalls(r, gaps[0]);
      CallsKeepKeys(r, q, gaps[0]);
      ViewsGrow(r', gaps[1..], q);
      GrowOne(Rows(View(r), q), Views(r', gaps[1..], q));
    }
  }

  lemma {:induction false} ReadAllIsRead(r: R.Redis, gaps: seq<seq<Call>>, q: Query, after: Option<Key>)
    requires Listable(r) && QuietGaps(r, gaps, q)
    ensures ReadAll(r, gaps, q, after) == Read(Views(r, gaps, q), q.limit, after)
    decreases |gaps|
  {
    PageRead(r, q, after);
    if gaps == [] {
      ReadOnwards(Rows(View(r), q), [], q.limit, after);
      assert [Rows(View(r), q)] + [] == [Rows(View(r), q)];
    } else {
      var next := R.RunCalls(r, gaps[0]);
      CallsKeepKeys(r, q, gaps[0]);
      ReadOnwards(Rows(View(r), q), Views(next, gaps[1..], q), q.limit, after);
      ReadAllIsRead(next, gaps[1..], q, CursorOf(ReadPage(r, q, after)));
    }
  }

  /**
   * The walk of the tables holds on Redis too, as long as, with a name filter, no version newer than the
   * listed one is registered on the way: strictly downwards, ended after at most `matching / limit + 1`
   * pages, and by then every run listed at the start has been returned, those at `i64::MAX` included.
   */
  lemma WalkReadsEverything(r: R.Redis, gaps: seq<seq<Call>>, q: Query)
    requires Listable(r) && QuietGaps(r, gaps, q) && q.limit > 0
    ensures var read, views := RunKeys(ReadAll(r, gaps, q, None)), Views(r, gaps, q);
            && Descending(read)
            && (Finished(views, q.limit) ==> forall k :: k in Keys(View(r), q) ==> k in read)
            && (|KeysOf(views[|gaps|])| < (|gaps| + 1) * q.limit ==> Finished(views, q.limit))
  {
    ViewsGrow(r, gaps, q);
    ReadAllIsRead(r, gaps, q, None);
    ReadsEverything(Views(r, gaps, q), q.limit);
  }

  // Pages that are not read in one step

  /** A run as loaded on its own: present, visible, whole and in the listed state. */
  ghost predicate Shows(r: R.Redis, q: Query, id: string) {
    && R.Visible(r, q.ns, id) && R.DecodeRun(r.runs[id]).Some?
    && (q.inState.Some? ==> R.DecodeRun(r.runs[id]).value.state == q.inState.value)
  }

  /**
   * A listing that reads the index in `r` and then each hash by itself while `calls` go on: the hash of
   * `id` after `load(id)` of them.
   */
  ghost function SplitRows(r: R.Redis, calls: seq<Call>, load: string -> nat, q: Query): map<string, Run>
    requires forall id :: load(id) <= |calls|
  {
    map id | id in R.Candidates(r, q.defName, q.inState) && Shows(R.RunCalls(r, calls[..load(id)]), q, id)
           :: R.DecodeRun(R.RunCalls(r, calls[..load(id)]).runs[id]).value
  }

  /** With nothing in between it is the listing read in one step. */
  lemma SplitIsWhole(r: R.Redis, q: Query, after: Option<Key>, load: string -> nat)
    requires Listable(r) && forall id :: load(id) == 0
    ensures ReadPage(r, q, after) == Window(SplitRows(r, [], load, q), q.limit, after)
  {
    PageRead(r, q, after);
    RowsAreLoaded(r, q);
    SplitOfNothing(r, q, load);
  }

  lemma SplitOfNothing(r: R.Redis, q: Query, load: string -> nat)
    requires forall id :: load(id) == 0
    ensures SplitRows(r, [], load, q) == R.Loaded(r, q.ns, R.Candidates(r, q.defName, q.inState), q.inState)
  {
    var none: seq<Call> := [];
    forall id ensures R.RunCalls(r, none[..load(id)]) == r {
      assert none[..load(id)] == [];
    }
  }

  lemma RowsAreLoaded(r: R.Redis, q: Query)
    requires Listable(r)
    ensures Rows(View(r), q) == R.Loaded(r, q.ns, R.Candidates(r, q.defName, q.inState), q.inState)
  {
    LoadedRows(Bare(r), q.ns, q.defName, q.inState);
    BareLoads(r, q);
  }

  lemma {:induction false} QuietPrefix(r: R.Redis, q: Query, calls: seq<Call>, n: nat)
    requires Listable(r) && AllQuiet(r, q, calls) && n <= |calls|
    ensures AllQuiet(r, q, calls[..n])
    decreases n
  {
    if n > 0 {
      StepView(r, calls[0]);
      QuietPrefix(R.Step(r, calls[0].ns, calls[0].op).0, q, calls[1..], n - 1);
      assert calls[..n][1..] == calls[1..][..n - 1];
    }
  }

  /** A run listed when the index is read is still shown when its hash is. */
  lemma SplitKeeps(r: R.Redis, calls: seq<Call>, load: string -> nat, q: Query, id: string)
    requires Listable(r) && AllQuiet(r, q, calls) && (forall x :: load(x) <= |calls|) && id in Rows(View(r), q)
    ensures var rows := SplitRows(r, calls, load, q);
            id in rows && rows[id].createdAt == Rows(View(r), q)[id].createdAt
  {
    var s := R.RunCalls(r, calls[..load(id)]);
    QuietPrefix(r, q, calls, load(id));
    CallsKeepKeys(r, q, calls[..load(id)]);
    KeysOfParts(Rows(View(r), q), Rows(View(s), q));
    RowsAreLoaded(r, q);
    RowsAreLoaded(s, q);
  }

  /** No candidate fails to decode when its hash is read, so the listing never errs. */
  lemma SplitNeverCorrupt(r: R.Redis, calls: seq<Call>, load: string -> nat, q: Query, id: string)
    requires Listable(r) && AllQuiet(r, q, calls) && forall x :: load(x) <= |calls|
    ensures !R.Corrupted(R.RunCalls(r, calls[..load(id)]), q.ns, id)
  {
    QuietPrefix(r, q, calls, load(id));
    CallsKeepKeys(r, q, calls[..load(id)]);
    ScopeAgrees(Bare(R.RunCalls(r, calls[..load(id)])), q.ns, id);
  }

  lemma SplitOwnIds(r: R.Redis, calls: seq<Call>, load: string -> nat, q: Query)
    requires Listable(r) && AllQuiet(r, q, calls) && forall x :: load(x) <= |calls|
    ensures OwnIds(SplitRows(r, calls, load, q))
  {
    forall id | id in SplitRows(r, calls, load, q) ensures SplitRows(r, calls, load, q)[id].id == id {
      QuietPrefix(r, q, calls, load(id));
      CallsKeepKeys(r, q, calls[..load(id)]);
    }
  }

  /** A page in progress: the calls until the next page's index is read, and when in them each hash is. */
  datatype Span = Span(calls: seq<Call>, load: string -> nat)

  ghost predicate InSpan(span: Span) { forall id :: span.load(id) <= |span.calls| }

  ghost predicate QuietSpans(r: R.Redis, spans: seq<Span>, q: Query)
    requires Listable(r)
    decreases |spans|
  {
    spans == [] ||
    (InSpan(spans[0]) && AllQuiet(r, q, spans[0].calls) &&
     (CallsKeepKeys(r, q, spans[0].calls); QuietSpans(R.RunCalls(r, spans[0].calls), spans[1..], q)))
  }

  /** What each page gets to see. */
  ghost function SplitViews(r: R.Redis, spans: seq<Span>, q: Query): (s: seq<map<string, Run>>)
    requires Listable(r) && QuietSpans(r, spans, q)
    ensures |s| == |spans|
    decreases |spans|
  {
    if spans == [] then []
    else
      CallsKeepKeys(r, q, spans[0].calls);
      [SplitRows(r, spans[0].calls, spans[0].load, q)] +
      SplitViews(R.RunCalls(r, spans[0].calls), spans[1..], q)
  }

  lemma SplitCovers(r: R.Redis, calls: seq<Call>, load: string -> nat, q: Query)
    requires Listable(r) && AllQuiet(r, q, calls) && forall x :: load(x) <= |calls|
    ensures Keys(View(r), q) <= KeysOf(SplitRows(r, calls, load, q))
  {
    KeysOfParts(Rows(View(r), q), SplitRows(r, calls, load, q));
    forall id | id in Rows(View(r), q)
      ensures var rows := SplitRows(r, calls, load, q);
              id in rows && rows[id].createdAt == Rows(View(r), q)[id].createdAt
    {
      SplitKeeps(r, calls, load, q, id);
    }
  }

  ghost predicate AllKeep(views: seq<map<string, Run>>, base: set<Key>) {
    forall i :: 0 <= i < |views| ==> base <= KeysOf(views[i])
  }

  lemma KeepOne(rows: map<string, Run>, rest: seq<map<string, Run>>, base: set<Key>)
    requires OwnIds(rows) && base <= KeysOf(rows) && AllOwnIds(rest) && AllKeep(rest, base)
    ensures AllOwnIds([rows] + rest) && AllKeep([rows] + rest, base)
  {
  }

  lemma {:induction false} SplitViewsKeep(r: R.Redis, spans: seq<Span>, q: Query, base: set<Key>)
    requires Listable(r) && QuietSpans(r, spans, q) && base <= Keys(View(r), q)
    ensures AllOwnIds(SplitViews(r, spans, q)) && AllKeep(SplitViews(r, spans, q), base)
    decreases |spans|
  {
    if spans != [] {
      var calls, load := spans[0].calls, spans[0].load;
      CallsKeepKeys(r, q, calls);
      SplitCovers(r, calls, load, q);
      SplitOwnIds(r, calls, load, q);
      SplitViewsKeep(R.RunCalls(r, calls), spans[1..], q, base);
      KeepOne(SplitRows(r, calls, load, q), SplitViews(R.RunCalls(r, calls), spans[1..], q), base);
    }
  }

  /**
   * The walk with every page's index and hashes read in their own round trips, while other clients make
   * quiet calls at any moment, also between those: strictly downwards, every run listed at the start
   * returned by the end, and the end after at most `top / limit + 1` pages, if `top` has all keys any page saw.
   */
  lemma SplitWalkReadsEverything(r: R.Redis, spans: seq<Span>, q: Query, top: set<Key>)
    requires Listable(r) && QuietSpans(r, spans, q) && q.limit > 0
    requires forall i :: 0 <= i < |spans| ==> KeysOf(SplitViews(r, spans, q)[i]) <= top
    ensures var views := SplitViews(r, spans, q);
            var read := RunKeys(Read(views, q.limit, None));
            && Descending(read)
            && (Finished(views, q.limit) ==> forall k :: k in Keys(View(r), q) ==> k in read)
            && (|top| < |spans| * q.limit ==> Finished(views, q.limit))
  {
    SplitViewsKeep(r, spans, q, Keys(View(r), q));
    ReadsBetween(SplitViews(r, spans, q), q.limit, Keys(View(r), q), top);
  }

  // A new version on the way

  /** Newer than every version of its name, and nothing has run under it. */
  ghost predicate Supersedes(r: R.Redis, d: Definition) {
    && d.id !in r.defs
    && (forall x :: x in r.defs && r.defs[x].name == d.name ==> Before(Key(r.defs[x].version, x), Key(d.version, d.id)))
    && (forall id :: id in r.runs ==> r.runs[id].definitionId != Some(d.id))
  }

  lemma NothingUnder(t: T.Table, q: Query, d: Definition)
    requires q.defName == Some(d.name) && d.id !in t.defs
    requires forall x :: x in t.defs && t.defs[x].name == d.name ==>
             Before(Key(t.defs[x].version, x), Key(d.version, d.id))
    requires forall id :: id in t.runs ==> t.runs[id].run.definitionId != d.id
    ensures Rows(t.(defs := t.defs[d.id := d]), q) == map[]
  {
    var t' := t.(defs := t.defs[d.id := d]);
    forall id | id in T.Matching(t', q.ns, q.defName, q.inState)
      ensures !NewestVersion(t', q.defName, t'.runs[id].run)
    {
      var top := t'.runs[id].run.definitionId;
      assert top in t.defs && d.id in t'.defs;
      BeforeOrder(Key(d.version, d.id), Key(t.defs[top].version, top), Key(d.version, d.id));
    }
  }

  lemma EmptyWindow(limit: nat, after: Option<Key>)
    ensures Window(map[], limit, after) == []
  {
    PageProps(KeysOf(map[]), limit, after);
    assert Page(KeysOf(map[]), limit, after) == [];
  }

  lemma NothingListed(r: R.Redis, q: Query, ns: Option<string>, d: Definition)
    requires Listable(r) && Supersedes(r, d) && q.defName == Some(d.name)
    ensures var r' := R.Step(r, ns, CreateDefinition(d)).0; Listable(r') && Rows(View(r'), q) == map[]
  {
    StepView(r, Call(ns, CreateDefinition(d)));
    NothingUnder(View(r), q, d);
  }

  lemma NewVersionHidesRuns(r: R.Redis, q: Query, ns: Option<string>, d: Definition, after: Option<Key>)
    requires Listable(r) && Supersedes(r, d) && q.defName == Some(d.name)
    ensures ReadPage(R.Step(r, ns, CreateDefinition(d)).0, q, after) == []
  {
    NothingListed(r, q, ns, d);
    PageRead(R.Step(r, ns, CreateDefinition(d)).0, q, after);
    EmptyWindow(q.limit, after);
  }

  lemma FirstPage(r: R.Redis, q: Query)
    requires Listable(r) && 0 < q.limit < |Keys(View(r), q)|
    ensures |ReadPage(r, q, None)| == q.limit
    ensures exists k :: k in Keys(View(r), q) && k !in RunKeys(ReadPage(r, q, None))
  {
    PageRead(r, q, None);
    WindowRunKeys(Rows(View(r), q), q.limit, None);
    FullPage(Keys(View(r), q), q.limit);
  }

  /** Registering such a version after the first full page ends the walk there, with every other run unread. */
  lemma NewVersionEndsWalk(r: R.Redis, q: Query, ns: Option<string>, d: Definition)
    requires Listable(r) && Supersedes(r, d) && q.defName == Some(d.name) && 0 < q.limit < |Keys(View(r), q)|
    ensures ReadAll(r, [[Call(ns, CreateDefinition(d))]], q, None) == ReadPage(r, q, None)
    ensures exists k :: k in Keys(View(r), q) && k !in ReadKeys(r, q, ns, d)
  {
    FirstPage(r, q);
    var gap, cursor := [Call(ns, CreateDefinition(d))], CursorOf(ReadPage(r, q, None));
    var gaps: seq<seq<Call>> := [gap];
    assert gap[1..] == [] && gaps[1..] == [];
    var r' := R.Step(r, ns, CreateDefinition(d)).0;
    assert R.RunCalls(r', []) == r';
    NewVersionHidesRuns(r, q, ns, d, cursor);
    assert ReadAll(r', [], q, cursor) == [];
    assert ReadPage(r, q, None) + [] == ReadPage(r, q, None);
  }

  /** Keys read when `d` is registered after the first page. */
  ghost function ReadKeys(r: R.Redis, q: Query, ns: Option<string>, d: Definition): seq<Key> {
    RunKeys(ReadAll(r, [[Call(ns, CreateDefinition(d))]], q, None))
  }

  lemma FullPage(ks: set<Key>, limit: nat)
    requires 0 < limit < |ks|
    ensures |Page(ks, limit, None)| == limit && exists k :: k in ks && k !in Page(ks, limit, None)
  {
    assert Below(ks, None) == ks;
    OrderedProps(ks);
    var p := Page(ks, limit, None);
    PageProps(ks, limit, None);
    SetOfDescending(p);
    var read := set k | k in p;
    assert read != ks;
  }
}
