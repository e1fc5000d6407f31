/** The keyset walk over the tables, while other clients go on working between the pages. */
module StoreWalk {
  import opened Prelude
  import opened Keyset
  import opened Workflow
  import opened Calls
  import opened PageWalk
  import opened TableStore

  ghost function Rows(t: Table, q: Query): map<string, Run> { Matching(t, q.ns, q.defName, q.inState) }

  ghost function Keys(t: Table, q: Query): set<Key> { KeysOf(Rows(t, q)) }

  ghost function ReadPage(t: Table, q: Query, after: Option<Key>): seq<Run> {
    List(t, q.ns, ListAfter(q.defName, q.inState, q.limit, after))
  }

  /** The call does not put a run it can reach, and that is listed now, into another state than the listed one. */
  ghost predicate Quiet(t: Table, q: Query, c: Call) {
    (&& IsSetter(c.op) && c.op.runId in Rows(t, q)
     && Visible(c.ns, t.runs[c.op.runId]) && q.inState.Some?)
    ==> Target(c.op) == q.inState.value
  }

  ghost predicate Sane(t: Table) {
    forall id :: id in t.runs ==> t.runs[id].run.id == id && t.runs[id].run.createdAt < I64_MAX
  }

  ghost predicate SaneCall(c: Call) { c.op.CreateRun? ==> c.op.run.createdAt < I64_MAX }

  lemma StepKeepsSane(t: Table, c: Call)
    requires Sane(t) && SaneCall(c)
    ensures Sane(Step(t, c.ns, c.op).0)
  {
  }

  /** `t'` is `t` with the state of run `id` set to `to`, as far as listings look. */
  ghost predicate StateSet(t: Table, t': Table, id: string, to: RunState) {
    && t'.defs == t.defs && t'.runs.Keys == t.runs.Keys && id in t.runs && t'.runs[id].run.state == to
    && (forall x :: x in t.runs ==>
          && t'.runs[x].ns == t.runs[x].ns && t'.runs[x].run.createdAt == t.runs[x].run.createdAt
          && t'.runs[x].run.definitionId == t.runs[x].run.definitionId
          && (x != id ==> t'.runs[x] == t.runs[x]))
  }

  lemma StateSetKeepsIff(t: Table, q: Query, t': Table, id: string, to: RunState)
    requires StateSet(t, t', id, to)
    ensures Keys(t, q) <= Keys(t', q) <==> !(id in Rows(t, q) && q.inState.Some? && to != q.inState.value)
  {
    KeysOfParts(Rows(t, q), Rows(t', q));
    if id in Rows(t, q) && q.inState.Some? && to != q.inState.value { assert id !in Rows(t', q); }
  }

  lemma SetterSets(t: Table, c: Call)
    requires IsSetter(c.op)
    ensures var t' := Step(t, c.ns, c.op).0;
            if c.op.runId in t.runs && Visible(c.ns, t.runs[c.op.runId])
            then StateSet(t, t', c.op.runId, Target(c.op))
            else t' == t
  {
  }

  lemma OthersKeepRuns(t: Table, c: Call, id: string)
    requires !IsSetter(c.op) && id in t.runs
    ensures var t' := Step(t, c.ns, c.op).0;
            && id in t'.runs && t'.runs[id].ns == t.runs[id].ns
            && t'.runs[id].run == t.runs[id].run.(completedAt := t'.runs[id].run.completedAt)
  {
  }

  lemma OthersKeepRows(t: Table, q: Query, c: Call)
    requires !IsSetter(c.op)
    ensures Keys(t, q) <= Keys(Step(t, c.ns, c.op).0, q)
  {
    var t' := Step(t, c.ns, c.op).0;
    KeysOfParts(Rows(t, q), Rows(t', q));
    assert forall d :: d in t.defs ==> d in t'.defs && t'.defs[d] == t.defs[d];
    forall id | id in Rows(t, q) ensures id in Rows(t', q) && Rows(t', q)[id].createdAt == Rows(t, q)[id].createdAt {
      OthersKeepRuns(t, c, id);
    }
  }

  /** A call loses none of the matching runs if and only if it is quiet. */
  lemma KeepsKeysIffQuiet(t: Table, q: Query, c: Call)
    ensures Keys(t, q) <= Keys(Step(t, c.ns, c.op).0, q) <==> Quiet(t, q, c)
  {
    if IsSetter(c.op) {
      SetterSets(t, c);
      if c.op.runId in t.runs && Visible(c.ns, t.runs[c.op.runId]) {
        StateSetKeepsIff(t, q, Step(t, c.ns, c.op).0, c.op.runId, Target(c.op));
      }
    } else {
      OthersKeepRows(t, q, c);
    }
  }

  ghost predicate AllQuiet(t: Table, q: Query, calls: seq<Call>)
    decreases calls
  {
    calls == [] ||
    (Quiet(t, q, calls[0]) && SaneCall(calls[0]) && AllQuiet(Step(t, calls[0].ns, calls[0].op).0, q, calls[1..]))
  }

  lemma {:induction false} CallsKeepKeys(t: Table, q: Query, calls: seq<Call>)
    requires Sane(t) && AllQuiet(t, q, calls)
    ensures Sane(RunCalls(t, calls)) && Keys(t, q) <= Keys(RunCalls(t, calls), q)
    decreases calls
  {
    if calls != [] {
      StepKeepsSane(t, calls[0]);
      KeepsKeysIffQuiet(t, q, calls[0]);
      CallsKeepKeys(Step(t, calls[0].ns, calls[0].op).0, q, calls[1..]);
    }
  }

  // Reading everything

  /** Rows of all pages; `gaps[i]` are the calls other clients make after page `i`. */
  ghost function ReadAll(t: Table, gaps: seq<seq<Call>>, q: Query, after: Option<Key>): seq<Run>
    decreases |gaps|
  {
    var page := ReadPage(t, q, after);
    Paged(page, q.limit, if gaps == [] then [] else ReadAll(RunCalls(t, gaps[0]), gaps[1..], q, CursorOf(page)))
  }

  /** What matches at each page. */
  ghost function Views(t: Table, gaps: seq<seq<Call>>, q: Query): (s: seq<map<string, Run>>)
    ensures |s| == |gaps| + 1 && s[0] == Rows(t, q)
    decreases |gaps|
  {
    [Rows(t, q)] + if gaps == [] then [] else Views(RunCalls(t, gaps[0]), gaps[1..], q)
  }

  /** Between pages every call is quiet and timestamps are real ones. */
  ghost predicate QuietGaps(t: Table, gaps: seq<seq<Call>>, q: Query)
    decreases |gaps|
  {
    gaps == [] || (AllQuiet(t, q, gaps[0]) && QuietGaps(RunCalls(t, gaps[0]), gaps[1..], q))
  }

  /** With real timestamps the sentinel cursor cuts nothing off. */
  lemma PageRead(t: Table, q: Query, after: Option<Key>)
    requires Sane(t)
    ensures ReadPage(t, q, after) == Window(Rows(t, q), q.limit, after)
  {
    var cursor := if after.Some? then after.value else Key(I64_MAX, "");
    if after.None? {
      assert forall k :: k in Keys(t, q) ==> Before(k, cursor);
      assert Below(Keys(t, q), None) == Below(Keys(t, q), Some(cursor));
    }
  }

  lemma {:induction false} ViewsGrow(t: Table, gaps: seq<seq<Call>>, q: Query)
    requires Sane(t) && QuietGaps(t, gaps, q)
    ensures AllOwnIds(Views(t, gaps, q)) && Growing(KeySets(Views(t, gaps, q)))
    decreases |gaps|
  {
    if gaps != [] {
      var t' := RunCalls(t, gaps[0]);
      CallsKeepKeys(t, q, gaps[0]);
      ViewsGrow(t', gaps[1..], q);
      GrowOne(Rows(t, q), Views(t', gaps[1..], q));
    }
  }

  lemma {:induction false} ReadAllIsRead(t: Table, gaps: seq<seq<Call>>, q: Query, after: Option<Key>)
    requires Sane(t) && QuietGaps(t, gaps, q)
    ensures ReadAll(t, gaps, q, after) == Read(Views(t, gaps, q), q.limit, after)
    decreases |gaps|
  {
    PageRead(t, q, after);
    if gaps == [] {
      ReadOnwards(Rows(t, q), [], q.limit, after);
      assert [Rows(t, q)] + [] == [Rows(t, q)];
    } else {
      var next := RunCalls(t, gaps[0]);
      CallsKeepKeys(t, q, gaps[0]);
      ReadOnwards(Rows(t, q), Views(next, gaps[1..], q), q.limit, after);
      ReadAllIsRead(next, gaps[1..], q, CursorOf(ReadPage(t, q, after)));
    }
  }

  /**
   * Page after page while others make quiet calls: rows come strictly downwards by `(created_at, id)`;
   * after at most `matching / limit + 1` pages a short page ends the walk; and by then every run that
   * matched at the start has been returned.
   */
  lemma WalkReadsEverything(t: Table, gaps: seq<seq<Call>>, q: Query)
    requires Sane(t) && QuietGaps(t, gaps, q) && q.limit > 0
    ensures var read, views := RunKeys(ReadAll(t, gaps, q, None)), Views(t, gaps, q);
            && Descending(read)
            && (Finished(views, q.limit) ==> forall k :: k in Keys(t, q) ==> k in read)
            && (|KeysOf(views[|gaps|])| < (|gaps| + 1) * q.limit ==> Finished(views, q.limit))
  {
    ViewsGrow(t, gaps, q);
    ReadAllIsRead(t, gaps, q, None);
    ReadsEverything(Views(t, gaps, q), q.limit);
  }
}
