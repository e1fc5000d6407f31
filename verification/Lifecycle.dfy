/** The lives of a workflow run: which sequences of states the transition table allows from the start. */
module Lifecycle {
  import opened Workflow

  /** Ended, as callers are told; a saga may still roll such a run back. */
  predicate IsTerminal(s: RunState) {
    s.Completed? || s.CompletedWithFailures? || s.Failed? || s.Cancelled? || s.Compensated? || s.CompensationFailed?
  }

  /** A run starts pending and moves by allowed transitions. */
  ghost predicate IsLife(path: seq<RunState>) {
    path != [] && path[0].Pending? && forall i :: 0 <= i < |path| - 1 ==> CanTransitionTo(path[i], path[i + 1])
  }

  /** Rolling back: all of it, or as far as it got. */
  predicate RollsBack(tail: seq<RunState>) {
    || tail == [] || tail == [RunState.Compensating]
    || tail == [RunState.Compensating, RunState.Compensated]
    || tail == [RunState.Compensating, RunState.CompensationFailed]
  }

  /** How a running run ends: cancelled, or in one of three verdicts that may be rolled back, or rolled back at once. */
  predicate Ends(tail: seq<RunState>) {
    || tail == [RunState.Cancelled]
    || RollsBack(tail)
    || (tail != [] && tail[0] in {RunState.Completed, RunState.CompletedWithFailures, RunState.Failed} &&
        RollsBack(tail[1..]))
  }

  /** The first `a` states: pending, then running and paused by turns. */
  predicate Active(path: seq<RunState>, a: nat) {
    && 1 <= a <= |path| && path[0].Pending?
    && forall i :: 1 <= i < a ==> path[i] == if i % 2 == 1 then RunState.Running else RunState.Paused
  }

  /** Active for `a` states and then an ending: none before it ran, and while paused only a cancellation. */
  predicate Shaped(path: seq<RunState>, a: nat) {
    && Active(path, a)
    && var tail := path[a..];
       if a == 1 then tail == []
       else if a % 2 == 1 then tail == [] || tail == [RunState.Cancelled]
       else Ends(tail)
  }

  lemma RollbackStep(tail: seq<RunState>, s: RunState)
    requires RollsBack(tail) && tail != []
    ensures CanTransitionTo(tail[|tail| - 1], s) <==> RollsBack(tail + [s])
  {
    var more := tail + [s];
    assert more[|tail| - 1] == tail[|tail| - 1] && more[|tail|] == s;
    if tail == [RunState.Compensating] { assert more == [RunState.Compensating, s]; }
  }

  lemma EndStep(tail: seq<RunState>, s: RunState)
    requires Ends(tail) && tail != []
    ensures CanTransitionTo(tail[|tail| - 1], s) <==> Ends(tail + [s])
  {
    var more := tail + [s];
    assert more[0] == tail[0] && more[1..] == tail[1..] + [s];
    if RollsBack(tail) {
      RollbackStep(tail, s);
    } else if tail != [RunState.Cancelled] {
      if |tail| == 1 { assert tail[1..] + [s] == [s]; } else { RollbackStep(tail[1..], s); }
    }
  }

  /** From an active state: on with the turns, or into an ending. */
  lemma ActiveStep(path: seq<RunState>, s: RunState)
    requires Active(path, |path|) && CanTransitionTo(path[|path| - 1], s)
    ensures Shaped(path + [s], |path|) || Shaped(path + [s], |path| + 1)
  {
    var more, n := path + [s], |path|;
    assert more[n..] == [s] && more[n + 1..] == [];
    if s.Running? || s.Paused? { assert Active(more, n + 1); } else { assert Active(more, n); }
  }

  lemma ShapedStep(path: seq<RunState>, a: nat, s: RunState)
    requires Shaped(path, a) && CanTransitionTo(path[|path| - 1], s)
    ensures exists b: nat :: Shaped(path + [s], b)
  {
    var more, tail := path + [s], path[a..];
    if tail == [] {
      assert a == |path|;
      ActiveStep(path, s);
    } else {
      assert tail[|tail| - 1] == path[|path| - 1] && more[a..] == tail + [s];
      if a % 2 == 0 {
        EndStep(tail, s);
        assert Active(more, a);
        assert Shaped(more, a);
      }
    }
  }

  lemma {:induction false} LivesAreShaped(path: seq<RunState>)
    requires IsLife(path)
    ensures exists a: nat :: Shaped(path, a)
  {
    if |path| == 1 {
      assert Shaped(path, 1);
    } else {
      var rest, last := path[..|path| - 1], path[|path| - 1];
      LivesAreShaped(rest);
      var a: nat :| Shaped(rest, a);
      assert CanTransitionTo(path[|path| - 2], path[|path| - 1]);
      ShapedStep(rest, a, last);
      assert path == rest + [last];
    }
  }

  lemma {:induction false} EndingTransitions(tail: seq<RunState>, i: nat)
    requires Ends(tail) && i < |tail| - 1
    ensures CanTransitionTo(tail[i], tail[i + 1])
  {
  }

  lemma ShapedIsLife(path: seq<RunState>, a: nat)
    requires Shaped(path, a)
    ensures IsLife(path)
  {
    var tail := path[a..];
    forall i | 0 <= i < |path| - 1 ensures CanTransitionTo(path[i], path[i + 1]) {
      if i >= a {
        assert tail[i - a] == path[i] && tail[i - a + 1] == path[i + 1];
        if a % 2 == 0 { EndingTransitions(tail, i - a); }
      } else if i == a - 1 {
        assert tail[0] == path[a];
      }
    }
  }

  /**
   * The lives of a run are exactly these: pending; running and paused by turns; from running, cancelled, or
   * completed, completed with failures or failed, each of which may be rolled back, or rolled back at once;
   * from paused, cancelled. A rollback ends compensated or failed, and nothing follows that or a cancellation.
   */
  lemma LivesAre(path: seq<RunState>)
    ensures IsLife(path) <==> exists a: nat :: Shaped(path, a)
  {
    if IsLife(path) { LivesAreShaped(path); }
    if a: nat :| Shaped(path, a) { ShapedIsLife(path, a); }
  }

  /** What is called terminal leads nowhere but into a rollback, and everything else leads somewhere. */
  lemma TerminalOnlyRollsBack(s: RunState)
    ensures IsTerminal(s) ==> forall to :: CanTransitionTo(s, to) <==>
              to.Compensating? && s in {RunState.Completed, RunState.CompletedWithFailures, RunState.Failed}
    ensures !IsTerminal(s) ==> exists to :: CanTransitionTo(s, to)
  {
    if s.Pending? || s.Paused? {
      assert CanTransitionTo(s, RunState.Running);
    } else if s.Running? {
      assert CanTransitionTo(s, RunState.Completed);
    } else if s.Compensating? {
      assert CanTransitionTo(s, RunState.Compensated);
    }
  }

  /** A run comes back to no state but by pausing and resuming. */
  lemma NoStateTwiceButRunningAndPaused(path: seq<RunState>, i: nat, j: nat)
    requires IsLife(path) && i < j < |path| && path[i] == path[j]
    ensures path[i].Running? || path[i].Paused?
  {
    LivesAreShaped(path);
    var a: nat :| Shaped(path, a);
    var tail := path[a..];
    if j >= a { assert tail[j - a] == path[j]; }
    if i >= a { assert tail[i - a] == path[i]; }
  }
}
