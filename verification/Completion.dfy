/**
 * Jobs handed to Java and the registry their completions come back through, as an interleaving of the
 * steps of any number of `run_one` tasks and any number of Java threads completing any token, any
 * number of times. Tokens are registration numbers; the counter is taken not to wrap.
 */
module Completion {
  import opened Prelude

  datatype Outcome = Success(bytes: seq<nat>) | Failure(error: string, retryable: bool) | Cancelled

  datatype JobResult =
    | Succeeded(bytes: seq<nat>)
    | Failed(error: string, timedOut: bool, retryable: bool)
    | WasCancelled

  const TIMED_OUT := Failed("task timed out", true, true)
  const CHANNEL_DROPPED := Failed("java task channel dropped", false, true)

  /** A failure of a job whose cancellation was requested is a cancellation. */
  function Translate(o: Outcome, cancelRequested: bool): JobResult {
    match o
    case Success(bytes) => Succeeded(bytes)
    case Cancelled => WasCancelled
    case Failure(error, retryable) => if cancelRequested then WasCancelled else Failed(error, false, retryable)
  }

  /** The one-shot channel of a token. */
  datatype Channel = Open | Filled(outcome: Outcome) | SenderLost

  /** Why a task ended. */
  datatype Cause = NotSubmitted(error: string) | Expired | Received(outcome: Outcome, cancelRequested: bool) | Abandoned

  function ResultOf(c: Cause): JobResult {
    match c
    case NotSubmitted(error) => Failed(error, false, true)
    case Expired => TIMED_OUT
    case Received(o, cancelRequested) => Translate(o, cancelRequested)
    case Abandoned => CHANNEL_DROPPED
  }

  /** Where a `run_one` is: about to submit, waiting, about to forget its token, or returned. */
  datatype Phase = Submitting | Waiting | Forgetting(cause: Cause) | Done(cause: Cause, result: JobResult)

  datatype Task = Task(timeoutMs: int, phase: Phase)

  /**
   * The registry, the channels, the tasks, the senders Java threads took out but have not used yet;
   * and a log of the tokens whose outcome reached a live receiver and of those that returned.
   */
  datatype System = System(
    next: nat, pending: set<nat>, channels: map<nat, Channel>, tasks: map<nat, Task>,
    sending: map<nat, Outcome>, delivered: multiset<nat>, returned: multiset<nat>)

  const START := System(0, {}, map[], map[], map[], multiset{}, multiset{})

  datatype Event =
    | Register(timeoutMs: int)
    | Submit(token: nat, refused: Option<string>)
    | Expire(token: nat)
    | Forget(token: nat)
    | Receive(token: nat, cancelRequested: bool)
    | Take(token: nat, outcome: Outcome)        // `complete` removes the sender
    | Send(token: nat)                          // and then uses it

  predicate InPhase(s: System, t: nat, p: Phase) { t in s.tasks && s.tasks[t].phase == p }

  predicate Listening(s: System, t: nat) { InPhase(s, t, Submitting) || InPhase(s, t, Waiting) }

  function SetPhase(s: System, t: nat, p: Phase): System
    requires t in s.tasks
  {
    s.(tasks := s.tasks[t := s.tasks[t].(phase := p)])
  }

  function Return(s: System, t: nat, cause: Cause): System
    requires t in s.tasks
  {
    SetPhase(s, t, Done(cause, ResultOf(cause))).(returned := s.returned + multiset{t})
  }

  /** One step; an event that does not fit changes nothing. */
  function Step(s: System, e: Event): System {
    match e
    case Register(timeoutMs) =>
      s.(next := s.next + 1, pending := s.pending + {s.next}, channels := s.channels[s.next := Open],
         tasks := s.tasks[s.next := Task(timeoutMs, Submitting)])
    case Submit(t, refused) =>
      if !InPhase(s, t, Submitting) then s
      else SetPhase(s, t, if refused.Some? then Forgetting(NotSubmitted(refused.value)) else Waiting)
    case Expire(t) =>
      if !InPhase(s, t, Waiting) || s.tasks[t].timeoutMs <= 0 || t !in s.channels || !s.channels[t].Open? then s
      else SetPhase(s, t, Forgetting(Expired))
    case Forget(t) =>
      if t !in s.tasks || !s.tasks[t].phase.Forgetting? then s
      else
        var dropped :=
          if t in s.pending then s.(pending := s.pending - {t}, channels := s.channels[t := SenderLost]) else s;
        Return(dropped, t, s.tasks[t].phase.cause)
    case Receive(t, cancelRequested) =>
      if !InPhase(s, t, Waiting) || t !in s.channels || s.channels[t].Open? then s
      else Return(s, t, if s.channels[t].Filled? then Received(s.channels[t].outcome, cancelRequested) else Abandoned)
    case Take(t, outcome) =>
      if t !in s.pending then s
      else s.(pending := s.pending - {t}, sending := s.sending[t := outcome])
    case Send(t) =>
      if t !in s.sending then s
      else
        var sent := s.(sending := s.sending - {t});
        if !Listening(s, t) then sent
        else sent.(channels := sent.channels[t := Filled(s.sending[t])], delivered := sent.delivered + multiset{t})
  }

  function RunEvents(s: System, events: seq<Event>): System
    decreases events
  {
    if events == [] then s else RunEvents(Step(s, events[0]), events[1..])
  }

  // The invariant

  /** A listening task's sender is in the registry, in a Java thread's hand, or used, and in one place only. */
  ghost predicate TaskSound(s: System, t: nat) {
    && (t in s.tasks <==> t < s.next) && (t in s.channels <==> t < s.next)
    && (t in s.pending ==> t < s.next && t !in s.sending && !s.channels[t].Filled? && s.delivered[t] == 0)
    && (t in s.sending ==> t < s.next && !s.channels[t].Filled? && s.delivered[t] == 0)
    && (t < s.next && s.channels[t].Filled? ==> s.delivered[t] == 1)
    && s.delivered[t] <= 1 && (t >= s.next ==> s.delivered[t] == 0)
    && (Listening(s, t) ==> (t in s.pending || t in s.sending || s.channels[t].Filled?) && !s.channels[t].SenderLost?)
    && (t < s.next ==> PhaseSound(s, t, s.tasks[t]))
    && s.returned[t] == (if t < s.next && s.tasks[t].phase.Done? then 1 else 0)
  }

  /** What a task's phase says about its past. */
  ghost predicate PhaseSound(s: System, t: nat, task: Task)
    requires t in s.channels
  {
    match task.phase
    case Submitting => true
    case Waiting => true
    case Forgetting(cause) => cause.NotSubmitted? || (cause.Expired? && task.timeoutMs > 0 && s.delivered[t] == 0)
    case Done(cause, result) =>
      && result == ResultOf(cause) && t !in s.pending && !cause.Abandoned?
      && (cause.Expired? ==> task.timeoutMs > 0 && s.delivered[t] == 0)
      && (cause.Received? ==> s.channels[t] == Filled(cause.outcome) && s.delivered[t] == 1)
  }

  lemma RegisterSound(s: System, timeoutMs: int, t: nat)
    requires TaskSound(s, t) && TaskSound(s, s.next)
    ensures TaskSound(Step(s, Register(timeoutMs)), t)
  {
  }

  lemma TakeSound(s: System, u: nat, outcome: Outcome, t: nat)
    requires TaskSound(s, t)
    ensures TaskSound(Step(s, Take(u, outcome)), t)
  {
  }

  lemma SendSound(s: System, u: nat, t: nat)
    requires TaskSound(s, t) && TaskSound(s, u)
    ensures TaskSound(Step(s, Send(u)), t)
  {
  }

  lemma ForgetSound(s: System, u: nat, t: nat)
    requires TaskSound(s, t) && TaskSound(s, u)
    ensures TaskSound(Step(s, Forget(u)), t)
  {
  }

  lemma ReceiveSound(s: System, u: nat, cancelRequested: bool, t: nat)
    requires TaskSound(s, t) && TaskSound(s, u)
    ensures TaskSound(Step(s, Receive(u, cancelRequested)), t)
  {
  }

  lemma StepSound(s: System, e: Event, t: nat)
    requires forall u: nat :: TaskSound(s, u)
    ensures TaskSound(Step(s, e), t)
  {
    assert TaskSound(s, t);
    match e
    case Register(timeoutMs) => assert TaskSound(s, s.next); RegisterSound(s, timeoutMs, t);
    case Submit(u, refused) => assert TaskSound(s, u);
    case Expire(u) => assert TaskSound(s, u);
    case Forget(u) => assert TaskSound(s, u); ForgetSound(s, u, t);
    case Receive(u, c) => assert TaskSound(s, u); ReceiveSound(s, u, c, t);
    case Take(u, o) => TakeSound(s, u, o, t);
    case Send(u) => assert TaskSound(s, u); SendSound(s, u, t);
  }

  lemma {:induction false} RunSound(s: System, events: seq<Event>)
    requires forall t: nat :: TaskSound(s, t)
    ensures forall t: nat :: TaskSound(RunEvents(s, events), t)
    decreases events
  {
    if events != [] {
      forall t: nat ensures TaskSound(Step(s, events[0]), t) { StepSound(s, events[0], t); }
      RunSound(Step(s, events[0]), events[1..]);
    }
  }

  /**
   * Under every interleaving: a token's outcome reaches its receiver at most once; a task returns at
   * most once, and once it has, its token is gone from the registry and its result is what it was
   * given, a refusal to submit, or a timeout it asked for with no outcome there, but never a dropped channel.
   */
  lemma DeliveredAtMostOnce(events: seq<Event>, t: nat)
    ensures var s := RunEvents(START, events);
            && s.delivered[t] <= 1 && s.returned[t] <= 1
            && (s.returned[t] == 1 <==> t in s.tasks && s.tasks[t].phase.Done?)
            && (t in s.tasks && s.tasks[t].phase.Done? ==>
                  var Done(cause, result) := s.tasks[t].phase;
                  && t !in s.pending && result == ResultOf(cause) && !cause.Abandoned?
                  && (cause.Expired? ==> s.tasks[t].timeoutMs > 0 && s.delivered[t] == 0)
                  && (cause.Received? ==>
                        s.delivered[t] == 1 && t in s.channels && s.channels[t] == Filled(cause.outcome)))
  {
    forall u: nat ensures TaskSound(START, u) {}
    RunSound(START, events);
    assert TaskSound(RunEvents(START, events), t);
  }

  /** The timeouts of the jobs the run registers, in order. */
  function Timeouts(events: seq<Event>): seq<int> {
    if events == [] then []
    else if events[0].Register? then [events[0].timeoutMs] + Timeouts(events[1..])
    else Timeouts(events[1..])
  }

  /** The tasks are those of the jobs registered, token by token. */
  ghost predicate TasksOf(s: System, timeouts: seq<int>) {
    && s.next == |timeouts| && (forall t: nat :: t in s.tasks <==> t < |timeouts|)
    && forall t: nat :: t < |timeouts| ==> s.tasks[t].timeoutMs == timeouts[t]
  }

  lemma StepTasks(s: System, timeouts: seq<int>, e: Event)
    requires TasksOf(s, timeouts)
    ensures TasksOf(Step(s, e), if e.Register? then timeouts + [e.timeoutMs] else timeouts)
  {
  }

  lemma {:induction false} RunTasks(s: System, timeouts: seq<int>, events: seq<Event>)
    requires TasksOf(s, timeouts)
    ensures TasksOf(RunEvents(s, events), timeouts + Timeouts(events))
    decreases events
  {
    if events == [] {
      assert timeouts + [] == timeouts;
    } else {
      var more := if events[0].Register? then timeouts + [events[0].timeoutMs] else timeouts;
      StepTasks(s, timeouts, events[0]);
      RunTasks(Step(s, events[0]), more, events[1..]);
      MoreTimeouts(timeouts, events);
    }
  }

  lemma MoreTimeouts(timeouts: seq<int>, events: seq<Event>)
    requires events != []
    ensures (if events[0].Register? then timeouts + [events[0].timeoutMs] else timeouts) + Timeouts(events[1..]) ==
            timeouts + Timeouts(events)
  {
  }

  /** Every registration makes a task with a token of its own and the job's timeout, and nothing else does. */
  lemma RegisteredIsTask(events: seq<Event>, t: nat)
    ensures var tasks := RunEvents(START, events).tasks;
            && (t in tasks <==> t < |Timeouts(events)|)
            && (t in tasks ==> tasks[t].timeoutMs == Timeouts(events)[t])
  {
    RunTasks(START, [], events);
    assert [] + Timeouts(events) == Timeouts(events);
  }

  // Where results come from

  /** What a task in that phase was told, among the events of the run. */
  ghost predicate CauseSeen(events: seq<Event>, t: nat, cause: Cause) {
    match cause
    case NotSubmitted(error) => Submit(t, Some(error)) in events
    case Expired => Expire(t) in events
    case Received(_, cancelRequested) => Receive(t, cancelRequested) in events
    case Abandoned => true
  }

  /** A thread completed the token with every outcome on its way or in the channel. */
  ghost predicate OutcomeSeen(s: System, events: seq<Event>, t: nat) {
    && (t in s.sending ==> Take(t, s.sending[t]) in events)
    && (t in s.channels && s.channels[t].Filled? ==> Take(t, s.channels[t].outcome) in events)
  }

  ghost predicate PhaseSeen(s: System, events: seq<Event>, t: nat) {
    && (t in s.tasks && s.tasks[t].phase.Forgetting? ==> CauseSeen(events, t, s.tasks[t].phase.cause))
    && (t in s.tasks && s.tasks[t].phase.Done? ==> CauseSeen(events, t, s.tasks[t].phase.cause))
  }

  ghost predicate Seen(s: System, events: seq<Event>, t: nat) { OutcomeSeen(s, events, t) && PhaseSeen(s, events, t) }

  lemma StepOutcomeSeen(s: System, past: seq<Event>, e: Event, t: nat)
    requires OutcomeSeen(s, past, t)
    ensures OutcomeSeen(Step(s, e), past + [e], t)
  {
  }

  lemma StepPhaseSeen(s: System, past: seq<Event>, e: Event, t: nat)
    requires PhaseSeen(s, past, t)
    ensures PhaseSeen(Step(s, e), past + [e], t)
  {
  }

  lemma StepSeen(s: System, past: seq<Event>, e: Event, t: nat)
    requires Seen(s, past, t)
    ensures Seen(Step(s, e), past + [e], t)
  {
    StepOutcomeSeen(s, past, e, t);
    StepPhaseSeen(s, past, e, t);
  }

  lemma {:induction false} RunSeen(s: System, past: seq<Event>, events: seq<Event>, t: nat)
    requires Seen(s, past, t)
    ensures Seen(RunEvents(s, events), past + events, t)
    decreases events
  {
    if events == [] {
      assert past + events == past;
    } else {
      StepSeen(s, past, events[0], t);
      RunSeen(Step(s, events[0]), past + [events[0]], events[1..], t);
      assert past + [events[0]] + events[1..] == past + events;
    }
  }

  /** The outcome a task was given: the one in its channel when it received. */
  ghost predicate Given(s: System, t: nat, o: Outcome) {
    t in s.tasks && s.tasks[t].phase.Done? && s.tasks[t].phase.cause.Received? &&
    t in s.channels && s.channels[t] == Filled(o)
  }

  /** The cancellation was requested when the task received. */
  predicate CancelSeen(s: System, t: nat) {
    && t in s.tasks && s.tasks[t].phase.Done?
    && s.tasks[t].phase.cause.Received? && s.tasks[t].phase.cause.cancelRequested
  }

  /**
   * Under every interleaving, a returned task succeeded with `b` if and only if it was given `Success(b)`;
   * was cancelled if and only if it was given `Cancelled`, or a failure while its cancellation was
   * requested; timed out if and only if its time ran out; and failed for good if and only if it was given
   * a failure that is not to be retried, whose text it reports.
   */
  lemma ResultsAreOutcomes(events: seq<Event>, t: nat)
    requires t in RunEvents(START, events).tasks && RunEvents(START, events).tasks[t].phase.Done?
    ensures var s := RunEvents(START, events);
            var Done(cause, result) := s.tasks[t].phase;
            && (forall b :: result == Succeeded(b) <==> Given(s, t, Success(b)))
            && (result == WasCancelled <==>
                Given(s, t, Cancelled) || (CancelSeen(s, t) && exists e, r :: Given(s, t, Failure(e, r))))
            && (result.Failed? && result.timedOut <==> cause.Expired?)
            && (result.Failed? && result.timedOut ==> result.error == "task timed out" && result.retryable)
            && (forall e :: result == Failed(e, false, false) <==> !CancelSeen(s, t) && Given(s, t, Failure(e, false)))
            && (forall e :: result == Failed(e, false, true) <==>
                  (!CancelSeen(s, t) && Given(s, t, Failure(e, true))) || cause == NotSubmitted(e))
  {
    DeliveredAtMostOnce(events, t);
    var s := RunEvents(START, events);
    if s.tasks[t].phase.cause.Received? { assert Given(s, t, s.tasks[t].phase.cause.outcome); }
  }

  /**
   * And all of that happened in the run: an outcome given was brought by a thread completing this token, a
   * refusal by its submission, a timeout by its clock, a requested cancellation was seen on receiving.
   */
  lemma ResultsHappened(events: seq<Event>, t: nat)
    ensures var s := RunEvents(START, events);
            && (forall o :: Given(s, t, o) ==>
                  Take(t, o) in events && Receive(t, CancelSeen(s, t)) in events)
            && (t in s.tasks && s.tasks[t].phase.Done? ==>
                  var cause := s.tasks[t].phase.cause;
                  && !cause.Abandoned?
                  && (cause.NotSubmitted? ==> Submit(t, Some(cause.error)) in events)
                  && (cause.Expired? ==> Expire(t) in events && s.tasks[t].timeoutMs > 0)
                  && (cause.Received? ==> Given(s, t, cause.outcome)))
  {
    DeliveredAtMostOnce(events, t);
    RunSeen(START, [], events, t);
    assert [] + events == events;
  }

  lemma DoneStays(s: System, e: Event, t: nat)
    requires TaskSound(s, t) && t in s.tasks && s.tasks[t].phase.Done?
    ensures t in Step(s, e).tasks && Step(s, e).tasks[t] == s.tasks[t]
    ensures Step(s, e).delivered[t] == s.delivered[t] && Step(s, e).channels[t] == s.channels[t]
  {
  }

  /** Nothing that happens later changes a returned task, its channel or what was delivered to it. */
  lemma {:induction false} ResultStays(s: System, events: seq<Event>, t: nat)
    requires (forall u: nat :: TaskSound(s, u)) && t in s.tasks && s.tasks[t].phase.Done?
    ensures var end := RunEvents(s, events);
            t in end.tasks && end.tasks[t] == s.tasks[t] && end.delivered[t] == s.delivered[t]
    decreases events
  {
    if events != [] {
      assert TaskSound(s, t);
      DoneStays(s, events[0], t);
      forall u: nat ensures TaskSound(Step(s, events[0]), u) { StepSound(s, events[0], u); }
      ResultStays(Step(s, events[0]), events[1..], t);
    }
  }

  /** A completion for a task that returned, after any run, changes nothing at all. */
  lemma LateCompletionIgnored(events: seq<Event>, t: nat, outcome: Outcome)
    requires t in RunEvents(START, events).tasks && RunEvents(START, events).tasks[t].phase.Done?
    ensures Step(RunEvents(START, events), Take(t, outcome)) == RunEvents(START, events)
  {
    DeliveredAtMostOnce(events, t);
  }

  /** A task that has not returned can: whatever the others did, a few steps on its token finish it. */
  lemma CanReturn(s: System, t: nat, outcome: Outcome)
    requires TaskSound(s, t) && t in s.tasks
    ensures var finish := [Submit(t, None), Take(t, outcome), Send(t), Receive(t, false), Forget(t)];
            t in RunEvents(s, finish).tasks && RunEvents(s, finish).tasks[t].phase.Done?
  {
    var finish := [Submit(t, None), Take(t, outcome), Send(t), Receive(t, false), Forget(t)];
    RunFive(s, finish[0], finish[1], finish[2], finish[3], finish[4]);
  }

  /** And one with a timeout needs nobody else: its own steps end it whether or not an outcome is there. */
  lemma TimeoutReturns(s: System, t: nat)
    requires TaskSound(s, t) && t in s.tasks && s.tasks[t].timeoutMs > 0
    ensures var finish := [Submit(t, None), Expire(t), Receive(t, false), Forget(t)];
            t in RunEvents(s, finish).tasks && RunEvents(s, finish).tasks[t].phase.Done?
  {
    var finish := [Submit(t, None), Expire(t), Receive(t, false), Forget(t)];
    RunFour(s, finish[0], finish[1], finish[2], finish[3]);
  }

  lemma RunFour(s: System, a: Event, b: Event, c: Event, d: Event)
    ensures RunEvents(s, [a, b, c, d]) == Step(Step(Step(Step(s, a), b), c), d)
  {
    assert [a, b, c, d][1..] == [b, c, d] && [b, c, d][1..] == [c, d] && [c, d][1..] == [d] && [d][1..] == [];
    var r := Step(Step(s, a), b);
    assert RunEvents(s, [a, b, c, d]) == RunEvents(r, [c, d]);
    assert RunEvents(r, [c, d]) == RunEvents(Step(r, c), [d]);
    assert RunEvents(Step(r, c), [d]) == Step(Step(r, c), d);
  }

  lemma RunFive(s: System, a: Event, b: Event, c: Event, d: Event, e: Event)
    ensures RunEvents(s, [a, b, c, d, e]) == Step(Step(Step(Step(Step(s, a), b), c), d), e)
  {
    assert [a, b, c, d, e][1..] == [b, c, d, e];
    RunFour(Step(s, a), b, c, d, e);
  }

  // The registry as an object

  /** A completion some Java thread makes while a task waits. */
  datatype Completing = Completing(token: nat, outcome: Outcome)

  /** The first outcome `arriving` brings for `token`. */
  function FirstFor(arriving: seq<Completing>, token: nat): Option<Outcome> {
    if arriving == [] then None
    else if arriving[0].token == token then Some(arriving[0].outcome)
    else FirstFor(arriving[1..], token)
  }

  /** Completion `i` is the first for `token`. */
  predicate IsFirst(arriving: seq<Completing>, i: int, token: nat) {
    0 <= i < |arriving| && arriving[i].token == token && forall j :: 0 <= j < i ==> arriving[j].token != token
  }

  lemma {:induction false} FirstForIs(arriving: seq<Completing>, token: nat)
    ensures FirstFor(arriving, token).None? <==> forall i :: 0 <= i < |arriving| ==> arriving[i].token != token
    ensures forall i :: IsFirst(arriving, i, token) ==> FirstFor(arriving, token) == Some(arriving[i].outcome)
  {
    if arriving != [] {
      var rest := arriving[1..];
      FirstForIs(rest, token);
      assert forall i :: 0 <= i < |rest| ==> rest[i] == arriving[i + 1];
      forall i | IsFirst(arriving, i, token) ensures FirstFor(arriving, token) == Some(arriving[i].outcome) {
        if i > 0 { assert IsFirst(rest, i - 1, token); }
      }
      if FirstFor(arriving, token).None? {
        assert forall i :: 1 <= i < |arriving| ==> arriving[i] == rest[i - 1];
      }
    }
  }

  lemma {:induction false} FirstOfMore(arriving: seq<Completing>, c: Completing, token: nat)
    ensures FirstFor(arriving + [c], token) ==
            if FirstFor(arriving, token).Some? then FirstFor(arriving, token)
            else if c.token == token then Some(c.outcome) else None
  {
    if arriving == [] {
      assert arriving + [c] == [c];
    } else {
      assert (arriving + [c])[1..] == arriving[1..] + [c];
      FirstOfMore(arriving[1..], c, token);
    }
  }

  class Registry {
    var pending: set<nat>
    var nextToken: nat
    var slots: map<nat, Outcome>      // one-shot channels that hold a value

    constructor ()
      ensures Valid() && pending == {}
    {
      pending, nextToken, slots := {}, 0, map[];
    }

    /** Tokens handed out are below the counter, and a pending token's channel is still empty. */
    ghost predicate Valid()
      reads this
    {
      (forall t :: t in pending ==> t < nextToken && t !in slots) && (forall t :: t in slots ==> t < nextToken)
    }

    method Register() returns (token: nat)
      requires Valid()
      modifies this
      ensures Valid() && token == old(nextToken) && nextToken == token + 1
      ensures pending == old(pending) + {token} && token !in old(pending) && slots == old(slots) && token !in slots
    {
      token := nextToken;
      nextToken := nextToken + 1;
      pending := pending + {token};
    }

    method Forget(token: nat)
      requires Valid()
      modifies this`pending
      ensures Valid() && pending == old(pending) - {token}
    {
      pending := pending - {token};
    }

    /** Resolves a pending token; anything else is ignored. */
    method Complete(token: nat, outcome: Outcome)
      requires Valid()
      modifies this`pending, this`slots
      ensures Valid() && pending == old(pending) - {token}
      ensures slots == if token in old(pending) then old(slots)[token := outcome] else old(slots)
    {
      if token in pending {
        pending := pending - {token};
        slots := slots[token := outcome];
      }
    }

    /**
     * One job from registration to result. `arriving` is what Java threads complete, for this token and
     * any other, before the timeout; without a timeout and without an outcome the job waits on, and
     * there is no result.
     */
    method RunOne(timeoutMs: int, refused: Option<string>, arriving: seq<Completing>, cancelRequested: bool)
      returns (result: Option<JobResult>)
      requires Valid()
      modifies this
      ensures Valid() && nextToken == old(nextToken) + 1 && pending <= old(pending) + {old(nextToken)}
      ensures old(nextToken) in pending <==> result.None?
      ensures refused.Some? ==> result == Some(Failed(refused.value, false, true))
      ensures refused.None? && (forall i :: 0 <= i < |arriving| ==> arriving[i].token != old(nextToken)) ==>
                result == if timeoutMs > 0 then Some(Failed("task timed out", true, true)) else None
      ensures forall i :: refused.None? && IsFirst(arriving, i, old(nextToken)) ==>
                var o := arriving[i].outcome;
                && (o.Success? ==> result == Some(Succeeded(o.bytes)))
                && (o.Cancelled? || (o.Failure? && cancelRequested) ==> result == Some(WasCancelled))
                && (o.Failure? && !cancelRequested ==> result == Some(Failed(o.error, false, o.retryable)))
    {
      FirstForIs(arriving, old(nextToken));
      var token := Register();
      if refused.Some? {
        Forget(token);
        return Some(Failed(refused.value, false, true));
      }
      for i := 0 to |arriving|
        invariant Valid() && nextToken == old(nextToken) + 1 && pending <= old(pending) + {token}
        invariant token in pending <==> FirstFor(arriving[..i], token).None?
        invariant token in slots <==> FirstFor(arriving[..i], token).Some?
        invariant token in slots ==> FirstFor(arriving[..i], token) == Some(slots[token])
      {
        FirstOfMore(arriving[..i], arriving[i], token);
        assert arriving[..i + 1] == arriving[..i] + [arriving[i]];
        Complete(arriving[i].token, arriving[i].outcome);
      }
      assert arriving[..|arriving|] == arriving;
      if token in slots { return Some(Translate(slots[token], cancelRequested)); }
      if timeoutMs <= 0 { return None; }
      Forget(token);
      return Some(TIMED_OUT);
    }
  }
}
