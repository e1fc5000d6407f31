/**
 * The loop that pumps jobs from the scheduler through the local deque to the dispatcher, as a state
 * machine whose steps are the points where another task may come in between. Thieves may take from
 * the front of the deque before any step.
 */
module MeshBridge {
  import opened Prelude
  import opened LocalDeque

  datatype Config = Config(capacity: nat, enableStealing: bool, stealThreshold: nat)

  /** Which of the three drain loops is running. */
  datatype Drain = First | AfterSteal | Last

  datatype Ending = Closed | DispatcherGone

  datatype Control =
    | Popping(drain: Drain)
    | Sending(job: Job, drain: Drain)    // popped, not yet accepted by the dispatcher
    | Stealing                           // waiting for a peer's answer
    | Receiving                          // blocked on the scheduler's channel
    | Batching(batch: seq<Job>)          // received, not yet in the deque
    | Ended(ending: Ending)

  /** The deque, and everything that ever went through; `dropped` is what truncation cut from batches. */
  datatype Bridge = Bridge(
    control: Control, deque: seq<Job>, batches: seq<seq<Job>>,
    received: multiset<Job>, stolenIn: multiset<Job>,
    sent: multiset<Job>, given: multiset<Job>, unsent: multiset<Job>, dropped: multiset<Job>)

  const START := Bridge(Popping(First), [], [], multiset{}, multiset{}, multiset{}, multiset{}, multiset{}, multiset{})

  datatype Event =
    | Pop
    | Send(accepted: bool)
    | StealReply(stolen: seq<Job>, owned: set<string>)
    | Receive(batch: seq<Job>)           // a job, and what else the channel holds
    | Prefetch(owned: set<string>)
    | Close
    | Give(count: nat)

  predicate ShouldSteal(c: Config, deque: seq<Job>) { c.enableStealing && |deque| <= c.stealThreshold }

  /** Prefetching nothing leaves the deque and the log alone. */
  function PrefetchInto(b: Bridge, c: Config, jobs: seq<Job>, owned: set<string>): Bridge {
    if jobs == [] then b
    else
      var room := Room(b.deque, c.capacity);
      b.(deque := PushSorted(b.deque, c.capacity, jobs, owned), batches := b.batches + [jobs],
         dropped := b.dropped + (if |jobs| <= room then multiset{} else multiset(jobs[room..])))
  }

  function AfterDrain(b: Bridge, c: Config, d: Drain): Control {
    match d
    case First => if ShouldSteal(c, b.deque) then Stealing else Receiving
    case AfterSteal => Receiving
    case Last => Ended(Closed)
  }

  /** One step; an event that does not fit the control point changes nothing. */
  function Advance(b: Bridge, c: Config, e: Event): Bridge {
    match e
    case Give(count) =>
      var n := StolenCount(b.deque, count);
      b.(deque := b.deque[n..], given := b.given + multiset(b.deque[..n]))
    case Pop =>
      if !b.control.Popping? then b
      else if b.deque == [] then b.(control := AfterDrain(b, c, b.control.drain))
      else
        var last := |b.deque| - 1;
        b.(deque := b.deque[..last], control := Sending(b.deque[last], b.control.drain))
    case Send(accepted) =>
      if !b.control.Sending? then b
      else if accepted then b.(sent := b.sent + multiset{b.control.job}, control := Popping(b.control.drain))
      else b.(unsent := b.unsent + multiset{b.control.job}, control := Ended(DispatcherGone))
    case StealReply(stolen, owned) =>
      if !b.control.Stealing? then b
      else PrefetchInto(b.(stolenIn := b.stolenIn + multiset(stolen), control := Popping(AfterSteal)), c, stolen, owned)
    case Receive(batch) =>
      if !b.control.Receiving? || batch == [] then b
      else b.(received := b.received + multiset(batch), control := Batching(batch))
    case Prefetch(owned) =>
      if !b.control.Batching? then b
      else PrefetchInto(b.(control := Popping(First)), c, b.control.batch, owned)
    case Close =>
      if !b.control.Receiving? then b else b.(control := Popping(Last))
  }

  function RunEvents(b: Bridge, c: Config, events: seq<Event>): Bridge
    decreases events
  {
    if events == [] then b else RunEvents(Advance(b, c, events[0]), c, events[1..])
  }

  lemma {:induction false} RunOneMore(b: Bridge, c: Config, events: seq<Event>, e: Event)
    ensures RunEvents(b, c, events + [e]) == Advance(RunEvents(b, c, events), c, e)
    decreases events
  {
    if events == [] {
      assert events + [e] == [e];
      assert [e][1..] == [];
    } else {
      assert (events + [e])[1..] == events[1..] + [e];
      RunOneMore(Advance(b, c, events[0]), c, events[1..], e);
    }
  }

  // Accounting

  predicate Fit(batches: seq<seq<Job>>, capacity: nat) { forall i :: 0 <= i < |batches| ==> |batches[i]| <= capacity }

  function InHand(c: Control): multiset<Job> {
    match c
    case Sending(j, _) => multiset{j}
    case Batching(batch) => multiset(batch)
    case _ => multiset{}
  }

  /** Copies of `j` that came in are copies that went out, were cut off, or are somewhere inside. */
  ghost predicate Accounted(b: Bridge, j: Job) {
    b.received[j] + b.stolenIn[j]
    == b.sent[j] + b.given[j] + b.unsent[j] + b.dropped[j] + multiset(b.deque)[j] + InHand(b.control)[j]
  }

  /** Control points at which the bridge waits for work from outside. */
  predicate Waiting(c: Control) { c.Receiving? || c.Batching? || c.Stealing? }

  ghost predicate Shape(b: Bridge) {
    && (Waiting(b.control) || b.control == Ended(Closed) ==> b.deque == [])
    && (b.control.Batching? ==> b.control.batch != [])
  }

  /** Only a dispatcher that went away leaves a job unsent. */
  ghost predicate SentSoFar(b: Bridge) { b.control != Ended(DispatcherGone) ==> b.unsent == multiset{} }

  ghost predicate DropsExcess(b: Bridge, c: Config) { b.dropped == multiset{} <==> Fit(b.batches, c.capacity) }

  lemma PrefetchDrops(b: Bridge, c: Config, jobs: seq<Job>, owned: set<string>)
    requires b.deque == [] && DropsExcess(b, c)
    ensures DropsExcess(PrefetchInto(b, c, jobs, owned), c)
  {
    if jobs != [] {
      var after := PrefetchInto(b, c, jobs, owned);
      assert after.batches[..|b.batches|] == b.batches && after.batches[|b.batches|] == jobs;
      if |jobs| > c.capacity {
        assert jobs[c.capacity..][0] in multiset(jobs[c.capacity..]);
        assert jobs[c.capacity..][0] in after.dropped;
      } else {
        assert after.dropped == b.dropped;
      }
    }
  }

  lemma StepDrops(b: Bridge, c: Config, e: Event)
    requires Shape(b) && DropsExcess(b, c)
    ensures DropsExcess(Advance(b, c, e), c)
  {
    match e
    case StealReply(stolen, owned) =>
      if b.control.Stealing? {
        PrefetchDrops(b.(stolenIn := b.stolenIn + multiset(stolen), control := Popping(AfterSteal)), c, stolen, owned);
      }
    case Prefetch(owned) =>
      if b.control.Batching? { PrefetchDrops(b.(control := Popping(First)), c, b.control.batch, owned); }
    case _ =>
  }

  lemma StepShape(b: Bridge, c: Config, e: Event)
    requires Shape(b)
    ensures Shape(Advance(b, c, e))
  {
  }

  lemma StepSent(b: Bridge, c: Config, e: Event)
    requires SentSoFar(b)
    ensures SentSoFar(Advance(b, c, e))
  {
  }

  lemma Split(s: seq<Job>, n: nat, j: Job)
    requires n <= |s|
    ensures multiset(s)[j] == multiset(s[..n])[j] + multiset(s[n..])[j]
  {
    assert s == s[..n] + s[n..];
  }

  lemma PrefetchAccounts(b: Bridge, c: Config, jobs: seq<Job>, owned: set<string>, j: Job)
    requires b.deque == []
    ensures var after := PrefetchInto(b, c, jobs, owned);
            multiset(after.deque)[j] + after.dropped[j] == multiset(jobs)[j] + b.dropped[j]
  {
    if jobs != [] {
      var kept := Truncated(jobs, c.capacity);
      SortKeeps(kept, owned);
      assert PrefetchInto(b, c, jobs, owned).deque == SortByAffinity(kept, owned);
      if |jobs| > c.capacity { Split(jobs, c.capacity, j); }
    }
  }

  lemma PopAccounts(b: Bridge, c: Config, j: Job)
    requires Accounted(b, j)
    ensures Accounted(Advance(b, c, Event.Pop), j)
  {
    if b.control.Popping? && b.deque != [] {
      var last := |b.deque| - 1;
      Split(b.deque, last, j);
      assert b.deque[last..] == [b.deque[last]];
    }
  }

  lemma GiveAccounts(b: Bridge, c: Config, count: nat, j: Job)
    requires Accounted(b, j)
    ensures Accounted(Advance(b, c, Give(count)), j)
  {
    Split(b.deque, StolenCount(b.deque, count), j);
  }

  lemma SendAccounts(b: Bridge, c: Config, accepted: bool, j: Job)
    requires Accounted(b, j)
    ensures Accounted(Advance(b, c, Send(accepted)), j)
  {
  }

  lemma ReceiveAccounts(b: Bridge, c: Config, batch: seq<Job>, j: Job)
    requires Accounted(b, j)
    ensures Accounted(Advance(b, c, Receive(batch)), j)
  {
  }

  lemma StealAccounts(b: Bridge, c: Config, stolen: seq<Job>, owned: set<string>, j: Job)
    requires Shape(b) && Accounted(b, j)
    ensures Accounted(Advance(b, c, StealReply(stolen, owned)), j)
  {
    if b.control.Stealing? {
      PrefetchAccounts(b.(stolenIn := b.stolenIn + multiset(stolen), control := Popping(AfterSteal)), c, stolen,
          owned, j);
    }
  }

  lemma StepAccounts(b: Bridge, c: Config, e: Event, j: Job)
    requires Shape(b) && Accounted(b, j)
    ensures Accounted(Advance(b, c, e), j)
  {
    match e
    case Give(count) => GiveAccounts(b, c, count, j);
    case Pop => PopAccounts(b, c, j);
    case Send(accepted) => SendAccounts(b, c, accepted, j);
    case Receive(batch) => ReceiveAccounts(b, c, batch, j);
    case StealReply(stolen, owned) => StealAccounts(b, c, stolen, owned, j);
    case Prefetch(owned) =>
      if b.control.Batching? { PrefetchAccounts(b.(control := Popping(First)), c, b.control.batch, owned, j); }
    case Close =>
  }

  lemma {:induction false} RunAccounts(b: Bridge, c: Config, events: seq<Event>, j: Job)
    requires Shape(b) && Accounted(b, j)
    ensures Shape(RunEvents(b, c, events)) && Accounted(RunEvents(b, c, events), j)
    decreases events
  {
    if events != [] {
      StepShape(b, c, events[0]);
      StepAccounts(b, c, events[0], j);
      RunAccounts(Advance(b, c, events[0]), c, events[1..], j);
    }
  }

  lemma {:induction false} RunDrops(b: Bridge, c: Config, events: seq<Event>)
    requires Shape(b) && SentSoFar(b) && DropsExcess(b, c)
    ensures SentSoFar(RunEvents(b, c, events)) && DropsExcess(RunEvents(b, c, events), c)
    decreases events
  {
    if events != [] {
      StepShape(b, c, events[0]);
      StepSent(b, c, events[0]);
      StepDrops(b, c, events[0]);
      RunDrops(Advance(b, c, events[0]), c, events[1..]);
    }
  }

  /** A peer is asked only while stealing is enabled. */
  lemma {:induction false} NeverAsksWhenDisabled(b: Bridge, c: Config, events: seq<Event>)
    requires !c.enableStealing && !b.control.Stealing?
    ensures !RunEvents(b, c, events).control.Stealing? && RunEvents(b, c, events).stolenIn == b.stolenIn
    decreases events
  {
    if events != [] { NeverAsksWhenDisabled(Advance(b, c, events[0]), c, events[1..]); }
  }

  /** The deque is empty every time the bridge blocks on the scheduler, whatever thieves do. */
  lemma EmptyWhenBlocked(c: Config, events: seq<Event>)
    ensures RunEvents(START, c, events).control.Receiving? ==> RunEvents(START, c, events).deque == []
  {
    RunAccounts(START, c, events, Job("", ""));
  }

  /**
   * When the scheduler closes and the dispatcher took everything, what came in went out, to the
   * dispatcher or to a thief, exactly once, except what batches had beyond the capacity. So nothing
   * is lost if and only if every batch fitted.
   */
  lemma Conservation(c: Config, events: seq<Event>)
    requires RunEvents(START, c, events).control == Ended(Closed)
    ensures var b := RunEvents(START, c, events);
            && b.received + b.stolenIn == b.sent + b.given + b.dropped
            && (b.received + b.stolenIn == b.sent + b.given <==> Fit(b.batches, c.capacity))
  {
    var b := RunEvents(START, c, events);
    RunDrops(START, c, events);
    forall j: Job ensures (b.received + b.stolenIn)[j] == (b.sent + b.given + b.dropped)[j] {
      RunAccounts(START, c, events, j);
    }
    assert b.received + b.stolenIn == b.sent + b.given + b.dropped;
    Absorb(b.sent + b.given, b.dropped);
  }

  lemma Absorb(a: multiset<Job>, b: multiset<Job>)
    ensures a + b == a <==> b == multiset{}
  {
    if a + b == a {
      forall j: Job ensures b[j] == 0 { assert (a + b)[j] == a[j] + b[j]; }
    }
  }

  lemma ReverseLast(sent: seq<Job>, rest: seq<Job>, job: Job)
    ensures sent + Reverse(rest + [job]) == sent + [job] + Reverse(rest)
  {
    ReverseSnoc(rest, job);
  }

  // The loop itself

  /**
   * The bridge over a real deque. What other tasks do is scripted: how many jobs thieves ask for before
   * each step, what the dispatcher answers, what peers give and what the scheduler produces until it
   * closes. Every run is a run of the machine, recorded in `trace`.
   */
  class Pump {
    const config: Config
    const deque: Deque
    var thefts: seq<nat>
    var refusals: seq<bool>
    var peers: seq<(seq<Job>, set<string>)>
    var arrivals: seq<(seq<Job>, set<string>)>
    var sent: seq<Job>
    var given: seq<Job>
    ghost var trace: seq<Event>
    ghost var now: Bridge

    constructor (config: Config, thefts: seq<nat>, refusals: seq<bool>,
                 peers: seq<(seq<Job>, set<string>)>, arrivals: seq<(seq<Job>, set<string>)>)
      requires forall i :: 0 <= i < |arrivals| ==> arrivals[i].0 != []
      ensures Valid() && fresh(deque) && this.config == config && now == START
      ensures forall i :: 0 <= i < |this.arrivals| ==> this.arrivals[i].0 != []
    {
      this.config, this.thefts, this.refusals, this.peers, this.arrivals := config, thefts, refusals, peers, arrivals;
      sent, given, trace, now := [], [], [], START;
      deque := new Deque(config.capacity);
    }

    ghost predicate Valid()
      reads this, deque
    {
      && now == RunEvents(START, config, trace)
      && deque.capacity == config.capacity && now.deque == deque.inner
      && now.sent == multiset(sent) && now.given == multiset(given)
    }

    ghost method Record(e: Event)
      requires now == RunEvents(START, config, trace)
      modifies this`trace, this`now
      ensures now == RunEvents(START, config, trace) && now == Advance(old(now), config, e)
    {
      RunOneMore(START, config, trace, e);
      trace, now := trace + [e], Advance(now, config, e);
    }

    /** A thief takes up to `count` jobs, oldest first. */
    method GiveJobs(count: nat) returns (stolen: seq<Job>)
      requires Valid()
      modifies this`given, this`trace, this`now, deque
      ensures Valid() && now.control == old(now.control) && given == old(given) + stolen
      ensures stolen + deque.inner == old(deque.inner)
      ensures |stolen| == if count < |old(deque.inner)| then count else |old(deque.inner)|
    {
      Record(Give(count));
      stolen := deque.Steal(count);
      assert stolen == old(deque.inner)[..|stolen|] && deque.inner == old(deque.inner)[|stolen|..];
      given := given + stolen;
    }

    /** Another task may steal here. */
    method Yield()
      requires Valid()
      modifies this`thefts, this`given, this`trace, this`now, deque
      ensures Valid() && now.control == old(now.control) && |deque.inner| <= |old(deque.inner)|
      ensures old(thefts) == [] ==> thefts == [] && deque.inner == old(deque.inner)
    {
      if thefts != [] {
        var stolen := GiveJobs(thefts[0]);
        assert |deque.inner| == |stolen + deque.inner| - |stolen|;
        thefts := thefts[1..];
      }
    }

    method PopLocal() returns (job: Option<Job>)
      requires Valid() && now.control.Popping?
      modifies this`trace, this`now, deque
      ensures Valid()
      ensures var d := old(now.control.drain);
              if job.None? then old(deque.inner) == deque.inner == [] && now.control == AfterDrain(now, config, d)
              else now.control == Sending(job.value, d) && deque.inner + [job.value] == old(deque.inner)
    {
      Record(Event.Pop);
      job := deque.Pop();
      assert job.Some? ==> old(deque.inner)[..|old(deque.inner)| - 1] == deque.inner;
    }

    method SendToDispatcher(job: Job) returns (ok: bool)
      requires Valid() && now.control.Sending? && now.control.job == job
      modifies this`refusals, this`sent, this`trace, this`now
      ensures Valid() && now.control == if ok then Popping(old(now.control.drain)) else Ended(DispatcherGone)
      ensures sent == if ok then old(sent) + [job] else old(sent)
    {
      ok := refusals == [] || !refusals[0];
      if refusals != [] { refusals := refusals[1..]; }
      Record(Send(ok));
      if ok { sent := sent + [job]; }
    }

    /** Pops a job and sends it; none when the deque is empty. */
    method SendNext(d: Drain) returns (job: Option<Job>, ok: bool)
      requires Valid() && now.control == Popping(d)
      modifies this`thefts, this`given, this`refusals, this`sent, this`trace, this`now, deque
      ensures Valid()
      ensures if job.None? then ok && deque.inner == [] && now.control == AfterDrain(now, config, d)
              else |deque.inner| < |old(deque.inner)| &&
                   now.control == if ok then Popping(d) else Ended(DispatcherGone)
      ensures old(thefts) == [] ==>
                && thefts == []
                && sent == (if job.Some? && ok then old(sent) + [job.value] else old(sent))
                && old(deque.inner) == (if job.Some? then deque.inner + [job.value] else [])
    {
      Yield();
      job := PopLocal();
      if job.None? { return None, true; }
      Yield();
      ok := SendToDispatcher(job.value);
    }

    /**
     * Pops and sends until the deque is empty; false when the dispatcher is gone. Where no thief comes, the
     * deque is sent from its end to its front.
     */
    method DrainDeque(d: Drain) returns (ok: bool)
      requires Valid() && now.control == Popping(d)
      modifies this`thefts, this`given, this`refusals, this`sent, this`trace, this`now, deque
      ensures Valid()
      ensures if ok then deque.inner == [] && now.control == AfterDrain(now, config, d)
              else now.control == Ended(DispatcherGone)
      ensures ok && old(thefts) == [] ==> sent == old(sent) + Reverse(old(deque.inner))
    {
      while true
        invariant Valid() && now.control == Popping(d)
        invariant old(thefts) == [] ==> thefts == []
        invariant old(thefts) == [] ==> sent + Reverse(deque.inner) == old(sent) + Reverse(old(deque.inner))
        decreases |deque.inner|
      {
        ghost var before, gone := deque.inner, sent;
        var job: Option<Job>;
        job, ok := SendNext(d);
        if job.None? {
          assert before == [] ==> gone + Reverse(before) == gone;
          return;
        }
        if !ok { return; }
        ReverseLast(gone, deque.inner, job.value);
      }
    }

    /** The push of a stolen or received batch. */
    method PrefetchBatch(e: Event, jobs: seq<Job>, owned: set<string>)
      requires Valid()
      requires || (e == StealReply(jobs, owned) && now.control.Stealing?)
               || (e == Prefetch(owned) && now.control == Batching(jobs))
      modifies this`trace, this`now, deque
      ensures Valid() && now == Advance(old(now), config, e)
    {
      Record(e);
      if jobs != [] {
        var pushed, order := deque.PushBatch(jobs, owned);
      }
    }

    method TrySteal()
      requires Valid() && now.control.Stealing?
      modifies this`peers, this`trace, this`now, deque
      ensures Valid() && now.control == Popping(AfterSteal)
      ensures peers == if old(peers) == [] then [] else old(peers[1..])
    {
      if peers == [] {
        PrefetchBatch(StealReply([], {}), [], {});
      } else {
        PrefetchBatch(StealReply(peers[0].0, peers[0].1), peers[0].0, peers[0].1);
        peers := peers[1..];
      }
    }

    method ReceiveAndPrefetch(jobs: seq<Job>, owned: set<string>)
      requires Valid() && now.control.Receiving? && jobs != []
      modifies this`thefts, this`given, this`trace, this`now, deque
      ensures Valid() && now.control == Popping(First)
    {
      Record(Receive(jobs));
      Yield();
      PrefetchBatch(Prefetch(owned), jobs, owned);
    }

    /** Up to the next wait for the scheduler; false when the dispatcher is gone. */
    method PumpOnce() returns (ok: bool)
      requires Valid() && now.control == Popping(First)
      modifies this`thefts, this`given, this`refusals, this`sent, this`peers, this`trace, this`now, deque
      ensures Valid() && if ok then now.control == Receiving else now.control == Ended(DispatcherGone)
      ensures ok ==> peers == if config.enableStealing && old(peers) != [] then old(peers[1..]) else old(peers)
    {
      ok := DrainDeque(First);
      if ok && ShouldSteal(config, deque.inner) {
        TrySteal();
        ok := DrainDeque(AfterSteal);
      }
    }

    /** The scheduler is done: drain whatever remains. */
    method CloseDown()
      requires Valid() && now.control.Receiving?
      modifies this`thefts, this`given, this`refusals, this`sent, this`trace, this`now, deque
      ensures Valid() && now.control.Ended?
    {
      Record(Close);
      var ok := DrainDeque(Last);
    }

    /** The whole loop: it ends, closed by the scheduler or abandoned by the dispatcher. */
    method Run()
      requires Valid() && now.control == Popping(First) && forall i :: 0 <= i < |arrivals| ==> arrivals[i].0 != []
      modifies this, deque
      ensures Valid() && now.control.Ended?
      ensures now.control == Ended(Closed) ==>
                && now.received + now.stolenIn == multiset(sent) + multiset(given) + now.dropped
                && (now.received + now.stolenIn == multiset(sent) + multiset(given) <==>
                   Fit(now.batches, config.capacity))
    {
      var ok := PumpOnce();
      while ok && arrivals != []
        invariant Valid() && if ok then now.control == Receiving else now.control == Ended(DispatcherGone)
        invariant forall i :: 0 <= i < |arrivals| ==> arrivals[i].0 != []
        decreases |arrivals|
      {
        Yield();
        ReceiveAndPrefetch(arrivals[0].0, arrivals[0].1);
        arrivals := arrivals[1..];
        ok := PumpOnce();
      }
      if ok { CloseDown(); }
      if now.control == Ended(Closed) { Conservation(config, trace); }
    }
  }
}
