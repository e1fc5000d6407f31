/**
 * The Node batcher: buffered enqueues flushed at a size or by a timer. A flush hands its entries to
 * `enqueueMany`, which may call back into the batcher before it enqueues anything (middleware) and
 * after it enqueued everything (event handlers), or may throw having enqueued nothing.
 */
module Batcher {

  datatype Entry = Entry(args: string, options: string)

  /** One call on the batcher, with what `enqueueMany` will do if the call flushes. */
  datatype Call =
    | Add(entry: Entry, reply: Reply)
    | Flush(reply: Reply)
    | Close(reply: Reply)

  datatype Reply =
    | Rejects(hooks: seq<Call>)
    | Accepts(hooks: seq<Call>, handlers: seq<Call>)

  /** What the event loop sees: a call from outside, or the timer, with what `onError` calls on failure. */
  datatype Event = Outside(call: Call) | Timer(reply: Reply, onError: seq<Call>)

  /**
   * The fields, with a log: entries accepted by `add` and entries enqueued, in order; entries of
   * flushes still waiting for `enqueueMany` to enqueue them; whether a flush inside another's hooks
   * enqueued before it; and how many flushes threw to their caller.
   */
  datatype State = State(
    buffer: seq<Entry>, armed: bool, closed: bool,
    accepted: seq<Entry>, enqueued: seq<Entry>, inFlight: seq<Entry>, overtaken: bool, thrown: nat)

  const START := State([], false, false, [], [], [], false, 0)

  /** Timer off and entries taken out, on their way to `enqueueMany`. */
  function Taken(s: State): State { s.(armed := false, buffer := [], inFlight := s.inFlight + s.buffer) }

  /** After `enqueueMany` enqueued what `s` had buffered. */
  function Enqueued(s: State, waiting: State): State {
    waiting.(enqueued := waiting.enqueued + s.buffer, inFlight := s.inFlight,
             overtaken := waiting.overtaken || s.inFlight != [])
  }

  /** `flush`, and whether it throws. */
  function FlushWith(s: State, max: nat, reply: Reply): (State, bool)
    decreases reply, 0
  {
    if s.buffer == [] then (s.(armed := false), false)
    else
      var waiting := RunCalls(Taken(s), max, reply.hooks);
      match reply
      case Rejects(_) => (waiting.(buffer := s.buffer + waiting.buffer, inFlight := s.inFlight), true)
      case Accepts(_, handlers) => (RunCalls(Enqueued(s, waiting), max, handlers), false)
  }

  function Thrown(r: (State, bool)): State { if r.1 then r.0.(thrown := r.0.thrown + 1) else r.0 }

  function RunCall(s: State, max: nat, call: Call): State
    decreases call, 0
  {
    match call
    case Add(entry, reply) =>
      if s.closed then s
      else
        var pushed := s.(buffer := s.buffer + [entry], accepted := s.accepted + [entry]);
        if |pushed.buffer| >= max then Thrown(FlushWith(pushed, max, reply)) else pushed.(armed := true)
    case Flush(reply) => Thrown(FlushWith(s, max, reply))
    case Close(reply) => if s.closed then s else Thrown(FlushWith(s.(closed := true), max, reply))
  }

  function RunCalls(s: State, max: nat, calls: seq<Call>): State
    decreases calls, 1
  {
    if calls == [] then s else RunCalls(RunCall(s, max, calls[0]), max, calls[1..])
  }

  /** The timer's flush keeps its exception: it is reported, and the timer re-armed. */
  function RunEvent(s: State, max: nat, e: Event): State {
    match e
    case Outside(call) => RunCall(s, max, call)
    case Timer(reply, onError) =>
      if !s.armed then s
      else
        var (after, threw) := FlushWith(s.(armed := false), max, reply);
        if !threw then after
        else
          var reported := RunCalls(after, max, onError);
          if !reported.closed && reported.buffer != [] then reported.(armed := true) else reported
  }

  function RunEvents(s: State, max: nat, events: seq<Event>): State
    decreases events
  {
    if events == [] then s else RunEvents(RunEvent(s, max, events[0]), max, events[1..])
  }

  /** The object: its three fields, and the log the properties speak about. */
  class TaskBatcher {
    const maxSize: nat
    var buffer: seq<Entry>
    var timer: bool
    var isClosed: bool
    ghost var accepted: seq<Entry>
    ghost var enqueued: seq<Entry>
    ghost var inFlight: seq<Entry>
    ghost var overtaken: bool
    ghost var thrown: nat

    constructor (maxSize: nat)
      requires maxSize >= 1
      ensures this.maxSize == maxSize && View() == START
    {
      this.maxSize := maxSize;
      buffer, timer, isClosed := [], false, false;
      accepted, enqueued, inFlight, overtaken, thrown := [], [], [], false, 0;
    }

    ghost function View(): State
      reads this
    {
      State(buffer, timer, isClosed, accepted, enqueued, inFlight, overtaken, thrown)
    }

    method FlushBuffer(reply: Reply) returns (threw: bool)
      modifies this
      ensures (View(), threw) == FlushWith(old(View()), maxSize, reply)
      decreases reply, 0
    {
      timer := false;
      if buffer == [] { return false; }
      var entries := buffer;
      buffer := [];
      ghost var outer := inFlight;
      inFlight := inFlight + entries;
      Reenter(reply.hooks);
      inFlight := outer;
      match reply
      case Rejects(_) =>
        buffer := entries + buffer;
        return true;
      case Accepts(_, handlers) =>
        enqueued, overtaken := enqueued + entries, overtaken || outer != [];
        Reenter(handlers);
        return false;
    }

    method Invoke(call: Call)
      modifies this
      ensures View() == RunCall(old(View()), maxSize, call)
      decreases call, 0
    {
      var threw := false;
      match call
      case Add(entry, reply) =>
        if isClosed { return; }
        buffer := buffer + [entry];
        accepted := accepted + [entry];
        if |buffer| >= maxSize { threw := FlushBuffer(reply); } else { timer := true; }
        if threw { thrown := thrown + 1; }
      case Flush(reply) =>
        threw := FlushBuffer(reply);
        if threw { thrown := thrown + 1; }
      case Close(reply) =>
        if isClosed { return; }
        isClosed := true;
        threw := FlushBuffer(reply);
        if threw { thrown := thrown + 1; }
    }

    /** Calls made from inside `enqueueMany` or `onError`. */
    method Reenter(calls: seq<Call>)
      modifies this
      ensures View() == RunCalls(old(View()), maxSize, calls)
      decreases calls, 1
    {
      for i := 0 to |calls|
        invariant RunCalls(View(), maxSize, calls[i..]) == RunCalls(old(View()), maxSize, calls)
      {
        assert calls[i..][1..] == calls[i + 1..];
        Invoke(calls[i]);
      }
    }

    method FlushOnTimer(reply: Reply, onError: seq<Call>)
      requires timer
      modifies this
      ensures View() == RunEvent(old(View()), maxSize, Timer(reply, onError))
    {
      timer := false;
      var threw := FlushBuffer(reply);
      if threw {
        Reenter(onError);
        if !isClosed && buffer != [] { timer := true; }
      }
    }
  }

  // What every call keeps

  /** Logs only grow, and a call leaves the flushes it interrupted as they were. */
  ghost predicate Extends(s: State, t: State) {
    && s.accepted <= t.accepted && s.enqueued <= t.enqueued && s.inFlight == t.inFlight
    && (s.closed ==> t.closed) && (s.overtaken ==> t.overtaken) && s.thrown <= t.thrown
  }

  /** Unless a flush was overtaken, what `add` accepted is enqueued, in flight and buffered, in that order. */
  ghost predicate InOrder(s: State) { !s.overtaken ==> s.accepted == s.enqueued + (s.inFlight + s.buffer) }

  /** The timer runs only for entries of an open batcher. */
  ghost predicate TimerSound(s: State) { s.armed ==> s.buffer != [] && !s.closed }

  ghost predicate Good(s: State) { InOrder(s) && TimerSound(s) }

  lemma TakenGood(s: State)
    requires InOrder(s)
    ensures Good(Taken(s))
  {
    assert s.inFlight + s.buffer + [] == s.inFlight + s.buffer;
  }

  lemma EnqueuedGood(s: State, waiting: State)
    requires Good(waiting) && waiting.inFlight == s.inFlight + s.buffer
    ensures Good(Enqueued(s, waiting))
  {
    if s.inFlight == [] {
      assert waiting.inFlight == s.buffer;
      assert waiting.enqueued + (s.buffer + waiting.buffer) ==
             (waiting.enqueued + s.buffer) + (s.inFlight + waiting.buffer);
    }
  }

  lemma {:induction false} FlushKeeps(s: State, max: nat, reply: Reply)
    requires InOrder(s)
    ensures Good(FlushWith(s, max, reply).0) && Extends(s, FlushWith(s, max, reply).0)
    decreases reply, 0
  {
    if s.buffer != [] {
      TakenGood(s);
      CallsKeep(Taken(s), max, reply.hooks);
      var waiting := RunCalls(Taken(s), max, reply.hooks);
      if reply.Accepts? {
        EnqueuedGood(s, waiting);
        CallsKeep(Enqueued(s, waiting), max, reply.handlers);
      }
    }
  }

  lemma {:induction false} CallKeeps(s: State, max: nat, call: Call)
    requires Good(s)
    ensures Good(RunCall(s, max, call)) && Extends(s, RunCall(s, max, call))
    decreases call, 0
  {
    match call
    case Add(entry, reply) =>
      if !s.closed {
        var pushed := s.(buffer := s.buffer + [entry], accepted := s.accepted + [entry]);
        assert InOrder(pushed);
        if |pushed.buffer| >= max { FlushKeeps(pushed, max, reply); }
      }
    case Flush(reply) => FlushKeeps(s, max, reply);
    case Close(reply) => if !s.closed { FlushKeeps(s.(closed := true), max, reply); }
  }

  lemma {:induction false} CallsKeep(s: State, max: nat, calls: seq<Call>)
    requires Good(s)
    ensures Good(RunCalls(s, max, calls)) && Extends(s, RunCalls(s, max, calls))
    decreases calls, 1
  {
    if calls != [] {
      CallKeeps(s, max, calls[0]);
      CallsKeep(RunCall(s, max, calls[0]), max, calls[1..]);
    }
  }

  lemma EventKeeps(s: State, max: nat, e: Event)
    requires Good(s)
    ensures Good(RunEvent(s, max, e)) && Extends(s, RunEvent(s, max, e))
  {
    match e
    case Outside(call) => CallKeeps(s, max, call);
    case Timer(reply, onError) =>
      if s.armed {
        FlushKeeps(s.(armed := false), max, reply);
        CallsKeep(FlushWith(s.(armed := false), max, reply).0, max, onError);
      }
  }

  lemma {:induction false} EventsKeep(s: State, max: nat, events: seq<Event>)
    requires Good(s)
    ensures Good(RunEvents(s, max, events)) && Extends(s, RunEvents(s, max, events))
    decreases events
  {
    if events != [] {
      EventKeeps(s, max, events[0]);
      EventsKeep(RunEvent(s, max, events[0]), max, events[1..]);
    }
  }

  // Nothing is lost

  ghost predicate Conserved(s: State, e: Entry) {
    multiset(s.accepted)[e] == multiset(s.enqueued)[e] + multiset(s.inFlight)[e] + multiset(s.buffer)[e]
  }

  lemma TakenConserves(s: State, e: Entry)
    requires Conserved(s, e)
    ensures Conserved(Taken(s), e)
  {
  }

  lemma AddConserves(s: State, entry: Entry, e: Entry)
    requires Good(s) && Conserved(s, e)
    ensures var pushed := s.(buffer := s.buffer + [entry], accepted := s.accepted + [entry]);
            Conserved(pushed, e) && Good(pushed.(armed := false))
  {
  }

  lemma ReturnConserves(s: State, waiting: State, e: Entry)
    requires Conserved(waiting, e) && waiting.inFlight == s.inFlight + s.buffer
    ensures Conserved(waiting.(buffer := s.buffer + waiting.buffer, inFlight := s.inFlight), e)
    ensures Conserved(Enqueued(s, waiting), e)
  {
  }

  lemma {:induction false} FlushConserves(s: State, max: nat, reply: Reply, e: Entry)
    requires Good(s.(armed := false)) && Conserved(s, e)
    ensures Conserved(FlushWith(s, max, reply).0, e)
    decreases reply, 0
  {
    if s.buffer != [] {
      TakenGood(s);
      TakenConserves(s, e);
      CallsConserve(Taken(s), max, reply.hooks, e);
      CallsKeep(Taken(s), max, reply.hooks);
      var waiting := RunCalls(Taken(s), max, reply.hooks);
      ReturnConserves(s, waiting, e);
      EnqueuedGood(s, waiting);
      if reply.Accepts? { CallsConserve(Enqueued(s, waiting), max, reply.handlers, e); }
    }
  }

  lemma {:induction false} CallConserves(s: State, max: nat, call: Call, e: Entry)
    requires Good(s) && Conserved(s, e)
    ensures Conserved(RunCall(s, max, call), e)
    decreases call, 0
  {
    match call
    case Add(entry, reply) =>
      if !s.closed {
        var pushed := s.(buffer := s.buffer + [entry], accepted := s.accepted + [entry]);
        AddConserves(s, entry, e);
        if |pushed.buffer| >= max { FlushConserves(pushed, max, reply, e); }
      }
    case Flush(reply) => FlushConserves(s, max, reply, e);
    case Close(reply) => if !s.closed { FlushConserves(s.(closed := true), max, reply, e); }
  }

  lemma {:induction false} CallsConserve(s: State, max: nat, calls: seq<Call>, e: Entry)
    requires Good(s) && Conserved(s, e)
    ensures Conserved(RunCalls(s, max, calls), e)
    decreases calls, 1
  {
    if calls != [] {
      CallConserves(s, max, calls[0], e);
      CallKeeps(s, max, calls[0]);
      CallsConserve(RunCall(s, max, calls[0]), max, calls[1..], e);
    }
  }

  lemma {:induction false} EventsConserve(s: State, max: nat, events: seq<Event>, e: Entry)
    requires Good(s) && Conserved(s, e)
    ensures Conserved(RunEvents(s, max, events), e)
    decreases events
  {
    if events != [] {
      EventConserves(s, max, events[0], e);
      EventKeeps(s, max, events[0]);
      EventsConserve(RunEvent(s, max, events[0]), max, events[1..], e);
    }
  }

  lemma EventConserves(s: State, max: nat, event: Event, e: Entry)
    requires Good(s) && Conserved(s, e)
    ensures Conserved(RunEvent(s, max, event), e)
  {
    match event
    case Outside(call) => CallConserves(s, max, call, e);
    case Timer(reply, onError) =>
      if s.armed {
        FlushConserves(s.(armed := false), max, reply, e);
        FlushKeeps(s.(armed := false), max, reply);
        CallsConserve(FlushWith(s.(armed := false), max, reply).0, max, onError, e);
      }
  }

  // Stranded entries

  /** Open, holding entries, and nothing scheduled to flush them. */
  predicate Stranded(s: State) { !s.closed && s.buffer != [] && !s.armed }

  lemma {:induction false} FlushStrands(s: State, max: nat, reply: Reply, base: nat)
    requires InOrder(s) && base <= s.thrown
    ensures var (t, threw) := FlushWith(s, max, reply); Stranded(t) ==> threw || t.thrown > base
    decreases reply, 0
  {
    if s.buffer != [] {
      TakenGood(s);
      CallsStrand(Taken(s), max, reply.hooks, base);
      CallsKeep(Taken(s), max, reply.hooks);
      var waiting := RunCalls(Taken(s), max, reply.hooks);
      EnqueuedGood(s, waiting);
      if reply.Accepts? { CallsStrand(Enqueued(s, waiting), max, reply.handlers, base); }
    }
  }

  lemma {:induction false} CallStrands(s: State, max: nat, call: Call, base: nat)
    requires Good(s) && base <= s.thrown
    ensures Stranded(RunCall(s, max, call)) ==> RunCall(s, max, call).thrown > base
    decreases call, 0
  {
    match call
    case Add(entry, reply) =>
      if !s.closed {
        var pushed := s.(buffer := s.buffer + [entry], accepted := s.accepted + [entry]);
        if |pushed.buffer| >= max { FlushStrands(pushed, max, reply, base); FlushKeeps(pushed, max, reply); }
      }
    case Flush(reply) => FlushStrands(s, max, reply, base); FlushKeeps(s, max, reply);
    case Close(reply) => if !s.closed { FlushKeeps(s.(closed := true), max, reply); }
  }

  lemma {:induction false} CallsStrand(s: State, max: nat, calls: seq<Call>, base: nat)
    requires Good(s) && base <= s.thrown && (Stranded(s) ==> s.thrown > base)
    ensures Stranded(RunCalls(s, max, calls)) ==> RunCalls(s, max, calls).thrown > base
    decreases calls, 1
  {
    if calls != [] {
      CallStrands(s, max, calls[0], base);
      CallKeeps(s, max, calls[0]);
      CallsStrand(RunCall(s, max, calls[0]), max, calls[1..], base);
    }
  }

  /** Whatever came before, an event leaves entries stranded only if a flush threw to its caller during it. */
  lemma StrandedOnlyAfterThrow(s: State, max: nat, e: Event)
    requires Good(s) && (e.Timer? ==> s.armed)
    ensures Stranded(RunEvent(s, max, e)) ==> RunEvent(s, max, e).thrown > s.thrown
  {
    match e
    case Outside(call) => CallStrands(s, max, call, s.thrown);
    case Timer(reply, onError) => FlushStrands(s.(armed := false), max, reply, s.thrown);
  }

  // A closed batcher

  /** Nothing taken in: what was buffered is there still, or was enqueued, all of it. */
  ghost predicate Drains(s: State, t: State) {
    && t.closed && t.accepted == s.accepted && t.inFlight == s.inFlight
    && ((t.buffer == s.buffer && t.enqueued == s.enqueued) || (t.buffer == [] && t.enqueued == s.enqueued + s.buffer))
  }

  lemma DrainsAgain(s: State, t: State, u: State)
    requires Drains(s, t) && Drains(t, u)
    ensures Drains(s, u)
  {
    assert t.buffer == [] ==> t.enqueued + t.buffer == t.enqueued;
  }

  lemma {:induction false} ClosedFlush(s: State, max: nat, reply: Reply)
    requires s.closed
    ensures var (t, threw) := FlushWith(s, max, reply);
            && Drains(s, t)
            && (reply.Accepts? ==> t.buffer == [] && !threw)
            && (reply.Rejects? ==> t.buffer == s.buffer && t.enqueued == s.enqueued && threw == (s.buffer != []))
    decreases reply, 0
  {
    if s.buffer == [] {
      assert s.enqueued + s.buffer == s.enqueued;
    } else {
      var taken := Taken(s);
      ClosedCalls(taken, max, reply.hooks);
      var waiting := RunCalls(taken, max, reply.hooks);
      assert waiting.buffer == [] && taken.enqueued + taken.buffer == taken.enqueued;
      if reply.Accepts? {
        var done := Enqueued(s, waiting);
        ClosedCalls(done, max, reply.handlers);
        assert done.enqueued + done.buffer == done.enqueued;
      } else {
        assert s.buffer + waiting.buffer == s.buffer;
      }
    }
  }

  lemma {:induction false} ClosedCall(s: State, max: nat, call: Call)
    requires s.closed
    ensures Drains(s, RunCall(s, max, call))
    decreases call, 0
  {
    match call
    case Flush(reply) => ClosedFlush(s, max, reply);
    case _ =>
  }

  lemma {:induction false} ClosedCalls(s: State, max: nat, calls: seq<Call>)
    requires s.closed
    ensures Drains(s, RunCalls(s, max, calls))
    decreases calls, 1
  {
    if calls != [] {
      ClosedCall(s, max, calls[0]);
      var t := RunCall(s, max, calls[0]);
      ClosedCalls(t, max, calls[1..]);
      DrainsAgain(s, t, RunCalls(t, max, calls[1..]));
    }
  }

  lemma ClosedEvent(s: State, max: nat, e: Event)
    requires s.closed
    ensures Drains(s, RunEvent(s, max, e))
  {
    match e
    case Outside(call) => ClosedCall(s, max, call);
    case Timer(reply, onError) =>
      if s.armed {
        var fired := s.(armed := false);
        ClosedFlush(fired, max, reply);
        var (after, threw) := FlushWith(fired, max, reply);
        if threw {
          ClosedCalls(after, max, onError);
          DrainsAgain(s, after, RunCalls(after, max, onError));
        }
      }
  }

  /** Once closed, a batcher takes nothing in, whatever is called, and only ever enqueues all that was left. */
  lemma {:induction false} ClosedTakesNothing(s: State, max: nat, events: seq<Event>)
    requires s.closed
    ensures Drains(s, RunEvents(s, max, events))
    decreases events
  {
    if events != [] {
      ClosedEvent(s, max, events[0]);
      var t := RunEvent(s, max, events[0]);
      ClosedTakesNothing(t, max, events[1..]);
      DrainsAgain(s, t, RunEvents(t, max, events[1..]));
    }
  }

  /**
   * Closing enqueues everything that is buffered, whatever the callbacks try, or puts it back and throws if
   * `enqueueMany` does; and a later flush that goes through enqueues it after all.
   */
  lemma CloseFlushes(s: State, max: nat, reply: Reply, again: Reply)
    requires !s.closed && again.Accepts?
    ensures var t := RunCall(s, max, Close(reply));
            && t.closed && t.accepted == s.accepted
            && (reply.Accepts? || s.buffer == [] ==> t.buffer == [] && t.enqueued == s.enqueued + s.buffer)
            && (reply.Rejects? ==> t.buffer == s.buffer && t.enqueued == s.enqueued)
            && var u := RunCall(t, max, Flush(again));
               u.buffer == [] && u.accepted == s.accepted && u.enqueued == s.enqueued + s.buffer
  {
    var closing := s.(closed := true);
    ClosedFlush(closing, max, reply);
    var t := RunCall(s, max, Close(reply));
    ClosedFlush(t, max, again);
    assert t.buffer == [] ==> t.enqueued + t.buffer == t.enqueued;
  }

  /** An open batcher accepts every entry added, behind those before it; a closed one stays as it is. */
  lemma AddAccepts(s: State, max: nat, entry: Entry, reply: Reply)
    requires Good(s)
    ensures var t := RunCall(s, max, Add(entry, reply));
            && (s.closed ==> t == s)
            && (!s.closed ==> s.accepted + [entry] <= t.accepted)
            && (!s.closed && |s.buffer| + 1 < max ==> t.buffer == s.buffer + [entry] && t.armed)
  {
    if !s.closed {
      var pushed := s.(buffer := s.buffer + [entry], accepted := s.accepted + [entry]);
      assert InOrder(pushed);
      FlushKeeps(pushed, max, reply);
    }
  }

  // What a flush enqueues

  /** `entries` are enqueued between `s` and `t`, all together and in order. */
  ghost predicate EnqueuesBatch(s: State, entries: seq<Entry>, t: State) {
    exists before: seq<Entry> :: s.enqueued <= before && before + entries <= t.enqueued
  }

  lemma FlushEnqueues(s: State, max: nat, reply: Reply)
    requires InOrder(s) && reply.Accepts?
    ensures EnqueuesBatch(s, s.buffer, FlushWith(s, max, reply).0) && !FlushWith(s, max, reply).1
  {
    if s.buffer == [] {
      assert s.enqueued + s.buffer <= s.enqueued;
    } else {
      TakenGood(s);
      CallsKeep(Taken(s), max, reply.hooks);
      var waiting := RunCalls(Taken(s), max, reply.hooks);
      EnqueuedGood(s, waiting);
      CallsKeep(Enqueued(s, waiting), max, reply.handlers);
      assert waiting.enqueued + s.buffer <= FlushWith(s, max, reply).0.enqueued;
    }
  }

  /** What the event would flush: nothing, what is buffered, or that with the entry it adds. */
  function Due(s: State, max: nat, e: Event): seq<Entry> {
    match e
    case Timer(_, _) => if s.armed then s.buffer else []
    case Outside(Add(entry, _)) => if s.closed || |s.buffer| + 1 < max then [] else s.buffer + [entry]
    case Outside(Flush(_)) => s.buffer
    case Outside(Close(_)) => if s.closed then [] else s.buffer
  }

  function ReplyOf(e: Event): Reply { if e.Timer? then e.reply else e.call.reply }

  /**
   * The timer, a flush, a close and the add that fills the buffer all enqueue the whole buffer, as one batch,
   * if `enqueueMany` accepts it; an add, flush or close it rejects leaves the batch in front of the buffer.
   */
  lemma WhatFlushes(s: State, max: nat, e: Event)
    requires Good(s)
    ensures ReplyOf(e).Accepts? ==> EnqueuesBatch(s, Due(s, max, e), RunEvent(s, max, e))
    ensures ReplyOf(e).Rejects? && e.Outside? && Due(s, max, e) != [] ==>
              Due(s, max, e) <= RunEvent(s, max, e).buffer && RunEvent(s, max, e).thrown > s.thrown
  {
    var ready := Flushing(s, max, e);
    EventKeeps(s, max, e);
    if Due(s, max, e) == [] {
      assert s.enqueued + [] <= RunEvent(s, max, e).enqueued;
    } else if ReplyOf(e).Accepts? {
      FlushEnqueues(ready, max, ReplyOf(e));
      SameStart(s, ready, Due(s, max, e), RunEvent(s, max, e));
    } else {
      FlushKeeps(ready, max, ReplyOf(e));
    }
  }

  /** The state in which the event's flush starts. */
  function Flushing(s: State, max: nat, e: Event): (t: State)
    ensures t.enqueued == s.enqueued && t.thrown == s.thrown && (Good(s) ==> InOrder(t))
    ensures Due(s, max, e) != [] ==> t.buffer == Due(s, max, e)
  {
    match e
    case Timer(_, _) => s.(armed := false)
    case Outside(Add(entry, _)) => s.(buffer := s.buffer + [entry], accepted := s.accepted + [entry])
    case Outside(Flush(_)) => s
    case Outside(Close(_)) => s.(closed := true)
  }

  lemma SameStart(s: State, ready: State, entries: seq<Entry>, t: State)
    requires ready.enqueued == s.enqueued && EnqueuesBatch(ready, entries, t)
    ensures EnqueuesBatch(s, entries, t)
  {
  }

  // The size limit

  /** No flush inside is rejected. */
  predicate GoesThrough(reply: Reply)
    decreases reply, 0
  {
    reply.Accepts? && AllGoThrough(reply.hooks) && AllGoThrough(reply.handlers)
  }

  predicate AllGoThrough(calls: seq<Call>)
    decreases calls, 1
  {
    calls == [] || (CallGoesThrough(calls[0]) && AllGoThrough(calls[1..]))
  }

  predicate CallGoesThrough(call: Call)
    decreases call, 0
  {
    GoesThrough(call.reply)
  }

  lemma {:induction false} FlushBounded(s: State, max: nat, reply: Reply)
    requires max >= 1 && GoesThrough(reply)
    ensures |FlushWith(s, max, reply).0.buffer| < max && !FlushWith(s, max, reply).1
    decreases reply, 0
  {
    if s.buffer != [] {
      CallsBounded(Taken(s), max, reply.hooks);
      CallsBounded(Enqueued(s, RunCalls(Taken(s), max, reply.hooks)), max, reply.handlers);
    }
  }

  lemma {:induction false} CallBounded(s: State, max: nat, call: Call)
    requires max >= 1 && |s.buffer| < max && CallGoesThrough(call)
    ensures |RunCall(s, max, call).buffer| < max
    decreases call, 0
  {
    match call
    case Add(entry, reply) =>
      FlushBounded(s.(buffer := s.buffer + [entry], accepted := s.accepted + [entry]), max, reply);
    case Flush(reply) => FlushBounded(s, max, reply);
    case Close(reply) => FlushBounded(s.(closed := true), max, reply);
  }

  lemma {:induction false} CallsBounded(s: State, max: nat, calls: seq<Call>)
    requires max >= 1 && |s.buffer| < max && AllGoThrough(calls)
    ensures |RunCalls(s, max, calls).buffer| < max
    decreases calls, 1
  {
    if calls != [] {
      CallBounded(s, max, calls[0]);
      CallsBounded(RunCall(s, max, calls[0]), max, calls[1..]);
    }
  }

  predicate EventGoesThrough(e: Event) {
    match e
    case Outside(call) => CallGoesThrough(call)
    case Timer(reply, _) => GoesThrough(reply)
  }

  /** While `enqueueMany` accepts, no event leaves a full buffer behind, re-entrant calls or not. */
  lemma {:induction false} BufferBounded(s: State, max: nat, events: seq<Event>)
    requires max >= 1 && |s.buffer| < max && forall i :: 0 <= i < |events| ==> EventGoesThrough(events[i])
    ensures |RunEvents(s, max, events).buffer| < max
    decreases events
  {
    if events != [] {
      match events[0] {
        case Outside(call) => CallBounded(s, max, call);
        case Timer(reply, onError) => FlushBounded(s.(armed := false), max, reply);
      }
      BufferBounded(RunEvent(s, max, events[0]), max, events[1..]);
    }
  }

  // Submission order

  ghost predicate Distinct(entries: seq<Entry>) {
    forall i, j :: 0 <= i < j < |entries| ==> entries[i] != entries[j]
  }

  /** Entry `i` was accepted before entry `j`, but `j` was enqueued, at `p`, when `i` was not. */
  ghost predicate Overtook(s: State, i: nat, j: nat, p: nat) {
    i < j < |s.accepted| && p < |s.enqueued| && s.enqueued[p] == s.accepted[j] && s.accepted[i] !in s.enqueued[..p]
  }

  ghost predicate Misordered(s: State) { exists i: nat, j: nat, p: nat :: Overtook(s, i, j, p) }

  lemma StaysMisordered(s: State, t: State)
    requires Misordered(s) && Extends(s, t.(inFlight := s.inFlight))
    ensures Misordered(t)
  {
    var i: nat, j: nat, p: nat :| Overtook(s, i, j, p);
    assert t.enqueued[..p] == s.enqueued[..p];
    assert Overtook(t, i, j, p);
  }

  lemma OvertakingMisorders(waiting: State, before: seq<Entry>, entries: seq<Entry>, done: State)
    requires waiting.accepted == waiting.enqueued + (waiting.inFlight + waiting.buffer) && Distinct(waiting.accepted)
    requires waiting.inFlight == before + entries && before != [] && entries != []
    requires done.accepted == waiting.accepted && done.enqueued == waiting.enqueued + entries
    ensures Misordered(done)
  {
    var n := |waiting.enqueued|;
    assert waiting.accepted[n] == before[0] && waiting.accepted[n + |before|] == entries[0];
    assert done.enqueued[..n] == waiting.enqueued;
    assert forall k :: 0 <= k < n ==> waiting.accepted[k] == waiting.enqueued[k];
    assert Overtook(done, n, n + |before|, n);
  }

  /** Overtaking shows, as long as entries can be told apart. */
  ghost predicate Shows(s: State) { Distinct(s.accepted) && s.overtaken ==> Misordered(s) }

  lemma DistinctPrefix(a: seq<Entry>, b: seq<Entry>)
    requires a <= b && Distinct(b)
    ensures Distinct(a)
  {
    assert forall i :: 0 <= i < |a| ==> a[i] == b[i];
  }

  lemma {:induction false} FlushShows(s: State, max: nat, reply: Reply)
    requires InOrder(s) && Shows(s)
    ensures Shows(FlushWith(s, max, reply).0)
    decreases reply, 0
  {
    if s.buffer == [] {
      SameLogsShow(s, s.(armed := false));
    } else {
      var taken := Taken(s);
      assert s.overtaken && Distinct(s.accepted) ==> Misordered(taken) by {
        if s.overtaken && Distinct(s.accepted) { StaysMisordered(s, taken); }
      }
      CallsShow(taken, max, reply.hooks);
      CallsKeep(taken, max, reply.hooks);
      var waiting := RunCalls(taken, max, reply.hooks);
      var t := FlushWith(s, max, reply).0;
      if reply.Rejects? {
        if waiting.overtaken && Distinct(waiting.accepted) { StaysMisordered(waiting, t); }
      } else {
        var done := Enqueued(s, waiting);
        EnqueueShows(s, waiting, done);
        CallsShow(done, max, reply.handlers);
      }
    }
  }

  lemma EnqueueShows(s: State, waiting: State, done: State)
    requires InOrder(waiting) && Shows(waiting) && waiting.inFlight == s.inFlight + s.buffer && s.buffer != []
    requires done == Enqueued(s, waiting)
    ensures Shows(done)
  {
    if done.overtaken && Distinct(done.accepted) {
      if waiting.overtaken { StaysMisordered(waiting, done); }
      else { OvertakingMisorders(waiting, s.inFlight, s.buffer, done); }
    }
  }

  lemma {:induction false} CallShows(s: State, max: nat, call: Call)
    requires Good(s) && Shows(s)
    ensures Shows(RunCall(s, max, call))
    decreases call, 0
  {
    match call
    case Add(entry, reply) =>
      if !s.closed {
        var pushed := s.(buffer := s.buffer + [entry], accepted := s.accepted + [entry]);
        AddShows(s, pushed);
        if |pushed.buffer| >= max {
          FlushShows(pushed, max, reply);
          ThrownShows(FlushWith(pushed, max, reply));
        } else {
          SameLogsShow(pushed, pushed.(armed := true));
        }
      }
    case Flush(reply) =>
      FlushShows(s, max, reply);
      ThrownShows(FlushWith(s, max, reply));
    case Close(reply) =>
      if !s.closed {
        SameLogsShow(s, s.(closed := true));
        FlushShows(s.(closed := true), max, reply);
        ThrownShows(FlushWith(s.(closed := true), max, reply));
      }
  }

  lemma AddShows(s: State, pushed: State)
    requires Shows(s) && s.accepted <= pushed.accepted && s.enqueued == pushed.enqueued &&
             s.overtaken == pushed.overtaken
    ensures Shows(pushed)
  {
    if Distinct(pushed.accepted) && s.overtaken {
      DistinctPrefix(s.accepted, pushed.accepted);
      var i: nat, j: nat, p: nat :| Overtook(s, i, j, p);
      assert Overtook(pushed, i, j, p);
    }
  }

  lemma SameLogsShow(s: State, t: State)
    requires Shows(s) && s.accepted == t.accepted && s.enqueued == t.enqueued && s.overtaken == t.overtaken
    ensures Shows(t)
  {
    AddShows(s, t);
  }

  lemma ThrownShows(r: (State, bool))
    requires Shows(r.0)
    ensures Shows(Thrown(r))
  {
    SameLogsShow(r.0, Thrown(r));
  }

  lemma {:induction false} CallsShow(s: State, max: nat, calls: seq<Call>)
    requires Good(s) && Shows(s)
    ensures Shows(RunCalls(s, max, calls))
    decreases calls, 1
  {
    if calls != [] {
      CallShows(s, max, calls[0]);
      CallKeeps(s, max, calls[0]);
      CallsShow(RunCall(s, max, calls[0]), max, calls[1..]);
    }
  }

  lemma EventShows(s: State, max: nat, e: Event)
    requires Good(s) && Shows(s)
    ensures Shows(RunEvent(s, max, e))
  {
    match e
    case Outside(call) => CallShows(s, max, call);
    case Timer(reply, onError) =>
      if s.armed {
        var fired := s.(armed := false);
        SameLogsShow(s, fired);
        FlushShows(fired, max, reply);
        FlushKeeps(fired, max, reply);
        var (after, threw) := FlushWith(fired, max, reply);
        if threw {
          CallsShow(after, max, onError);
          SameLogsShow(RunCalls(after, max, onError), RunEvent(s, max, e));
        }
      }
  }

  lemma {:induction false} EventsShow(s: State, max: nat, events: seq<Event>)
    requires Good(s) && Shows(s)
    ensures Shows(RunEvents(s, max, events))
    decreases events
  {
    if events != [] {
      EventShows(s, max, events[0]);
      EventKeeps(s, max, events[0]);
      EventsShow(RunEvent(s, max, events[0]), max, events[1..]);
    }
  }

  lemma OvertakenIsMisordered(s: State)
    requires Misordered(s) && Distinct(s.accepted)
    ensures s.accepted != s.enqueued + s.buffer
  {
    var i: nat, j: nat, p: nat :| Overtook(s, i, j, p);
    var order := s.enqueued + s.buffer;
    assert order[p] == s.accepted[j];
    assert i < p ==> order[i] == s.enqueued[..p][i];
  }

  // The flushes of a run, each with the state it starts from

  datatype FlushPoint = FlushPoint(before: State, reply: Reply)

  /** The flush enqueues a batch while another flush is still waiting to enqueue an earlier one. */
  predicate Overtakes(f: FlushPoint) { f.reply.Accepts? && f.before.inFlight != [] && f.before.buffer != [] }

  ghost predicate AnyOvertakes(flushes: seq<FlushPoint>) { exists i :: 0 <= i < |flushes| && Overtakes(flushes[i]) }

  function FlushesOfFlush(s: State, max: nat, reply: Reply): seq<FlushPoint>
    decreases reply, 0
  {
    [FlushPoint(s, reply)] +
    (if s.buffer == [] then []
     else
       var inHooks := FlushesOfCalls(Taken(s), max, reply.hooks);
       match reply
       case Rejects(_) => inHooks
       case Accepts(hooks, handlers) =>
         inHooks + FlushesOfCalls(Enqueued(s, RunCalls(Taken(s), max, hooks)), max, handlers))
  }

  function FlushesOfCall(s: State, max: nat, call: Call): seq<FlushPoint>
    decreases call, 0
  {
    match call
    case Add(entry, reply) =>
      var pushed := s.(buffer := s.buffer + [entry], accepted := s.accepted + [entry]);
      if s.closed || |pushed.buffer| < max then [] else FlushesOfFlush(pushed, max, reply)
    case Flush(reply) => FlushesOfFlush(s, max, reply)
    case Close(reply) => if s.closed then [] else FlushesOfFlush(s.(closed := true), max, reply)
  }

  function FlushesOfCalls(s: State, max: nat, calls: seq<Call>): seq<FlushPoint>
    decreases calls, 1
  {
    if calls == [] then []
    else FlushesOfCall(s, max, calls[0]) + FlushesOfCalls(RunCall(s, max, calls[0]), max, calls[1..])
  }

  function FlushesOfEvent(s: State, max: nat, e: Event): seq<FlushPoint> {
    match e
    case Outside(call) => FlushesOfCall(s, max, call)
    case Timer(reply, onError) =>
      if !s.armed then []
      else
        var fired := s.(armed := false);
        var (after, threw) := FlushWith(fired, max, reply);
        FlushesOfFlush(fired, max, reply) + if threw then FlushesOfCalls(after, max, onError) else []
  }

  /** Every flush of a run, in the order they start. */
  function Flushes(s: State, max: nat, events: seq<Event>): seq<FlushPoint>
    decreases events
  {
    if events == [] then []
    else FlushesOfEvent(s, max, events[0]) + Flushes(RunEvent(s, max, events[0]), max, events[1..])
  }

  lemma AnyOfConcat(a: seq<FlushPoint>, b: seq<FlushPoint>)
    ensures AnyOvertakes(a + b) <==> AnyOvertakes(a) || AnyOvertakes(b)
  {
    if i :| 0 <= i < |a| && Overtakes(a[i]) { assert (a + b)[i] == a[i]; }
    if i :| 0 <= i < |b| && Overtakes(b[i]) { assert (a + b)[|a| + i] == b[i]; }
  }

  lemma AnyOfOne(f: FlushPoint)
    ensures AnyOvertakes([f]) <==> Overtakes(f)
  {
    assert [f][0] == f;
  }

  lemma {:induction false} FlushOvertakesIff(s: State, max: nat, reply: Reply)
    ensures FlushWith(s, max, reply).0.overtaken <==> s.overtaken || AnyOvertakes(FlushesOfFlush(s, max, reply))
    decreases reply, 0
  {
    AnyOfOne(FlushPoint(s, reply));
    if s.buffer == [] {
      assert FlushesOfFlush(s, max, reply) == [FlushPoint(s, reply)];
    } else {
      CallsOvertakeIff(Taken(s), max, reply.hooks);
      var inHooks := FlushesOfCalls(Taken(s), max, reply.hooks);
      if reply.Rejects? {
        AnyOfConcat([FlushPoint(s, reply)], inHooks);
      } else {
        var done := Enqueued(s, RunCalls(Taken(s), max, reply.hooks));
        CallsOvertakeIff(done, max, reply.handlers);
        var after := FlushesOfCalls(done, max, reply.handlers);
        AnyOfConcat(inHooks, after);
        AnyOfConcat([FlushPoint(s, reply)], inHooks + after);
      }
    }
  }

  lemma {:induction false} CallOvertakesIff(s: State, max: nat, call: Call)
    ensures RunCall(s, max, call).overtaken <==> s.overtaken || AnyOvertakes(FlushesOfCall(s, max, call))
    decreases call, 0
  {
    match call
    case Add(entry, reply) =>
      FlushOvertakesIff(s.(buffer := s.buffer + [entry], accepted := s.accepted + [entry]), max, reply);
    case Flush(reply) => FlushOvertakesIff(s, max, reply);
    case Close(reply) => FlushOvertakesIff(s.(closed := true), max, reply);
  }

  lemma {:induction false} CallsOvertakeIff(s: State, max: nat, calls: seq<Call>)
    ensures RunCalls(s, max, calls).overtaken <==> s.overtaken || AnyOvertakes(FlushesOfCalls(s, max, calls))
    decreases calls, 1
  {
    if calls != [] {
      CallOvertakesIff(s, max, calls[0]);
      var next := RunCall(s, max, calls[0]);
      CallsOvertakeIff(next, max, calls[1..]);
      AnyOfConcat(FlushesOfCall(s, max, calls[0]), FlushesOfCalls(next, max, calls[1..]));
    }
  }

  lemma EventOvertakesIff(s: State, max: nat, e: Event)
    ensures RunEvent(s, max, e).overtaken <==> s.overtaken || AnyOvertakes(FlushesOfEvent(s, max, e))
  {
    match e
    case Outside(call) => CallOvertakesIff(s, max, call);
    case Timer(reply, onError) =>
      if s.armed {
        var fired := s.(armed := false);
        FlushOvertakesIff(fired, max, reply);
        var (after, threw) := FlushWith(fired, max, reply);
        CallsOvertakeIff(after, max, onError);
        AnyOfConcat(FlushesOfFlush(fired, max, reply), if threw then FlushesOfCalls(after, max, onError) else []);
      }
  }

  lemma {:induction false} EventsOvertakeIff(s: State, max: nat, events: seq<Event>)
    ensures RunEvents(s, max, events).overtaken <==> s.overtaken || AnyOvertakes(Flushes(s, max, events))
    decreases events
  {
    if events != [] {
      EventOvertakesIff(s, max, events[0]);
      var next := RunEvent(s, max, events[0]);
      EventsOvertakeIff(next, max, events[1..]);
      AnyOfConcat(FlushesOfEvent(s, max, events[0]), Flushes(next, max, events[1..]));
    }
  }

  /** Over every run, each accepted entry is enqueued or buffered, exactly once. */
  lemma NothingLost(max: nat, events: seq<Event>)
    ensures var s := RunEvents(START, max, events);
            multiset(s.accepted) == multiset(s.enqueued) + multiset(s.buffer)
  {
    var s := RunEvents(START, max, events);
    EventsKeep(START, max, events);
    forall e: Entry ensures multiset(s.accepted)[e] == (multiset(s.enqueued) + multiset(s.buffer))[e] {
      EventsConserve(START, max, events, e);
    }
  }

  /**
   * Over every run an armed timer has entries to flush, and entries that can be told apart are enqueued
   * and buffered in the order `add` accepted them if and only if no flush of the run starts, with entries
   * to enqueue and a batch of an outer flush still waiting, and goes through.
   */
  lemma SubmissionOrder(max: nat, events: seq<Event>)
    ensures var s, overtaken := RunEvents(START, max, events), AnyOvertakes(Flushes(START, max, events));
            && (s.armed ==> s.buffer != [] && !s.closed)
            && (!overtaken ==> s.accepted == s.enqueued + s.buffer)
            && (Distinct(s.accepted) ==> (s.accepted == s.enqueued + s.buffer <==> !overtaken))
  {
    var s := RunEvents(START, max, events);
    EventsKeep(START, max, events);
    EventsShow(START, max, events);
    EventsOvertakeIff(START, max, events);
    assert s.inFlight + s.buffer == s.buffer;
    if Distinct(s.accepted) && s.overtaken { OvertakenIsMisordered(s); }
  }

  // Hooks that leave the batcher alone

  /** A call that makes no calls before enqueueing, anywhere inside it. */
  predicate HooksAreQuiet(call: Call)
    decreases call, 0
  {
    QuietReply(call.reply)
  }

  predicate QuietReply(reply: Reply)
    decreases reply, 0
  {
    reply.hooks == [] && (reply.Accepts? ==> QuietCalls(reply.handlers))
  }

  predicate QuietCalls(calls: seq<Call>)
    decreases calls, 1
  {
    calls == [] || (HooksAreQuiet(calls[0]) && QuietCalls(calls[1..]))
  }

  predicate QuietEvent(e: Event) {
    match e
    case Outside(call) => HooksAreQuiet(call)
    case Timer(reply, onError) => QuietReply(reply) && QuietCalls(onError)
  }

  predicate Settled(s: State) { s.inFlight == [] && !s.overtaken }

  lemma {:induction false} QuietFlush(s: State, max: nat, reply: Reply)
    requires Settled(s) && QuietReply(reply)
    ensures Settled(FlushWith(s, max, reply).0)
    decreases reply, 0
  {
    if s.buffer != [] && reply.Accepts? {
      var taken := Taken(s);
      assert RunCalls(taken, max, reply.hooks) == taken;
      QuietCallsSettle(taken.(enqueued := taken.enqueued + s.buffer, inFlight := []), max, reply.handlers);
    }
  }

  lemma {:induction false} QuietCallsSettle(s: State, max: nat, calls: seq<Call>)
    requires Settled(s) && QuietCalls(calls)
    ensures Settled(RunCalls(s, max, calls))
    decreases calls, 1
  {
    if calls != [] {
      QuietCallSettles(s, max, calls[0]);
      QuietCallsSettle(RunCall(s, max, calls[0]), max, calls[1..]);
    }
  }

  lemma {:induction false} QuietCallSettles(s: State, max: nat, call: Call)
    requires Settled(s) && HooksAreQuiet(call)
    ensures Settled(RunCall(s, max, call))
    decreases call, 0
  {
    match call
    case Add(entry, reply) =>
      QuietFlush(s.(buffer := s.buffer + [entry], accepted := s.accepted + [entry]), max, reply);
    case Flush(reply) => QuietFlush(s, max, reply);
    case Close(reply) => QuietFlush(s.(closed := true), max, reply);
  }

  lemma {:induction false} QuietEventsSettle(s: State, max: nat, events: seq<Event>)
    requires Settled(s) && forall i :: 0 <= i < |events| ==> QuietEvent(events[i])
    ensures Settled(RunEvents(s, max, events))
    decreases events
  {
    if events != [] {
      match events[0] {
        case Outside(call) => QuietCallSettles(s, max, call);
        case Timer(reply, onError) =>
          QuietFlush(s.(armed := false), max, reply);
          QuietCallsSettle(FlushWith(s.(armed := false), max, reply).0, max, onError);
      }
      QuietEventsSettle(RunEvent(s, max, events[0]), max, events[1..]);
    }
  }

  /** With `enqueueMany` calling back only after it enqueued, submission order always holds. */
  lemma OrderUnderQuietHooks(max: nat, events: seq<Event>)
    requires forall i :: 0 <= i < |events| ==> QuietEvent(events[i])
    ensures var s := RunEvents(START, max, events); s.accepted == s.enqueued + s.buffer
  {
    QuietEventsSettle(START, max, events);
    EventsOvertakeIff(START, max, events);
    SubmissionOrder(max, events);
  }

  /** Middleware that fills the buffer again while its own batch waits gets its entries enqueued first. */
  lemma HooksCanOvertake(a: Entry, b: Entry)
    requires a != b
    ensures var ok := Accepts([], []);
            var s := RunEvents(START, 1, [Outside(Add(a, Accepts([Add(b, ok)], [])))]);
            s.accepted == [a, b] && s.enqueued == [b, a] && s.buffer == []
  {
    var ok := Accepts([], []);
    var outer := Accepts([Add(b, ok)], []);
    var taken := State([], false, false, [a], [], [a], false, 0);
    var full := taken.(buffer := [b], accepted := [a, b]);
    var inner := State([], false, false, [a, b], [b], [a], true, 0);
    var held := full.(armed := false, buffer := [], inFlight := full.inFlight + full.buffer);
    assert RunCalls(held, 1, ok.hooks) == held;
    assert held.enqueued + full.buffer == [b];
    assert RunCalls(inner, 1, ok.handlers) == inner;
    assert FlushWith(full, 1, ok) == (inner, false);
    assert RunCall(taken, 1, Add(b, ok)) == inner;
    assert outer.hooks[1..] == [];
    assert RunCalls(taken, 1, outer.hooks) == RunCalls(inner, 1, []) == inner;
    var pushed := START.(buffer := [a], accepted := [a]);
    var end := State([], false, false, [a, b], [b] + [a], [], true, 0);
    assert pushed.inFlight + pushed.buffer == [a];
    assert RunCalls(end, 1, outer.handlers) == end;
    assert FlushWith(pushed, 1, outer) == (end, false);
    assert START.buffer + [a] == [a] && START.accepted + [a] == [a];
    assert RunCall(START, 1, Add(a, outer)) == end;
    var events := [Outside(Add(a, outer))];
    assert events[1..] == [];
    assert RunEvents(START, 1, events) == RunEvents(end, 1, []) == end;
  }
}
