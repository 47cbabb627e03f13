// Every call gets one answer: a call that returns records exactly one event, of
// its own kind and for its own item, and so the events of a thread answer the
// calls it has started, one by one.
module RingCalls {
  import opened Options
  import opened RingMachine

  datatype Call = EnqueueOf(item: Item) | DequeueCall | PeekCall(idx: nat)

  // The call that a thread is in.
  function InFlight(pc: Pc): Option<Call> {
    match pc
    case Idle => None
    case EnqLoadTail(x) => Some(EnqueueOf(x))
    case EnqLoadSeq(x, _) => Some(EnqueueOf(x))
    case EnqCas(x, _) => Some(EnqueueOf(x))
    case EnqWrite(x, _) => Some(EnqueueOf(x))
    case EnqPublish(x, _) => Some(EnqueueOf(x))
    case DeqLoadHead => Some(DequeueCall)
    case DeqLoadSeq(_) => Some(DequeueCall)
    case DeqCas(_) => Some(DequeueCall)
    case DeqRead(_) => Some(DequeueCall)
    case DeqRelease(_, _) => Some(DequeueCall)
    case PeekLoadHead(idx) => Some(PeekCall(idx))
    case PeekLoadSeq(idx, _) => Some(PeekCall(idx))
    case PeekRead(idx, _) => Some(PeekCall(idx))
  }

  // The call that an action of the scheduler makes.
  function CallOf(a: Action): Option<Call> {
    match a
    case CallEnqueue(x) => Some(EnqueueOf(x))
    case CallDequeue => Some(DequeueCall)
    case CallPeek(idx) => Some(PeekCall(idx))
    case Advance(_) => None
  }

  // What a caller may be told.
  predicate Answers(e: Event, call: Call) {
    match call
    case EnqueueOf(x) => (e.Stored? && e.item == x) || e.Full?
    case DequeueCall => e.Taken? || e.Empty?
    case PeekCall(idx) => (e.Peeked? || e.PeekMissed?) && e.idx == idx
  }

  // ---------------------------------------------------------------- one step

  // A call is answered by the step in which it returns and by no other; until
  // then it stays the same call, and it began with the scheduler's action.
  lemma StepAnswers(s: State, c: Choice)
    requires s.ring.WellFormed() && c.tid < |s.ring.pcs|
    ensures var s' := Next(s, c); var call, call' := InFlight(s.ring.pcs[c.tid]), InFlight(s'.ring.pcs[c.tid]);
            && (if call.Some? && call'.None? then
                  && |s'.hist.events| == |s.hist.events| + 1 && s'.hist.events[..|s.hist.events|] == s.hist.events
                  && var e := s'.hist.events[|s.hist.events|]; e.tid == c.tid && Answers(e, call.value)
                else s'.hist.events == s.hist.events)
            && (call.Some? && call'.Some? ==> call' == call)
            && (call.None? ==> call' == CallOf(c.action))
    ensures forall u | 0 <= u < |s.ring.pcs| && u != c.tid :: Next(s, c).ring.pcs[u] == s.ring.pcs[u]
  {
    hide InFlight, CallOf, Next, Answers;
    StepEvents(s, c);
    StepInFlight(s, c);
  }

  lemma StepEvents(s: State, c: Choice)
    requires s.ring.WellFormed() && c.tid < |s.ring.pcs|
    ensures var s' := Next(s, c); var call, call' := InFlight(s.ring.pcs[c.tid]), InFlight(s'.ring.pcs[c.tid]);
            if call.Some? && call'.None? then
              exists e :: s'.hist.events == s.hist.events + [e] && e.tid == c.tid && Answers(e, call.value)
            else s'.hist.events == s.hist.events
  {
    hide Slot, Ring.SeqAt, Ring.ItemAt;
    var h, h', pc := s.hist, Next(s, c).hist, s.ring.pcs[c.tid];
    var e := if h'.events == h.events then Full(c.tid) else h'.events[|h.events|];
    assert h'.events == h.events || h'.events == h.events + [e];
  }

  lemma StepInFlight(s: State, c: Choice)
    requires s.ring.WellFormed() && c.tid < |s.ring.pcs|
    ensures var call, call' := InFlight(s.ring.pcs[c.tid]), InFlight(Next(s, c).ring.pcs[c.tid]);
            && (call.Some? && call'.Some? ==> call' == call)
            && (call.None? ==> call' == CallOf(c.action))
    ensures forall u | 0 <= u < |s.ring.pcs| && u != c.tid :: Next(s, c).ring.pcs[u] == s.ring.pcs[u]
  {
    hide Slot, Ring.SeqAt, Ring.ItemAt, Record;
  }

  // -------------------------------------------------------------- whole runs

  // The calls that thread t has started in a run: an action of the scheduler
  // starts one when the thread is idle.
  function Started(s: State, choices: seq<Choice>, t: nat): seq<Call>
    requires s.ring.WellFormed() && Schedulable(choices, |s.ring.pcs|) && t < |s.ring.pcs|
  {
    if choices == [] then []
    else
      var before, c := choices[..|choices| - 1], choices[|choices| - 1];
      Started(s, before, t) +
      if c.tid == t && CallOf(c.action).Some? && Run(s, before).ring.pcs[t].Idle? then [CallOf(c.action).value] else []
  }

  // The events of thread t, in order.
  function Told(events: seq<Event>, t: nat): seq<Event> {
    if events == [] then []
    else
      var e := events[|events| - 1];
      Told(events[..|events| - 1], t) + if e.tid == t then [e] else []
  }

  // The events answer the calls in order, and only the call in flight, if there
  // is one, has no answer yet.
  ghost predicate Answered(calls: seq<Call>, events: seq<Event>, call: Option<Call>) {
    && |calls| == |events| + (if call.Some? then 1 else 0)
    && (forall i | 0 <= i < |events| :: Answers(events[i], calls[i]))
    && (call.Some? ==> calls[|events|] == call.value)
  }

  lemma ToldOneMore(events: seq<Event>, e: Event, t: nat)
    ensures Told(events + [e], t) == Told(events, t) + if e.tid == t then [e] else []
  {
    assert (events + [e])[..|events|] == events;
  }

  lemma {:induction false} CallsAreAnswered(cap: nat, threads: nat, choices: seq<Choice>, t: nat)
    requires cap >= 1 && Schedulable(choices, threads) && t < threads
    ensures var s := Run(Start(cap, threads), choices);
            Answered(Started(Start(cap, threads), choices, t), Told(s.hist.events, t), InFlight(s.ring.pcs[t]))
  {
    hide Next, Answers, InFlight, CallOf;
    var s0 := Start(cap, threads);
    if choices == [] {
      IdleIsNoCall();
    } else {
      var n := |choices| - 1;
      CallsAreAnswered(cap, threads, choices[..n], t);
      StepKeepsAnswered(Run(s0, choices[..n]), choices[n], t, Started(s0, choices[..n], t));
    }
  }

  lemma IdleIsNoCall()
    ensures InFlight(Idle) == None
  {
  }

  lemma StepKeepsAnswered(s: State, c: Choice, t: nat, calls: seq<Call>)
    requires s.ring.WellFormed() && c.tid < |s.ring.pcs| && t < |s.ring.pcs|
    requires Answered(calls, Told(s.hist.events, t), InFlight(s.ring.pcs[t]))
    ensures var calls' := calls + if c.tid == t && CallOf(c.action).Some? && s.ring.pcs[t].Idle? then [CallOf(c.action).value] else [];
            Answered(calls', Told(Next(s, c).hist.events, t), InFlight(Next(s, c).ring.pcs[t]))
  {
    hide Next, Answers, CallOf, Told;
    StepAnswers(s, c);
    var s' := Next(s, c);
    if s'.hist.events != s.hist.events {
      var e := s'.hist.events[|s.hist.events|];
      assert s'.hist.events == s.hist.events + [e];
      ToldOneMore(s.hist.events, e, t);
    }
  }
}
