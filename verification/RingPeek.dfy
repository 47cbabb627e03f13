// Peeking with one consumer and any number of producers: a successful
// peek_at(idx) foretells the (idx + 1)-th dequeue that follows it.
module RingPeek {
  import opened RingMachine
  import opened RingInvariant

  ghost predicate Consuming(pc: Pc) {
    || pc.DeqLoadHead? || pc.DeqLoadSeq? || pc.DeqCas? || pc.DeqRead? || pc.DeqRelease?
    || pc.PeekLoadHead? || pc.PeekLoadSeq? || pc.PeekRead?
  }

  // Only thread k dequeues and peeks.
  ghost predicate SoleConsumer(choices: seq<Choice>, k: nat) {
    forall i | 0 <= i < |choices| :: (choices[i].action.CallDequeue? || choices[i].action.CallPeek?) ==> choices[i].tid == k
  }

  // The number of dequeues that have returned an item.
  function Takes(events: seq<Event>): nat {
    if events == [] then 0
    else Takes(events[..|events| - 1]) + if events[|events| - 1].Taken? then 1 else 0
  }

  lemma TakesAppend(events: seq<Event>, e: Event)
    ensures Takes(events + [e]) == Takes(events) + if e.Taken? then 1 else 0
    ensures forall i | 0 <= i <= |events| :: (events + [e])[..i] == events[..i]
  {
    assert (events + [e])[..|events|] == events;
  }

  // An event is in order when the dequeues before it fix which position it is about.
  ghost predicate InOrder(events: seq<Event>, i: nat, log: seq<Item>)
    requires i < |events|
  {
    match events[i]
    case Taken(_, x, p) => p == Takes(events[..i]) && p < |log| && x == log[p]
    case Peeked(_, x, idx) => Takes(events[..i]) + idx < |log| && x == log[Takes(events[..i]) + idx]
    case _ => true
  }

  ghost predicate AllInOrder(events: seq<Event>, log: seq<Item>) {
    forall i: nat {:trigger events[i]} | i < |events| :: InOrder(events, i, log)
  }

  // What a peeking consumer knows: nobody else moves the head.
  ghost predicate PeekOk(r: Ring, h: Hist, pc: Pc)
    requires Shape(r, h)
  {
    match pc
    case PeekLoadSeq(idx, p) => p == r.head + idx
    case PeekRead(idx, p) => p == r.head + idx && p < r.tail && p !in h.storing
    case _ => true
  }

  ghost predicate ConsumerInv(s: State, k: nat) {
    && Inv(s)
    && (forall t: nat {:trigger s.ring.pcs[t]} | t < |s.ring.pcs| && t != k :: !Consuming(s.ring.pcs[t]))
    && k < |s.ring.pcs|
    && PeekOk(s.ring, s.hist, s.ring.pcs[k])
    && Takes(s.hist.events) + (if s.ring.pcs[k].DeqRead? || s.ring.pcs[k].DeqRelease? then 1 else 0) == s.ring.head
    && (s.ring.pcs[k].DeqRead? || s.ring.pcs[k].DeqRelease? ==> s.ring.pcs[k].pos + 1 == s.ring.head)
    && AllInOrder(s.hist.events, s.hist.log)
  }

  // A slot that reads "published" for a position ahead of the head holds that
  // position, however far ahead the caller asked.
  lemma PublishedAhead(s: State, p: nat)
    requires Inv(s) && s.ring.head <= p && s.ring.SeqAt(p) == p + 1
    ensures p < s.ring.tail && p !in s.hist.storing
  {
    var r := s.ring;
    if p >= r.head + r.cap {
      BelowAhead(s, p);
    } else {
      SlotFacts(s, p);
    }
  }

  lemma {:induction false} BelowAhead(s: State, p: nat)
    requires Inv(s) && s.ring.head + s.ring.cap <= p
    ensures s.ring.SeqAt(p) < p
    decreases p
  {
    var r := s.ring;
    LapBefore(r, p - r.cap);
    if p - r.cap >= r.head + r.cap {
      BelowAhead(s, p - r.cap);
    } else {
      SlotFacts(s, p - r.cap);
    }
  }

  // Events stay in order when the log grows and one more event is recorded.
  lemma OrderGrows(events: seq<Event>, log: seq<Item>, log': seq<Item>, e: Event)
    requires AllInOrder(events, log) && log <= log'
    ensures AllInOrder(events, log')
    ensures InOrder(events + [e], |events|, log') ==> AllInOrder(events + [e], log')
    ensures Takes(events + [e]) == Takes(events) + if e.Taken? then 1 else 0
  {
    hide Takes;
    TakesAppend(events, e);
    forall i: nat | i < |events| ensures InOrder(events, i, log') && InOrder(events + [e], i, log') {
      assert InOrder(events, i, log);
      assert (events + [e])[i] == events[i];
    }
  }

  // The event that a thread's current step records, if it records one.
  ghost function EventOf(s: State, t: nat): Event
    requires Inv(s) && t < |s.ring.pcs|
  {
    match s.ring.pcs[t]
    case EnqPublish(x, p) => Stored(t, x, p)
    case DeqRelease(p, got) => Taken(t, got, p)
    case DeqLoadSeq(_) => Empty(t)
    case PeekLoadSeq(idx, _) => PeekMissed(t, idx)
    case PeekRead(idx, p) => Peeked(t, s.ring.ItemAt(p), idx)
    case _ => Full(t)
  }

  // What a step by t does to the history, seen by everybody else.
  lemma StepSummary(s: State, c: Choice)
    requires Inv(s) && c.tid < |s.ring.pcs|
    ensures var h, h' := s.hist, Next(s, c).hist;
            && h.log <= h'.log
            && (h'.events == h.events || h'.events == h.events + [EventOf(s, c.tid)])
    ensures forall p: nat | p < s.ring.tail && p !in s.hist.storing :: p !in Next(s, c).hist.storing
    ensures s.ring.tail <= Next(s, c).ring.tail
    ensures !Consuming(s.ring.pcs[c.tid]) ==> Next(s, c).ring.head == s.ring.head
  {
    hide Inv, Slot, Ring.SeqAt, Ring.ItemAt;
  }

  // A step of another thread.
  lemma OtherKeepsConsumerInv(s: State, c: Choice, k: nat)
    requires ConsumerInv(s, k) && c.tid < |s.ring.pcs| && c.tid != k
    requires !c.action.CallDequeue? && !c.action.CallPeek?
    ensures ConsumerInv(Next(s, c), k)
  {
    hide SlotsOk, ClaimsOk, ThreadsOk, Next, Takes, InOrder, AllInOrder, EventOf;
    NextKeepsInv(s, c);
    StepSummary(s, c);
    var s' := Next(s, c);
    var e := EventOf(s, c.tid);
    OrderGrows(s.hist.events, s.hist.log, s'.hist.log, e);
    assert !Consuming(s.ring.pcs[c.tid]);
    ProducersTellNothing(s, c.tid);
    NotAboutDequeue(s.hist.events, e, s'.hist.log);
    ProducersDoNotConsume(s, c);
  }

  lemma ProducersTellNothing(s: State, t: nat)
    requires Inv(s) && t < |s.ring.pcs| && !Consuming(s.ring.pcs[t])
    ensures !EventOf(s, t).Taken? && !EventOf(s, t).Peeked?
  {
    hide Inv;
  }

  lemma NotAboutDequeue(events: seq<Event>, e: Event, log: seq<Item>)
    requires !e.Taken? && !e.Peeked?
    ensures InOrder(events + [e], |events|, log)
  {
  }

  lemma ProducersDoNotConsume(s: State, c: Choice)
    requires Inv(s) && c.tid < |s.ring.pcs| && !Consuming(s.ring.pcs[c.tid])
    requires !c.action.CallDequeue? && !c.action.CallPeek?
    ensures !Consuming(Next(s, c).ring.pcs[c.tid])
    ensures forall t | 0 <= t < |s.ring.pcs| && t != c.tid :: Next(s, c).ring.pcs[t] == s.ring.pcs[t]
  {
    hide Inv, Slot, Ring.SeqAt, Ring.ItemAt;
  }

  // A step of the consumer.
  lemma OwnStepKeepsConsumerInv(s: State, c: Choice, k: nat)
    requires ConsumerInv(s, k) && c.tid == k
    ensures ConsumerInv(Next(s, c), k)
  {
    hide SlotsOk, ClaimsOk, ThreadsOk, Takes, InOrder, AllInOrder, Next;
    NextKeepsInv(s, c);
    StepSummary(s, c);
    var s' := Next(s, c);
    OrderGrows(s.hist.events, s.hist.log, s'.hist.log, EventOf(s, k));
    OwnEventInOrder(s, k);
    OwnStepPosition(s, c, k);
    OthersStand(s, c);
    OrderOfLonger(s.hist.events, EventOf(s, k), s.hist.log, s'.hist.log);
  }

  lemma OthersStand(s: State, c: Choice)
    requires s.ring.WellFormed() && c.tid < |s.ring.pcs|
    ensures forall t | 0 <= t < |s.ring.pcs| && t != c.tid :: Next(s, c).ring.pcs[t] == s.ring.pcs[t]
  {
    hide Slot, Ring.SeqAt, Ring.ItemAt, Diff;
  }

  lemma OrderOfLonger(events: seq<Event>, e: Event, log: seq<Item>, log': seq<Item>)
    requires InOrder(events + [e], |events|, log) && log <= log'
    ensures InOrder(events + [e], |events|, log')
  {
    hide Takes;
  }

  lemma OwnStepPosition(s: State, c: Choice, k: nat)
    requires ConsumerInv(s, k) && c.tid == k && Inv(Next(s, c))
    ensures var s' := Next(s, c); var pc, pc' := s.ring.pcs[k], s'.ring.pcs[k];
            && PeekOk(s'.ring, s'.hist, pc')
            && (pc'.DeqRead? || pc'.DeqRelease? ==> pc'.pos + 1 == s'.ring.head)
            && (pc.DeqRelease? && s' != s ==> s'.hist.events == s.hist.events + [EventOf(s, k)])
            && (if pc.DeqCas? && pc'.DeqRead? then s'.ring.head == s.ring.head + 1 else
                s'.ring.head == s.ring.head && (pc'.DeqRead? || pc'.DeqRelease? ==> pc.DeqRead? || pc == pc'))
            && (pc.DeqRelease? ==> s' == s || pc'.Idle?)
            && (pc.DeqRead? || pc.DeqRelease? ==> pc'.DeqRelease? || pc' == pc || (pc.DeqRelease? && pc'.Idle? && s' != s))
  {
    hide Slot, SlotsOk, ClaimsOk, Takes, AllInOrder;
    var pc := s.ring.pcs[k];
    if pc.PeekLoadSeq? && s.ring.SeqAt(pc.pos) == pc.pos + 1 {
      PublishedAhead(s, pc.pos);
    }
  }

  lemma OwnEventInOrder(s: State, k: nat)
    requires ConsumerInv(s, k)
    ensures InOrder(s.hist.events + [EventOf(s, k)], |s.hist.events|, s.hist.log)
  {
    hide Slot, SlotsOk, ClaimsOk;
    var h := s.hist;
    assert (h.events + [EventOf(s, k)])[..|h.events|] == h.events;
    if s.ring.pcs[k].PeekRead? {
      SlotFacts(s, s.ring.pcs[k].pos);
    }
  }

  lemma {:induction false} RunKeepsConsumerInv(cap: nat, threads: nat, choices: seq<Choice>, k: nat)
    requires cap >= 2 && k < threads && Schedulable(choices, threads) && SoleConsumer(choices, k)
    ensures ConsumerInv(Run(Start(cap, threads), choices), k)
  {
    if choices == [] {
      StartInv(cap, threads);
    } else {
      var c := choices[|choices| - 1];
      RunKeepsConsumerInv(cap, threads, choices[..|choices| - 1], k);
      var s := Run(Start(cap, threads), choices[..|choices| - 1]);
      if c.tid == k { OwnStepKeepsConsumerInv(s, c, k); } else { OtherKeepsConsumerInv(s, c, k); }
    }
  }

  lemma ConsumerOrder(s: State, k: nat)
    requires ConsumerInv(s, k)
    ensures AllInOrder(s.hist.events, s.hist.log)
  {
    hide Inv, Takes, InOrder;
  }

  // In every run with one consumer: the item of a successful peek_at(idx) is
  // the item of the (idx + 1)-th dequeue to return after it.
  lemma PeekForetells(cap: nat, threads: nat, choices: seq<Choice>, k: nat, i: nat, j: nat)
    requires cap >= 2 && k < threads && Schedulable(choices, threads) && SoleConsumer(choices, k)
    requires var events := Run(Start(cap, threads), choices).hist.events;
             && i < j < |events| && events[i].Peeked? && events[j].Taken?
             && Takes(events[..j]) == Takes(events[..i]) + events[i].idx
    ensures var events := Run(Start(cap, threads), choices).hist.events;
            events[j].item == events[i].item
  {
    hide Inv, Run, ConsumerInv, Takes;
    RunKeepsConsumerInv(cap, threads, choices, k);
    var s := Run(Start(cap, threads), choices);
    ConsumerOrder(s, k);
    assert InOrder(s.hist.events, i, s.hist.log) && InOrder(s.hist.events, j, s.hist.log);
  }

  // In particular the consumer receives the items in the order of the tail.
  lemma ConsumerSeesTailOrder(cap: nat, threads: nat, choices: seq<Choice>, k: nat, i: nat)
    requires cap >= 2 && k < threads && Schedulable(choices, threads) && SoleConsumer(choices, k)
    requires var s := Run(Start(cap, threads), choices);
             i < |s.hist.events| && s.hist.events[i].Taken?
    ensures var s := Run(Start(cap, threads), choices);
            Takes(s.hist.events[..i]) < |s.hist.log| && s.hist.events[i].item == s.hist.log[Takes(s.hist.events[..i])]
  {
    hide Inv, Run, ConsumerInv, Takes;
    RunKeepsConsumerInv(cap, threads, choices, k);
    var s := Run(Start(cap, threads), choices);
    ConsumerOrder(s, k);
    assert InOrder(s.hist.events, i, s.hist.log);
  }
}
