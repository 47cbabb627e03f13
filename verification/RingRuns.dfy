// Whole runs of the ring buffer, told by the events its callers see: nothing is
// lost, duplicated or invented, and a single consumer may trust its peeks.
module RingRuns {
  import opened RingMachine
  import opened RingInvariant
  import opened RingSafety

  // ------------------------------------------------- every run of two slots or more

  ghost predicate Reachable(s: State, cap: nat) {
    cap >= 1 &&
    exists threads: nat, choices | Schedulable(choices, threads) :: s == Run(Start(cap, threads), choices)
  }

  // No two threads in one slot, and at most `cap` positions in the queue.
  ghost predicate Safe(r: Ring)
    requires r.WellFormed()
  {
    && r.head <= r.tail <= r.head + r.cap
    && forall t, u {:trigger r.pcs[t], r.pcs[u]} |
         0 <= t < u < |r.pcs| && Claiming(r.pcs[t]) && Claiming(r.pcs[u]) ::
         Slot(r.cap, r.pcs[t].pos) != Slot(r.cap, r.pcs[u].pos)
  }

  lemma ReachableInv(s: State, cap: nat)
    requires cap >= 2 && Reachable(s, cap)
    ensures Inv(s) && s.ring.cap == cap
  {
    var threads: nat, choices :| Schedulable(choices, threads) && s == Run(Start(cap, threads), choices);
    StartInv(cap, threads);
    RunKeepsInv(Start(cap, threads), choices);
    RunKeepsCap(Start(cap, threads), choices);
  }

  lemma InvIsSafe(s: State)
    requires Inv(s)
    ensures Safe(s.ring)
  {
    hide Slot, SlotsOk, ClaimsOk, ThreadsOk;
    var r := s.ring;
    forall t, u | 0 <= t < u < |r.pcs| && Claiming(r.pcs[t]) && Claiming(r.pcs[u])
      ensures Slot(r.cap, r.pcs[t].pos) != Slot(r.cap, r.pcs[u].pos)
    {
      ExclusiveSlots(s, t, u);
    }
  }

  lemma ReachNext(s: State, cap: nat, c: Choice)
    requires Reachable(s, cap) && s.ring.WellFormed() && c.tid < |s.ring.pcs|
    ensures Reachable(Next(s, c), cap)
  {
    var threads: nat, choices :| Schedulable(choices, threads) && s == Run(Start(cap, threads), choices);
    var more := choices + [c];
    assert more[..|more| - 1] == choices;
    assert Run(Start(cap, threads), more) == Next(s, c);
  }

  // `create` accepts capacity 1, but with one slot "published p" and "free for
  // p + 1" are the same number: two enqueues succeed with nothing dequeued, and
  // the second item has overwritten the first.
  lemma OneSlotOverruns(x: Item, y: Item)
    ensures exists s :: Reachable(s, 1) && s.ring.WellFormed() && !Safe(s.ring) && Overwritten(s, x, y)
  {
    var s := Start(1, 1);
    assert Run(s, []) == s && Schedulable([], 1);
    s := AloneEnqueue(s, x, 0);
    s := AloneEnqueue(s, y, 1);
    assert Overwritten(s, x, y);
  }

  // Both items were stored and none taken, and only the second is there.
  ghost predicate Overwritten(s: State, x: Item, y: Item) {
    && s.hist.events == [Stored(0, x, 0), Stored(0, y, 1)] && s.hist.log == [x, y]
    && s.ring.head == 0 && s.ring.tail == 2 && s.ring.items == [y]
  }

  // One thread enqueueing into a one-slot ring that always looks free to it.
  lemma AloneEnqueue(s: State, x: Item, n: nat) returns (s': State)
    requires Reachable(s, 1) && s.ring == Ring(1, 0, n, [n], s.ring.items, [Idle]) && |s.ring.items| == 1
    ensures Reachable(s', 1) && s'.ring == Ring(1, 0, n + 1, [n + 1], [x], [Idle])
    ensures s'.hist.events == s.hist.events + [Stored(0, x, n)] && s'.hist.log == s.hist.log + [x]
  {
    hide Slot, Reachable;
    var pcs := [EnqLoadTail(x), EnqLoadSeq(x, n), EnqCas(x, n), EnqWrite(x, n), EnqPublish(x, n)];
    var c := Choice(0, CallEnqueue(x));
    ReachNext(s, 1, c);
    s' := Next(s, c);
    for i := 0 to 5
      invariant Reachable(s', 1)
      invariant i < 5 ==> s'.ring.pcs == [pcs[i]]
      invariant s'.ring == Ring(1, 0, if i < 3 then n else n + 1, if i < 5 then [n] else [n + 1],
                                if i < 4 then s.ring.items else [x], s'.ring.pcs)
      invariant i == 5 ==> s'.ring.pcs == [Idle]
      invariant s'.hist.log == if i < 3 then s.hist.log else s.hist.log + [x]
      invariant s'.hist.events == if i < 5 then s.hist.events else s.hist.events + [Stored(0, x, n)]
    {
      ReachNext(s', 1, Choice(0, Advance(false)));
      s' := Next(s', Choice(0, Advance(false)));
    }
  }

  // The ring buffer is safe in every run exactly when it has two slots or more.
  lemma SafeIffTwoSlots(cap: nat)
    requires cap >= 1
    ensures (forall s | Reachable(s, cap) :: s.ring.WellFormed() && Safe(s.ring)) <==> cap >= 2
  {
    if cap == 1 {
      OneSlotOverruns(1, 2);
    } else {
      forall s | Reachable(s, cap) ensures s.ring.WellFormed() && Safe(s.ring) {
        ReachableInv(s, cap);
        InvIsSafe(s);
      }
    }
  }

  // ----------------------------------------------------------- conservation

  function CountStored(events: seq<Event>, p: nat): nat {
    if events == [] then 0
    else
      var e := events[|events| - 1];
      CountStored(events[..|events| - 1], p) + if e.Stored? && e.pos == p then 1 else 0
  }

  function CountTaken(events: seq<Event>, p: nat): nat {
    if events == [] then 0
    else
      var e := events[|events| - 1];
      CountTaken(events[..|events| - 1], p) + if e.Taken? && e.pos == p then 1 else 0
  }

  // Each finished call left exactly one event, carrying the item of its position.
  ghost predicate Accounted(s: State)
    requires Inv(s)
  {
    var h := s.hist;
    && (forall p: nat {:trigger CountStored(h.events, p)} ::
          CountStored(h.events, p) == if p < s.ring.tail && p !in h.storing then 1 else 0)
    && (forall p: nat {:trigger CountTaken(h.events, p)} ::
          CountTaken(h.events, p) == if p < s.ring.head && p !in h.taking then 1 else 0)
    && (forall i {:trigger h.events[i]} | 0 <= i < |h.events| :: Faithful(h.events[i], h.log))
  }

  ghost predicate Faithful(e: Event, log: seq<Item>) {
    e.Stored? || e.Taken? ==> e.pos < |log| && e.item == log[e.pos]
  }

  // Counting after one more event.
  lemma CountAppend(events: seq<Event>, e: Event)
    ensures forall p: nat {:trigger CountStored(events + [e], p)} ::
              CountStored(events + [e], p) == CountStored(events, p) + if e.Stored? && e.pos == p then 1 else 0
    ensures forall p: nat {:trigger CountTaken(events + [e], p)} ::
              CountTaken(events + [e], p) == CountTaken(events, p) + if e.Taken? && e.pos == p then 1 else 0
  {
    assert (events + [e])[..|events|] == events;
  }

  // Claiming a position opens an account for it that counts nothing yet.
  lemma ClaimKeepsAccounts(s: State, s': State, t: nat)
    requires Inv(s) && Accounted(s) && Inv(s') && s'.hist.events == s.hist.events
    requires s.hist.log <= s'.hist.log
    requires || (s'.ring.tail == s.ring.tail && s'.hist.storing == s.hist.storing)
             || (s'.ring.tail == s.ring.tail + 1 && s'.hist.storing == s.hist.storing[s.ring.tail := t])
    requires || (s'.ring.head == s.ring.head && s'.hist.taking == s.hist.taking)
             || (s'.ring.head == s.ring.head + 1 && s'.hist.taking == s.hist.taking[s.ring.head := t])
    ensures Accounted(s')
  {
    hide Inv, CountStored, CountTaken;
  }

  // A returning call closes its account with its one event.
  lemma ReturnKeepsAccounts(s: State, s': State, e: Event)
    requires Inv(s) && Accounted(s) && Inv(s') && s'.hist.events == s.hist.events + [e]
    requires s'.ring.tail == s.ring.tail && s'.ring.head == s.ring.head && s'.hist.log == s.hist.log
    requires Faithful(e, s.hist.log)
    requires if e.Stored? then e.pos in s.hist.storing && s'.hist.storing == s.hist.storing - {e.pos}
             else s'.hist.storing == s.hist.storing
    requires if e.Taken? then e.pos in s.hist.taking && s'.hist.taking == s.hist.taking - {e.pos} && e.pos < s.ring.head
             else s'.hist.taking == s.hist.taking
    ensures Accounted(s')
  {
    hide Inv, CountStored, CountTaken;
    CountAppend(s.hist.events, e);
    assert |s.hist.log| == s.ring.tail by { InvShape(s); }
  }

  lemma QuietKeepsAccounts(s: State, s': State, t: nat, e: Event)
    requires Inv(s) && Accounted(s) && Inv(s') && !e.Stored? && !e.Taken?
    requires s'.ring.tail == s.ring.tail && s'.ring.head == s.ring.head
    requires s'.hist == s.hist || s'.hist == s.hist.(events := s.hist.events + [e])
    ensures Accounted(s')
  {
    hide Inv, Accounted;
    if s'.hist == s.hist { ClaimKeepsAccounts(s, s', t); } else { ReturnKeepsAccounts(s, s', e); }
  }

  lemma InvShape(s: State)
    requires Inv(s)
    ensures Shape(s.ring, s.hist)
  {
  }

  lemma NextKeepsAccounts(s: State, c: Choice)
    requires Inv(s) && Accounted(s) && c.tid < |s.ring.pcs|
    ensures Inv(Next(s, c)) && Accounted(Next(s, c))
  {
    hide Slot, SlotsOk, ClaimsOk, Accounted;
    NextKeepsInv(s, c);
    var s', t := Next(s, c), c.tid;
    if !c.action.Advance? {
      ClaimKeepsAccounts(s, s', t);
    } else {
      match s.ring.pcs[t]
      case EnqPublish(x, p) => ReturnKeepsAccounts(s, s', Stored(t, x, p));
      case DeqRelease(p, got) => ReturnKeepsAccounts(s, s', Taken(t, got, p));
      case EnqLoadSeq(x, p) => QuietKeepsAccounts(s, s', t, Full(t));
      case DeqLoadSeq(p) => QuietKeepsAccounts(s, s', t, Empty(t));
      case PeekLoadSeq(idx, p) => QuietKeepsAccounts(s, s', t, PeekMissed(t, idx));
      case PeekRead(idx, p) => QuietKeepsAccounts(s, s', t, Peeked(t, s.ring.ItemAt(p), idx));
      case _ => ClaimKeepsAccounts(s, s', t);
    }
  }

  lemma {:induction false} RunKeepsAccounts(s: State, choices: seq<Choice>)
    requires Inv(s) && Accounted(s) && Schedulable(choices, |s.ring.pcs|)
    ensures Inv(Run(s, choices)) && Accounted(Run(s, choices))
  {
    if choices != [] {
      RunKeepsAccounts(s, choices[..|choices| - 1]);
      NextKeepsAccounts(Run(s, choices[..|choices| - 1]), choices[|choices| - 1]);
    }
  }

  // When every call of a run has returned, the events split the positions: up
  // to the head each was stored once and taken once, from there to the tail
  // stored once and not taken, beyond it neither.  A stored item and a taken
  // item of one position are the same, so nothing is lost, duplicated or
  // invented, and what remains in the queue is what was stored and not taken.
  lemma Conservation(s: State, cap: nat)
    requires cap >= 2 && Reachable(s, cap)
    requires forall t | 0 <= t < |s.ring.pcs| :: s.ring.pcs[t].Idle?
    ensures Inv(s)
    ensures forall p: nat ::
              && CountStored(s.hist.events, p) == (if p < s.ring.tail then 1 else 0)
              && CountTaken(s.hist.events, p) == (if p < s.ring.head then 1 else 0)
    ensures forall i, j {:trigger s.hist.events[i], s.hist.events[j]} |
              && 0 <= i < |s.hist.events| && 0 <= j < |s.hist.events|
              && s.hist.events[i].Stored? && s.hist.events[j].Taken?
              && s.hist.events[i].pos == s.hist.events[j].pos ::
              s.hist.events[i].item == s.hist.events[j].item
    ensures forall i {:trigger s.hist.events[i]} |
              0 <= i < |s.hist.events| && s.hist.events[i].Stored? && s.hist.events[i].pos >= s.ring.head ::
              s.hist.events[i].pos - s.ring.head < |Contents(s)| &&
              Contents(s)[s.hist.events[i].pos - s.ring.head] == s.hist.events[i].item
  {
    ReachableInv(s, cap);
    var threads: nat, choices :| Schedulable(choices, threads) && s == Run(Start(cap, threads), choices);
    StartInv(cap, threads);
    RunKeepsAccounts(Start(cap, threads), choices);
    hide Slot, SlotsOk, CountStored, CountTaken;
    NoClaims(s);
    forall i | 0 <= i < |s.hist.events| && s.hist.events[i].Stored?
      ensures s.hist.events[i].pos < s.ring.tail
    {
      assert Faithful(s.hist.events[i], s.hist.log);
    }
  }
}
