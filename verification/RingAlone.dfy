// Calls of one thread that nobody else interrupts, as pieces from which runs with
// a stalled thread are made.
module RingAlone {
  import opened RingMachine
  import opened RingInvariant
  import opened RingRuns

  lemma Go(s: State, cap: nat, t: nat, a: Action) returns (s': State)
    requires cap >= 2 && Reachable(s, cap) && s.ring.WellFormed() && t < |s.ring.pcs|
    ensures s' == Next(s, Choice(t, a)) && Reachable(s', cap) && Inv(s') && s'.ring.cap == cap
  {
    hide Reachable, Next, Inv;
    ReachNext(s, cap, Choice(t, a));
    s' := Next(s, Choice(t, a));
    ReachableInv(s', cap);
  }

  // Where the machine stands, but for its slots.
  ghost predicate At(s: State, head: nat, tail: nat, pcs: seq<Pc>, storing: map<nat, nat>, taking: map<nat, nat>) {
    && s.ring.head == head && s.ring.tail == tail && s.ring.pcs == pcs
    && s.hist.storing == storing && s.hist.taking == taking
  }

  // The slot at the tail is free, and the one at the head is published.
  lemma FreeAtTail(s: State)
    requires Inv(s) && s.ring.tail < s.ring.head + s.ring.cap && s.ring.tail - s.ring.cap !in s.hist.taking
    ensures s.ring.SeqAt(s.ring.tail) == s.ring.tail && s.ring.tail !in s.hist.storing
  {
    hide Slot, SlotsOk, ThreadsOk, Ring.SeqAt, Ring.ItemAt;
    SlotFacts(s, s.ring.tail);
    assert s.ring.tail in s.hist.storing ==> StoringAt(s.ring, s.hist, s.ring.tail);
  }

  lemma ReadyAtHead(s: State)
    requires Inv(s) && s.ring.head < s.ring.tail && s.ring.head !in s.hist.storing
    ensures s.ring.SeqAt(s.ring.head) == s.ring.head + 1 && s.ring.head !in s.hist.taking
  {
    hide Slot, SlotsOk, ThreadsOk, Ring.SeqAt, Ring.ItemAt;
    SlotFacts(s, s.ring.head);
    assert s.ring.head in s.hist.taking ==> TakingAt(s.ring, s.hist, s.ring.head);
  }

  // An enqueuer that stops behind its claim.
  lemma ClaimTailAlone(s: State, cap: nat, t: nat, x: Item) returns (s': State)
    requires cap >= 2 && Reachable(s, cap) && Inv(s) && s.ring.cap == cap && t < |s.ring.pcs| && s.ring.pcs[t].Idle?
    requires s.ring.tail < s.ring.head + cap && s.ring.tail - cap !in s.hist.taking
    ensures Reachable(s', cap) && Inv(s') && s'.ring.cap == cap
    ensures At(s', s.ring.head, s.ring.tail + 1, s.ring.pcs[t := EnqWrite(x, s.ring.tail)],
               s.hist.storing[s.ring.tail := t], s.hist.taking)
  {
    hide Reachable, Slot, SlotsOk, ClaimsOk, ThreadsOk, Ring.SeqAt, Ring.ItemAt;
    var r, h := s.ring, s.hist;
    s' := Go(s, cap, t, CallEnqueue(x));
    s' := Go(s', cap, t, Advance(false));
    assert At(s', r.head, r.tail, r.pcs[t := EnqLoadSeq(x, r.tail)], h.storing, h.taking);
    FreeAtTail(s');
    s' := Go(s', cap, t, Advance(false));
    s' := Go(s', cap, t, Advance(false));
  }

  lemma EnqueueAlone(s: State, cap: nat, t: nat, x: Item) returns (s': State)
    requires cap >= 2 && Reachable(s, cap) && Inv(s) && s.ring.cap == cap && t < |s.ring.pcs| && s.ring.pcs[t].Idle?
    requires s.ring.tail < s.ring.head + cap && s.ring.tail - cap !in s.hist.taking
    ensures Reachable(s', cap) && Inv(s') && s'.ring.cap == cap
    ensures At(s', s.ring.head, s.ring.tail + 1, s.ring.pcs, s.hist.storing, s.hist.taking)
  {
    hide Reachable, Slot, SlotsOk, ClaimsOk, ThreadsOk, Ring.SeqAt, Ring.ItemAt;
    var r, h := s.ring, s.hist;
    FreeAtTail(s);
    s' := ClaimTailAlone(s, cap, t, x);
    s' := Go(s', cap, t, Advance(false));
    s' := Go(s', cap, t, Advance(false));
    assert h.storing[r.tail := t] - {r.tail} == h.storing;
    assert r.pcs[t := Idle] == r.pcs;
  }

  // A dequeuer that stops behind its claim.
  lemma ClaimHeadAlone(s: State, cap: nat, t: nat) returns (s': State)
    requires cap >= 2 && Reachable(s, cap) && Inv(s) && s.ring.cap == cap && t < |s.ring.pcs| && s.ring.pcs[t].Idle?
    requires s.ring.head < s.ring.tail && s.ring.head !in s.hist.storing
    ensures Reachable(s', cap) && Inv(s') && s'.ring.cap == cap
    ensures At(s', s.ring.head + 1, s.ring.tail, s.ring.pcs[t := DeqRead(s.ring.head)], s.hist.storing,
               s.hist.taking[s.ring.head := t])
  {
    hide Reachable, Slot, SlotsOk, ClaimsOk, ThreadsOk, Ring.SeqAt, Ring.ItemAt;
    var r, h := s.ring, s.hist;
    s' := Go(s, cap, t, CallDequeue);
    s' := Go(s', cap, t, Advance(false));
    assert At(s', r.head, r.tail, r.pcs[t := DeqLoadSeq(r.head)], h.storing, h.taking);
    ReadyAtHead(s');
    s' := Go(s', cap, t, Advance(false));
    s' := Go(s', cap, t, Advance(false));
  }

  lemma DequeueAlone(s: State, cap: nat, t: nat) returns (s': State)
    requires cap >= 2 && Reachable(s, cap) && Inv(s) && s.ring.cap == cap && t < |s.ring.pcs| && s.ring.pcs[t].Idle?
    requires s.ring.head < s.ring.tail && s.ring.head !in s.hist.storing
    ensures Reachable(s', cap) && Inv(s') && s'.ring.cap == cap
    ensures At(s', s.ring.head + 1, s.ring.tail, s.ring.pcs, s.hist.storing, s.hist.taking)
  {
    hide Reachable, Slot, SlotsOk, ClaimsOk, ThreadsOk, Ring.SeqAt, Ring.ItemAt;
    var r, h := s.ring, s.hist;
    ReadyAtHead(s);
    s' := ClaimHeadAlone(s, cap, t);
    s' := Go(s', cap, t, Advance(false));
    s' := Go(s', cap, t, Advance(false));
    assert h.taking[r.head := t] - {r.head} == h.taking;
    assert r.pcs[t := Idle] == r.pcs;
  }

  // A fresh buffer with two threads.
  lemma Started(cap: nat) returns (s: State)
    requires cap >= 2
    ensures Reachable(s, cap) && Inv(s) && s.ring.cap == cap && At(s, 0, 0, [Idle, Idle], map[], map[])
  {
    s := Start(cap, 2);
    assert Run(s, []) == s && Schedulable([], 2);
    StartInv(cap, 2);
  }
}
