// How long a thread may stall between loading the tail and reading its slot: if
// 2^63 items come and go meanwhile, an enqueue on 64-bit words finds the empty
// buffer full.
module RingStall {
  import opened Bits
  import opened RingMachine
  import opened RingInvariant
  import opened RingRuns
  import opened RingWords
  import opened RingAlone

  // The queue is empty and thread 1 has the tail from the very start: the
  // unbounded machine tries again, the machine on words gives up.
  ghost predicate FalselyFull(s: State, x: Item) {
    && s.ring.WellFormed() && s.ring.head == s.ring.tail && s.ring.pcs == [Idle, EnqLoadSeq(x, 0)]
    && Step(Unbounded, s.ring, 1, Advance(false)).pcs[1] == EnqLoadTail(x)
    && Wrap(s.ring).WellFormed()
    && Step(Word64, Wrap(s.ring), 1, Advance(false)).pcs[1].Idle?
  }

  // Thread 1 has loaded the tail, and n items have come and gone.
  lemma StalledFor(cap: nat, x: Item, n: nat) returns (s: State)
    requires cap >= 2
    ensures Reachable(s, cap) && Inv(s) && s.ring.cap == cap
    ensures At(s, n, n, [Idle, EnqLoadSeq(x, 0)], map[], map[])
  {
    hide Reachable, Inv;
    s := Started(cap);
    assert s.ring.WellFormed() by { InvWellFormed(s); }
    s := Go(s, cap, 1, CallEnqueue(x));
    s := Go(s, cap, 1, Advance(false));
    assert s.ring.pcs == [Idle, EnqLoadSeq(x, 0)];
    for i := 0 to n
      invariant Reachable(s, cap) && Inv(s) && s.ring.cap == cap
      invariant At(s, i, i, [Idle, EnqLoadSeq(x, 0)], map[], map[])
    {
      s := EnqueueAlone(s, cap, 0, 0);
      s := DequeueAlone(s, cap, 0);
    }
  }

  // Position 2^63 has the slot of position 0.
  lemma HalfWay(k: nat)
    requires k < 64
    ensures Slot(Pow2(k), WORD / 2) == Slot(Pow2(k), 0)
  {
    hide Slot, Pow2;
    Pow2Is64();
    Pow2Add(1, 63);
    PowOne();
    Pow2Add(k, 63 - k);
    SlotIsRemainder(Pow2(k), WORD / 2);
    SlotIsRemainder(Pow2(k), 0);
    DivModUnique(WORD / 2, Pow2(k), Pow2(63 - k), 0);
    DivModUnique(0, Pow2(k), 0, 0);
  }

  lemma PowOne()
    ensures Pow2(1) == 2
  {
  }

  lemma StalledEnqueue(k: nat, x: Item)
    requires 1 <= k < 64
    ensures exists s :: Reachable(s, Pow2(k)) && FalselyFull(s, x)
  {
    hide Reachable, Inv, Pow2, FalselyFull;
    CapAtLeastTwo(k);
    var s := StalledFor(Pow2(k), x, WORD / 2);
    HalfLapFools(s, k, x);
  }

  lemma HalfLapFools(s: State, k: nat, x: Item)
    requires Inv(s) && s.ring.cap == Pow2(k) && k < 64
    requires At(s, WORD / 2, WORD / 2, [Idle, EnqLoadSeq(x, 0)], map[], map[])
    ensures FalselyFull(s, x)
  {
    hide Slot, Pow2, Diff, SlotsOk, ClaimsOk, ThreadsOk, Ring.ItemAt;
    HalfWay(k);
    SlotFacts(s, WORD / 2);
    WrapSlots(s.ring, k, 0);
    DiffUnbounded(s.ring.SeqAt(0), 0);
    HalfIsNegative();
  }

  lemma HalfIsNegative()
    ensures Diff(Word64, WORD / 2 % WORD, 0 % WORD) < 0
  {
  }
}
