// Peeking on 64-bit words: an offset idx with idx + cap >= 2^64 reaches back,
// around the whole word, to a position that a dequeuer may have claimed and not
// yet released.  These are exactly the offsets that cannot be trusted.
module RingFarPeek {
  import opened Bits
  import opened RingMachine
  import opened RingInvariant
  import opened RingRuns
  import opened RingWords
  import opened RingAlone

  // d items have been claimed and all but the first, which thread 0 still
  // copies, are gone.
  lemma FirstStillTaken(cap: nat, d: nat) returns (s: State)
    requires 1 <= d <= cap && cap >= 2
    ensures Reachable(s, cap) && Inv(s) && s.ring.cap == cap
    ensures At(s, d, d, [DeqRead(0), Idle], map[], map[0 := 0])
  {
    hide Reachable, Inv;
    s := Started(cap);
    for i := 0 to d
      invariant Reachable(s, cap) && Inv(s) && s.ring.cap == cap
      invariant At(s, 0, i, [Idle, Idle], map[], map[])
    {
      s := EnqueueAlone(s, cap, 0, 0);
    }
    s := ClaimHeadAlone(s, cap, 0);
    for i := 1 to d
      invariant Reachable(s, cap) && Inv(s) && s.ring.cap == cap
      invariant At(s, i, d, [DeqRead(0), Idle], map[], map[0 := 0])
    {
      s := DequeueAlone(s, cap, 1);
    }
  }

  // A thread is about to read the slot of offset idx.
  ghost predicate Peeking(s: State, t: nat, idx: nat) {
    t < |s.ring.pcs| && s.ring.pcs[t] == PeekLoadSeq(idx, s.ring.head + idx)
  }

  lemma FarPeek(k: nat, idx: nat) returns (s: State)
    requires 1 <= k < 64 && idx < WORD <= idx + Pow2(k)
    ensures Reachable(s, Pow2(k)) && Inv(s) && s.ring.cap == Pow2(k) && Peeking(s, 1, idx)
    ensures Taking(s.ring, s.ring.head + idx - WORD)
  {
    hide Reachable, Inv, Pow2;
    var cap, d := Pow2(k), WORD - idx;
    CapAtLeastTwo(k);
    s := FirstStillTaken(cap, d);
    assert s.ring.WellFormed() by { InvWellFormed(s); }
    s := Go(s, cap, 1, CallPeek(idx));
    s := Go(s, cap, 1, Advance(false));
    assert s.ring.pcs == [DeqRead(0), PeekLoadSeq(idx, d + idx)];
    assert s.ring.pcs[0].pos == 0 == s.ring.head + idx - WORD;
  }

  // A thread that peeks at a position being taken goes on to read it, though
  // the unbounded machine reports that nothing is there.
  lemma TakenFools(s: State, k: nat, t: nat, idx: nat)
    requires Inv(s) && s.ring.cap == Pow2(k) && k <= 64 && idx < WORD && Peeking(s, t, idx)
    requires Taking(s.ring, s.ring.head + idx - WORD)
    ensures Wrap(s.ring).WellFormed()
    ensures Step(Unbounded, s.ring, t, Advance(false)).pcs[t].Idle?
    ensures Step(Word64, Wrap(s.ring), t, Advance(false)).pcs[t].PeekRead?
  {
    hide Slot, Pow2, SlotsOk, ClaimsOk, ThreadsOk, Taking, Diff, Ring.SeqAt, Ring.ItemAt;
    var p := s.ring.head + idx;
    FooledIff(s, k, p);
    WrapSlots(s.ring, k, p);
    NormAdd(p, 1);
    DiffUnbounded(s.ring.SeqAt(p), p + 1);
  }

  // A peek at offset idx can be trusted in every reachable state exactly when
  // idx + cap is below 2^64.
  lemma PeekAgreesIff(k: nat, idx: nat)
    requires 1 <= k < 64 && idx < WORD
    ensures (forall s, t | Reachable(s, Pow2(k)) && Peeking(s, t, idx) :: s.ring.WellFormed() && WordsAgree(s, t)) <==>
            idx + Pow2(k) < WORD
  {
    hide Reachable, WordsAgree, Pow2;
    if idx + Pow2(k) < WORD {
      forall s, t | Reachable(s, Pow2(k)) && Peeking(s, t, idx) ensures s.ring.WellFormed() && WordsAgree(s, t) {
        NearPeek(s, k, t, idx);
      }
    } else {
      var s := FarPeek(k, idx);
      FarDisagrees(s, k, idx);
    }
  }

  lemma FarDisagrees(s: State, k: nat, idx: nat)
    requires Inv(s) && s.ring.cap == Pow2(k) && k <= 64 && idx < WORD && Peeking(s, 1, idx)
    requires Taking(s.ring, s.ring.head + idx - WORD)
    ensures s.ring.WellFormed() && !WordsAgree(s, 1)
  {
    hide Pow2, SlotsOk, ClaimsOk, ThreadsOk, Taking, Step;
    TakenFools(s, k, 1, idx);
  }

  lemma NearPeek(s: State, k: nat, t: nat, idx: nat)
    requires 1 <= k < 64 && Reachable(s, Pow2(k)) && Peeking(s, t, idx) && idx + Pow2(k) < WORD
    ensures s.ring.WellFormed() && WordsAgree(s, t)
  {
    hide Reachable, Pow2, SlotsOk, ClaimsOk, ThreadsOk, Step, Wrap, Taking;
    CapAtLeastTwo(k);
    ReachableInv(s, Pow2(k));
    TakingNear(s, s.ring.head + idx - WORD);
    WordStepAgrees(s, k, t, Advance(false));
  }

  // A position being taken is less than a lap behind the tail.
  lemma TakingNear(s: State, q: int)
    requires Inv(s)
    ensures Taking(s.ring, q) ==> s.ring.tail <= q + s.ring.cap
  {
    hide Slot, SlotsOk, ThreadsOk, Taking;
    TakingIs(s, q);
    if q >= 0 && q in s.hist.taking { assert TakingAt(s.ring, s.hist, q); }
  }
}
