// The ring buffer on 64-bit words.  Head, tail and sequence numbers wrap, and
// the code compares them by a wrapping signed difference; as long as no thread
// stalls for about 2^63 operations inside a call, every branch is the one the
// unbounded machine takes, across any number of wrap-arounds.
module RingWords {
  import opened Bits
  import opened RingMachine
  import opened RingInvariant

  // --------------------------------------------------- wrapped differences

  // The signed difference of two wrapped numbers is the true one exactly when
  // the true one fits in a signed word.
  lemma SignedDiffExact(a: nat, b: nat)
    ensures Diff(Word64, a % WORD, b % WORD) == a - b <==> -(WORD / 2) <= a - b < WORD / 2
  {
    WrappedSub(a, b);
    var d := (a - b) % WORD;
    assert (a - b) == ((a - b) / WORD) * WORD + d;
  }

  lemma WrappedSub(a: nat, b: nat)
    ensures (a % WORD - b % WORD) % WORD == (a - b) % WORD
  {
    var q := b / WORD - a / WORD;
    assert a % WORD - b % WORD == (a - b) + q * WORD;
    ModShift(a - b, WORD, q);
  }

  // A compare-and-swap on words is fooled by exactly the whole multiples of 2^64.
  lemma WrappedEqual(a: nat, b: nat)
    requires a <= b
    ensures a % WORD == b % WORD <==> (b - a) % WORD == 0
  {
    WrappedSub(b, a);
    if a % WORD == b % WORD {
      assert (b % WORD - a % WORD) % WORD == 0;
    } else {
      var e := b % WORD - a % WORD;
      if e < 0 { ModShift(e, WORD, 1); }
    }
  }

  lemma NormAdd(p: nat, n: nat)
    ensures Norm(Word64, p % WORD + n) == Norm(Unbounded, p + n) % WORD
  {
    ModShift(p % WORD + n, WORD, p / WORD);
  }

  lemma SlotOfWord(k: nat, p: nat)
    requires k <= 64
    ensures Slot(Pow2(k), p % WORD) == Slot(Pow2(k), p)
  {
    hide Slot, Pow2;
    SlotIsRemainder(Pow2(k), p);
    SlotIsRemainder(Pow2(k), p % WORD);
    Pow2Is64();
    Pow2Add(k, 64 - k);
    ModOfMod(p, Pow2(k), Pow2(64 - k));
  }

  // ----------------------------------------------------------- abstraction

  function WrapPc(pc: Pc): Pc {
    match pc
    case EnqLoadSeq(x, p) => EnqLoadSeq(x, p % WORD)
    case EnqCas(x, p) => EnqCas(x, p % WORD)
    case EnqWrite(x, p) => EnqWrite(x, p % WORD)
    case EnqPublish(x, p) => EnqPublish(x, p % WORD)
    case DeqLoadSeq(p) => DeqLoadSeq(p % WORD)
    case DeqCas(p) => DeqCas(p % WORD)
    case DeqRead(p) => DeqRead(p % WORD)
    case DeqRelease(p, got) => DeqRelease(p % WORD, got)
    case PeekLoadSeq(idx, p) => PeekLoadSeq(idx, p % WORD)
    case PeekRead(idx, p) => PeekRead(idx, p % WORD)
    case _ => pc
  }

  // The words that the machine's numbers leave in memory and registers.
  function Wrap(r: Ring): (r': Ring)
    ensures |r'.pcs| == |r.pcs| && |r'.seqs| == |r.seqs|
  {
    Ring(r.cap, r.head % WORD, r.tail % WORD,
         seq(|r.seqs|, i requires 0 <= i < |r.seqs| => r.seqs[i] % WORD), r.items,
         seq(|r.pcs|, t requires 0 <= t < |r.pcs| => WrapPc(r.pcs[t])))
  }

  // Some thread has claimed position q for its dequeue and not released it.
  ghost predicate Taking(r: Ring, q: int) {
    exists u | 0 <= u < |r.pcs| :: (r.pcs[u].DeqRead? || r.pcs[u].DeqRelease?) && r.pcs[u].pos == q
  }

  // How far a thread's saved position may be from the shared one.  A peek, which
  // may look ahead by any word, must not come around to a position being taken.
  ghost predicate LagOk(r: Ring, pc: Pc) {
    match pc
    case EnqLoadSeq(_, p) => r.tail - p + r.cap < WORD / 2
    case EnqCas(_, p) => r.tail - p < WORD
    case DeqLoadSeq(p) => r.head - p + r.cap < WORD / 2
    case DeqCas(p) => r.head - p < WORD
    case PeekLoadSeq(_, p) => r.head - p + r.cap < WORD && p - r.head < WORD && !Taking(r, p - WORD)
    case _ => true
  }

  lemma WrapSlots(r: Ring, k: nat, p: nat)
    requires r.WellFormed() && r.cap == Pow2(k) && k <= 64
    ensures Wrap(r).WellFormed()
    ensures Wrap(r).SeqAt(p % WORD) == r.SeqAt(p) % WORD
    ensures Wrap(r).ItemAt(p % WORD) == r.ItemAt(p)
  {
    hide Slot, Pow2;
    SlotOfWord(k, p);
  }

  lemma WrapStores(r: Ring, k: nat, p: nat, v: nat)
    requires r.WellFormed() && r.cap == Pow2(k) && k <= 64
    ensures Wrap(r).WellFormed()
    ensures Wrap(r).StoreSeq(p % WORD, v % WORD) == Wrap(r.StoreSeq(p, v))
    ensures Wrap(r).StoreItem(p % WORD, v) == Wrap(r.StoreItem(p, v))
  {
    hide Slot, Pow2, WrapPc;
    SlotOfWord(k, p);
    assert Wrap(r).StoreSeq(p % WORD, v % WORD).seqs == Wrap(r.StoreSeq(p, v)).seqs;
  }

  lemma WrapMove(r: Ring, t: nat, pc: Pc)
    requires t < |r.pcs|
    ensures Wrap(r).At(t, WrapPc(pc)) == Wrap(r.At(t, pc))
  {
    hide WrapPc;
    assert Wrap(r).At(t, WrapPc(pc)).pcs == Wrap(r.At(t, pc)).pcs;
  }

  // ------------------------------------------------------------- simulation

  // The range of a slot's sequence number.
  lemma SeqRange(s: State, p: nat)
    requires Inv(s)
    ensures s.ring.head - s.ring.cap < s.ring.SeqAt(p) <= s.ring.head + s.ring.cap
  {
    var r := s.ring;
    var i := Slot(r.cap, p);
    assert Slot(r.cap, i) == i;
    var q := Occupant(r.cap, r.head, i);
    SlotFacts(s, q);
  }

  // The loop's three-way branch, for a saved tail and for a saved head.
  lemma SameTailBranch(s: State, p: nat)
    requires Inv(s) && p <= s.ring.tail && s.ring.tail - p + s.ring.cap < WORD / 2
    ensures Diff(Word64, s.ring.SeqAt(p) % WORD, p % WORD) == Diff(Unbounded, s.ring.SeqAt(p), p)
  {
    SeqRange(s, p);
    if s.ring.SeqAt(p) < p { TailBehind(s, p); }
    SignedDiffExact(s.ring.SeqAt(p), p);
  }

  lemma SameHeadBranch(s: State, p: nat)
    requires Inv(s) && p <= s.ring.head && s.ring.head - p + s.ring.cap < WORD / 2
    ensures Diff(Word64, s.ring.SeqAt(p) % WORD, (p + 1) % WORD) == Diff(Unbounded, s.ring.SeqAt(p), p + 1)
  {
    SeqRange(s, p);
    if s.ring.SeqAt(p) < p + 1 { HeadBehind(s, p); }
    SignedDiffExact(s.ring.SeqAt(p), p + 1);
  }

  // A peek only asks whether the difference is 0.
  lemma ZeroDiff(a: nat, b: nat)
    requires 0 - 2 * WORD < a - b < WORD
    ensures Diff(Word64, a % WORD, b % WORD) == 0 <==> a == b || b == a + WORD
  {
    WrappedSub(a, b);
    if b > a { ModShift(a - b, WORD, 1); }
  }

  // The history knows the positions being taken.
  lemma TakingIs(s: State, q: int)
    requires Inv(s)
    ensures Taking(s.ring, q) <==> q >= 0 && q in s.hist.taking
  {
    hide Slot, SlotsOk, Ring.SeqAt, Ring.ItemAt;
    if q >= 0 && q in s.hist.taking { assert TakingAt(s.ring, s.hist, q); }
    if Taking(s.ring, q) {
      var u :| 0 <= u < |s.ring.pcs| && (s.ring.pcs[u].DeqRead? || s.ring.pcs[u].DeqRelease?) && s.ring.pcs[u].pos == q;
      assert PcOk(s.ring, s.hist, u, s.ring.pcs[u]);
    }
  }

  // On words, a slot reads as published for a position ahead of the head to
  // which it does not belong exactly when the position has come around to one
  // that is being taken.
  lemma FooledIff(s: State, k: nat, p: nat)
    requires Inv(s) && s.ring.cap == Pow2(k) && k <= 64 && s.ring.head <= p < s.ring.head + WORD
    ensures Diff(Word64, s.ring.SeqAt(p) % WORD, (p + 1) % WORD) == 0 && s.ring.SeqAt(p) != p + 1 <==>
            Taking(s.ring, p - WORD)
  {
    hide Diff, Pow2, Taking;
    CapFits(k);
    SeqRange(s, p);
    ZeroDiff(s.ring.SeqAt(p), p + 1);
    TakingIs(s, p - WORD);
    if s.ring.SeqAt(p) + WORD == p + 1 { ComesAround(s, k, p); }
    if p >= WORD && p - WORD in s.hist.taking { TakenReads(s, k, p); }
  }

  lemma CapAtLeastTwo(k: nat)
    requires k >= 1
    ensures Pow2(k) >= 2
  {
    Pow2Monotone(1, k);
  }

  lemma CapFits(k: nat)
    requires k <= 64
    ensures Pow2(k) <= WORD
  {
    Pow2Monotone(k, 64);
    Pow2Is64();
  }

  lemma ComesAround(s: State, k: nat, p: nat)
    requires Inv(s) && s.ring.cap == Pow2(k) && k <= 64 && s.ring.head <= p < s.ring.head + WORD
    requires s.ring.SeqAt(p) + WORD == p + 1
    ensures p >= WORD && p - WORD in s.hist.taking
  {
    hide Slot, Pow2, SlotsOk, ClaimsOk, ThreadsOk;
    var r := s.ring;
    var i := Slot(r.cap, p);
    OwnSlot(r.cap, i);
    var q := Occupant(r.cap, r.head, i);
    SlotFacts(s, q);
    if r.SeqAt(p) == q {
      SlotOfWord(k, p + 1);
      SlotOfWord(k, q);
      ModShift(q, WORD, 1);
      SlotsDiffer(r.cap, p, p + 1);
    }
  }

  lemma OwnSlot(cap: nat, i: nat)
    requires i < cap
    ensures Slot(cap, i) == i
  {
  }

  lemma TakenReads(s: State, k: nat, p: nat)
    requires Inv(s) && s.ring.cap == Pow2(k) && k <= 64 && p >= WORD && p - WORD in s.hist.taking
    ensures s.ring.SeqAt(p) == p - WORD + 1
  {
    hide Slot, Pow2, SlotsOk, ThreadsOk;
    assert TakingAt(s.ring, s.hist, p - WORD);
    SlotsRepeat(s.ring.cap, p - WORD);
    SlotOfWord(k, p);
    SlotOfWord(k, p - WORD);
    ModShift(p - WORD, WORD, 1);
    SlotFacts(s, p - WORD + s.ring.cap);
  }

  lemma SamePeekBranch(s: State, k: nat, p: nat)
    requires Inv(s) && s.ring.cap == Pow2(k) && k <= 64 && !Taking(s.ring, p - WORD)
    requires p - s.ring.head < WORD && s.ring.head - p + s.ring.cap < WORD
    ensures Diff(Word64, s.ring.SeqAt(p) % WORD, (p + 1) % WORD) == 0 <==> Diff(Unbounded, s.ring.SeqAt(p), p + 1) == 0
  {
    hide Diff, Pow2, Taking;
    CapFits(k);
    SeqRange(s, p);
    ZeroDiff(s.ring.SeqAt(p), p + 1);
    DiffUnbounded(s.ring.SeqAt(p), p + 1);
    if p >= s.ring.head { FooledIff(s, k, p); }
  }

  lemma SameCas(p: nat, shared: nat)
    requires p <= shared < p + WORD
    ensures p % WORD == shared % WORD <==> p == shared
  {
    WrappedEqual(p, shared);
    ModSmall(shared - p, WORD);
  }

  // Steps that only move thread t: wrapping the new point is enough.
  lemma EnqueueLoadAgrees(s: State, k: nat, t: nat, a: Action)
    requires Inv(s) && s.ring.cap == Pow2(k) && k <= 64 && t < |s.ring.pcs|
    requires LagOk(s.ring, s.ring.pcs[t]) && a.Advance? && s.ring.pcs[t].EnqLoadSeq?
    ensures Wrap(s.ring).WellFormed()
    ensures Step(Word64, Wrap(s.ring), t, a) == Wrap(Step(Unbounded, s.ring, t, a))
  {
    hide Slot, Pow2, Diff, SlotsOk, ClaimsOk, ThreadsOk, Ring.SeqAt, Ring.ItemAt;
    var r, p := s.ring, s.ring.pcs[t].pos;
    OwnPc(s, t);
    WrapMove(r, t, Step(Unbounded, r, t, a).pcs[t]);
    WrapSlots(r, k, p);
    SameTailBranch(s, p);
  }

  lemma DequeueLoadAgrees(s: State, k: nat, t: nat, a: Action)
    requires Inv(s) && s.ring.cap == Pow2(k) && k <= 64 && t < |s.ring.pcs|
    requires LagOk(s.ring, s.ring.pcs[t]) && a.Advance? && s.ring.pcs[t].DeqLoadSeq?
    ensures Wrap(s.ring).WellFormed()
    ensures Step(Word64, Wrap(s.ring), t, a) == Wrap(Step(Unbounded, s.ring, t, a))
  {
    hide Slot, Pow2, Diff, SlotsOk, ClaimsOk, ThreadsOk, Ring.SeqAt, Ring.ItemAt;
    var r, p := s.ring, s.ring.pcs[t].pos;
    OwnPc(s, t);
    WrapMove(r, t, Step(Unbounded, r, t, a).pcs[t]);
    WrapSlots(r, k, p);
    NormAdd(p, 1);
    SameHeadBranch(s, p);
  }

  lemma PeekLoadAgrees(s: State, k: nat, t: nat, a: Action)
    requires Inv(s) && s.ring.cap == Pow2(k) && k <= 64 && t < |s.ring.pcs|
    requires LagOk(s.ring, s.ring.pcs[t]) && a.Advance? && s.ring.pcs[t].PeekLoadSeq?
    ensures Wrap(s.ring).WellFormed()
    ensures Step(Word64, Wrap(s.ring), t, a) == Wrap(Step(Unbounded, s.ring, t, a))
  {
    hide Slot, Pow2, Diff, SlotsOk, ClaimsOk, ThreadsOk, Taking, Ring.SeqAt, Ring.ItemAt;
    var r, p := s.ring, s.ring.pcs[t].pos;
    WrapMove(r, t, Step(Unbounded, r, t, a).pcs[t]);
    WrapSlots(r, k, p);
    NormAdd(p, 1);
    SamePeekBranch(s, k, p);
  }

  lemma ReadAgrees(s: State, k: nat, t: nat, a: Action)
    requires Inv(s) && s.ring.cap == Pow2(k) && k <= 64 && t < |s.ring.pcs| && a.Advance? && s.ring.pcs[t].DeqRead?
    ensures Wrap(s.ring).WellFormed()
    ensures Step(Word64, Wrap(s.ring), t, a) == Wrap(Step(Unbounded, s.ring, t, a))
  {
    hide Slot, Pow2, Diff, SlotsOk, ClaimsOk, ThreadsOk, Ring.SeqAt, Ring.ItemAt;
    var r, p := s.ring, s.ring.pcs[t].pos;
    WrapMove(r, t, DeqRelease(p, r.ItemAt(p)));
    WrapSlots(r, k, p);
  }

  lemma DiffUnbounded(a: nat, b: nat)
    ensures Diff(Unbounded, a, b) == a - b
  {
  }

  // The two compare-and-swaps.
  lemma CasAgrees(s: State, t: nat, a: Action)
    requires Inv(s) && t < |s.ring.pcs| && LagOk(s.ring, s.ring.pcs[t]) && a.Advance?
    requires s.ring.pcs[t].EnqCas? || s.ring.pcs[t].DeqCas?
    requires Wrap(s.ring).WellFormed()
    ensures Step(Word64, Wrap(s.ring), t, a) == Wrap(Step(Unbounded, s.ring, t, a))
  {
    hide Slot, Diff, SlotsOk, ClaimsOk, ThreadsOk, Ring.SeqAt, Ring.ItemAt;
    var r := s.ring;
    var p := r.pcs[t].pos;
    OwnPc(s, t);
    var r' := Step(Unbounded, r, t, a);
    WrapMove(r, t, r'.pcs[t]);
    WrapMove(r.(tail := r'.tail, head := r'.head), t, r'.pcs[t]);
    NormAdd(p, 1);
    SameCas(p, if r.pcs[t].EnqCas? then r.tail else r.head);
  }

  // The stores.
  lemma StoreAgrees(r: Ring, k: nat, t: nat, a: Action)
    requires r.WellFormed() && r.cap == Pow2(k) && k <= 64 && t < |r.pcs| && Wrap(r).WellFormed()
    requires a.Advance? && (r.pcs[t].EnqWrite? || r.pcs[t].EnqPublish? || r.pcs[t].DeqRelease?)
    ensures Step(Word64, Wrap(r), t, a) == Wrap(Step(Unbounded, r, t, a))
  {
    hide Slot, Pow2, Diff, Ring.SeqAt, Ring.ItemAt, Ring.StoreSeq, Ring.StoreItem;
    match r.pcs[t]
    case EnqWrite(x, p) =>
      WrapStores(r, k, p, x);
      SameThreads(r, p, x);
      WrapMove(r.StoreItem(p, x), t, EnqPublish(x, p));
    case EnqPublish(x, p) =>
      NormAdd(p, 1);
      WrapStores(r, k, p, p + 1);
      SameThreads(r, p, p + 1);
      WrapMove(r.StoreSeq(p, p + 1), t, Idle);
    case DeqRelease(p, _) =>
      NormAdd(p, r.cap);
      WrapStores(r, k, p, p + r.cap);
      SameThreads(r, p, p + r.cap);
      WrapMove(r.StoreSeq(p, p + r.cap), t, Idle);
  }

  // The plain loads and the starts of calls.
  lemma PlainAgrees(r: Ring, t: nat, a: Action)
    requires r.WellFormed() && t < |r.pcs| && Wrap(r).WellFormed()
    requires var pc := r.pcs[t];
             !a.Advance? || pc.Idle? || pc.EnqLoadTail? || pc.DeqLoadHead? || pc.PeekLoadHead? || pc.PeekRead?
    ensures Step(Word64, Wrap(r), t, a) == Wrap(Step(Unbounded, r, t, a))
  {
    hide Slot, Diff, Ring.SeqAt, Ring.ItemAt, Ring.StoreSeq, Ring.StoreItem;
    WrapMove(r, t, Step(Unbounded, r, t, a).pcs[t]);
    if r.pcs[t].PeekLoadHead? { NormAdd(r.head, r.pcs[t].idx); }
  }

  lemma SameThreads(r: Ring, p: nat, v: nat)
    requires r.WellFormed()
    ensures r.StoreSeq(p, v).pcs == r.pcs && r.StoreItem(p, v).pcs == r.pcs
  {
  }

  // One step on words is one step of the unbounded machine, wrapped.
  lemma WordStepAgrees(s: State, k: nat, t: nat, a: Action)
    requires Inv(s) && s.ring.cap == Pow2(k) && k <= 64 && t < |s.ring.pcs|
    requires LagOk(s.ring, s.ring.pcs[t])
    ensures Wrap(s.ring).WellFormed()
    ensures Step(Word64, Wrap(s.ring), t, a) == Wrap(Step(Unbounded, s.ring, t, a))
  {
    hide Inv, Wrap, Step;
    InvWellFormed(s);
    WrapSlots(s.ring, k, 0);
    var pc := s.ring.pcs[t];
    if !a.Advance? {
      PlainAgrees(s.ring, t, a);
    } else {
      match pc
      case EnqLoadSeq(_, _) => EnqueueLoadAgrees(s, k, t, a);
      case DeqLoadSeq(_) => DequeueLoadAgrees(s, k, t, a);
      case PeekLoadSeq(_, _) => PeekLoadAgrees(s, k, t, a);
      case DeqRead(_) => ReadAgrees(s, k, t, a);
      case EnqCas(_, _) => CasAgrees(s, t, a);
      case DeqCas(_) => CasAgrees(s, t, a);
      case EnqWrite(_, _) => StoreAgrees(s.ring, k, t, a);
      case EnqPublish(_, _) => StoreAgrees(s.ring, k, t, a);
      case DeqRelease(_, _) => StoreAgrees(s.ring, k, t, a);
      case _ => PlainAgrees(s.ring, t, a);
    }
  }

  // On words thread t does what the unbounded machine does.
  ghost predicate WordsAgree(s: State, t: nat)
    requires s.ring.WellFormed() && t < |s.ring.pcs|
  {
    Wrap(s.ring).WellFormed() &&
    Step(Word64, Wrap(s.ring), t, Advance(false)) == Wrap(Step(Unbounded, s.ring, t, Advance(false)))
  }

  lemma InvWellFormed(s: State)
    requires Inv(s)
    ensures s.ring.WellFormed()
  {
  }

  // -------------------------------------------------------------- whole runs

  function RunWords(r: Ring, choices: seq<Choice>): (r': Ring)
    requires r.WellFormed() && Schedulable(choices, |r.pcs|)
    ensures r'.WellFormed() && |r'.pcs| == |r.pcs|
  {
    if choices == [] then r
    else
      var c := choices[|choices| - 1];
      Step(Word64, RunWords(r, choices[..|choices| - 1]), c.tid, c.action)
  }

  // No scheduled thread is ever further behind than the lag bound.
  ghost predicate NeverStalled(s: State, choices: seq<Choice>)
    requires s.ring.WellFormed() && Schedulable(choices, |s.ring.pcs|)
  {
    forall i {:trigger choices[i]} | 0 <= i < |choices| ::
      var before := Run(s, choices[..i]);
      LagOk(before.ring, before.ring.pcs[choices[i].tid])
  }

  lemma StartIsWords(k: nat, threads: nat)
    requires k < 64
    ensures Wrap(Init(Pow2(k), threads)) == Init(Pow2(k), threads)
  {
    hide Pow2;
    CapFits(k);
    var r := Init(Pow2(k), threads);
    forall i | 0 <= i < |r.seqs| ensures r.seqs[i] % WORD == r.seqs[i] { ModSmall(r.seqs[i], WORD); }
  }

  // Every run on words from a fresh buffer is the unbounded run, wrapped.
  lemma {:induction false} WordRunAgrees(k: nat, threads: nat, choices: seq<Choice>)
    requires 1 <= k < 64 && Schedulable(choices, threads)
    requires NeverStalled(Start(Pow2(k), threads), choices)
    ensures RunWords(Init(Pow2(k), threads), choices) == Wrap(Run(Start(Pow2(k), threads), choices).ring)
  {
    hide Pow2, Inv, Wrap, LagOk, Step;
    var cap := Pow2(k);
    var s := Start(cap, threads);
    if choices == [] {
      StartIsWords(k, threads);
    } else {
      var n := |choices| - 1;
      var c := choices[n];
      forall i | 0 <= i < n ensures choices[..n][..i] == choices[..i] {
      }
      WordRunAgrees(k, threads, choices[..n]);
      CapAtLeastTwo(k);
      StartInv(cap, threads);
      RunKeepsInv(s, choices[..n]);
      RunKeepsCap(s, choices[..n]);
      WordStepAgrees(Run(s, choices[..n]), k, c.tid, c.action);
    }
  }
}
