// The invariant of the ring buffer over every interleaving: which of the four
// states each slot is in, and what each thread inside a call may rely on.
module RingInvariant {
  import opened RingMachine

  ghost predicate Shape(r: Ring, h: Hist) {
    && r.cap >= 2 && r.WellFormed()
    && r.head <= r.tail <= r.head + r.cap
    && |h.log| == r.tail
  }

  // The slot of a position in the queue: being written, or holding its item.
  ghost predicate FilledAt(r: Ring, h: Hist, p: nat)
    requires Shape(r, h) && p < r.tail
  {
    if p in h.storing then r.SeqAt(p) == p
    else r.SeqAt(p) == p + 1 && r.ItemAt(p) == h.log[p]
  }

  // The slot of a position to come: still being read out, or free.
  ghost predicate VacantAt(r: Ring, h: Hist, p: nat)
    requires Shape(r, h)
  {
    r.SeqAt(p) == if p - r.cap in h.taking then p - r.cap + 1 else p
  }

  ghost predicate SlotsOk(r: Ring, h: Hist)
    requires Shape(r, h)
  {
    && (forall p: nat {:trigger r.SeqAt(p)} | r.head <= p < r.tail :: FilledAt(r, h, p))
    && (forall p: nat {:trigger r.SeqAt(p)} | r.tail <= p < r.head + r.cap :: VacantAt(r, h, p))
  }

  // A claim in the history is the claim of the thread it names.
  ghost predicate StoringAt(r: Ring, h: Hist, p: nat)
    requires Shape(r, h) && p in h.storing
  {
    var u := h.storing[p];
    && r.head <= p < r.tail
    && u < |r.pcs| && (r.pcs[u].EnqWrite? || r.pcs[u].EnqPublish?) && r.pcs[u].pos == p
  }

  ghost predicate TakingAt(r: Ring, h: Hist, p: nat)
    requires Shape(r, h) && p in h.taking
  {
    var u := h.taking[p];
    && p < r.head && r.tail <= p + r.cap && r.ItemAt(p) == h.log[p]
    && u < |r.pcs| && (r.pcs[u].DeqRead? || r.pcs[u].DeqRelease?) && r.pcs[u].pos == p
  }

  ghost predicate ClaimsOk(r: Ring, h: Hist)
    requires Shape(r, h)
  {
    && (forall p | p in h.storing :: StoringAt(r, h, p))
    && (forall p | p in h.taking :: TakingAt(r, h, p))
  }

  // What a thread at each point of a call knows.
  ghost predicate PcOk(r: Ring, h: Hist, t: nat, pc: Pc)
    requires Shape(r, h)
  {
    match pc
    case EnqLoadSeq(_, p) => p <= r.tail
    case EnqCas(_, p) =>
      p <= r.tail && (p == r.tail ==> r.tail < r.head + r.cap && r.SeqAt(p) == p)
    case EnqWrite(x, p) => p in h.storing && h.storing[p] == t && r.head <= p < r.tail && h.log[p] == x
    case EnqPublish(x, p) =>
      p in h.storing && h.storing[p] == t && r.head <= p < r.tail && h.log[p] == x == r.ItemAt(p)
    case DeqLoadSeq(p) => p <= r.head
    case DeqCas(p) =>
      p <= r.head && (p == r.head ==> r.head < r.tail && r.SeqAt(p) == p + 1)
    case DeqRead(p) => p in h.taking && h.taking[p] == t && p < r.head
    case DeqRelease(p, got) =>
      p in h.taking && h.taking[p] == t && p < r.head && got == h.log[p]
    case _ => true
  }

  ghost predicate ThreadsOk(r: Ring, h: Hist)
    requires Shape(r, h)
  {
    forall t: nat {:trigger r.pcs[t]} | t < |r.pcs| :: PcOk(r, h, t, r.pcs[t])
  }

  ghost predicate Inv(s: State) {
    && Shape(s.ring, s.hist)
    && SlotsOk(s.ring, s.hist)
    && ClaimsOk(s.ring, s.hist)
    && ThreadsOk(s.ring, s.hist)
  }

  // ------------------------------------------------------------------ slots

  lemma {:induction false} SlotsDiffer(cap: nat, p: nat, q: nat)
    requires cap >= 1 && p < q < p + cap
    ensures Slot(cap, p) != Slot(cap, q)
  {
    if p >= cap {
      SlotsDiffer(cap, p - cap, q - cap);
    }
  }

  lemma SlotsRepeat(cap: nat, p: nat)
    requires cap >= 1
    ensures Slot(cap, p + cap) == Slot(cap, p)
  {
  }

  // The window [lo, lo + cap) visits every slot once.
  lemma WindowDistinct(cap: nat, lo: nat)
    requires cap >= 1
    ensures forall p: nat, q: nat {:trigger Slot(cap, p), Slot(cap, q)} |
              lo <= p < lo + cap && lo <= q < lo + cap && p != q :: Slot(cap, p) != Slot(cap, q)
  {
    forall p: nat, q: nat | lo <= p < lo + cap && lo <= q < lo + cap && p != q
      ensures Slot(cap, p) != Slot(cap, q)
    {
      if p < q { SlotsDiffer(cap, p, q); } else { SlotsDiffer(cap, q, p); }
    }
  }

  // Every position has its slot's current occupant in the window: itself when
  // it is in there, a whole number of laps later when it was left behind.
  lemma {:induction false} Occupant(cap: nat, lo: nat, p: nat) returns (q: nat)
    requires cap >= 1 && p < lo + cap
    ensures lo <= q < lo + cap && Slot(cap, q) == Slot(cap, p)
    ensures if p >= lo then q == p else q >= p + cap
    decreases lo + cap - p
  {
    if p >= lo {
      q := p;
    } else {
      SlotsRepeat(cap, p);
      q := Occupant(cap, lo, p + cap);
    }
  }

  // A store changes the slot of its own position and no other in the window.
  lemma StoreSeqEffect(r: Ring, r': Ring, lo: nat, p: nat, v: nat)
    requires r.WellFormed() && lo <= p < lo + r.cap
    requires r'.cap == r.cap && r'.seqs == r.StoreSeq(p, v).seqs && r'.items == r.items
    ensures r'.WellFormed() && r'.SeqAt(p) == v
    ensures forall q: nat {:trigger r'.SeqAt(q)} | lo <= q < lo + r.cap && q != p :: r'.SeqAt(q) == r.SeqAt(q)
    ensures forall q: nat {:trigger r'.ItemAt(q)} :: r'.ItemAt(q) == r.ItemAt(q)
  {
    WindowDistinct(r.cap, lo);
  }

  lemma StoreItemEffect(r: Ring, r': Ring, lo: nat, p: nat, x: Item)
    requires r.WellFormed() && lo <= p < lo + r.cap
    requires r'.cap == r.cap && r'.items == r.StoreItem(p, x).items && r'.seqs == r.seqs
    ensures r'.WellFormed() && r'.ItemAt(p) == x
    ensures forall q: nat {:trigger r'.ItemAt(q)} | lo <= q < lo + r.cap && q != p :: r'.ItemAt(q) == r.ItemAt(q)
    ensures forall q: nat {:trigger r'.SeqAt(q)} :: r'.SeqAt(q) == r.SeqAt(q)
  {
    WindowDistinct(r.cap, lo);
  }

  lemma SameMemory(r: Ring, r': Ring)
    requires r.WellFormed() && r'.cap == r.cap && r'.seqs == r.seqs && r'.items == r.items
    ensures r'.WellFormed()
    ensures forall q: nat {:trigger r'.SeqAt(q)} :: r'.SeqAt(q) == r.SeqAt(q)
    ensures forall q: nat {:trigger r'.ItemAt(q)} :: r'.ItemAt(q) == r.ItemAt(q)
  {
  }

  // ------------------------------------------- what a sequence number reveals

  // The invariant at one position of the window.
  lemma SlotFacts(s: State, p: nat)
    requires Inv(s) && s.ring.head <= p < s.ring.head + s.ring.cap
    ensures if p < s.ring.tail then FilledAt(s.ring, s.hist, p) else VacantAt(s.ring, s.hist, p)
  {
    assert s.ring.SeqAt(p) == s.ring.SeqAt(p);
  }

  // A saved tail whose slot has not caught up is the current tail, and the
  // position one lap before it has not been released.
  lemma TailBehind(s: State, p: nat)
    requires Inv(s) && p <= s.ring.tail && s.ring.SeqAt(p) < p
    ensures p == s.ring.tail && p - s.ring.cap <= s.ring.SeqAt(p)
    ensures s.ring.tail == s.ring.head + s.ring.cap || p - s.ring.cap in s.hist.taking
  {
    hide Slot, SlotsOk, ClaimsOk, ThreadsOk;
    var r := s.ring;
    if p < r.head + r.cap {
      var q := Occupant(r.cap, r.head, p);
      SlotFacts(s, q);
    } else {
      SlotsRepeat(r.cap, r.head);
      SlotFacts(s, r.head);
    }
  }

  // A saved tail whose slot is ready is either stale, or current with room.
  lemma TailReady(s: State, p: nat)
    requires Inv(s) && p <= s.ring.tail && s.ring.SeqAt(p) == p
    ensures p == s.ring.tail ==> p < s.ring.head + s.ring.cap
  {
    hide Slot, SlotsOk, ClaimsOk, ThreadsOk;
    SlotsRepeat(s.ring.cap, s.ring.head);
    SlotFacts(s, s.ring.head);
  }

  lemma HeadBehind(s: State, p: nat)
    requires Inv(s) && p <= s.ring.head && s.ring.SeqAt(p) < p + 1
    ensures p == s.ring.head
    ensures s.ring.head == s.ring.tail || p in s.hist.storing
  {
    hide Slot, SlotsOk, ClaimsOk, ThreadsOk;
    var q := Occupant(s.ring.cap, s.ring.head, p);
    SlotFacts(s, q);
  }

  lemma HeadReady(s: State, p: nat)
    requires Inv(s) && p <= s.ring.head && s.ring.SeqAt(p) == p + 1
    ensures p == s.ring.head ==> p < s.ring.tail && p !in s.hist.storing
  {
    hide Slot, SlotsOk, ClaimsOk, ThreadsOk;
    SlotFacts(s, s.ring.head);
  }

  // ----------------------------------------------------------- preservation

  lemma StartInv(cap: nat, threads: nat)
    requires cap >= 2
    ensures Inv(Start(cap, threads))
  {
    var s := Start(cap, threads);
    forall p: nat | p < cap ensures VacantAt(s.ring, s.hist, p) {
    }
  }

  ghost predicate Claiming(pc: Pc) {
    pc.EnqWrite? || pc.EnqPublish? || pc.DeqRead? || pc.DeqRelease?
  }

  // Without a claiming thread no claim is open.
  lemma NoClaims(s: State)
    requires Inv(s) && forall t: nat | t < |s.ring.pcs| :: !Claiming(s.ring.pcs[t])
    ensures s.hist.storing == map[] && s.hist.taking == map[]
  {
    assert forall p: nat :: p !in s.hist.storing && p !in s.hist.taking;
  }

  // The invariant at one thread, and at one position being taken.
  lemma OwnPc(s: State, t: nat)
    requires Inv(s) && t < |s.ring.pcs|
    ensures PcOk(s.ring, s.hist, t, s.ring.pcs[t])
  {
  }

  lemma TakingFacts(s: State, p: nat)
    requires Inv(s) && p in s.hist.taking
    ensures TakingAt(s.ring, s.hist, p)
  {
  }

  // A position and the one a lap later share everything.
  lemma LapBefore(r: Ring, p: nat)
    requires r.WellFormed()
    ensures r.SeqAt(p + r.cap) == r.SeqAt(p) && r.ItemAt(p + r.cap) == r.ItemAt(p)
  {
    SlotsRepeat(r.cap, p);
  }

  // A step that leaves the slots, the head, the tail and the claims as they are.
  ghost predicate Moves(s: State, s': State, t: nat, pc: Pc) {
    && Inv(s) && t < |s.ring.pcs| && PcOk(s.ring, s.hist, t, pc)
    && !Claiming(s.ring.pcs[t]) && !Claiming(pc)
    && s' == State(s.ring.At(t, pc), s.hist.(events := s'.hist.events))
  }

  lemma MovesSlots(s: State, s': State, t: nat, pc: Pc)
    requires Moves(s, s', t, pc)
    ensures Shape(s'.ring, s'.hist) && SlotsOk(s'.ring, s'.hist)
  {
    hide Slot, Ring.SeqAt, Ring.ItemAt, ClaimsOk, ThreadsOk;
    var r, r', h, h' := s.ring, s'.ring, s.hist, s'.hist;
    SameMemory(r, r');
    forall q: nat | r.head <= q < r.tail ensures FilledAt(r', h', q) { assert FilledAt(r, h, q); }
    forall q: nat | r.tail <= q < r.head + r.cap ensures VacantAt(r', h', q) { assert VacantAt(r, h, q); }
  }

  lemma MovesClaims(s: State, s': State, t: nat, pc: Pc)
    requires Moves(s, s', t, pc)
    ensures Shape(s'.ring, s'.hist) && ClaimsOk(s'.ring, s'.hist)
  {
    hide Slot, Ring.SeqAt, Ring.ItemAt, SlotsOk, ThreadsOk;
    var r, r', h, h' := s.ring, s'.ring, s.hist, s'.hist;
    SameMemory(r, r');
    forall q | q in h'.storing ensures StoringAt(r', h', q) { assert StoringAt(r, h, q); }
    forall q | q in h'.taking ensures TakingAt(r', h', q) { assert TakingAt(r, h, q); }
  }

  lemma MovesThreads(s: State, s': State, t: nat, pc: Pc)
    requires Moves(s, s', t, pc)
    ensures Shape(s'.ring, s'.hist) && ThreadsOk(s'.ring, s'.hist)
  {
    hide Slot, Ring.SeqAt, Ring.ItemAt, SlotsOk, ClaimsOk;
    var r, r', h, h' := s.ring, s'.ring, s.hist, s'.hist;
    SameMemory(r, r');
    forall u: nat | u < |r.pcs| ensures PcOk(r', h', u, r'.pcs[u]) { assert PcOk(r, h, u, r.pcs[u]); }
  }

  lemma MoveKeepsInv(s: State, s': State, t: nat, pc: Pc)
    requires Moves(s, s', t, pc)
    ensures Inv(s')
  {
    hide SlotsOk, ClaimsOk, ThreadsOk, Shape;
    MovesSlots(s, s', t, pc);
    MovesClaims(s, s', t, pc);
    MovesThreads(s, s', t, pc);
  }

  // The winner of the tail owns a free slot.
  ghost predicate TailWon(s: State, s': State, t: nat, x: Item) {
    && Inv(s) && t < |s.ring.pcs| && s.ring.pcs[t] == EnqCas(x, s.ring.tail)
    && s' == State(s.ring.(tail := s.ring.tail + 1).At(t, EnqWrite(x, s.ring.tail)),
                   s.hist.(log := s.hist.log + [x], storing := s.hist.storing[s.ring.tail := t]))
  }

  lemma TailWonSlots(s: State, s': State, t: nat, x: Item)
    requires TailWon(s, s', t, x)
    ensures Shape(s'.ring, s'.hist) && SlotsOk(s'.ring, s'.hist)
  {
    hide Slot, Ring.SeqAt, Ring.ItemAt, ClaimsOk, ThreadsOk;
    var r, r', h, h' := s.ring, s'.ring, s.hist, s'.hist;
    SameMemory(r, r');
    OwnPc(s, t);
    forall q: nat | r.head <= q < r'.tail ensures FilledAt(r', h', q) { if q < r.tail { assert FilledAt(r, h, q); } }
    forall q: nat | r'.tail <= q < r.head + r.cap ensures VacantAt(r', h', q) { assert VacantAt(r, h, q); }
  }

  lemma TailWonClaims(s: State, s': State, t: nat, x: Item)
    requires TailWon(s, s', t, x)
    ensures Shape(s'.ring, s'.hist) && ClaimsOk(s'.ring, s'.hist)
  {
    hide Slot, Ring.SeqAt, Ring.ItemAt, SlotsOk, ThreadsOk;
    var r, r', h, h' := s.ring, s'.ring, s.hist, s'.hist;
    SameMemory(r, r');
    OwnPc(s, t);
    SlotFacts(s, r.tail);
    forall q | q in h'.storing ensures StoringAt(r', h', q) { if q in h.storing { assert StoringAt(r, h, q); } }
    forall q | q in h'.taking ensures TakingAt(r', h', q) { assert TakingAt(r, h, q); }
  }

  lemma TailWonThreads(s: State, s': State, t: nat, x: Item)
    requires TailWon(s, s', t, x)
    ensures Shape(s'.ring, s'.hist) && ThreadsOk(s'.ring, s'.hist)
  {
    hide Slot, Ring.SeqAt, Ring.ItemAt, SlotsOk, ClaimsOk;
    var r, r', h, h' := s.ring, s'.ring, s.hist, s'.hist;
    SameMemory(r, r');
    OwnPc(s, t);
    forall u: nat | u < |r.pcs| ensures PcOk(r', h', u, r'.pcs[u]) { assert PcOk(r, h, u, r.pcs[u]); }
  }

  lemma ClaimTailKeepsInv(s: State, s': State, t: nat, x: Item)
    requires TailWon(s, s', t, x)
    ensures Inv(s')
  {
    hide SlotsOk, ClaimsOk, ThreadsOk, Shape;
    TailWonSlots(s, s', t, x);
    TailWonClaims(s, s', t, x);
    TailWonThreads(s, s', t, x);
  }

  ghost predicate Writes(s: State, s': State, t: nat, x: Item, p: nat) {
    && Inv(s) && t < |s.ring.pcs| && s.ring.pcs[t] == EnqWrite(x, p)
    && s' == State(s.ring.StoreItem(p, x).At(t, EnqPublish(x, p)), s.hist)
  }

  lemma WritesSlots(s: State, s': State, t: nat, x: Item, p: nat)
    requires Writes(s, s', t, x, p)
    ensures Shape(s'.ring, s'.hist) && SlotsOk(s'.ring, s'.hist)
  {
    hide Slot, Ring.SeqAt, Ring.ItemAt, ClaimsOk, ThreadsOk;
    var r, r', h, h' := s.ring, s'.ring, s.hist, s'.hist;
    OwnPc(s, t);
    StoreItemEffect(r, r', r.head, p, x);
    forall q: nat | r.head <= q < r.tail ensures FilledAt(r', h', q) { assert FilledAt(r, h, q); }
    forall q: nat | r.tail <= q < r.head + r.cap ensures VacantAt(r', h', q) { assert VacantAt(r, h, q); }
  }

  lemma WritesClaims(s: State, s': State, t: nat, x: Item, p: nat)
    requires Writes(s, s', t, x, p)
    ensures Shape(s'.ring, s'.hist) && ClaimsOk(s'.ring, s'.hist)
  {
    hide Slot, Ring.SeqAt, Ring.ItemAt, SlotsOk, ThreadsOk;
    var r, r', h, h' := s.ring, s'.ring, s.hist, s'.hist;
    OwnPc(s, t);
    StoreItemEffect(r, r', r.head, p, x);
    forall q | q in h'.storing ensures StoringAt(r', h', q) { assert StoringAt(r, h, q); }
    forall q | q in h'.taking ensures TakingAt(r', h', q) {
      assert TakingAt(r, h, q);
      LapBefore(r, q);
      LapBefore(r', q);
    }
  }

  lemma WritesThreads(s: State, s': State, t: nat, x: Item, p: nat)
    requires Writes(s, s', t, x, p)
    ensures Shape(s'.ring, s'.hist) && ThreadsOk(s'.ring, s'.hist)
  {
    hide Slot, Ring.SeqAt, Ring.ItemAt, SlotsOk, ClaimsOk;
    var r, r', h, h' := s.ring, s'.ring, s.hist, s'.hist;
    OwnPc(s, t);
    StoreItemEffect(r, r', r.head, p, x);
    forall u: nat | u < |r.pcs| ensures PcOk(r', h', u, r'.pcs[u]) { assert PcOk(r, h, u, r.pcs[u]); }
  }

  lemma WriteKeepsInv(s: State, s': State, t: nat, x: Item, p: nat)
    requires Writes(s, s', t, x, p)
    ensures Inv(s')
  {
    hide SlotsOk, ClaimsOk, ThreadsOk, Shape;
    WritesSlots(s, s', t, x, p);
    WritesClaims(s, s', t, x, p);
    WritesThreads(s, s', t, x, p);
  }

  ghost predicate Publishes(s: State, s': State, t: nat, x: Item, p: nat) {
    && Inv(s) && t < |s.ring.pcs| && s.ring.pcs[t] == EnqPublish(x, p)
    && s' == State(s.ring.StoreSeq(p, p + 1).At(t, Idle),
                   s.hist.(storing := s.hist.storing - {p}, events := s'.hist.events))
  }

  lemma PublishesSlots(s: State, s': State, t: nat, x: Item, p: nat)
    requires Publishes(s, s', t, x, p)
    ensures Shape(s'.ring, s'.hist) && SlotsOk(s'.ring, s'.hist)
  {
    hide Slot, Ring.SeqAt, Ring.ItemAt, ClaimsOk, ThreadsOk;
    var r, r', h, h' := s.ring, s'.ring, s.hist, s'.hist;
    OwnPc(s, t);
    StoreSeqEffect(r, r', r.head, p, p + 1);
    forall q: nat | r.head <= q < r.tail ensures FilledAt(r', h', q) { assert FilledAt(r, h, q); }
    forall q: nat | r.tail <= q < r.head + r.cap ensures VacantAt(r', h', q) { assert VacantAt(r, h, q); }
  }

  lemma PublishesClaims(s: State, s': State, t: nat, x: Item, p: nat)
    requires Publishes(s, s', t, x, p)
    ensures Shape(s'.ring, s'.hist) && ClaimsOk(s'.ring, s'.hist)
  {
    hide Slot, Ring.SeqAt, Ring.ItemAt, SlotsOk, ThreadsOk;
    var r, r', h, h' := s.ring, s'.ring, s.hist, s'.hist;
    OwnPc(s, t);
    StoreSeqEffect(r, r', r.head, p, p + 1);
    forall q | q in h'.storing ensures StoringAt(r', h', q) { assert StoringAt(r, h, q); }
    forall q | q in h'.taking ensures TakingAt(r', h', q) { assert TakingAt(r, h, q); }
  }

  lemma PublishesThreads(s: State, s': State, t: nat, x: Item, p: nat)
    requires Publishes(s, s', t, x, p)
    ensures Shape(s'.ring, s'.hist) && ThreadsOk(s'.ring, s'.hist)
  {
    hide Slot, Ring.SeqAt, Ring.ItemAt, SlotsOk, ClaimsOk;
    var r, r', h, h' := s.ring, s'.ring, s.hist, s'.hist;
    OwnPc(s, t);
    StoreSeqEffect(r, r', r.head, p, p + 1);
    SlotFacts(s, p);
    forall u: nat | u < |r.pcs| ensures PcOk(r', h', u, r'.pcs[u]) { assert PcOk(r, h, u, r.pcs[u]); }
  }

  lemma PublishKeepsInv(s: State, s': State, t: nat, x: Item, p: nat)
    requires Publishes(s, s', t, x, p)
    ensures Inv(s')
  {
    hide SlotsOk, ClaimsOk, ThreadsOk, Shape;
    PublishesSlots(s, s', t, x, p);
    PublishesClaims(s, s', t, x, p);
    PublishesThreads(s, s', t, x, p);
  }

  // The winner of the head owns a slot with a published item.
  ghost predicate HeadWon(s: State, s': State, t: nat) {
    && Inv(s) && t < |s.ring.pcs| && s.ring.pcs[t] == DeqCas(s.ring.head)
    && s' == State(s.ring.(head := s.ring.head + 1).At(t, DeqRead(s.ring.head)),
                   s.hist.(taking := s.hist.taking[s.ring.head := t]))
  }

  lemma HeadWonSlots(s: State, s': State, t: nat)
    requires HeadWon(s, s', t)
    ensures Shape(s'.ring, s'.hist) && SlotsOk(s'.ring, s'.hist)
  {
    hide Slot, Ring.SeqAt, Ring.ItemAt, ClaimsOk, ThreadsOk;
    var r, r', h, h' := s.ring, s'.ring, s.hist, s'.hist;
    SameMemory(r, r');
    OwnPc(s, t);
    LapBefore(r, r.head);
    forall q: nat | r'.head <= q < r.tail ensures FilledAt(r', h', q) { assert FilledAt(r, h, q); }
    forall q: nat | r.tail <= q < r'.head + r.cap ensures VacantAt(r', h', q) {
      if q < r.head + r.cap { assert VacantAt(r, h, q); }
    }
  }

  lemma HeadWonClaims(s: State, s': State, t: nat)
    requires HeadWon(s, s', t)
    ensures Shape(s'.ring, s'.hist) && ClaimsOk(s'.ring, s'.hist)
  {
    hide Slot, Ring.SeqAt, Ring.ItemAt, SlotsOk, ThreadsOk;
    var r, r', h, h' := s.ring, s'.ring, s.hist, s'.hist;
    SameMemory(r, r');
    OwnPc(s, t);
    SlotFacts(s, r.head);
    forall q | q in h'.storing ensures StoringAt(r', h', q) { assert StoringAt(r, h, q); }
    forall q | q in h'.taking ensures TakingAt(r', h', q) { if q in h.taking { assert TakingAt(r, h, q); } }
  }

  lemma HeadWonThreads(s: State, s': State, t: nat)
    requires HeadWon(s, s', t)
    ensures Shape(s'.ring, s'.hist) && ThreadsOk(s'.ring, s'.hist)
  {
    hide Slot, Ring.SeqAt, Ring.ItemAt, SlotsOk, ClaimsOk;
    var r, r', h, h' := s.ring, s'.ring, s.hist, s'.hist;
    SameMemory(r, r');
    OwnPc(s, t);
    SlotFacts(s, r.head);
    forall u: nat | u < |r.pcs| ensures PcOk(r', h', u, r'.pcs[u]) { assert PcOk(r, h, u, r.pcs[u]); }
  }

  lemma ClaimHeadKeepsInv(s: State, s': State, t: nat)
    requires HeadWon(s, s', t)
    ensures Inv(s')
  {
    hide SlotsOk, ClaimsOk, ThreadsOk, Shape;
    HeadWonSlots(s, s', t);
    HeadWonClaims(s, s', t);
    HeadWonThreads(s, s', t);
  }

  ghost predicate Reads(s: State, s': State, t: nat, p: nat) {
    && Inv(s) && t < |s.ring.pcs| && s.ring.pcs[t] == DeqRead(p)
    && s' == State(s.ring.At(t, DeqRelease(p, s.ring.ItemAt(p))), s.hist)
  }

  lemma ReadsSlots(s: State, s': State, t: nat, p: nat)
    requires Reads(s, s', t, p)
    ensures Shape(s'.ring, s'.hist) && SlotsOk(s'.ring, s'.hist)
  {
    hide Slot, Ring.SeqAt, Ring.ItemAt, ClaimsOk, ThreadsOk;
    var r, r', h, h' := s.ring, s'.ring, s.hist, s'.hist;
    SameMemory(r, r');
    forall q: nat | r.head <= q < r.tail ensures FilledAt(r', h', q) { assert FilledAt(r, h, q); }
    forall q: nat | r.tail <= q < r.head + r.cap ensures VacantAt(r', h', q) { assert VacantAt(r, h, q); }
  }

  lemma ReadsClaims(s: State, s': State, t: nat, p: nat)
    requires Reads(s, s', t, p)
    ensures Shape(s'.ring, s'.hist) && ClaimsOk(s'.ring, s'.hist)
  {
    hide Slot, Ring.SeqAt, Ring.ItemAt, SlotsOk, ThreadsOk;
    var r, r', h, h' := s.ring, s'.ring, s.hist, s'.hist;
    SameMemory(r, r');
    OwnPc(s, t);
    forall q | q in h'.storing ensures StoringAt(r', h', q) { assert StoringAt(r, h, q); }
    forall q | q in h'.taking ensures TakingAt(r', h', q) { assert TakingAt(r, h, q); }
  }

  lemma ReadsThreads(s: State, s': State, t: nat, p: nat)
    requires Reads(s, s', t, p)
    ensures Shape(s'.ring, s'.hist) && ThreadsOk(s'.ring, s'.hist)
  {
    hide Slot, Ring.SeqAt, Ring.ItemAt, SlotsOk, ClaimsOk;
    var r, r', h, h' := s.ring, s'.ring, s.hist, s'.hist;
    SameMemory(r, r');
    OwnPc(s, t);
    TakingFacts(s, p);
    forall u: nat | u < |r.pcs| ensures PcOk(r', h', u, r'.pcs[u]) { assert PcOk(r, h, u, r.pcs[u]); }
  }

  lemma ReadKeepsInv(s: State, s': State, t: nat, p: nat)
    requires Reads(s, s', t, p)
    ensures Inv(s')
  {
    hide SlotsOk, ClaimsOk, ThreadsOk, Shape;
    ReadsSlots(s, s', t, p);
    ReadsClaims(s, s', t, p);
    ReadsThreads(s, s', t, p);
  }

  ghost predicate Releases(s: State, s': State, t: nat, p: nat, got: Item) {
    && Inv(s) && t < |s.ring.pcs| && s.ring.pcs[t] == DeqRelease(p, got)
    && s' == State(s.ring.StoreSeq(p, p + s.ring.cap).At(t, Idle),
                   s.hist.(taking := s.hist.taking - {p}, events := s'.hist.events))
  }

  lemma ReleasesSlots(s: State, s': State, t: nat, p: nat, got: Item)
    requires Releases(s, s', t, p, got)
    ensures Shape(s'.ring, s'.hist) && SlotsOk(s'.ring, s'.hist)
  {
    hide Slot, Ring.SeqAt, Ring.ItemAt, ClaimsOk, ThreadsOk;
    var r, r', h, h' := s.ring, s'.ring, s.hist, s'.hist;
    OwnPc(s, t);
    TakingFacts(s, p);
    SlotsRepeat(r.cap, p);
    StoreSeqEffect(r, r', r.head, p + r.cap, p + r.cap);
    forall q: nat | r.head <= q < r.tail ensures FilledAt(r', h', q) { assert FilledAt(r, h, q); }
    forall q: nat | r.tail <= q < r.head + r.cap ensures VacantAt(r', h', q) { assert VacantAt(r, h, q); }
  }

  lemma ReleasesClaims(s: State, s': State, t: nat, p: nat, got: Item)
    requires Releases(s, s', t, p, got)
    ensures Shape(s'.ring, s'.hist) && ClaimsOk(s'.ring, s'.hist)
  {
    hide Slot, Ring.SeqAt, Ring.ItemAt, SlotsOk, ThreadsOk;
    var r, r', h, h' := s.ring, s'.ring, s.hist, s'.hist;
    OwnPc(s, t);
    TakingFacts(s, p);
    SlotsRepeat(r.cap, p);
    StoreSeqEffect(r, r', r.head, p + r.cap, p + r.cap);
    forall q | q in h'.storing ensures StoringAt(r', h', q) { assert StoringAt(r, h, q); }
    forall q | q in h'.taking ensures TakingAt(r', h', q) { assert TakingAt(r, h, q); }
  }

  lemma ReleasesThreads(s: State, s': State, t: nat, p: nat, got: Item)
    requires Releases(s, s', t, p, got)
    ensures Shape(s'.ring, s'.hist) && ThreadsOk(s'.ring, s'.hist)
  {
    hide Slot, Ring.SeqAt, Ring.ItemAt, SlotsOk, ClaimsOk;
    var r, r', h, h' := s.ring, s'.ring, s.hist, s'.hist;
    OwnPc(s, t);
    TakingFacts(s, p);
    SlotsRepeat(r.cap, p);
    StoreSeqEffect(r, r', r.head, p + r.cap, p + r.cap);
    SlotFacts(s, p + r.cap);
    forall u: nat | u < |r.pcs| ensures PcOk(r', h', u, r'.pcs[u]) { assert PcOk(r, h, u, r.pcs[u]); }
  }

  lemma ReleaseKeepsInv(s: State, s': State, t: nat, p: nat, got: Item)
    requires Releases(s, s', t, p, got)
    ensures Inv(s')
  {
    hide SlotsOk, ClaimsOk, ThreadsOk, Shape;
    ReleasesSlots(s, s', t, p, got);
    ReleasesClaims(s, s', t, p, got);
    ReleasesThreads(s, s', t, p, got);
  }

  // Every step of every thread keeps the invariant.
  lemma NextKeepsInv(s: State, c: Choice)
    requires Inv(s) && c.tid < |s.ring.pcs|
    ensures Inv(Next(s, c))
  {
    hide Slot, SlotsOk, ClaimsOk, ThreadsOk, Ring.ItemAt;
    var r, t := s.ring, c.tid;
    OwnPc(s, t);
    var s' := Next(s, c);
    if !c.action.Advance? {
      if r.pcs[t].Idle? {
        MoveKeepsInv(s, s', t, s'.ring.pcs[t]);
      }
    } else {
      match r.pcs[t]
      case Idle =>
      case EnqLoadSeq(x, p) =>
        if r.SeqAt(p) == p { TailReady(s, p); }
        MoveKeepsInv(s, s', t, s'.ring.pcs[t]);
      case EnqCas(x, p) =>
        if r.tail == p && !c.action.spurious {
          ClaimTailKeepsInv(s, s', t, x);
        } else {
          MoveKeepsInv(s, s', t, s'.ring.pcs[t]);
        }
      case EnqWrite(x, p) => WriteKeepsInv(s, s', t, x, p);
      case EnqPublish(x, p) => PublishKeepsInv(s, s', t, x, p);
      case DeqLoadSeq(p) =>
        if r.SeqAt(p) == p + 1 { HeadReady(s, p); }
        MoveKeepsInv(s, s', t, s'.ring.pcs[t]);
      case DeqCas(p) =>
        if r.head == p && !c.action.spurious {
          ClaimHeadKeepsInv(s, s', t);
        } else {
          MoveKeepsInv(s, s', t, s'.ring.pcs[t]);
        }
      case DeqRead(p) => ReadKeepsInv(s, s', t, p);
      case DeqRelease(p, got) => ReleaseKeepsInv(s, s', t, p, got);
      case _ => MoveKeepsInv(s, s', t, s'.ring.pcs[t]);
    }
  }

  // The invariant holds after every run of every number of threads.
  lemma {:induction false} RunKeepsInv(s: State, choices: seq<Choice>)
    requires Inv(s) && Schedulable(choices, |s.ring.pcs|)
    ensures Inv(Run(s, choices))
  {
    if choices != [] {
      RunKeepsInv(s, choices[..|choices| - 1]);
      NextKeepsInv(Run(s, choices[..|choices| - 1]), choices[|choices| - 1]);
    }
  }
}
