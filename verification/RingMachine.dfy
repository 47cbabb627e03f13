// The sequenced ring buffer as a transition system.  Any number of threads run
// enqueue, dequeue and peek; every atomic load, compare-and-swap, item access
// and sequence store is one step, and steps interleave arbitrarily.
//
// One step function serves two machines that differ only in arithmetic: with
// unbounded positions, or with 64-bit words and the wrapping signed difference.
module RingMachine {
  import opened Bits

  // A stored pointer; the queue never looks inside it.
  type Item = nat

  datatype Width = Unbounded | Word64

  function Norm(w: Width, p: nat): nat {
    if w.Unbounded? then p else p % WORD
  }

  // (intptr_t)a - (intptr_t)b
  function Diff(w: Width, a: nat, b: nat): int {
    if w.Unbounded? then a - b
    else
      var d := (a - b) % WORD;
      if d < WORD / 2 then d else d - WORD
  }

  // Where a thread is inside a call, with the call's local variables.
  datatype Pc =
    | Idle
    | EnqLoadTail(item: Item)
    | EnqLoadSeq(item: Item, pos: nat)
    | EnqCas(item: Item, pos: nat)
    | EnqWrite(item: Item, pos: nat)
    | EnqPublish(item: Item, pos: nat)
    | DeqLoadHead
    | DeqLoadSeq(pos: nat)
    | DeqCas(pos: nat)
    | DeqRead(pos: nat)
    | DeqRelease(pos: nat, got: Item)
    | PeekLoadHead(idx: nat)
    | PeekLoadSeq(idx: nat, pos: nat)
    | PeekRead(idx: nat, pos: nat)

  // The shared memory of one ring buffer and the threads that use it.
  datatype Ring = Ring(cap: nat, head: nat, tail: nat,
                       seqs: seq<nat>, items: seq<Item>, pcs: seq<Pc>)
  {
    ghost predicate WellFormed() {
      cap >= 1 && |seqs| == cap && |items| == cap
    }

    function SeqAt(p: nat): nat
      requires WellFormed()
    {
      seqs[Slot(cap, p)]
    }

    function ItemAt(p: nat): Item
      requires WellFormed()
    {
      items[Slot(cap, p)]
    }

    function At(t: nat, pc: Pc): Ring
      requires t < |pcs|
    {
      this.(pcs := pcs[t := pc])
    }

    function StoreSeq(p: nat, v: nat): Ring
      requires WellFormed()
    {
      this.(seqs := seqs[Slot(cap, p) := v])
    }

    function StoreItem(p: nat, x: Item): Ring
      requires WellFormed()
    {
      this.(items := items[Slot(cap, p) := x])
    }
  }

  // The slot of a position, lap by lap.
  function Slot(cap: nat, p: nat): (i: nat)
    requires cap >= 1
    ensures i < cap
  {
    if p < cap then p else Slot(cap, p - cap)
  }

  // It is the remainder, and for a power-of-two capacity `pos & mask`.
  lemma {:induction false} SlotIsRemainder(cap: nat, p: nat)
    requires cap >= 1
    ensures Slot(cap, p) == p % cap
  {
    if p < cap {
      ModSmall(p, cap);
    } else {
      SlotIsRemainder(cap, p - cap);
      ModShift(p - cap, cap, 1);
    }
  }

  lemma SlotIsMasked(k: nat, p: nat)
    ensures Slot(Pow2(k), p) == And(p, Pow2(k) - 1)
  {
    SlotIsRemainder(Pow2(k), p);
    AndMask(p, k);
  }

  // What the scheduler may do next with one thread: start a call on an idle
  // thread, or let a running call take its next step.  A weak compare-and-swap
  // may fail although the values agree.
  datatype Action =
    | CallEnqueue(item: Item)
    | CallDequeue
    | CallPeek(idx: nat)
    | Advance(spurious: bool)

  function Step(w: Width, r: Ring, t: nat, a: Action): (r': Ring)
    requires r.WellFormed() && t < |r.pcs|
    ensures r'.WellFormed() && r'.cap == r.cap && |r'.pcs| == |r.pcs|
    ensures forall u | 0 <= u < |r.pcs| && u != t :: r'.pcs[u] == r.pcs[u]
  {
    match a
    case CallEnqueue(x) => if r.pcs[t].Idle? then r.At(t, EnqLoadTail(x)) else r
    case CallDequeue => if r.pcs[t].Idle? then r.At(t, DeqLoadHead) else r
    case CallPeek(idx) => if r.pcs[t].Idle? then r.At(t, PeekLoadHead(idx)) else r
    case Advance(spurious) => Tick(w, r, t, spurious)
  }

  function Tick(w: Width, r: Ring, t: nat, spurious: bool): Ring
    requires r.WellFormed() && t < |r.pcs|
  {
    match r.pcs[t]
    case Idle => r
    // enqueue
    case EnqLoadTail(x) => r.At(t, EnqLoadSeq(x, r.tail))
    case EnqLoadSeq(x, p) =>
      var diff := Diff(w, r.SeqAt(p), p);
      if diff == 0 then r.At(t, EnqCas(x, p))
      else if diff < 0 then r.At(t, Idle) // full
      else r.At(t, EnqLoadTail(x))
    case EnqCas(x, p) =>
      if r.tail == p && !spurious then r.(tail := Norm(w, p + 1)).At(t, EnqWrite(x, p))
      else r.At(t, EnqLoadSeq(x, r.tail))
    case EnqWrite(x, p) => r.StoreItem(p, x).At(t, EnqPublish(x, p))
    case EnqPublish(x, p) => r.StoreSeq(p, Norm(w, p + 1)).At(t, Idle)
    // dequeue
    case DeqLoadHead => r.At(t, DeqLoadSeq(r.head))
    case DeqLoadSeq(p) =>
      var diff := Diff(w, r.SeqAt(p), Norm(w, p + 1));
      if diff == 0 then r.At(t, DeqCas(p))
      else if diff < 0 then r.At(t, Idle) // empty
      else r.At(t, DeqLoadHead)
    case DeqCas(p) =>
      if r.head == p && !spurious then r.(head := Norm(w, p + 1)).At(t, DeqRead(p))
      else r.At(t, DeqLoadSeq(r.head))
    case DeqRead(p) => r.At(t, DeqRelease(p, r.ItemAt(p)))
    case DeqRelease(p, _) => r.StoreSeq(p, Norm(w, p + r.cap)).At(t, Idle)
    // peek_at; peek is peek_at with offset 0
    case PeekLoadHead(idx) => r.At(t, PeekLoadSeq(idx, Norm(w, r.head + idx)))
    case PeekLoadSeq(idx, p) =>
      if Diff(w, r.SeqAt(p), Norm(w, p + 1)) == 0 then r.At(t, PeekRead(idx, p))
      else r.At(t, Idle)
    case PeekRead(_, _) => r.At(t, Idle)
  }

  // perf_ringbuf_create with `threads` idle threads attached.
  function Init(cap: nat, threads: nat): (r: Ring)
    requires cap >= 1
    ensures r.WellFormed()
  {
    Ring(cap, 0, 0, seq(cap, i => i), seq(cap, _ => 0), seq(threads, _ => Idle))
  }

  // -------------------------------------------------------------- histories

  // What the callers see: one event per returning call.
  datatype Event =
    | Stored(tid: nat, item: Item, pos: nat)
    | Full(tid: nat)
    | Taken(tid: nat, item: Item, pos: nat)
    | Empty(tid: nat)
    | Peeked(tid: nat, item: Item, idx: nat)
    | PeekMissed(tid: nat, idx: nat)

  // Auxiliary variables of the proof.  They watch the unbounded machine and
  // never influence it: the item claimed for each position, the thread between
  // its claim and its sequence store for each position, and the events so far.
  datatype Hist = Hist(log: seq<Item>, storing: map<nat, nat>, taking: map<nat, nat>,
                       events: seq<Event>)

  function Record(h: Hist, r: Ring, t: nat, a: Action): Hist
    requires r.WellFormed() && t < |r.pcs|
  {
    if !a.Advance? then h else
    match r.pcs[t]
    case EnqLoadSeq(x, p) => if r.SeqAt(p) < p then h.(events := h.events + [Full(t)]) else h
    case EnqCas(x, p) =>
      if r.tail == p && !a.spurious then h.(log := h.log + [x], storing := h.storing[p := t]) else h
    case EnqPublish(x, p) =>
      h.(storing := h.storing - {p}, events := h.events + [Stored(t, x, p)])
    case DeqLoadSeq(p) => if r.SeqAt(p) < p + 1 then h.(events := h.events + [Empty(t)]) else h
    case DeqCas(p) =>
      if r.head == p && !a.spurious then h.(taking := h.taking[p := t]) else h
    case DeqRelease(p, got) =>
      h.(taking := h.taking - {p}, events := h.events + [Taken(t, got, p)])
    case PeekLoadSeq(idx, p) =>
      if r.SeqAt(p) == p + 1 then h else h.(events := h.events + [PeekMissed(t, idx)])
    case PeekRead(idx, p) => h.(events := h.events + [Peeked(t, r.ItemAt(p), idx)])
    case _ => h
  }

  // A state of the unbounded machine together with its history.
  datatype State = State(ring: Ring, hist: Hist)

  // One scheduling decision: which thread, and what it does.
  datatype Choice = Choice(tid: nat, action: Action)

  function Next(s: State, c: Choice): (s': State)
    requires s.ring.WellFormed() && c.tid < |s.ring.pcs|
    ensures s'.ring.WellFormed() && |s'.ring.pcs| == |s.ring.pcs|
  {
    State(Step(Unbounded, s.ring, c.tid, c.action), Record(s.hist, s.ring, c.tid, c.action))
  }

  function Start(cap: nat, threads: nat): State
    requires cap >= 1
  {
    State(Init(cap, threads), Hist([], map[], map[], []))
  }

  predicate Schedulable(choices: seq<Choice>, threads: nat) {
    forall i | 0 <= i < |choices| :: choices[i].tid < threads
  }

  // The state after a whole run.
  function Run(s: State, choices: seq<Choice>): (s': State)
    requires s.ring.WellFormed() && Schedulable(choices, |s.ring.pcs|)
    ensures s'.ring.WellFormed() && |s'.ring.pcs| == |s.ring.pcs|
  {
    if choices == [] then s
    else Next(Run(s, choices[..|choices| - 1]), choices[|choices| - 1])
  }

  lemma {:induction false} RunKeepsCap(s: State, choices: seq<Choice>)
    requires s.ring.WellFormed() && Schedulable(choices, |s.ring.pcs|)
    ensures Run(s, choices).ring.cap == s.ring.cap
  {
    if choices != [] {
      RunKeepsCap(s, choices[..|choices| - 1]);
    }
  }
}
