// Lock-freedom of the ring buffer: a call is sent back to its loop only because
// another thread has won the tail or the head meanwhile, so retries are paid for
// by calls that succeed.
module RingProgress {
  import opened RingMachine
  import opened RingInvariant

  // ------------------------------------------------------------ one retry

  // The slot of the shared tail is never ahead of it, nor that of the head
  // beyond "published".
  lemma TailNotAhead(s: State)
    requires Inv(s)
    ensures s.ring.SeqAt(s.ring.tail) <= s.ring.tail
  {
    hide Slot, SlotsOk, ClaimsOk, ThreadsOk;
    var r := s.ring;
    if r.tail < r.head + r.cap {
      SlotFacts(s, r.tail);
    } else {
      SlotsRepeat(r.cap, r.head);
      SlotFacts(s, r.head);
    }
  }

  lemma HeadNotAhead(s: State)
    requires Inv(s)
    ensures s.ring.SeqAt(s.ring.head) <= s.ring.head + 1
  {
    hide Slot, SlotsOk, ClaimsOk, ThreadsOk;
    SlotFacts(s, s.ring.head);
  }

  // Thread t goes back to an earlier point of its call.
  ghost predicate Retries(s: State, t: nat)
    requires s.ring.WellFormed() && t < |s.ring.pcs|
  {
    var pc, pc' := s.ring.pcs[t], Next(s, Choice(t, Advance(false))).ring.pcs[t];
    || (pc.EnqLoadSeq? && pc'.EnqLoadTail?) || (pc.EnqCas? && pc'.EnqLoadSeq?)
    || (pc.DeqLoadSeq? && pc'.DeqLoadHead?) || (pc.DeqCas? && pc'.DeqLoadSeq?)
  }

  // Its saved position is behind the shared one, which another thread has moved.
  ghost predicate Overtaken(r: Ring, pc: Pc) {
    match pc
    case EnqLoadSeq(_, p) => p < r.tail
    case EnqCas(_, p) => p < r.tail
    case DeqLoadSeq(p) => p < r.head
    case DeqCas(p) => p < r.head
    case _ => false
  }

  lemma RetryMeansOvertaken(s: State, t: nat)
    requires Inv(s) && t < |s.ring.pcs| && Retries(s, t)
    ensures Overtaken(s.ring, s.ring.pcs[t])
  {
    hide Slot, SlotsOk, ClaimsOk;
    TailNotAhead(s);
    HeadNotAhead(s);
    assert PcOk(s.ring, s.hist, t, s.ring.pcs[t]);
  }

  // A call that has lost its race does go back, with the shared position.
  lemma LoserRetries(s: State, t: nat, spurious: bool)
    requires s.ring.WellFormed() && t < |s.ring.pcs|
    requires s.ring.pcs[t].EnqCas? || s.ring.pcs[t].DeqCas?
    requires s.ring.pcs[t].pos != (if s.ring.pcs[t].EnqCas? then s.ring.tail else s.ring.head)
    ensures Next(s, Choice(t, Advance(spurious))) ==
            s.(ring := s.ring.At(t, if s.ring.pcs[t].EnqCas? then EnqLoadSeq(s.ring.pcs[t].item, s.ring.tail)
                                    else DeqLoadSeq(s.ring.head)))
  {
    hide Slot, Ring.SeqAt, Ring.ItemAt;
  }

  // ------------------------------------------------------------- whole runs

  // Before its claim a call holds a share of 2n steps, with which it pays for
  // what its win costs the n threads.
  function Share(pc: Pc, n: nat): nat {
    match pc
    case EnqLoadTail(_) => 2 * n
    case EnqLoadSeq(_, _) => 2 * n
    case EnqCas(_, _) => 2 * n
    case DeqLoadHead => 2 * n
    case DeqLoadSeq(_) => 2 * n
    case DeqCas(_) => 2 * n
    case _ => 0
  }

  // The steps that a call may still take.
  function Rank(r: Ring, pc: Pc, n: nat): nat {
    Share(pc, n) +
    match pc
    case Idle => 0
    case EnqLoadTail(_) => 5
    case EnqLoadSeq(_, p) => if p == r.tail then 4 else 6
    case EnqCas(_, p) => if p == r.tail then 3 else 5
    case EnqWrite(_, _) => 2
    case EnqPublish(_, _) => 1
    case DeqLoadHead => 5
    case DeqLoadSeq(p) => if p == r.head then 4 else 6
    case DeqCas(p) => if p == r.head then 3 else 5
    case DeqRead(_) => 2
    case DeqRelease(_, _) => 1
    case PeekLoadHead(_) => 3
    case PeekLoadSeq(_, _) => 2
    case PeekRead(_, _) => 1
  }

  function Measure(r: Ring, pcs: seq<Pc>, n: nat): nat {
    if pcs == [] then 0 else Measure(r, pcs[..|pcs| - 1], n) + Rank(r, pcs[|pcs| - 1], n)
  }

  lemma {:induction false} MeasureUpdate(r: Ring, pcs: seq<Pc>, n: nat, t: nat, pc: Pc)
    requires t < |pcs|
    ensures Measure(r, pcs[t := pc], n) == Measure(r, pcs, n) - Rank(r, pcs[t], n) + Rank(r, pc, n)
  {
    hide Rank;
    var last := |pcs| - 1;
    if t == last {
      assert pcs[t := pc][..last] == pcs[..last];
    } else {
      assert pcs[t := pc][..last] == pcs[..last][t := pc];
      MeasureUpdate(r, pcs[..last], n, t, pc);
    }
  }

  // Only the head and the tail count, and moving them costs at most two steps a
  // thread.
  lemma {:induction false} MeasureMoves(r: Ring, r': Ring, pcs: seq<Pc>, n: nat)
    ensures Measure(r', pcs, n) <= Measure(r, pcs, n) + 2 * |pcs|
    ensures r'.head == r.head && r'.tail == r.tail ==> Measure(r', pcs, n) == Measure(r, pcs, n)
  {
    if pcs != [] { MeasureMoves(r, r', pcs[..|pcs| - 1], n); }
  }

  // One thread has moved from pc to pc', and all others stand where they stood.
  lemma MeasureStep(r: Ring, r': Ring, t: nat, n: nat)
    requires t < |r.pcs| == |r'.pcs| == n && r'.pcs == r.pcs[t := r'.pcs[t]]
    ensures Measure(r', r'.pcs, n) <= Measure(r, r.pcs, n) - Rank(r, r.pcs[t], n) + Rank(r', r'.pcs[t], n) + 2 * n
    ensures r'.head == r.head && r'.tail == r.tail ==>
              Measure(r', r'.pcs, n) == Measure(r, r.pcs, n) - Rank(r, r.pcs[t], n) + Rank(r', r'.pcs[t], n)
  {
    hide Rank;
    MeasureMoves(r, r', r.pcs[t := Idle], n);
    MeasureUpdate(r, r.pcs, n, t, Idle);
    MeasureUpdate(r', r.pcs[t := Idle], n, t, r'.pcs[t]);
    assert r.pcs[t := Idle][t := r'.pcs[t]] == r'.pcs;
    IdleRank(r, n);
    IdleRank(r', n);
  }

  lemma IdleRank(r: Ring, n: nat)
    ensures Rank(r, Idle, n) == 0
  {
  }

  // What a step does to its own thread's rank.  A winner gives up its share.
  lemma OwnRank(s: State, t: nat, spurious: bool, n: nat)
    requires Inv(s) && t < |s.ring.pcs| && !s.ring.pcs[t].Idle?
    ensures var r, r' := s.ring, Next(s, Choice(t, Advance(spurious))).ring;
            && |r'.pcs| == |r.pcs| && r'.pcs == r.pcs[t := r'.pcs[t]]
            && Rank(r', r'.pcs[t], n) < Rank(r, r.pcs[t], n) + (if spurious then 2 else 0)
            && (r'.head != r.head || r'.tail != r.tail ==> Rank(r', r'.pcs[t], n) + 2 * n < Rank(r, r.pcs[t], n))
  {
    hide Slot, SlotsOk, ClaimsOk, ThreadsOk, Ring.SeqAt, Ring.ItemAt;
    TailNotAhead(s);
    HeadNotAhead(s);
    OwnPc(s, t);
  }

  lemma AdvanceMeasure(s: State, t: nat, spurious: bool)
    requires Inv(s) && t < |s.ring.pcs| && !s.ring.pcs[t].Idle?
    ensures var r, r', n := s.ring, Next(s, Choice(t, Advance(spurious))).ring, |s.ring.pcs|;
            Measure(r', r'.pcs, n) < Measure(r, r.pcs, n) + if spurious then 2 else 0
  {
    hide SlotsOk, ClaimsOk, ThreadsOk, Rank, Next, Measure;
    OwnRank(s, t, spurious, |s.ring.pcs|);
    MeasureStep(s.ring, Next(s, Choice(t, Advance(spurious))).ring, t, |s.ring.pcs|);
  }

  lemma CallMeasure(s: State, c: Choice)
    requires s.ring.WellFormed() && c.tid < |s.ring.pcs| && s.ring.pcs[c.tid].Idle? && !c.action.Advance?
    ensures var r, r', n := s.ring, Next(s, c).ring, |s.ring.pcs|;
            Measure(r', r'.pcs, n) <= Measure(r, r.pcs, n) + 5 + 2 * n
  {
    hide Measure;
    MeasureStep(s.ring, Next(s, c).ring, c.tid, |s.ring.pcs|);
  }

  lemma {:induction false} StartMeasure(r: Ring, pcs: seq<Pc>, n: nat)
    requires forall i | 0 <= i < |pcs| :: pcs[i].Idle?
    ensures Measure(r, pcs, n) == 0
  {
    if pcs != [] { StartMeasure(r, pcs[..|pcs| - 1], n); }
  }

  // Calls start on idle threads, and running calls take steps.
  ghost predicate Effective(s: State, choices: seq<Choice>)
    requires s.ring.WellFormed() && Schedulable(choices, |s.ring.pcs|)
  {
    forall i {:trigger choices[i]} | 0 <= i < |choices| ::
      choices[i].action.Advance? <==> !Run(s, choices[..i]).ring.pcs[choices[i].tid].Idle?
  }

  function Calls(choices: seq<Choice>): nat {
    if choices == [] then 0
    else Calls(choices[..|choices| - 1]) + if choices[|choices| - 1].action.Advance? then 0 else 1
  }

  // Steps that a weak compare-and-swap may fail at for no reason.
  function Spurious(choices: seq<Choice>): nat {
    if choices == [] then 0
    else Spurious(choices[..|choices| - 1]) + if choices[|choices| - 1].action == Advance(true) then 1 else 0
  }

  lemma {:induction false} WorkSoFar(cap: nat, threads: nat, choices: seq<Choice>)
    requires cap >= 2 && Schedulable(choices, threads) && Effective(Start(cap, threads), choices)
    ensures var r := Run(Start(cap, threads), choices).ring;
            |choices| - Calls(choices) + Measure(r, r.pcs, threads) <= (5 + 2 * threads) * Calls(choices) + 2 * Spurious(choices)
  {
    hide Inv, Next, Measure;
    var s := Start(cap, threads);
    if choices == [] {
      StartMeasure(s.ring, s.ring.pcs, threads);
    } else {
      var n := |choices| - 1;
      var before, c := choices[..n], choices[n];
      forall i | 0 <= i < n ensures before[..i] == choices[..i] {
      }
      assert forall i | 0 <= i < n :: before[i] == choices[i];
      WorkSoFar(cap, threads, before);
      StartInv(cap, threads);
      RunKeepsInv(s, before);
      var s1 := Run(s, before);
      if c.action.Advance? {
        AdvanceMeasure(s1, c.tid, c.action.spurious);
      } else {
        CallMeasure(s1, c);
        assert (5 + 2 * threads) * (Calls(before) + 1) == (5 + 2 * threads) * Calls(before) + 5 + 2 * threads;
      }
    }
  }

  // The work of a run is bounded by the number of its calls and of spurious
  // failures, however its threads interleave.  So no thread is kept in its loop
  // for ever, and a run can only go on as long as calls are made.
  lemma WorkIsBounded(cap: nat, threads: nat, choices: seq<Choice>)
    requires cap >= 2 && Schedulable(choices, threads) && Effective(Start(cap, threads), choices)
    ensures |choices| <= (6 + 2 * threads) * Calls(choices) + 2 * Spurious(choices)
  {
    hide Effective, Run, Measure;
    WorkSoFar(cap, threads, choices);
    assert (6 + 2 * threads) * Calls(choices) == (5 + 2 * threads) * Calls(choices) + Calls(choices);
  }
}
