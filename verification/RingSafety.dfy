// What the invariant means to a user of the ring buffer: one owner per slot, a
// bounded queue, first-in first-out order, and nothing lost or invented over a
// whole run.
module RingSafety {
  import opened RingMachine
  import opened RingInvariant

  // ---------------------------------------------------- one state per slot

  datatype SlotState =
    | FreeFor(pos: nat)
    | BeingStored(pos: nat, tid: nat)
    | Holding(pos: nat, item: Item)
    | BeingTaken(pos: nat, tid: nat)

  // Read off the machine alone, without the auxiliary history.
  ghost predicate SlotIs(r: Ring, i: nat, st: SlotState)
    requires r.WellFormed() && i < r.cap
  {
    && Slot(r.cap, st.pos) == i
    && match st
       case FreeFor(p) => r.tail <= p < r.head + r.cap && r.seqs[i] == p
       case BeingStored(p, t) =>
         && r.head <= p < r.tail && r.seqs[i] == p
         && t < |r.pcs| && (r.pcs[t].EnqWrite? || r.pcs[t].EnqPublish?) && r.pcs[t].pos == p
       case Holding(p, x) => r.head <= p < r.tail && r.seqs[i] == p + 1 && r.items[i] == x
       case BeingTaken(p, t) =>
         && p < r.head && r.tail <= p + r.cap && r.seqs[i] == p + 1
         && t < |r.pcs| && (r.pcs[t].DeqRead? || r.pcs[t].DeqRelease?) && r.pcs[t].pos == p
  }

  // The state of the slot of a window position, by the history.
  ghost function StateOf(s: State, p: nat): SlotState
    requires Inv(s) && s.ring.head <= p < s.ring.head + s.ring.cap
  {
    if p < s.ring.tail then
      if p in s.hist.storing then BeingStored(p, s.hist.storing[p]) else Holding(p, s.hist.log[p])
    else
      if p - s.ring.cap in s.hist.taking
      then BeingTaken(p - s.ring.cap, s.hist.taking[p - s.ring.cap])
      else FreeFor(p)
  }

  lemma StateOfHolds(s: State, p: nat)
    requires Inv(s) && s.ring.head <= p < s.ring.head + s.ring.cap
    ensures SlotIs(s.ring, Slot(s.ring.cap, p), StateOf(s, p))
  {
    hide Slot, SlotsOk, ThreadsOk;
    var r := s.ring;
    SlotFacts(s, p);
    if p >= r.cap {
      LapBefore(r, p - r.cap);
      SlotsRepeat(r.cap, p - r.cap);
    }
  }

  lemma StateOfOnly(s: State, p: nat, st: SlotState)
    requires Inv(s) && s.ring.head <= p < s.ring.head + s.ring.cap
    requires SlotIs(s.ring, Slot(s.ring.cap, p), st)
    ensures st == StateOf(s, p)
  {
    hide Slot, SlotsOk;
    var r := s.ring;
    SlotFacts(s, p);
    WindowDistinct(r.cap, r.head);
    if st.BeingTaken? {
      SlotsRepeat(r.cap, st.pos);
      assert st.pos + r.cap == p;
    } else {
      assert st.pos == p;
    }
  }

  // In every reachable state every slot is in exactly one of the four states.
  lemma SlotHasOneState(s: State, i: nat)
    requires Inv(s) && i < s.ring.cap
    ensures exists st :: SlotIs(s.ring, i, st) && forall st' | SlotIs(s.ring, i, st') :: st' == st
  {
    var p := Occupant(s.ring.cap, s.ring.head, i);
    assert Slot(s.ring.cap, i) == i;
    StateOfHolds(s, p);
    forall st | SlotIs(s.ring, i, st) ensures st == StateOf(s, p) {
      StateOfOnly(s, p, st);
    }
  }

  // Two threads between claim and sequence store never share a slot, so no
  // item is read and written at once.
  lemma ExclusiveSlots(s: State, t: nat, u: nat)
    requires Inv(s) && t < |s.ring.pcs| && u < |s.ring.pcs| && t != u
    requires Claiming(s.ring.pcs[t]) && Claiming(s.ring.pcs[u])
    ensures Slot(s.ring.cap, s.ring.pcs[t].pos) != Slot(s.ring.cap, s.ring.pcs[u].pos)
  {
    hide Slot;
    var r := s.ring;
    var p := InWindow(s, t);
    var q := InWindow(s, u);
    WindowDistinct(r.cap, r.head);
  }

  // The window position that a claiming thread's slot belongs to.
  lemma InWindow(s: State, t: nat) returns (p: nat)
    requires Inv(s) && t < |s.ring.pcs| && Claiming(s.ring.pcs[t])
    ensures s.ring.head <= p < s.ring.head + s.ring.cap
    ensures Slot(s.ring.cap, p) == Slot(s.ring.cap, s.ring.pcs[t].pos)
    ensures if p < s.ring.tail then p in s.hist.storing && s.hist.storing[p] == t
            else p - s.ring.cap in s.hist.taking && s.hist.taking[p - s.ring.cap] == t
  {
    hide Slot;
    var pc := s.ring.pcs[t];
    if pc.EnqWrite? || pc.EnqPublish? {
      p := pc.pos;
    } else {
      p := pc.pos + s.ring.cap;
      SlotsRepeat(s.ring.cap, pc.pos);
    }
  }

  // ------------------------------------------------------------ FIFO queue

  // The queue the machine implements.
  ghost function Contents(s: State): seq<Item>
    requires Inv(s)
  {
    s.hist.log[s.ring.head..s.ring.tail]
  }

  ghost predicate WinsTail(s: State, c: Choice)
    requires s.ring.WellFormed() && c.tid < |s.ring.pcs|
  {
    c.action == Advance(false) && s.ring.pcs[c.tid].EnqCas? && s.ring.pcs[c.tid].pos == s.ring.tail
  }

  ghost predicate WinsHead(s: State, c: Choice)
    requires s.ring.WellFormed() && c.tid < |s.ring.pcs|
  {
    c.action == Advance(false) && s.ring.pcs[c.tid].DeqCas? && s.ring.pcs[c.tid].pos == s.ring.head
  }

  // The value a dequeuer past its claim is going to return.
  ghost function Promised(s: State, t: nat): Item
    requires Inv(s) && t < |s.ring.pcs| && (s.ring.pcs[t].DeqRead? || s.ring.pcs[t].DeqRelease?)
  {
    s.hist.log[s.ring.pcs[t].pos]
  }

  // Only the two wins move the tail, the head or the log.
  lemma StepCases(s: State, c: Choice)
    requires s.ring.WellFormed() && c.tid < |s.ring.pcs|
    ensures var s' := Next(s, c);
            if WinsTail(s, c) then
              && s'.ring.tail == s.ring.tail + 1 && s'.ring.head == s.ring.head
              && s'.hist.log == s.hist.log + [s.ring.pcs[c.tid].item]
            else
              && s'.ring.tail == s.ring.tail && s'.hist.log == s.hist.log
              && (if WinsHead(s, c) then s'.ring.head == s.ring.head + 1 && s'.ring.pcs[c.tid] == DeqRead(s.ring.head)
                  else s'.ring.head == s.ring.head)
  {
    hide Slot, Ring.SeqAt, Ring.ItemAt, Diff;
  }

  // Each step is a step of a bounded FIFO queue: winning the tail appends the
  // caller's item to a queue with room, winning the head removes and promises
  // the first item of a queue that has one, and every other step is silent.
  lemma StepRefinesQueue(s: State, c: Choice)
    requires Inv(s) && c.tid < |s.ring.pcs|
    ensures Inv(Next(s, c))
    ensures WinsTail(s, c) ==>
              |Contents(s)| < s.ring.cap && Contents(Next(s, c)) == Contents(s) + [s.ring.pcs[c.tid].item]
    ensures WinsHead(s, c) ==>
              && Contents(s) != [] && Contents(Next(s, c)) == Contents(s)[1..]
              && Next(s, c).ring.pcs[c.tid].DeqRead? && Promised(Next(s, c), c.tid) == Contents(s)[0]
    ensures !WinsTail(s, c) && !WinsHead(s, c) ==> Contents(Next(s, c)) == Contents(s)
  {
    hide Slot, SlotsOk, ClaimsOk, ThreadsOk, Ring.SeqAt, Ring.ItemAt, Next;
    NextKeepsInv(s, c);
    OwnPc(s, c.tid);
    StepCases(s, c);
    var s' := Next(s, c);
    if WinsTail(s, c) {
      assert s'.hist.log[s.ring.head..s.ring.tail + 1] == s.hist.log[s.ring.head..s.ring.tail] + [s.ring.pcs[c.tid].item];
    }
  }

  // A promise is kept: no step of any thread changes it, and the dequeuer's
  // return hands over exactly the promised item.
  lemma PromiseKept(s: State, c: Choice, t: nat)
    requires Inv(s) && c.tid < |s.ring.pcs| && t < |s.ring.pcs|
    requires s.ring.pcs[t].DeqRead? || s.ring.pcs[t].DeqRelease?
    ensures Inv(Next(s, c))
    ensures var s' := Next(s, c);
            if s'.ring.pcs[t].Idle? then
              c.tid == t && s'.hist.events == s.hist.events + [Taken(t, Promised(s, t), s.ring.pcs[t].pos)]
            else
              && (s'.ring.pcs[t].DeqRead? || s'.ring.pcs[t].DeqRelease?)
              && Promised(s', t) == Promised(s, t)
  {
    hide Slot, SlotsOk, ClaimsOk;
    NextKeepsInv(s, c);
  }

  // --------------------------------------------- honest `full` and `empty`

  ghost predicate OthersIdle(r: Ring, t: nat) {
    forall u | 0 <= u < |r.pcs| && u != t :: r.pcs[u].Idle?
  }

  // A step that ends with this event.
  ghost predicate Tells(s: State, c: Choice, e: Event)
    requires s.ring.WellFormed() && c.tid < |s.ring.pcs|
  {
    Next(s, c).hist.events == s.hist.events + [e]
  }

  // Only the load of the sequence number reports full or empty.
  lemma WhoTells(s: State, c: Choice)
    requires s.ring.WellFormed() && c.tid < |s.ring.pcs|
    ensures var pc := s.ring.pcs[c.tid];
            && (Tells(s, c, Full(c.tid)) ==> pc.EnqLoadSeq? && s.ring.SeqAt(pc.pos) < pc.pos)
            && (Tells(s, c, Empty(c.tid)) ==> pc.DeqLoadSeq? && s.ring.SeqAt(pc.pos) < pc.pos + 1)
            && (forall idx: nat | Tells(s, c, PeekMissed(c.tid, idx)) ::
                  pc.PeekLoadSeq? && pc.idx == idx && s.ring.SeqAt(pc.pos) != pc.pos + 1)
  {
    hide Slot, Ring.SeqAt, Ring.ItemAt;
    var h, h' := s.hist, Next(s, c).hist;
    assert h'.events != h.events ==> |h'.events| == |h.events| + 1;
    forall e | Tells(s, c, e) ensures |h'.events| == |h.events| + 1 && h'.events[|h.events|] == e {
    }
  }

  // Enqueue reports full only when its saved tail is the shared tail and the
  // position one lap earlier has not been released: it is still queued, or its
  // dequeuer is still copying.
  lemma FullIsHonest(s: State, c: Choice)
    requires Inv(s) && c.tid < |s.ring.pcs| && Tells(s, c, Full(c.tid))
    ensures s.ring.pcs[c.tid].EnqLoadSeq? && s.ring.pcs[c.tid].pos == s.ring.tail
    ensures || |Contents(s)| == s.ring.cap
            || exists u | 0 <= u < |s.ring.pcs| ::
                 && (s.ring.pcs[u].DeqRead? || s.ring.pcs[u].DeqRelease?)
                 && s.ring.pcs[u].pos == s.ring.tail - s.ring.cap
  {
    hide Slot, SlotsOk, ClaimsOk, ThreadsOk, Tells, Ring.SeqAt, Ring.ItemAt;
    WhoTells(s, c);
    OwnPc(s, c.tid);
    var p := s.ring.pcs[c.tid].pos;
    TailBehind(s, p);
    if p - s.ring.cap in s.hist.taking {
      TakingFacts(s, p - s.ring.cap);
    }
  }

  // Dequeue reports empty only when its saved head is the shared head and the
  // queue is empty or its first item is not published yet.
  lemma EmptyIsHonest(s: State, c: Choice)
    requires Inv(s) && c.tid < |s.ring.pcs| && Tells(s, c, Empty(c.tid))
    ensures s.ring.pcs[c.tid].DeqLoadSeq? && s.ring.pcs[c.tid].pos == s.ring.head
    ensures || Contents(s) == []
            || exists u | 0 <= u < |s.ring.pcs| ::
                 && (s.ring.pcs[u].EnqWrite? || s.ring.pcs[u].EnqPublish?)
                 && s.ring.pcs[u].pos == s.ring.head
  {
    hide Slot, SlotsOk, ThreadsOk, Tells, Ring.SeqAt, Ring.ItemAt;
    WhoTells(s, c);
    OwnPc(s, c.tid);
    var p := s.ring.pcs[c.tid].pos;
    HeadBehind(s, p);
    if p in s.hist.storing {
      assert StoringAt(s.ring, s.hist, p);
    }
  }

  // A peek misses only when the position it looks at is not a published one of
  // the queue.
  lemma MissIsHonest(s: State, c: Choice, idx: nat)
    requires Inv(s) && c.tid < |s.ring.pcs| && Tells(s, c, PeekMissed(c.tid, idx))
    ensures var pc := s.ring.pcs[c.tid];
            && pc.PeekLoadSeq? && pc.idx == idx
            && !(s.ring.head <= pc.pos < s.ring.tail && pc.pos !in s.hist.storing)
  {
    hide Slot, SlotsOk, ClaimsOk, ThreadsOk, Tells, Ring.SeqAt, Ring.ItemAt;
    WhoTells(s, c);
    var p := s.ring.pcs[c.tid].pos;
    if s.ring.head <= p < s.ring.tail { SlotFacts(s, p); }
  }

  // With no other call in flight both reports are exact.
  lemma FullIsExactAlone(s: State, t: nat)
    requires Inv(s) && t < |s.ring.pcs| && OthersIdle(s.ring, t)
    requires s.ring.pcs[t].EnqLoadSeq? && s.ring.pcs[t].pos == s.ring.tail
    ensures Next(s, Choice(t, Advance(false))).ring.pcs[t].Idle? <==> |Contents(s)| == s.ring.cap
    ensures Next(s, Choice(t, Advance(false))).ring.pcs[t].EnqCas? <==> |Contents(s)| < s.ring.cap
  {
    NoClaims(s);
    hide Slot, SlotsOk, ClaimsOk, ThreadsOk;
    var r := s.ring;
    if r.tail == r.head + r.cap {
      LapBefore(r, r.head);
      SlotFacts(s, r.head);
    } else {
      SlotFacts(s, r.tail);
    }
  }

  lemma EmptyIsExactAlone(s: State, t: nat)
    requires Inv(s) && t < |s.ring.pcs| && OthersIdle(s.ring, t)
    requires s.ring.pcs[t].DeqLoadSeq? && s.ring.pcs[t].pos == s.ring.head
    ensures Next(s, Choice(t, Advance(false))).ring.pcs[t].Idle? <==> Contents(s) == []
    ensures Next(s, Choice(t, Advance(false))).ring.pcs[t].DeqCas? <==> Contents(s) != []
  {
    NoClaims(s);
    hide Slot, SlotsOk, ClaimsOk, ThreadsOk;
    SlotFacts(s, s.ring.head);
  }
}
