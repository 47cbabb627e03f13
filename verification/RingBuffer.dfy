// The ring buffer as the object a single thread sees: 64-bit words, masked
// indices, and a bounded FIFO queue as its abstract value.
module RingBuffer {
  import opened Bits
  import opened RingMachine
  import opened RingInvariant
  import opened RingWords

  // ------------------------------------------------------------- abstraction

  // The items of the positions lo..hi.
  function Queue(items: seq<Item>, cap: nat, lo: nat, hi: nat): (q: seq<Item>)
    requires cap >= 1 && |items| == cap && lo <= hi
    ensures |q| == hi - lo
  {
    seq(hi - lo, i requires 0 <= i < hi - lo => items[Slot(cap, lo + i)])
  }

  // A position as a 64-bit word.
  function Word(p: nat): nat { p % WORD }

  // The sequence words of a buffer at rest: published up to hi, free from there.
  ghost predicate AtRest(seqs: seq<nat>, cap: nat, lo: nat, hi: nat)
    requires cap >= 1 && |seqs| == cap
  {
    && (forall p: nat {:trigger Slot(cap, p)} | lo <= p < hi :: seqs[Slot(cap, p)] == Word(p + 1))
    && (forall p: nat {:trigger Slot(cap, p)} | hi <= p < lo + cap :: seqs[Slot(cap, p)] == Word(p))
  }

  lemma CapRange(k: nat)
    requires 1 <= k < 64
    ensures 2 <= Pow2(k) <= WORD / 2 && Pow2(k) % 2 == 0
  {
    Pow2Is64();
    Pow2Monotone(1, k);
    Pow2Monotone(k, 63);
  }

  lemma MaskedSlot(k: nat, p: nat)
    requires k <= 64
    ensures And(p % WORD, Pow2(k) - 1) == Slot(Pow2(k), p)
  {
    hide And, Slot, Pow2;
    SlotIsMasked(k, p % WORD);
    SlotOfWord(k, p);
  }

  lemma RestAt(seqs: seq<nat>, cap: nat, lo: nat, hi: nat, p: nat)
    requires cap >= 1 && |seqs| == cap && AtRest(seqs, cap, lo, hi) && lo <= p < lo + cap
    ensures seqs[Slot(cap, p)] == Word(if p < hi then p + 1 else p)
  {
    hide Slot, Word;
  }

  // What enqueue reads at the tail and dequeue at the head.
  lemma TailCell(seqs: seq<nat>, k: nat, lo: nat, hi: nat)
    requires 1 <= k < 64 && |seqs| == Pow2(k) && lo <= hi <= lo + Pow2(k) && AtRest(seqs, Pow2(k), lo, hi)
    ensures Diff(Word64, seqs[Slot(Pow2(k), hi)], hi % WORD) == if hi < lo + Pow2(k) then 0 else 1 - Pow2(k)
  {
    hide Slot, Pow2, Diff, AtRest;
    CapRange(k);
    if hi == lo + Pow2(k) {
      SlotsRepeat(Pow2(k), lo);
      RestAt(seqs, Pow2(k), lo, hi, lo);
      SignedDiffExact(lo + 1, hi);
    } else {
      RestAt(seqs, Pow2(k), lo, hi, hi);
      SignedDiffExact(hi, hi);
    }
  }

  lemma HeadCell(seqs: seq<nat>, k: nat, lo: nat, hi: nat)
    requires 1 <= k < 64 && |seqs| == Pow2(k) && lo <= hi <= lo + Pow2(k) && AtRest(seqs, Pow2(k), lo, hi)
    ensures Diff(Word64, seqs[Slot(Pow2(k), lo)], (lo + 1) % WORD) == if lo < hi then 0 else -1
  {
    hide Slot, Pow2, Diff, AtRest;
    CapRange(k);
    RestAt(seqs, Pow2(k), lo, hi, lo);
    SignedDiffExact(lo, lo + 1);
    SignedDiffExact(lo + 1, lo + 1);
  }

  lemma WordDiffZero(a: nat, b: nat)
    requires a < WORD && b < WORD
    ensures Diff(Word64, a, b) == 0 <==> a == b
  {
    if a < b { ModShift(a - b, WORD, 1); }
  }

  // peek_at reads "published" exactly for the offsets inside the queue, even
  // when head + idx wraps: a slot a lap or more away is off by an even number.
  lemma AheadCell(seqs: seq<nat>, k: nat, lo: nat, hi: nat, idx: nat)
    requires 1 <= k < 64 && |seqs| == Pow2(k) && lo <= hi <= lo + Pow2(k) && AtRest(seqs, Pow2(k), lo, hi)
    requires idx < WORD
    ensures Diff(Word64, seqs[Slot(Pow2(k), lo + idx)], (lo + idx + 1) % WORD) == 0 <==> idx < hi - lo
  {
    hide Slot, Pow2, Diff;
    CapRange(k);
    var cap := Pow2(k);
    var q := LapsAhead(cap, lo, lo + idx);
    WordDiffZero(seqs[Slot(cap, q)], (lo + idx + 1) % WORD);
    if q < hi {
      WrappedEqual(q + 1, lo + idx + 1);
      ModSmall(lo + idx - q, WORD);
    } else {
      WrappedEqual(q, lo + idx + 1);
      if lo + idx + 1 - q < WORD { ModSmall(lo + idx + 1 - q, WORD); }
    }
  }

  // The window position that shares p's slot, an even distance away.
  lemma {:induction false} LapsAhead(cap: nat, lo: nat, p: nat) returns (q: nat)
    requires cap >= 1 && cap % 2 == 0 && lo <= p
    ensures lo <= q < lo + cap && Slot(cap, q) == Slot(cap, p)
    ensures (p == q || p >= q + cap) && (p - q) % 2 == 0
    decreases p
  {
    if p < lo + cap {
      q := p;
    } else {
      SlotsRepeat(cap, p - cap);
      q := LapsAhead(cap, lo, p - cap);
    }
  }

  // Storing at the tail and releasing the head.
  lemma PushedSeqs(seqs: seq<nat>, cap: nat, lo: nat, hi: nat)
    requires cap >= 1 && |seqs| == cap && lo <= hi < lo + cap && AtRest(seqs, cap, lo, hi)
    ensures AtRest(seqs[Slot(cap, hi) := Word(hi + 1)], cap, lo, hi + 1)
  {
    hide Slot, Word;
    WindowDistinct(cap, lo);
    var seqs' := seqs[Slot(cap, hi) := Word(hi + 1)];
    forall p: nat | lo <= p < lo + cap && p != hi ensures seqs'[Slot(cap, p)] == seqs[Slot(cap, p)] {
    }
  }

  lemma PushedItems(items: seq<Item>, cap: nat, lo: nat, hi: nat, x: Item)
    requires cap >= 1 && |items| == cap && lo <= hi < lo + cap
    ensures Queue(items[Slot(cap, hi) := x], cap, lo, hi + 1) == Queue(items, cap, lo, hi) + [x]
  {
    hide Slot;
    WindowDistinct(cap, lo);
    var items' := items[Slot(cap, hi) := x];
    forall p: nat | lo <= p < hi ensures items'[Slot(cap, p)] == items[Slot(cap, p)] {
    }
  }

  lemma Pushed(seqs: seq<nat>, items: seq<Item>, k: nat, lo: nat, hi: nat, x: Item)
    requires 1 <= k < 64 && |seqs| == |items| == Pow2(k) && lo <= hi < lo + Pow2(k) && AtRest(seqs, Pow2(k), lo, hi)
    ensures AtRest(seqs[Slot(Pow2(k), hi) := Word(hi + 1)], Pow2(k), lo, hi + 1)
    ensures Queue(items[Slot(Pow2(k), hi) := x], Pow2(k), lo, hi + 1) == Queue(items, Pow2(k), lo, hi) + [x]
  {
    hide Slot, Pow2, Word, AtRest, Queue;
    PushedSeqs(seqs, Pow2(k), lo, hi);
    PushedItems(items, Pow2(k), lo, hi, x);
  }

  lemma Popped(seqs: seq<nat>, items: seq<Item>, k: nat, lo: nat, hi: nat)
    requires 1 <= k < 64 && |seqs| == |items| == Pow2(k) && lo < hi <= lo + Pow2(k) && AtRest(seqs, Pow2(k), lo, hi)
    ensures AtRest(seqs[Slot(Pow2(k), lo) := Word(lo + Pow2(k))], Pow2(k), lo + 1, hi)
    ensures Queue(items, Pow2(k), lo + 1, hi) == Queue(items, Pow2(k), lo, hi)[1..]
    ensures Queue(items, Pow2(k), lo, hi)[0] == items[Slot(Pow2(k), lo)]
  {
    hide Slot, Pow2;
    WindowDistinct(Pow2(k), lo);
    SlotsRepeat(Pow2(k), lo);
    CapRange(k);
  }

  // ------------------------------------------------------------------ object

  class RingBuf {
    const cap: nat
    const mask: nat
    const seqs: array<nat>
    const items: array<Item>
    var head: nat
    var tail: nat

    // The positions that the wrapped head and tail stand for.
    ghost const log2: nat
    ghost var first: nat
    ghost var next: nat

    ghost predicate Valid()
      reads this, seqs
    {
      && 1 <= log2 < 64 && cap == Pow2(log2) && mask == cap - 1
      && seqs != items && seqs.Length == cap && items.Length == cap
      && first <= next <= first + cap
      && head == first % WORD && tail == next % WORD
      && AtRest(seqs[..], cap, first, next)
    }

    ghost function Contents(): (q: seq<Item>)
      requires Valid()
      reads this, seqs, items
    {
      Queue(items[..], cap, first, next)
    }

    // Every slot is free for its first lap, and the cursors are at zero.
    ghost predicate Created(capacity: nat)
      reads this, seqs
    {
      && cap == capacity && mask == cap - 1 && seqs.Length == cap && items.Length == cap
      && head == tail == 0
      && forall i | 0 <= i < cap :: seqs[i] == i
    }

    constructor Initialize(capacity: nat, ghost k: nat)
      requires k < 64 && capacity == Pow2(k)
      ensures Created(capacity) && (k >= 1 ==> Valid() && Contents() == [])
      ensures fresh(seqs) && fresh(items)
    {
      cap := capacity;
      mask := capacity - 1;
      log2 := k;
      seqs := new nat[capacity](i => i);
      items := new Item[capacity](_ => 0);
      head, tail := 0, 0;
      first, next := 0, 0;
      new;
      if k >= 1 { CapRange(k); }
      assert seqs[..] == seq(capacity, i => i);
    }

    // perf_ringbuf_create: null unless the capacity is a power of two.  A
    // single slot is accepted too, though it cannot tell full from free, as
    // RingRuns.OneSlotOverruns shows; from two slots on the buffer is a queue.
    static method Create(capacity: nat) returns (rb: RingBuf?)
      requires capacity < WORD
      ensures rb == null <==> !IsPow2(capacity)
      ensures rb != null ==> fresh(rb) && fresh(rb.seqs) && fresh(rb.items) && rb.Created(capacity)
      ensures rb != null && capacity >= 2 ==> rb.Valid() && rb.Contents() == []
    {
      if capacity == 0 || And(capacity, capacity - 1) != 0 {
        if capacity != 0 { PowerOfTwoTest(capacity); }
        return null;
      }
      PowerOfTwoTest(capacity);
      ghost var k: nat :| capacity == Pow2(k);
      if k >= 64 { Pow2Is64(); Pow2Monotone(64, k); }
      rb := new RingBuf.Initialize(capacity, k);
    }

    method Enqueue(x: Item) returns (rc: int)
      requires Valid()
      modifies this, seqs, items
      ensures Valid()
      ensures rc == if |old(Contents())| < cap then 0 else -1
      ensures Contents() == if rc == 0 then old(Contents()) + [x] else old(Contents())
      ensures head == old(head) && tail == if rc == 0 then (old(tail) + 1) % WORD else old(tail)
    {
      hide Slot, Pow2, And, Diff, AtRest, Queue;
      CapRange(log2);
      MaskedSlot(log2, next);
      TailCell(seqs[..], log2, first, next);
      var pos := tail;
      var i := And(pos, mask);
      var diff := Diff(Word64, seqs[i], pos);
      if diff == 0 {
        tail := (pos + 1) % WORD;
      } else if diff < 0 {
        return -1;
      } else {
        // only another thread can have moved the slot ahead of the tail
        assert false;
      }
      Pushed(seqs[..], items[..], log2, first, next, x);
      NormAdd(next, 1);
      items[i] := x;
      seqs[i] := (pos + 1) % WORD;
      next := next + 1;
      assert seqs[..] == old(seqs[..])[i := (pos + 1) % WORD] && items[..] == old(items[..])[i := x];
      rc := 0;
    }

    // With `wanted` false this is dequeue into a null pointer.
    method Dequeue(wanted: bool) returns (rc: int, out: Item)
      requires Valid()
      modifies this, seqs
      ensures Valid()
      ensures rc == if old(Contents()) != [] then 0 else -1
      ensures rc == 0 ==> Contents() == old(Contents())[1..] && (wanted ==> out == old(Contents())[0])
      ensures rc != 0 ==> Contents() == old(Contents())
      ensures tail == old(tail) && head == if rc == 0 then (old(head) + 1) % WORD else old(head)
    {
      hide Slot, Pow2, And, Diff, AtRest, Queue;
      CapRange(log2);
      MaskedSlot(log2, first);
      HeadCell(seqs[..], log2, first, next);
      NormAdd(first, 1);
      out := 0;
      var pos := head;
      var i := And(pos, mask);
      var diff := Diff(Word64, seqs[i], (pos + 1) % WORD);
      if diff == 0 {
        head := (pos + 1) % WORD;
      } else if diff < 0 {
        return -1, out;
      } else {
        // only another thread can have moved the slot ahead of the head
        assert false;
      }
      Popped(seqs[..], items[..], log2, first, next);
      NormAdd(first, cap);
      if wanted { out := items[i]; }
      seqs[i] := (pos + mask + 1) % WORD;
      first := first + 1;
      assert seqs[..] == old(seqs[..])[i := (pos + mask + 1) % WORD];
      rc := 0;
    }

    // The number of queued items, unless the tail has wrapped past the head.
    method Count() returns (n: nat)
      requires Valid()
      ensures n == |Contents()| <==> Contents() == [] || head < tail
      ensures head >= tail ==> n == 0
    {
      n := if tail > head then tail - head else 0;
      CapRange(log2);
      WrappedSub(next, first);
      if head < tail {
        ModSmall(next - first, WORD);
        ModSmall(tail - head, WORD);
      }
    }

    // After 2^64 - 1 items have come and gone, the count of one item is 0.
    static method CountAfterWrap(capacity: nat) returns (rb: RingBuf?, n: nat)
      requires IsPow2(capacity) && 2 <= capacity < WORD
      ensures rb != null && rb.Valid() && |rb.Contents()| == 1 && n == 0
    {
      rb := Create(capacity);
      for i := 0 to WORD - 1
        invariant fresh(rb) && fresh(rb.seqs) && fresh(rb.items) && rb.Valid() && rb.cap >= 2
        invariant rb.Contents() == [] && rb.head == rb.tail == i
      {
        var _ := rb.Enqueue(0);
        var _, _ := rb.Dequeue(false);
      }
      var _ := rb.Enqueue(0);
      n := rb.Count();
    }

    method PeekAt(idx: nat) returns (rc: int, out: Item)
      requires Valid() && idx < WORD
      ensures rc == if idx < |Contents()| then 0 else -1
      ensures rc == 0 ==> out == Contents()[idx]
    {
      hide Slot, Pow2, And, AtRest, Diff;
      CapRange(log2);
      var target := (head + idx) % WORD;
      NormAdd(first, idx);
      NormAdd(first + idx, 1);
      MaskedSlot(log2, first + idx);
      AheadCell(seqs[..], log2, first, next, idx);
      var i := And(target, mask);
      if Diff(Word64, seqs[i], (target + 1) % WORD) == 0 {
        return 0, items[i];
      }
      return -1, 0;
    }

    method Peek() returns (rc: int, out: Item)
      requires Valid()
      ensures rc == if Contents() != [] then 0 else -1
      ensures rc == 0 ==> out == Contents()[0]
    {
      hide Slot, Pow2, And, AtRest;
      CapRange(log2);
      NormAdd(first, 1);
      MaskedSlot(log2, first);
      HeadCell(seqs[..], log2, first, next);
      var i := And(head, mask);
      if Diff(Word64, seqs[i], (head + 1) % WORD) == 0 {
        return 0, items[i];
      }
      return -1, 0;
    }

    // Drops n items, or all there are when there are fewer.
    method Advance(n: nat) returns (rc: int)
      requires Valid()
      modifies this, seqs
      ensures Valid()
      ensures rc == if n <= |old(Contents())| then 0 else -1
      ensures Contents() == old(Contents())[if n <= |old(Contents())| then n else |old(Contents())|..]
    {
      var i := 0;
      while i < n
        invariant Valid() && i <= n && i <= |old(Contents())|
        invariant Contents() == old(Contents())[i..]
      {
        var r, _ := Dequeue(false);
        if r != 0 { return -1; }
        i := i + 1;
      }
      rc := 0;
    }
  }
}
