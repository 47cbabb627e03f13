// mdb_midl_sort: quicksort with an explicit stack of segments and an insertion
// sort for short ones, in place and into descending order.
module IdListSort {
  import opened Bits
  import opened IdLists

  const SMALL := 8
  // sizeof(int) * CHAR_BIT * 2
  const STACK_CELLS := 64
  // up to this count l + ir fits an int
  const MAX_COUNT := 0x4000_0000

  method Swap(ids: array<Id>, x: int, y: int)
    requires 0 <= x < ids.Length && 0 <= y < ids.Length
    modifies ids
    ensures ids[..] == Swapped(old(ids[..]), x, y)
  {
    var tmp := ids[x];
    ids[x] := ids[y];
    ids[y] := tmp;
  }

  // ---------------------------------------------------------- insertion sort

  // One round: put ids[j] in its place among the sorted cells l..j.  The scan
  // only guards index 1; it stops inside l..j because the cell before l, if
  // there is one, holds no smaller ID.
  method InsertOne(ids: array<Id>, l: int, j: int)
    requires 1 <= l < j < ids.Length
    requires Descending(ids[..], l, j)
    requires l > 1 ==> ids[l - 1] >= ids[j]
    modifies ids
    ensures Rearranged(old(ids[..]), ids[..], l, j + 1)
    ensures Descending(ids[..], l, j + 1)
  {
    hide Rearranged;
    ghost var s := ids[..];
    var a := ids[j];
    var i := j - 1;
    while i >= 1 && ids[i] < a
      invariant l - 1 <= i < j
      invariant forall p | 0 <= p < ids.Length && !(i + 1 < p <= j) :: ids[p] == s[p]
      invariant forall p | i + 1 < p <= j :: ids[p] == s[p - 1] < a
    {
      ids[i + 1] := ids[i];
      i := i - 1;
    }
    ids[i + 1] := a;
    forall p | i + 1 < p <= j ensures ids[..][p] == s[p - 1] < s[j] {
      assert ids[..][p] == ids[p];
    }
    Inserted(s, ids[..], l, i + 1, j);
  }

  // Cell j of s has moved to cell k, past smaller ones only.
  lemma Inserted(s: seq<Id>, s': seq<Id>, l: int, k: int, j: int)
    requires 1 <= l <= k <= j < |s| == |s'| && Descending(s, l, j)
    requires k > l ==> s[k - 1] >= s[j]
    requires forall p | 0 <= p < |s| && !(k <= p <= j) :: s'[p] == s[p]
    requires s'[k] == s[j] && forall p | k < p <= j :: s'[p] == s[p - 1] < s[j]
    ensures Rearranged(s, s', l, j + 1) && Descending(s', l, j + 1)
  {
    hide Rearranged, Moved, Descending;
    MovedIs(s, s', k, j);
    MovedRearranged(s, k, j);
    RearrangedWiden(s, s', k, j + 1, l, j + 1);
    InsertedOrder(s, s', l, k, j);
  }

  lemma InsertedOrder(s: seq<Id>, s': seq<Id>, l: int, k: int, j: int)
    requires 1 <= l <= k <= j < |s| == |s'| && Descending(s, l, j)
    requires k > l ==> s[k - 1] >= s[j]
    requires forall p | l <= p < k :: s'[p] == s[p]
    requires s'[k] == s[j] && forall p | k < p <= j :: s'[p] == s[p - 1] < s[j]
    ensures Descending(s', l, j + 1)
  {
    forall p, q | l <= p < q < j + 1 ensures s'[p] >= s'[q] {
      if p < k - 1 { assert s[p] >= s[k - 1]; }
      if k < p { assert s[p - 1] >= s[q - 1]; }
    }
  }

  // No cell inside l..ir is larger than any cell before it.
  ghost predicate LeftBounds(s: seq<Id>, l: int, ir: int) {
    1 <= l && ir < |s| && (l > 1 ==> forall q | l <= q <= ir :: s[l - 1] >= s[q])
  }

  method InsertionSort(ids: array<Id>, l: int, ir: int)
    requires l <= ir + 1 && LeftBounds(ids[..], l, ir)
    modifies ids
    ensures Rearranged(old(ids[..]), ids[..], l, ir + 1)
    ensures Descending(ids[..], l, ir + 1)
  {
    hide Rearranged, LeftBounds, Descending;
    ghost var s := ids[..];
    LeftBoundsRange(s, l, ir);
    RearrangedSelf(s, l, ir + 1);
    ShortDescending(s, l, if l <= ir then l + 1 else ir + 1);
    var j := l + 1;
    while j <= ir
      invariant l + 1 <= j && (l <= ir ==> j <= ir + 1)
      invariant Rearranged(s, ids[..], l, ir + 1)
      invariant LeftBounds(ids[..], l, ir)
      invariant Descending(ids[..], l, if l <= ir then j else ir + 1)
    {
      ghost var s1 := ids[..];
      LeftBoundsRange(s1, l, ir);
      InsertOne(ids, l, j);
      RearrangedWiden(s1, ids[..], l, j + 1, l, ir + 1);
      RearrangedTrans(s, s1, ids[..], l, ir + 1);
      KeepsLeftBounds(s1, ids[..], l, ir);
      j := j + 1;
    }
  }

  lemma ShortDescending(s: seq<Id>, lo: int, hi: int)
    requires 0 <= lo && hi <= |s| && hi <= lo + 1
    ensures Descending(s, lo, hi)
  {
  }

  lemma LeftBoundsRange(s: seq<Id>, l: int, ir: int)
    requires LeftBounds(s, l, ir)
    ensures 1 <= l && ir < |s| && (l > 1 ==> forall q | l <= q <= ir :: s[l - 1] >= s[q])
  {
  }

  lemma KeepsLeftBounds(s: seq<Id>, s': seq<Id>, l: int, ir: int)
    requires LeftBounds(s, l, ir) && l <= ir + 1 && Rearranged(s, s', l, ir + 1)
    ensures LeftBounds(s', l, ir)
  {
    if l > 1 {
      RearrangedOutside(s, s', l, ir + 1, l - 1);
      forall q | l <= q <= ir ensures s'[l - 1] >= s'[q] {
        var q0 := RearrangedFrom(s, s', l, ir + 1, q);
      }
    }
  }

  // --------------------------------------------------------------- partition

  // Everything before j is at least the pivot, everything from i at most, and
  // the cells between hold it.
  ghost predicate Parted(s: seq<Id>, l: int, ir: int, i: int, j: int) {
    && 0 <= l < j < i <= ir < |s|
    && (forall p | l <= p < j :: s[p] >= s[j])
    && (forall p | j <= p < i :: s[p] == s[j])
    && (forall p | i <= p <= ir :: s[p] <= s[j])
  }

  lemma PartedRange(s: seq<Id>, l: int, ir: int, i: int, j: int)
    requires Parted(s, l, ir, i, j)
    ensures l < j < i <= ir
  {
  }

  // The median of the left, middle and right cell goes to l + 1, between a
  // larger sentinel at l and a smaller one at ir.
  method MedianOfThree(ids: array<Id>, l: int, ir: int)
    requires 1 <= l && ir < ids.Length && ir - l >= SMALL
    modifies ids
    ensures Rearranged(old(ids[..]), ids[..], l, ir + 1)
    ensures ids[l] >= ids[l + 1] >= ids[ir]
  {
    hide Rearranged, Swapped;
    ghost var s := ids[..];
    var k := (l + ir) / 2;
    Swap(ids, k, l + 1);
    SwappedRearranged(s, k, l + 1, l, ir + 1);
    SwapIfLess(ids, l, ir, s, l, ir);
    SwapIfLess(ids, l + 1, ir, s, l, ir);
    SwapIfLess(ids, l, l + 1, s, l, ir);
  }

  method SwapIfLess(ids: array<Id>, x: int, y: int, ghost s: seq<Id>, ghost l: int, ghost ir: int)
    requires 0 <= l <= x < y <= ir < ids.Length
    requires Rearranged(s, ids[..], l, ir + 1)
    modifies ids
    ensures Rearranged(s, ids[..], l, ir + 1)
    ensures (ids[x], ids[y]) == old(if ids[x] < ids[y] then (ids[y], ids[x]) else (ids[x], ids[y]))
    ensures forall p | 0 <= p < ids.Length && p != x && p != y :: ids[p] == old(ids[p])
  {
    hide Rearranged;
    if ids[x] < ids[y] {
      ghost var s1 := ids[..];
      Swap(ids, x, y);
      SwappedRearranged(s1, x, y, l, ir + 1);
      RearrangedTrans(s, s1, ids[..], l, ir + 1);
      assert forall p | 0 <= p < ids.Length :: ids[p] == ids[..][p];
    }
  }

  // Cells up to i are at least the pivot a, cells from j at most.
  ghost predicate Closing(s: seq<Id>, l: int, ir: int, i: int, j: int, a: Id) {
    && 0 <= l < i <= j <= ir < |s| && (i == j ==> l + 1 < i && j < ir)
    && (forall p | l <= p <= i :: s[p] >= a)
    && (forall p | j <= p <= ir :: s[p] <= a)
  }

  // Both scans of one pass.  The sentinels stop them: the cells from j on stop
  // the upward scan, the cells up to i the downward one.
  method Scan(ids: array<Id>, l: int, ir: int, a: Id, i0: int, j0: int) returns (i: int, j: int)
    requires Closing(ids[..], l, ir, i0, j0, a)
    ensures l + 1 <= j < j0 && i0 < i <= ir && ids[i] <= a <= ids[j]
    ensures forall p | l <= p < i :: ids[p] >= a
    ensures forall p | j < p <= ir :: ids[p] <= a
  {
    i := i0 + 1;
    while ids[i] > a
      invariant i0 < i <= (if i0 < j0 then j0 else j0 + 1)
      invariant forall p | l <= p < i :: ids[p] >= a
      decreases ir - i
    {
      i := i + 1;
    }
    j := j0 - 1;
    while ids[j] < a
      invariant (if i0 < j0 then i0 else i0 - 1) <= j < j0
      invariant forall p | j < p <= ir :: ids[p] <= a
      decreases j
    {
      j := j - 1;
    }
  }

  lemma SwapCloses(s: seq<Id>, l: int, ir: int, i: int, j: int, a: Id)
    requires 0 <= l && l + 1 < i <= j < ir < |s| && s[i] <= a <= s[j]
    requires forall p | l <= p < i :: s[p] >= a
    requires forall p | j < p <= ir :: s[p] <= a
    ensures Closing(Swapped(s, i, j), l, ir, i, j, a) && Swapped(s, i, j)[l + 1] == s[l + 1]
  {
  }

  lemma PivotParts(s: seq<Id>, l: int, ir: int, i: int, j: int)
    requires 0 <= l && l + 1 <= j < i <= ir < |s| && s[i] <= s[l + 1] <= s[j]
    requires forall p | l <= p < i :: s[p] >= s[l + 1]
    requires forall p | j < p <= ir :: s[p] <= s[l + 1]
    ensures Parted(Swapped(s, l + 1, j), l, ir, i, j)
  {
  }

  // Swap the two cells at which the scans stopped.
  method Exchange(ids: array<Id>, l: int, ir: int, i: int, j: int, a: Id, ghost s: seq<Id>)
    requires 0 <= l && l + 1 < i <= j < ir < ids.Length && ids[i] <= a <= ids[j]
    requires forall p | l <= p < i :: ids[p] >= a
    requires forall p | j < p <= ir :: ids[p] <= a
    requires Rearranged(s, ids[..], l, ir + 1)
    modifies ids
    ensures Closing(ids[..], l, ir, i, j, a) && ids[l + 1] == old(ids[l + 1]) && Rearranged(s, ids[..], l, ir + 1)
  {
    hide Rearranged, Swapped, Closing;
    ghost var s1 := ids[..];
    Swap(ids, i, j);
    SwapCloses(s1, l, ir, i, j, a);
    SwappedRearranged(s1, i, j, l, ir + 1);
    RearrangedTrans(s, s1, ids[..], l, ir + 1);
    assert ids[..][l + 1] == ids[l + 1];
  }

  // Put the pivot, cell l + 1, between the two parts.
  method PlacePivot(ids: array<Id>, l: int, ir: int, i: int, j: int, ghost s: seq<Id>)
    requires 0 <= l && l + 1 <= j < i <= ir < ids.Length && ids[i] <= ids[l + 1] <= ids[j]
    requires forall p | l <= p < i :: ids[p] >= ids[l + 1]
    requires forall p | j < p <= ir :: ids[p] <= ids[l + 1]
    requires Rearranged(s, ids[..], l, ir + 1)
    modifies ids
    ensures Parted(ids[..], l, ir, i, j) && Rearranged(s, ids[..], l, ir + 1)
  {
    hide Rearranged, Swapped, Parted;
    ghost var s1 := ids[..];
    PivotParts(s1, l, ir, i, j);
    var a := ids[l + 1];
    ids[l + 1] := ids[j];
    ids[j] := a;
    SwappedIs(s1, ids[..], l + 1, j);
    SwappedRearranged(s1, l + 1, j, l, ir + 1);
    RearrangedTrans(s, s1, ids[..], l, ir + 1);
  }

  method Partition(ids: array<Id>, l: int, ir: int) returns (i: int, j: int)
    requires 1 <= l && ir < ids.Length && ir - l >= SMALL
    modifies ids
    ensures Rearranged(old(ids[..]), ids[..], l, ir + 1)
    ensures Parted(ids[..], l, ir, i, j)
  {
    hide Rearranged, Parted;
    ghost var s := ids[..];
    MedianOfThree(ids, l, ir);
    i := l + 1;
    j := ir;
    var a := ids[l + 1];
    while true
      invariant Closing(ids[..], l, ir, i, j, a) && ids[l + 1] == a
      invariant Rearranged(s, ids[..], l, ir + 1)
      decreases j - i
    {
      i, j := Scan(ids, l, ir, a, i, j);
      if j < i { break; }
      Exchange(ids, l, ir, i, j, a, s);
    }
    PlacePivot(ids, l, ir, i, j, s);
  }

  // ---------------------------------------------------------------- segments

  // Cells l..r, still to be sorted among themselves.
  datatype Seg = Seg(l: int, r: int) {
    function Size(): int { r - l + 1 }
  }

  // The open segments, the pending ones first and the current one last, lie
  // inside 1..n and do not overlap.
  ghost predicate Apart(open: seq<Seg>, n: int) {
    && (forall k | 0 <= k < |open| :: 1 <= open[k].l <= open[k].r + 1 <= n + 1)
    && (forall j, k | 0 <= j < k < |open| :: open[j].r < open[k].l || open[k].r < open[j].l)
  }

  ghost predicate Together(open: seq<Seg>, p: int, q: int) {
    exists k | 0 <= k < |open| :: open[k].l <= p && q <= open[k].r
  }

  // Any two cells not inside one open segment are already in order.
  ghost predicate Ordered(s: seq<Id>, n: int, open: seq<Seg>)
    requires 0 <= n < |s|
  {
    forall p, q | 1 <= p < q <= n && !Together(open, p, q) :: s[p] >= s[q]
  }

  lemma TogetherInLast(open: seq<Seg>, n: int, p: int, q: int)
    requires Apart(open, n) && |open| > 0 && p <= q
    requires var c := open[|open| - 1]; c.l <= p <= c.r || c.l <= q <= c.r
    requires Together(open, p, q)
    ensures open[|open| - 1].l <= p && q <= open[|open| - 1].r
  {
  }

  // Why the unguarded insertion sort stays inside its segment.
  lemma OrderedBoundsLeft(s: seq<Id>, n: int, open: seq<Seg>)
    requires 0 <= n < |s| && Apart(open, n) && |open| > 0 && Ordered(s, n, open)
    ensures LeftBounds(s, open[|open| - 1].l, open[|open| - 1].r)
  {
    var c := open[|open| - 1];
    forall q | c.l > 1 && c.l <= q <= c.r ensures s[c.l - 1] >= s[q] {
      if Together(open, c.l - 1, q) { TogetherInLast(open, n, c.l - 1, q); }
    }
  }

  // Rearranging the current segment keeps the order with everything around it.
  lemma AroundLast(s: seq<Id>, s': seq<Id>, n: int, open: seq<Seg>, p: int, q: int)
    requires 0 <= n < |s| && Apart(open, n) && |open| > 0 && Ordered(s, n, open)
    requires Rearranged(s, s', open[|open| - 1].l, open[|open| - 1].r + 1)
    requires 1 <= p < q <= n && !Together(open, p, q)
    ensures s'[p] >= s'[q]
  {
    hide Rearranged, Together;
    var c := open[|open| - 1];
    var p0, q0 := p, q;
    if c.l <= p <= c.r { p0 := RearrangedFrom(s, s', c.l, c.r + 1, p); } else { RearrangedOutside(s, s', c.l, c.r + 1, p); }
    if c.l <= q <= c.r { q0 := RearrangedFrom(s, s', c.l, c.r + 1, q); } else { RearrangedOutside(s, s', c.l, c.r + 1, q); }
    NotBoth(open, p, q);
    if Together(open, p0, q0) {
      TogetherSpreads(open, n, p, q, p0, q0);
    }
  }

  lemma NotBoth(open: seq<Seg>, p: int, q: int)
    requires |open| > 0 && !Together(open, p, q)
    ensures !(open[|open| - 1].l <= p && q <= open[|open| - 1].r)
  {
    var k := |open| - 1;
    assert open[k].l <= p && q <= open[k].r ==> Together(open, p, q);
  }

  lemma TogetherSpreads(open: seq<Seg>, n: int, p: int, q: int, p0: int, q0: int)
    requires Apart(open, n) && |open| > 0 && p < q && p0 < q0 && Together(open, p0, q0)
    requires var c := open[|open| - 1];
             && (if c.l <= p <= c.r then c.l <= p0 <= c.r else p0 == p)
             && (if c.l <= q <= c.r then c.l <= q0 <= c.r else q0 == q)
             && !(c.l <= p && q <= c.r)
    ensures Together(open, p, q)
  {
    var k :| 0 <= k < |open| && open[k].l <= p0 && q0 <= open[k].r;
  }

  lemma TogetherBefore(open: seq<Seg>, open': seq<Seg>, p: int, q: int)
    requires |open| > 0 && open[..|open| - 1] <= open'
    requires !(open[|open| - 1].l <= p && q <= open[|open| - 1].r)
    ensures Together(open, p, q) ==> Together(open', p, q)
  {
    if Together(open, p, q) {
      var k :| 0 <= k < |open| && open[k].l <= p && q <= open[k].r;
      assert open'[k] == open[k];
    }
  }

  // A sorted segment is closed.
  lemma SortedCloses(s: seq<Id>, s': seq<Id>, n: int, open: seq<Seg>)
    requires 0 <= n < |s| == |s'| && Apart(open, n) && |open| > 0 && Ordered(s, n, open)
    requires var c := open[|open| - 1]; Rearranged(s, s', c.l, c.r + 1) && Descending(s', c.l, c.r + 1)
    ensures Ordered(s', n, open[..|open| - 1])
  {
    hide Rearranged;
    var c, rest := open[|open| - 1], open[..|open| - 1];
    forall p, q | 1 <= p < q <= n && !Together(rest, p, q) ensures s'[p] >= s'[q] {
      if !(c.l <= p && q <= c.r) {
        TogetherBefore(open, rest, p, q);
        AroundLast(s, s', n, open, p, q);
      }
    }
  }

  // A partitioned segment is replaced by its two parts.
  lemma PartedOpens(s: seq<Id>, s': seq<Id>, n: int, open: seq<Seg>, i: int, j: int, open': seq<Seg>)
    requires 0 <= n < |s| == |s'| && Apart(open, n) && |open| > 0 && Ordered(s, n, open)
    requires var c := open[|open| - 1];
             && Rearranged(s, s', c.l, c.r + 1) && Parted(s', c.l, c.r, i, j)
             && (|| open' == open[..|open| - 1] + [Seg(c.l, j - 1), Seg(i, c.r)]
                 || open' == open[..|open| - 1] + [Seg(i, c.r), Seg(c.l, j - 1)])
    ensures Ordered(s', n, open') && Apart(open', n)
  {
    hide Rearranged;
    var c, m := open[|open| - 1], |open| - 1;
    forall p, q | 1 <= p < q <= n && !Together(open', p, q) ensures s'[p] >= s'[q] {
      if c.l <= p && q <= c.r {
        NotInPart(open', m, p, q);
        NotInPart(open', m + 1, p, q);
        assert q < j || p >= i || s'[p] >= s'[j] >= s'[q];
      } else {
        TogetherBefore(open, open', p, q);
        AroundLast(s, s', n, open, p, q);
      }
    }
  }

  lemma NotInPart(open: seq<Seg>, k: int, p: int, q: int)
    requires 0 <= k < |open| && !Together(open, p, q)
    ensures !(open[k].l <= p && q <= open[k].r)
  {
  }

  // ------------------------------------------------------------- stack depth

  // Segment number k has room for k more halvings.
  ghost predicate Halving(open: seq<Seg>, n: int) {
    forall k | 0 <= k < |open| :: open[k].Size() * Pow2(k) <= n
  }

  // Pushing the larger part and going on with the smaller one.
  lemma PushHalves(open: seq<Seg>, n: int, big: Seg, small: Seg)
    requires Halving(open, n) && |open| > 0
    requires 0 <= small.Size() <= big.Size() && small.Size() + big.Size() <= open[|open| - 1].Size()
    ensures Halving(open[..|open| - 1] + [big, small], n)
  {
    var m := |open| - 1;
    var open' := open[..m] + [big, small];
    var c := open[m].Size();
    MulMonotone(big.Size(), c, Pow2(m));
    MulMonotone(2 * small.Size(), c, Pow2(m));
    assert small.Size() * Pow2(m + 1) == (2 * small.Size()) * Pow2(m);
    forall k | 0 <= k < |open'| ensures open'[k].Size() * Pow2(k) <= n {
      if k < m { assert open'[k] == open[k]; }
    }
  }

  // So fewer than 27 segments are pending when another is pushed.
  lemma DepthBound(open: seq<Seg>, n: int)
    requires Halving(open, n) && n <= MAX_COUNT && |open| > 0 && open[|open| - 1].Size() > SMALL
    ensures |open| - 1 < 27
  {
    hide Pow2;
    var m := |open| - 1;
    if m >= 27 {
      Pow2Monotone(27, m);
      Pow2Of27();
      MulMonotone(9, open[m].Size(), Pow2(m));
    }
  }

  lemma Pow2Of27()
    ensures Pow2(27) == 0x800_0000
  {
    assert Pow2(9) == 0x200;
    Pow2Add(9, 9);
    Pow2Add(9, 18);
  }

  // ------------------------------------------------------------- termination

  ghost function Cells(open: seq<Seg>): int {
    if open == [] then 0 else Cells(open[..|open| - 1]) + open[|open| - 1].Size()
  }

  lemma CellsPush(open: seq<Seg>, x: Seg, y: Seg)
    ensures Cells(open + [x, y]) == Cells(open) + x.Size() + y.Size()
  {
    assert (open + [x, y])[..|open| + 1] == open + [x];
    assert (open + [x])[..|open|] == open;
  }

  lemma {:induction false} CellsNat(open: seq<Seg>, n: int)
    requires Apart(open, n)
    ensures Cells(open) >= 0
  {
    if open != [] { CellsNat(open[..|open| - 1], n); }
  }

  // -------------------------------------------------------------------- sort

  // The stack cells hold the pending segments.
  ghost predicate Stacked(cells: seq<int>, jstack: int, pending: seq<Seg>) {
    && jstack == 2 * |pending| < |cells|
    && forall k | 0 <= k < |pending| :: cells[2 * k + 1] == pending[k].l && cells[2 * k + 2] == pending[k].r
  }

  // What holds whenever the main loop starts a round: s is the list now, s0 the
  // list at the start.
  ghost predicate SortInv(s0: seq<Id>, s: seq<Id>, n: int, open: seq<Seg>) {
    && 0 <= n < |s| && |open| > 0
    && Rearranged(s0, s, 1, n + 1)
    && Apart(open, n) && Ordered(s, n, open) && Halving(open, n)
  }

  lemma SortInvStart(s: seq<Id>, n: int)
    requires 0 <= n < |s|
    ensures SortInv(s, s, n, [Seg(1, n)])
  {
    var open := [Seg(1, n)];
    assert Pow2(0) == 1;
    forall p, q | 1 <= p < q <= n ensures Together(open, p, q) {
      assert open[0].l <= p && q <= open[0].r;
    }
    RearrangedSelf(s, 1, n + 1);
  }

  lemma SortInvInserted(s0: seq<Id>, s: seq<Id>, s': seq<Id>, n: int, open: seq<Seg>)
    requires SortInv(s0, s, n, open)
    requires var c := open[|open| - 1]; Rearranged(s, s', c.l, c.r + 1) && Descending(s', c.l, c.r + 1)
    ensures Rearranged(s0, s', 1, n + 1) && Ordered(s', n, open[..|open| - 1])
    ensures |open| > 1 ==> SortInv(s0, s', n, open[..|open| - 1])
    ensures Cells(open[..|open| - 1]) <= Cells(open)
  {
    hide Rearranged, Ordered, Apart, Halving, Parted, Descending, LeftBounds;
    var c := open[|open| - 1];
    RearrangedLength(s, s', c.l, c.r + 1);
    CurrentIn(s0, s, n, open);
    OpenPrefix(open, n);
    RearrangedWiden(s, s', c.l, c.r + 1, 1, n + 1);
    RearrangedTrans(s0, s, s', 1, n + 1);
    SortedCloses(s, s', n, open);
  }

  lemma OpenPrefix(open: seq<Seg>, n: int)
    requires Apart(open, n) && Halving(open, n) && |open| > 0
    ensures Apart(open[..|open| - 1], n) && Halving(open[..|open| - 1], n)
  {
    var rest := open[..|open| - 1];
    forall k | 0 <= k < |rest| ensures rest[k].Size() * Pow2(k) <= n {
      assert rest[k] == open[k];
    }
  }

  lemma SortInvParted(s0: seq<Id>, s: seq<Id>, s': seq<Id>, n: int, open: seq<Seg>, i: int, j: int, big: Seg, small: Seg)
    requires SortInv(s0, s, n, open)
    requires var c := open[|open| - 1];
             && Rearranged(s, s', c.l, c.r + 1) && Parted(s', c.l, c.r, i, j)
             && (|| (big == Seg(c.l, j - 1) && small == Seg(i, c.r))
                 || (big == Seg(i, c.r) && small == Seg(c.l, j - 1)))
             && small.Size() <= big.Size()
    ensures SortInv(s0, s', n, open[..|open| - 1] + [big, small])
    ensures Cells(open[..|open| - 1] + [big, small]) < Cells(open)
  {
    hide Rearranged, Ordered, Apart, Halving, Parted, Descending, LeftBounds;
    var c := open[|open| - 1];
    RearrangedLength(s, s', c.l, c.r + 1);
    PartedRange(s', c.l, c.r, i, j);
    CurrentIn(s0, s, n, open);
    RearrangedWiden(s, s', c.l, c.r + 1, 1, n + 1);
    RearrangedTrans(s0, s, s', 1, n + 1);
    PartedOpens(s, s', n, open, i, j, open[..|open| - 1] + [big, small]);
    PushHalves(open, n, big, small);
    CellsPush(open[..|open| - 1], big, small);
  }

  lemma CurrentIn(s0: seq<Id>, s: seq<Id>, n: int, open: seq<Seg>)
    requires SortInv(s0, s, n, open)
    ensures var c := open[|open| - 1];
            1 <= c.l <= c.r + 1 <= n + 1 && LeftBounds(s, c.l, c.r) && Cells(open) >= 0
  {
    OrderedBoundsLeft(s, n, open);
    CellsNat(open, n);
  }

  lemma PushDepth(s0: seq<Id>, s: seq<Id>, n: int, open: seq<Seg>)
    requires SortInv(s0, s, n, open) && n <= MAX_COUNT && open[|open| - 1].Size() > SMALL
    ensures |open| - 1 < 27
  {
    DepthBound(open, n);
  }

  lemma ClosedDescends(s: seq<Id>, n: int)
    requires 0 <= n < |s| && Ordered(s, n, [])
    ensures Descending(s, 1, n + 1)
  {
  }

  lemma Popped(cells: seq<int>, jstack: int, pending: seq<Seg>)
    requires Stacked(cells, jstack, pending) && |pending| > 0
    ensures 2 <= jstack < |cells| && cells[jstack] == pending[|pending| - 1].r && cells[jstack - 1] == pending[|pending| - 1].l
    ensures Stacked(cells, jstack - 2, pending[..|pending| - 1])
  {
  }

  lemma Pushed(cells: seq<int>, jstack: int, pending: seq<Seg>, seg: Seg)
    requires Stacked(cells, jstack, pending) && jstack + 2 < |cells|
    ensures Stacked(cells[jstack + 2 := seg.r][jstack + 1 := seg.l], jstack + 2, pending + [seg])
  {
  }

  // Write a segment to the stack, whose top has been raised by two.
  method PushSeg(istack: array<int>, jstack: int, lo: int, hi: int, ghost pending: seq<Seg>)
    requires Stacked(istack[..], jstack - 2, pending) && 2 <= jstack < istack.Length
    modifies istack
    ensures Stacked(istack[..], jstack, pending + [Seg(lo, hi)])
  {
    hide Stacked;
    ghost var cells := istack[..];
    Pushed(cells, jstack - 2, pending, Seg(lo, hi));
    istack[jstack] := hi;
    istack[jstack - 1] := lo;
    assert istack[..] == cells[jstack := hi][jstack - 1 := lo];
  }

  // mdb_midl_sort sorts the list in place, never writes outside its cells, and
  // its stack of 64 cells never overflows.
  method Sort(ids: array<Id>)
    requires ids.Length > 0 && ids[0] < ids.Length && ids[0] <= MAX_COUNT
    modifies ids
    ensures Rearranged(old(ids[..]), ids[..], 1, ids[0] + 1)
    ensures ids[0] == old(ids[0])
    ensures Descending(ids[..], 1, ids[0] + 1)
  {
    hide SortInv, Stacked, Rearranged, Descending, Ordered, Apart, LeftBounds, Parted, Cells;
    var istack := new int[STACK_CELLS];
    ghost var n := ids[0];
    var ir := ids[0];
    var l := 1;
    var jstack := 0;
    ghost var s0 := ids[..];
    ghost var open := [Seg(1, n)];
    SortInvStart(s0, n);
    StackedEmpty(istack[..]);
    while true
      invariant SortInv(s0, ids[..], n, open)
      invariant |open| > 0 && open[|open| - 1] == Seg(l, ir) && open == open[..|open| - 1] + [Seg(l, ir)]
      invariant Stacked(istack[..], jstack, open[..|open| - 1])
      invariant istack.Length == STACK_CELLS && jstack == 2 * (|open| - 1)
      decreases 2 * Cells(open) + |open|
    {
      ghost var s := ids[..];
      ghost var pending := open[..|open| - 1];
      CurrentIn(s0, s, n, open);
      if ir - l < SMALL {
        InsertionSort(ids, l, ir);
        SortInvInserted(s0, s, ids[..], n, open);
        if jstack == 0 { break; }
        Popped(istack[..], jstack, pending);
        ir := istack[jstack];
        jstack := jstack - 1;
        l := istack[jstack];
        jstack := jstack - 1;
        open := pending;
      } else {
        PushDepth(s0, s, n, open);
        var i, j := Partition(ids, l, ir);
        jstack := jstack + 2;
        if ir - i + 1 >= j - l {
          SortInvParted(s0, s, ids[..], n, open, i, j, Seg(i, ir), Seg(l, j - 1));
          PushSeg(istack, jstack, i, ir, pending);
          open := pending + [Seg(i, ir), Seg(l, j - 1)];
          assert open[..|open| - 1] == pending + [Seg(i, ir)];
          ir := j - 1;
        } else {
          SortInvParted(s0, s, ids[..], n, open, i, j, Seg(l, j - 1), Seg(i, ir));
          PushSeg(istack, jstack, l, j - 1, pending);
          open := pending + [Seg(l, j - 1), Seg(i, ir)];
          assert open[..|open| - 1] == pending + [Seg(l, j - 1)];
          l := i;
        }
      }
    }
    RearrangedOutside(s0, ids[..], 1, n + 1, 0);
    ClosedDescends(ids[..], n);
  }

  lemma StackedEmpty(cells: seq<int>)
    requires |cells| > 0
    ensures Stacked(cells, 0, [])
  {
  }
}
