// po_rand_shuffle: Fisher-Yates on untyped memory.  As a function of its choices
// it reaches every order of the elements exactly once, and its byte-wise swaps
// move whole elements.
module Shuffle {
  import opened Bits
  import opened Random
  import opened WordNumber

  // ------------------------------------------------------------ Fisher-Yates

  // Choice k picks a place from 0 to k; choice 0 is the forced one.
  ghost predicate Choices(c: seq<nat>) {
    forall k | 0 <= k < |c| :: c[k] <= k
  }

  function Swapped<T>(s: seq<T>, i: nat, j: nat): (r: seq<T>)
    requires i < |s| && j < |s|
    ensures |r| == |s|
  {
    s[i := s[j]][j := s[i]]
  }

  // Places |c| - 1 down to 1 are filled in turn.
  function Shuffled<T>(s: seq<T>, c: seq<nat>): (r: seq<T>)
    requires |c| <= |s| && Choices(c)
    ensures |r| == |s|
    decreases |c|
  {
    if |c| <= 1 then s
    else
      var i := |c| - 1;
      Shuffled(Swapped(s, i, c[i]), c[..i])
  }

  lemma SwappedBag<T>(s: seq<T>, i: nat, j: nat)
    requires i < |s| && j < |s|
    ensures multiset(Swapped(s, i, j)) == multiset(s)
  {
  }

  // Only the order changes.
  lemma {:induction false} ShuffledBag<T>(s: seq<T>, c: seq<nat>)
    requires |c| <= |s| && Choices(c)
    ensures multiset(Shuffled(s, c)) == multiset(s)
    decreases |c|
  {
    if |c| > 1 {
      var i := |c| - 1;
      SwappedBag(s, i, c[i]);
      ShuffledBag(Swapped(s, i, c[i]), c[..i]);
    }
  }

  // A place, once filled, is final.
  lemma {:induction false} ShuffledAbove<T>(s: seq<T>, c: seq<nat>, p: nat)
    requires |c| <= p < |s| && Choices(c)
    ensures Shuffled(s, c)[p] == s[p]
    decreases |c|
  {
    if |c| > 1 {
      var i := |c| - 1;
      ShuffledAbove(Swapped(s, i, c[i]), c[..i], p);
    }
  }

  ghost predicate Distinct<T>(s: seq<T>) {
    forall p, q | 0 <= p < q < |s| :: s[p] != s[q]
  }

  // Different choices give different orders.
  lemma {:induction false} ShuffledInjective<T>(s: seq<T>, c: seq<nat>, d: seq<nat>)
    requires |c| == |d| <= |s| && Choices(c) && Choices(d) && Distinct(s)
    requires Shuffled(s, c) == Shuffled(s, d)
    ensures c == d
    decreases |c|
  {
    if |c| > 1 {
      var i := |c| - 1;
      ShuffledAbove(Swapped(s, i, c[i]), c[..i], i);
      ShuffledAbove(Swapped(s, i, d[i]), d[..i], i);
      assert s[c[i]] == s[d[i]];
      assert c[i] == d[i];
      ShuffledInjective(Swapped(s, i, c[i]), c[..i], d[..i]);
      assert c == c[..i] + [c[i]] && d == d[..i] + [d[i]];
    }
  }

  // Every order is reached: from the back, look up where its element is now.
  lemma {:induction false} ShuffledSurjective<T>(s: seq<T>, t: seq<T>, n: nat) returns (c: seq<nat>)
    requires n <= |s| == |t| && s[n..] == t[n..] && multiset(s) == multiset(t)
    ensures |c| == n && Choices(c) && Shuffled(s, c) == t
    decreases n
  {
    if n == 0 {
      c := [];
      assert s == s[0..] && t == t[0..];
    } else {
      var i := n - 1;
      var j := PlaceOf(s, t, n);
      var s1 := Swapped(s, i, j);
      SwappedBag(s, i, j);
      SwappedSuffix(s, t, i, j);
      var c1 := ShuffledSurjective(s1, t, i);
      c := c1 + [j];
      assert c[..i] == c1;
      if n == 1 { SwappedSelf(s, 0); }
    }
  }

  // Where the element that belongs in place n - 1 is now.
  lemma PlaceOf<T>(s: seq<T>, t: seq<T>, n: nat) returns (j: nat)
    requires 0 < n <= |s| == |t| && s[n..] == t[n..] && multiset(s) == multiset(t)
    ensures j < n && s[j] == t[n - 1]
  {
    SamePrefix(s, t, n);
    assert t[..n][n - 1] == t[n - 1] && t[n - 1] in multiset(s[..n]);
    j :| 0 <= j < n && s[..n][j] == t[n - 1];
  }

  lemma SamePrefix<T>(s: seq<T>, t: seq<T>, n: nat)
    requires n <= |s| == |t| && s[n..] == t[n..] && multiset(s) == multiset(t)
    ensures multiset(s[..n]) == multiset(t[..n])
  {
    assert s == s[..n] + s[n..] && t == t[..n] + t[n..];
    assert multiset(s[..n]) == multiset(s) - multiset(s[n..]);
    assert multiset(t[..n]) == multiset(t) - multiset(t[n..]);
  }

  lemma SwappedSuffix<T>(s: seq<T>, t: seq<T>, i: nat, j: nat)
    requires j <= i < |s| == |t| && s[i + 1..] == t[i + 1..] && s[j] == t[i]
    ensures Swapped(s, i, j)[i..] == t[i..]
  {
    var r := Swapped(s, i, j);
    forall p | i < p < |s| ensures r[p] == t[p] {
      assert s[i + 1..][p - i - 1] == t[i + 1..][p - i - 1];
    }
  }

  // So the choice vectors and the orders of distinct elements correspond one to
  // one: each order has exactly one vector that leads to it.
  lemma ShuffleIsBijective<T>(s: seq<T>, t: seq<T>)
    requires Distinct(s) && multiset(s) == multiset(t)
    ensures exists c: seq<nat> ::
              && |c| == |s| && Choices(c) && Shuffled(s, c) == t
              && forall d: seq<nat> | |d| == |s| && Choices(d) && Shuffled(s, d) == t :: d == c
  {
    assert |s| == |multiset(s)| == |multiset(t)| == |t|;
    assert s[|s|..] == t[|s|..];
    var c := ShuffledSurjective(s, t, |s|);
    forall d: seq<nat> | |d| == |s| && Choices(d) && Shuffled(s, d) == t ensures d == c {
      ShuffledInjective(s, c, d);
    }
  }

  // ------------------------------------------------------------------- bytes

  // The offset of element i.
  function Place(i: nat, size: nat): nat { i * size }

  lemma PlaceNext(i: nat, size: nat)
    ensures Place(i + 1, size) == Place(i, size) + size
  {
  }

  lemma PlacesApart(m: nat, i: nat, size: nat)
    requires m < i
    ensures Place(m, size) + size <= Place(i, size)
  {
    PlaceNext(m, size);
    MulMonotone(m + 1, i, size);
  }

  // Memory read as n elements of `size` bytes.
  function Elements(b: seq<bv8>, size: nat, n: nat): (es: seq<seq<bv8>>)
    requires Place(n, size) <= |b|
    ensures |es| == n
  {
    if n == 0 then []
    else
      PlaceNext(n - 1, size);
      Elements(b, size, n - 1) + [b[Place(n - 1, size)..Place(n - 1, size) + size]]
  }

  lemma {:induction false} ElementAt(b: seq<bv8>, size: nat, n: nat, i: nat)
    requires Place(n, size) <= |b| && i < n
    ensures Place(i, size) + size <= Place(n, size)
    ensures Elements(b, size, n)[i] == b[Place(i, size)..Place(i, size) + size]
  {
    PlacesApart(i, n, size);
    if i < n - 1 {
      PlaceNext(n - 1, size);
      ElementAt(b, size, n - 1, i);
    }
  }

  // Two places of `size` bytes have changed contents, and nothing else has.
  ghost predicate Exchanged(b: seq<bv8>, b': seq<bv8>, x: nat, y: nat, size: nat) {
    && y + size <= x && x + size <= |b| == |b'|
    && b'[x..x + size] == b[y..y + size] && b'[y..y + size] == b[x..x + size]
    && forall p | 0 <= p < |b| && !(x <= p < x + size) && !(y <= p < y + size) :: b'[p] == b[p]
  }

  // The byte-wise swap loop, on two places that do not overlap.
  method SwapBytes(a: array<bv8>, x: nat, y: nat, size: nat)
    requires y + size <= x && x + size <= a.Length
    modifies a
    ensures Exchanged(old(a[..]), a[..], x, y, size)
  {
    ghost var s := a[..];
    for b := 0 to size
      invariant forall p | x <= p < x + b :: a[p] == s[p - x + y]
      invariant forall p | y <= p < y + b :: a[p] == s[p - y + x]
      invariant forall p | 0 <= p < a.Length && !(x <= p < x + b) && !(y <= p < y + b) :: a[p] == s[p]
    {
      var tmp := a[x + b];
      a[x + b] := a[y + b];
      a[y + b] := tmp;
    }
    assert a[..][x..x + size] == s[y..y + size] && a[..][y..y + size] == s[x..x + size];
  }

  // Swapping the bytes of two elements swaps the elements and no others.
  lemma SwapMovesElements(b: seq<bv8>, b': seq<bv8>, size: nat, n: nat, i: nat, j: nat)
    requires |b'| == |b| && Place(n, size) <= |b| && j < i < n
    requires Exchanged(b, b', Place(i, size), Place(j, size), size)
    ensures Elements(b', size, n) == Swapped(Elements(b, size, n), i, j)
  {
    hide Elements, Place;
    forall m: nat | m < n ensures Elements(b', size, n)[m] == Swapped(Elements(b, size, n), i, j)[m] {
      ElementAt(b, size, n, m);
      ElementAt(b', size, n, m);
      ElementAt(b, size, n, i);
      ElementAt(b, size, n, j);
      if m != i && m != j {
        if m < i { PlacesApart(m, i, size); } else { PlacesApart(i, m, size); }
        if m < j { PlacesApart(m, j, size); } else { PlacesApart(j, m, size); }
        SliceBetween(b', b, Place(m, size), size, Place(i, size), Place(j, size));
      }
    }
  }

  lemma SliceBetween(b': seq<bv8>, b: seq<bv8>, z: nat, size: nat, x: nat, y: nat)
    requires z + size <= |b| == |b'|
    requires (z + size <= x || x + size <= z) && (z + size <= y || y + size <= z)
    requires forall p | 0 <= p < |b| && !(x <= p < x + size) && !(y <= p < y + size) :: b'[p] == b[p]
    ensures b'[z..z + size] == b[z..z + size]
  {
    SameSlice(b', b, z, z + size);
  }

  lemma ExchangedBehind(b: seq<bv8>, b': seq<bv8>, x: nat, y: nat, size: nat, end: nat)
    requires Exchanged(b, b', x, y, size) && x + size <= end <= |b|
    ensures b'[end..] == b[end..]
  {
    SameSlice(b', b, end, |b|);
  }

  lemma SameSlice(b': seq<bv8>, b: seq<bv8>, lo: nat, hi: nat)
    requires lo <= hi <= |b| == |b'| && forall p | lo <= p < hi :: b'[p] == b[p]
    ensures b'[lo..hi] == b[lo..hi]
  {
  }

  // ----------------------------------------------------------------- shuffle

  // The choices that a generator in state w makes for k elements.
  function ChoicesFrom(w: Words, k: nat): (c: seq<nat>)
    ensures |c| == k && Choices(c)
    decreases k
  {
    if k == 0 then []
    else if k == 1 then [0]
    else ChoicesFrom(NextState(w), k - 1) + [Number(Output(w)) % k]
  }

  lemma {:induction false} AfterNext(w: Words, draws: nat)
    ensures After(NextState(w), draws) == After(w, draws + 1)
  {
    hide NextState;
    if draws > 0 { AfterNext(w, draws - 1); }
  }

  // Choice i is made by draw k - i, from the numbers up to i.
  lemma {:induction false} ChoiceAt(w: Words, k: nat, i: nat)
    requires 1 <= i < k
    ensures ChoicesFrom(w, k)[i] == Number(Output(After(w, k - 1 - i))) % (i + 1)
    decreases k
  {
    hide NextState, Output, Number;
    if i < k - 1 {
      ChoiceAt(NextState(w), k - 1, i);
      AfterNext(w, k - 2 - i);
    }
  }

  method SwapElements(a: array<bv8>, n: nat, size: nat, i: nat, j: nat)
    requires Place(n, size) <= a.Length && j < i < n
    modifies a
    ensures Elements(a[..], size, n) == Swapped(old(Elements(a[..], size, n)), i, j)
    ensures a[Place(n, size)..] == old(a[Place(n, size)..])
  {
    hide Elements, Place, Exchanged, Swapped;
    ghost var b := a[..];
    PlacesApart(j, i, size);
    ElementAt(b, size, n, i);
    var x, y := Place(i, size), Place(j, size);
    SwapBytes(a, x, y, size);
    SwapMovesElements(b, a[..], size, n, i, j);
    ExchangedBehind(b, a[..], x, y, size, Place(n, size));
    assert a[Place(n, size)..] == a[..][Place(n, size)..] && b[Place(n, size)..] == old(a[Place(n, size)..]);
  }

  // po_rand_shuffle reorders the elements by the generator's choices, for any
  // element size, and leaves everything after them alone.
  method ShuffleInPlace(g: Generator, a: array<bv8>, n: nat, size: nat, e: Entropy)
    requires g.Valid() && Place(n, size) <= a.Length && n < 0x7FFF_FFFF_FFFF_FFFF
    modifies g.state, a
    ensures Elements(a[..], size, n) ==
            Shuffled(old(Elements(a[..], size, n)), ChoicesFrom(Ready(old(g.Value()), e), n))
    ensures a[Place(n, size)..] == old(a[Place(n, size)..])
  {
    hide Elements, Place, NextState, Output, Ready, ChoicesFrom, Shuffled, Choices;
    ghost var w0, es0 := Ready(g.Value(), e), Elements(a[..], size, n);
    if size == 0 || n < 2 {
      NothingToShuffle(a[..], size, n, ChoicesFrom(w0, n));
      return;
    }
    var i := n - 1;
    while i > 0
      invariant 0 <= i < n
      invariant Shuffled(Elements(a[..], size, n), ChoicesFrom(Ready(g.Value(), e), i + 1)) ==
                Shuffled(es0, ChoicesFrom(w0, n))
      invariant a[Place(n, size)..] == old(a[Place(n, size)..])
    {
      ghost var w, es := Ready(g.Value(), e), Elements(a[..], size, n);
      var j := g.RangeI64(0, i, e);
      DrawnChoice(w, g.Value(), e, i + 1);
      ShuffledStep(es, ChoicesFrom(w, i + 1));
      if j != i {
        SwapElements(a, n, size, i, j);
      } else {
        SwappedSelf(es, i);
      }
      i := i - 1;
    }
    ShuffledEnd(Elements(a[..], size, n), ChoicesFrom(Ready(g.Value(), e), 1));
  }

  lemma ShuffledStep<T>(s: seq<T>, c: seq<nat>)
    requires 2 <= |c| <= |s| && Choices(c)
    ensures var i := |c| - 1; c[i] <= i && Choices(c[..i]) && Shuffled(s, c) == Shuffled(Swapped(s, i, c[i]), c[..i])
  {
  }

  lemma ShuffledEnd<T>(s: seq<T>, c: seq<nat>)
    requires |c| <= 1 && |c| <= |s| && Choices(c)
    ensures Shuffled(s, c) == s
  {
  }

  lemma DrawnChoice(w: Words, w': Words, e: Entropy, k: nat)
    requires k >= 2 && w' == NextState(w) && w' != ZERO
    ensures Ready(w', e) == w'
    ensures ChoicesFrom(w, k)[..k - 1] == ChoicesFrom(w', k - 1)
    ensures ChoicesFrom(w, k)[k - 1] == Number(Output(w)) % k
  {
    hide NextState, Output;
  }

  lemma SwappedSelf<T>(s: seq<T>, i: nat)
    requires i < |s|
    ensures Swapped(s, i, i) == s
  {
  }

  // Elements of no bytes are all alike, and fewer than two have one order.
  lemma {:induction false} NothingToShuffle(b: seq<bv8>, size: nat, n: nat, c: seq<nat>)
    requires (size == 0 || n < 2) && Place(n, size) <= |b| && |c| <= n && Choices(c)
    ensures Shuffled(Elements(b, size, n), c) == Elements(b, size, n)
    decreases |c|
  {
    if |c| > 1 {
      var i, es := |c| - 1, Elements(b, size, n);
      ElementAt(b, size, n, i);
      ElementAt(b, size, n, c[i]);
      assert Swapped(es, i, c[i]) == es;
      NothingToShuffle(b, size, n, c[..i]);
    }
  }
}
