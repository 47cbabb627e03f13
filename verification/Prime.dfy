// is_prime on 64-bit numbers, with i * i wrapping as the code's multiplication
// does.
module Prime {
  import opened Bits

  ghost predicate Divides(d: nat, n: nat)
    requires d > 0
  {
    n % d == 0
  }

  ghost predicate Prime(n: nat) {
    n >= 2 && forall d: nat | 2 <= d < n :: !Divides(d, n)
  }

  // No divisor from 2 up to i (excluded).
  ghost predicate NoneBelow(n: nat, i: nat) {
    forall d: nat | 2 <= d < i :: !Divides(d, n)
  }

  lemma DividesTrans(a: nat, b: nat, n: nat)
    requires a > 0 && b > 0 && Divides(a, b) && Divides(b, n)
    ensures Divides(a, n)
  {
    var x, y := b / a, n / b;
    assert n == (y * x) * a by {
      assert b == x * a && n == y * b;
      assert y * (x * a) == (y * x) * a;
    }
    DivModUnique(n, a, y * x, 0);
  }

  // Trial division may stop at the square root.
  lemma StopAtRoot(n: nat, i: nat)
    requires n >= 2 && i >= 2 && i * i > n && NoneBelow(n, i)
    ensures Prime(n)
  {
    forall d: nat | 2 <= d < n ensures !Divides(d, n) {
      if Divides(d, n) && d >= i {
        var e := n / d;
        assert n == e * d;
        DivModUnique(n, e, d, 0) by { Cofactor(n, d, e); }
        Cofactor(n, d, e);
        if e >= i {
          MulMonotone(i, e, d);
          MulMonotone(i, d, i);
        } else {
          assert Divides(e, n);
        }
      }
    }
  }

  lemma Cofactor(n: nat, d: nat, e: int)
    requires 2 <= d < n && n == e * d
    ensures e >= 2 && n == d * e
  {
    if e <= 1 { MulMonotone(e, 1, d); }
  }

  // The four numbers between one tested pair and the next cannot divide.
  lemma SixStep(n: nat, i: nat)
    requires i >= 5 && i % 6 == 5 && !Divides(2, n) && !Divides(3, n)
    requires NoneBelow(n, i) && !Divides(i, n) && !Divides(i + 2, n)
    ensures NoneBelow(n, i + 6)
  {
    hide Divides;
    GapDivisors(i);
    forall d: nat | i < d < i + 6 && d != i + 2 ensures !Divides(d, n) {
      if Divides(d, n) { DividesTrans(if d == i + 4 then 3 else 2, d, n); }
    }
  }

  lemma GapDivisors(i: nat)
    requires i % 6 == 5
    ensures Divides(2, i + 1) && Divides(2, i + 3) && Divides(3, i + 4) && Divides(2, i + 5)
  {
    var k := i / 6;
    DivModUnique(i + 1, 2, 3 * k + 3, 0);
    DivModUnique(i + 3, 2, 3 * k + 4, 0);
    DivModUnique(i + 4, 3, 2 * k + 3, 0);
    DivModUnique(i + 5, 2, 3 * k + 5, 0);
  }

  // i * i on 64-bit words.
  function WrappedSquare(i: nat): nat {
    (i * i) % WORD
  }

  // The last i whose square does not wrap, and the least n that needs more.
  const LAST_EXACT: nat := 0xFFFF_FFFB
  const WRAP_FROM: nat := 0xFFFF_FFF6_0000_0019

  // -7 is a square modulo 2^64.  This root of it is one of the loop's values,
  // and no n that survives so far is as large as its wrapped square.
  const ROOT: nat := 0x19B4_BB63_9C98_C0B5

  lemma RootWraps()
    ensures WrappedSquare(ROOT) == WORD - 7 && ROOT % 6 == 5 && ROOT + 2 < WRAP_FROM
    ensures LAST_EXACT * LAST_EXACT == WRAP_FROM
  {
    DivModUnique(ROOT * ROOT, WORD, 0x294_CC31_81D4_B9FB, WORD - 7);
  }

  // The seven largest numbers all have a divisor below 14.
  lemma TopIsComposite(n: nat)
    requires WORD - 7 <= n < WORD
    ensures Divides(2, n) || Divides(3, n) || Divides(11, n) || Divides(13, n)
  {
  }

  // Where the loop may stand: before the squares wrap, or beyond with a huge n.
  ghost predicate AtTrial(n: nat, i: nat) {
    && 5 <= i <= ROOT && i % 6 == 5 && n < WORD
    && (i <= LAST_EXACT || n >= WRAP_FROM)
    && !Divides(2, n) && !Divides(3, n) && NoneBelow(n, i)
  }

  lemma SquareExact(i: nat)
    requires 5 <= i <= LAST_EXACT
    ensures WrappedSquare(i) == i * i && i * i > i + 2
    ensures i * i <= WRAP_FROM
  {
    MulMonotone(i, LAST_EXACT, i);
    MulMonotone(i, LAST_EXACT, LAST_EXACT);
    RootWraps();
    MulMonotone(5, i, i);
    ModSmall(i * i, WORD);
  }

  // Another round has proper candidates, and it is not the last one.
  lemma RoundGoesOn(n: nat, i: nat)
    requires AtTrial(n, i) && WrappedSquare(i) <= n
    ensures i + 2 < n && i + 6 <= ROOT
    ensures i + 6 <= LAST_EXACT || n >= WRAP_FROM
  {
    RootWraps();
    if i <= LAST_EXACT {
      SquareExact(i);
    }
    if i == ROOT {
      TopIsComposite(n);
      assert false;
    }
  }

  // When the loop ends, i has passed the square root, wrapped or not.
  lemma EndsPastRoot(n: nat, i: nat)
    requires AtTrial(n, i) && WrappedSquare(i) > n
    ensures i * i > n
  {
    if i <= LAST_EXACT {
      SquareExact(i);
    } else {
      MulMonotone(0x1_0000_0000, i, i);
      MulMonotone(0x1_0000_0000, i, 0x1_0000_0000);
    }
  }

  // is_prime is exact for every 64-bit n, also where i * i wraps.
  method IsPrime(n: nat) returns (b: bool)
    requires n < WORD
    ensures b <==> Prime(n)
  {
    hide WrappedSquare, NoneBelow, Prime, Divides, AtTrial;
    if n <= 1 {
      FirstNumbers(n);
      return false;
    }
    if n <= 3 {
      FirstNumbers(n);
      return true;
    }
    if n % 2 == 0 || n % 3 == 0 {
      HasDivisor(n, if n % 2 == 0 then 2 else 3);
      return false;
    }
    var i := 5;
    TrialStarts(n);
    while WrappedSquare(i) <= n
      invariant i >= 5 && AtTrial(n, i)
      decreases ROOT - i
    {
      RoundGoesOn(n, i);
      if n % i == 0 || n % (i + 2) == 0 {
        HasDivisor(n, if n % i == 0 then i else i + 2);
        return false;
      }
      TrialGoesOn(n, i);
      i := i + 6;
    }
    TrialEnds(n, i);
    return true;
  }

  lemma FirstNumbers(n: nat)
    requires n <= 3
    ensures Prime(n) <==> n >= 2
  {
  }

  lemma HasDivisor(n: nat, d: nat)
    requires 2 <= d < n && n % d == 0
    ensures !Prime(n)
  {
    assert Divides(d, n);
  }

  lemma TrialStarts(n: nat)
    requires 3 < n < WORD && n % 2 != 0 && n % 3 != 0
    ensures AtTrial(n, 5)
  {
    hide NoneBelow;
    SmallTrial(n);
  }

  lemma TrialGoesOn(n: nat, i: nat)
    requires i >= 5 && AtTrial(n, i) && n % i != 0 && n % (i + 2) != 0
    requires i + 6 <= ROOT && (i + 6 <= LAST_EXACT || n >= WRAP_FROM)
    ensures AtTrial(n, i + 6)
  {
    hide NoneBelow;
    SixStep(n, i);
  }

  lemma TrialEnds(n: nat, i: nat)
    requires n >= 2 && AtTrial(n, i) && WrappedSquare(i) > n
    ensures Prime(n)
  {
    hide WrappedSquare, NoneBelow, Prime, Divides;
    EndsPastRoot(n, i);
    StopAtRoot(n, i);
  }

  lemma SmallTrial(n: nat)
    requires !Divides(2, n) && !Divides(3, n)
    ensures NoneBelow(n, 5)
  {
    forall d: nat | 2 <= d < 5 ensures !Divides(d, n) {
      if d == 4 && Divides(4, n) { DividesTrans(2, 4, n); }
    }
  }

  // Every number from 2 on has a prime divisor.
  lemma {:induction false} PrimeFactor(m: nat) returns (p: nat)
    requires m >= 2
    ensures Prime(p) && Divides(p, m)
    decreases m
  {
    if Prime(m) {
      p := m;
    } else {
      var d: nat :| 2 <= d < m && Divides(d, m);
      p := PrimeFactor(d);
      DividesTrans(p, d, m);
    }
  }
}
