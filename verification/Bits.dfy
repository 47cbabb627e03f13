// Arithmetic shared by the models: powers of two, the bitwise AND of two
// naturals, and the few facts about `%` that the solver does not find alone.
module Bits {

  // The number of values of a 64-bit `size_t`.
  const WORD: nat := 0x1_0000_0000_0000_0000

  function Pow2(k: nat): (p: nat)
    ensures p >= 1
  {
    if k == 0 then 1 else 2 * Pow2(k - 1)
  }

  ghost predicate IsPow2(n: nat) {
    exists k: nat :: n == Pow2(k)
  }

  // Bitwise AND, least significant bit first.
  function And(x: nat, y: nat): nat {
    if x == 0 || y == 0 then 0
    else 2 * And(x / 2, y / 2) + if x % 2 == 1 && y % 2 == 1 then 1 else 0
  }

  // ---------------------------------------------------------------- modulus

  lemma MulMonotone(a: int, b: int, c: int)
    requires a <= b && 0 <= c
    ensures a * c <= b * c
  {
  }

  // The quotient and remainder of a number are the only ones there are.
  lemma DivModUnique(x: int, n: int, q: int, r: int)
    requires n > 0 && x == q * n + r && 0 <= r < n
    ensures x / n == q && x % n == r
  {
    if x / n < q {
      MulMonotone(x / n + 1, q, n);
    } else if x / n > q {
      MulMonotone(q + 1, x / n, n);
    }
  }

  lemma ModShift(x: int, n: int, q: int)
    requires n > 0
    ensures (x + q * n) % n == x % n
    ensures (x + q * n) / n == x / n + q
  {
    calc {
      x + q * n;
      (x / n) * n + x % n + q * n;
      (x / n + q) * n + x % n;
    }
    DivModUnique(x + q * n, n, x / n + q, x % n);
  }

  lemma ModSmall(x: int, n: int)
    requires 0 <= x < n
    ensures x % n == x
  {
    DivModUnique(x, n, 0, x);
  }

  // Reducing by a multiple of n first does not change the remainder by n.
  lemma ModOfMod(x: int, n: int, m: int)
    requires n > 0 && m > 0
    ensures (x % (n * m)) % n == x % n
  {
    var q := x / (n * m);
    assert x % (n * m) == x + (-q * m) * n by {
      assert (-q * m) * n == -(q * (n * m)) by { MulReorder(q, n, m); }
    }
    ModShift(x, n, -q * m);
  }

  lemma MulReorder(q: int, n: int, m: int)
    ensures (-q * m) * n == -(q * (n * m))
  {
    calc {
      (-q * m) * n;
      -((q * m) * n);
      -(q * (m * n));
      -(q * (n * m));
    }
  }

  // ---------------------------------------------------------- powers of two

  lemma {:induction false} Pow2Add(a: nat, b: nat)
    ensures Pow2(a + b) == Pow2(a) * Pow2(b)
  {
    if a > 0 {
      Pow2Add(a - 1, b);
      assert Pow2(a + b) == 2 * Pow2(a - 1 + b);
    }
  }

  lemma {:induction false} Pow2Monotone(a: nat, b: nat)
    requires a <= b
    ensures Pow2(a) <= Pow2(b)
    decreases b
  {
    if a < b {
      Pow2Monotone(a, b - 1);
    }
  }

  lemma Pow2Is64()
    ensures Pow2(64) == WORD
  {
    assert Pow2(8) == 0x100;
    Pow2Add(8, 8);
    assert Pow2(16) == 0x1_0000;
    Pow2Add(16, 16);
    assert Pow2(32) == 0x1_0000_0000;
    Pow2Add(32, 32);
  }

  // Masking with 2^k - 1 keeps the remainder by 2^k.
  lemma {:induction false} AndMask(x: nat, k: nat)
    ensures And(x, Pow2(k) - 1) == x % Pow2(k)
  {
    if k == 0 {
      DivModUnique(x, 1, x, 0);
    } else if x == 0 {
      ModSmall(0, Pow2(k));
    } else {
      AndMask(x / 2, k - 1);
      HalveMod(x, Pow2(k - 1));
      AndStep(x, 2 * Pow2(k - 1) - 1);
    }
  }

  lemma AndStep(x: nat, y: nat)
    requires y % 2 == 1
    ensures And(x, y) == 2 * And(x / 2, y / 2) + x % 2
  {
  }

  lemma HalveMod(x: nat, h: nat)
    requires h > 0
    ensures (2 * h - 1) / 2 == h - 1 && (2 * h - 1) % 2 == 1
    ensures x % (2 * h) == 2 * ((x / 2) % h) + x % 2
  {
    var q, r := x / 2 / h, x / 2 % h;
    assert x / 2 == q * h + r;
    assert q * (2 * h) == 2 * (q * h);
    DivModUnique(x, 2 * h, q, 2 * r + x % 2);
  }

  // The test `c & (c - 1) == 0` accepts exactly the powers of two.
  lemma {:induction false} PowerOfTwoTest(c: nat)
    requires c > 0
    ensures And(c, c - 1) == 0 <==> IsPow2(c)
  {
    if c == 1 {
      assert c == Pow2(0);
    } else if c % 2 == 1 {
      assert c - 1 > 0 && (c - 1) / 2 == c / 2;
      AndSelf(c / 2);
      forall k: nat ensures c != Pow2(k) {
      }
    } else {
      var h := c / 2;
      assert (c - 1) / 2 == h - 1 && (c - 1) % 2 == 1;
      PowerOfTwoTest(h);
      if h != 1 {
        assert And(c, c - 1) == 2 * And(h, h - 1);
      }
      if IsPow2(h) {
        var k: nat :| h == Pow2(k);
        assert c == Pow2(k + 1);
      }
      if IsPow2(c) {
        var k: nat :| c == Pow2(k);
        assert k > 0 && h == Pow2(k - 1);
      }
    }
  }

  lemma {:induction false} AndSelf(x: nat)
    ensures And(x, x) == x
  {
    if x > 0 {
      AndSelf(x / 2);
    }
  }
}
