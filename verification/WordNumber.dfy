// The unsigned number that a 64-bit word stands for.  Addition, multiplication
// and shifts of words are those of the numbers, modulo 2^64.
module WordNumber {
  import opened Bits

  const LAST: bv64 := 0xFFFF_FFFF_FFFF_FFFF

  function Number(x: bv64): (n: nat)
    ensures n == 0 <==> x == 0
    decreases x
  {
    if x == 0 then 0
    else
      HalfLess(x);
      2 * Number(Half(x)) + if Odd(x) then 1 else 0
  }

  function Half(x: bv64): bv64 { x >> 1 }

  predicate Odd(x: bv64) { x & 1 == 1 }

  function Plus(x: bv64, y: bv64): bv64 { x + y }

  function Mul(x: bv64, y: bv64): bv64 { x * y }

  function Halvings(x: bv64, n: nat): bv64 {
    if n == 0 then x else Half(Halvings(x, n - 1))
  }

  // -------------------------------------------------------- bit equations

  lemma HalfLess(x: bv64)
    requires x != 0
    ensures Half(x) < x && (Half(x) == 0 ==> Odd(x))
  {
  }

  lemma NextOfEven(x: bv64)
    requires !Odd(x)
    ensures Half(Plus(x, 1)) == Half(x) && Odd(Plus(x, 1))
  {
  }

  lemma NextOfOdd(x: bv64)
    requires Odd(x) && x != LAST
    ensures Half(Plus(x, 1)) == Plus(Half(x), 1) && !Odd(Plus(x, 1)) && Half(x) != LAST
  {
  }

  lemma SameHalves(x: bv64, y: bv64)
    requires Half(x) == Half(y) && (Odd(x) <==> Odd(y))
    ensures x == y
  {
  }

  lemma HalfOfZero()
    ensures Half(0) == 0 && !Odd(0)
  {
  }

  lemma OneLess(x: bv64)
    requires x != 0
    ensures x - 1 != LAST && Plus(x - 1, 1) == x
  {
  }

  lemma PlusNext(x: bv64, y: bv64)
    ensures Plus(x, y) == Plus(Plus(x, y - 1), 1) && Plus(x, 0) == x && Plus(LAST, 1) == 0
  {
  }

  lemma MulNext(x: bv64, y: bv64)
    ensures Mul(x, y) == Plus(Mul(x, y - 1), x) && Mul(x, 0) == 0
  {
  }

  lemma EightHalvings(x: bv64, n: nat)
    ensures Halvings(x, n + 8) == Halvings(x, n) >> 8
  {
    hide Half;
    var y := Halvings(x, n);
    EightHalves(y);
    assert Halvings(x, n + 2) == Half(Half(y));
    assert Halvings(x, n + 4) == Half(Half(Half(Half(y))));
    assert Halvings(x, n + 6) == Half(Half(Half(Half(Half(Half(y))))));
  }

  lemma EightHalves(y: bv64)
    ensures Half(Half(Half(Half(Half(Half(Half(Half(y)))))))) == y >> 8
  {
  }

  lemma HalvingsAreShifts(x: bv64)
    ensures Halvings(x, 57) == x >> 57 && Halvings(x, 64) == 0
  {
    hide Half;
    EightHalvings(x, 0);
    EightHalvings(x, 8);
    EightHalvings(x, 16);
    EightHalvings(x, 24);
    EightHalvings(x, 32);
    EightHalvings(x, 40);
    EightHalvings(x, 48);
    EightHalvings(x, 56);
    assert Halvings(x, 56) == x >> 56 && Halvings(x, 57) == Half(Halvings(x, 56));
    LastHalving(x);
  }

  lemma LastHalving(x: bv64)
    ensures Half(x >> 56) == x >> 57
  {
  }

  // The low n bits are ones, and there are no others.
  predicate Ones(x: bv64, n: nat) {
    if n == 0 then x == 0 else Odd(x) && Ones(Half(x), n - 1)
  }

  lemma EightOnes(x: bv64, n: nat)
    requires x & 0xFF == 0xFF && Ones(x >> 8, n)
    ensures Ones(x, n + 8)
  {
    assert Ones(x >> 6, n + 2);
    assert Ones(x >> 4, n + 4);
    assert Ones(x >> 2, n + 6);
  }

  lemma LastIsOnes()
    ensures Ones(LAST, 64)
  {
    hide Half, Odd;
    assert Ones(0, 0);
    EightOnes(0xFF, 0);
    EightOnes(0xFFFF, 8);
    EightOnes(0xFF_FFFF, 16);
    EightOnes(0xFFFF_FFFF, 24);
    EightOnes(0xFF_FFFF_FFFF, 32);
    EightOnes(0xFFFF_FFFF_FFFF, 40);
    EightOnes(0xFF_FFFF_FFFF_FFFF, 48);
    EightOnes(LAST, 56);
  }

  // --------------------------------------------------------------- numbers

  lemma Halved(x: bv64)
    ensures Number(x) == 2 * Number(Half(x)) + if Odd(x) then 1 else 0
  {
    hide Half, Odd;
    HalfOfZero();
  }

  lemma {:induction false} NumberHalvings(x: bv64, n: nat)
    ensures Number(Halvings(x, n)) == Number(x) / Pow2(n)
  {
    hide Number, Half, Odd;
    if n > 0 {
      NumberHalvings(x, n - 1);
      Halved(Halvings(x, n - 1));
      DivDiv(Number(x), Pow2(n - 1));
    }
  }

  lemma Doubled(h: nat, p: nat)
    ensures (2 * h) * p == h * (2 * p)
  {
  }

  lemma DivDiv(x: nat, p: nat)
    requires p > 0
    ensures x / p / 2 == x / (2 * p)
  {
    var q, r := x / p, x % p;
    var h := q / 2;
    Doubled(h, p);
    if q == 2 * h {
      DivModUnique(x, 2 * p, h, r);
    } else {
      MulOneMore(p, 2 * h);
      DivModUnique(x, 2 * p, h, p + r);
    }
  }

  lemma {:induction false} NumberOnes(x: bv64, n: nat)
    requires Ones(x, n)
    ensures Number(x) == Pow2(n) - 1
    decreases n
  {
    hide Number, Half, Odd;
    if n > 0 {
      Halved(x);
      NumberOnes(Half(x), n - 1);
    }
  }

  lemma NumberRange(x: bv64)
    ensures Number(x) < WORD && Number(LAST) == WORD - 1
  {
    hide Number, Halvings, Ones, Pow2;
    Pow2Is64();
    NumberHalvings(x, 64);
    HalvingsAreShifts(x);
    LastIsOnes();
    NumberOnes(LAST, 64);
  }

  // Different words stand for different numbers.
  lemma {:induction false} NumberInjective(x: bv64, y: bv64)
    requires Number(x) == Number(y)
    ensures x == y
    decreases Number(x)
  {
    hide Number, Half, Odd;
    Halved(x);
    Halved(y);
    if x != 0 {
      NumberInjective(Half(x), Half(y));
      SameHalves(x, y);
    }
  }

  lemma {:induction false} NumberNext(x: bv64)
    requires x != LAST
    ensures Number(Plus(x, 1)) == Number(x) + 1
    decreases Number(x)
  {
    hide Number, Half, Odd, Plus;
    Halved(x);
    Halved(Plus(x, 1));
    if Odd(x) {
      NextOfOdd(x);
      NumberNext(Half(x));
    } else {
      NextOfEven(x);
    }
  }

  lemma {:induction false} NumberAdd(x: bv64, y: bv64)
    ensures Number(Plus(x, y)) == (Number(x) + Number(y)) % WORD
    decreases Number(y)
  {
    hide Number, Plus;
    NumberRange(x);
    PlusNext(x, y);
    if y != 0 {
      OneLess(y);
      NumberNext(y - 1);
      NumberAdd(x, y - 1);
      var z := Plus(x, y - 1);
      NumberRange(z);
      ModNext(Number(x) + Number(y - 1));
      if z == LAST {
        assert Number(Plus(z, 1)) == 0;
      } else {
        NumberNext(z);
        NumberRange(Plus(z, 1));
      }
    }
  }

  lemma ModNext(a: int)
    ensures (a + 1) % WORD == if a % WORD + 1 == WORD then 0 else a % WORD + 1
  {
  }

  lemma ModAdd(a: int, b: int)
    ensures (a % WORD + b) % WORD == (a + b) % WORD
  {
  }

  lemma MulOneMore(n: int, m: int)
    ensures n * (m + 1) == n * m + n
  {
  }

  lemma {:induction false} NumberMul(x: bv64, y: bv64)
    ensures Number(Mul(x, y)) == Number(x) * Number(y) % WORD
    decreases Number(y)
  {
    hide Number, Plus, Mul;
    MulNext(x, y);
    if y != 0 {
      OneLess(y);
      NumberNext(y - 1);
      NumberMul(x, y - 1);
      NumberAdd(Mul(x, y - 1), x);
      MulOneMore(Number(x), Number(y - 1));
      ModAdd(Number(x) * Number(y - 1), Number(x));
    }
  }
}
