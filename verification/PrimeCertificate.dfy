// Primality certificates after Pocklington: a number whose order modulo every
// divisor of n is large leaves n no room for small divisors.
module PrimeCertificate {
  import opened Bits
  import opened Primes = Prime
  import opened Slots

  // ------------------------------------------------------- powers modulo m

  ghost function Times(x: nat, y: nat, m: nat): (r: nat)
    requires m > 0
    ensures r < m
  {
    x * y % m
  }

  ghost function Power(b: nat, e: nat, m: nat): (r: nat)
    requires m > 0
    ensures r < m
  {
    if e == 0 then 1 % m else Times(Power(b, e - 1, m), b, m)
  }

  lemma ModFactor(x: int, y: int, m: int)
    requires m > 0
    ensures (x % m) * y % m == x * y % m
  {
    var q := x / m;
    assert x == q * m + x % m;
    assert x * y == (x % m) * y + (q * y) * m by {
      assert (q * m + x % m) * y == q * m * y + (x % m) * y;
      assert q * m * y == (q * y) * m;
    }
    ModShift((x % m) * y, m, q * y);
  }

  lemma TimesFirst(x: nat, y: nat, z: nat, m: nat)
    requires m > 0
    ensures Times(Times(x, y, m), z, m) == Times(x * y, z, m)
  {
    ModFactor(x * y, z, m);
  }

  lemma TimesSame(x: nat, y: nat, z: nat, w: nat, m: nat)
    requires m > 0 && x * y == z * w
    ensures Times(x, y, m) == Times(z, w, m)
  {
  }

  lemma TimesAssoc(x: nat, y: nat, z: nat, m: nat)
    requires m > 0
    ensures Times(Times(x, y, m), z, m) == Times(x, Times(y, z, m), m)
  {
    hide Times;
    TimesFirst(x, y, z, m);
    TimesFirst(y, z, x, m);
    Reorder(x, y, z);
    TimesSame(x * y, z, y * z, x, m);
    TimesSame(Times(y, z, m), x, x, Times(y, z, m), m);
  }

  lemma Reorder(x: nat, y: nat, z: nat)
    ensures x * y * z == y * z * x
  {
  }

  lemma TimesOne(x: nat, m: nat)
    requires x < m && m > 0
    ensures Times(x, 1 % m, m) == x && Times(1 % m, x, m) == x
  {
    ModSmall(x, m);
    if m == 1 {
      assert x == 0;
    } else {
      ModSmall(1, m);
    }
  }

  lemma {:induction false} PowerAdd(b: nat, i: nat, j: nat, m: nat)
    requires m > 0
    ensures Power(b, i + j, m) == Times(Power(b, i, m), Power(b, j, m), m)
  {
    hide Times;
    if j == 0 {
      TimesOne(Power(b, i, m), m);
    } else {
      PowerAdd(b, i, j - 1, m);
      TimesAssoc(Power(b, i, m), Power(b, j - 1, m), b, m);
    }
  }

  lemma {:induction false} PowerOfOne(b: nat, k: nat, t: nat, m: nat)
    requires m > 1 && Power(b, k, m) == 1
    ensures Power(b, k * t, m) == 1
  {
    hide Times;
    ModSmall(1, m);
    if t == 0 {
      assert k * t == 0;
    } else {
      PowerOfOne(b, k, t - 1, m);
      assert k * t == k * (t - 1) + k;
      PowerAdd(b, k * (t - 1), k, m);
      TimesOne(1, m);
    }
  }

  // Modulo a divisor.
  lemma ModDown(x: int, d: nat, n: nat)
    requires 0 < d && 0 < n && Divides(d, n)
    ensures (x % n) % d == x % d
  {
    assert n == d * (n / d);
    ModOfMod(x, d, n / d);
  }

  lemma {:induction false} PowerDown(b: nat, e: nat, d: nat, n: nat)
    requires d > 0 && n > 0 && Divides(d, n)
    ensures Power(b, e, n) % d == Power(b, e, d)
  {
    if e == 0 {
      ModDown(1, d, n);
    } else {
      PowerDown(b, e - 1, d, n);
      var x := Power(b, e - 1, n);
      ModDown(x * b, d, n);
      ModFactor(x, b, d);
    }
  }

  // ------------------------------------------------------------- the order

  lemma {:induction false} Order(b: nat, e: nat, d: nat) returns (k: nat)
    requires d > 1 && e > 0 && Power(b, e, d) == 1
    ensures 1 <= k <= e && Power(b, k, d) == 1 && forall j: nat | 0 < j < k :: Power(b, j, d) != 1
  {
    if j: nat :| 0 < j < e && Power(b, j, d) == 1 {
      k := Order(b, j, d);
    } else {
      k := e;
    }
  }

  // It divides every exponent that gives 1.
  lemma OrderDivides(b: nat, k: nat, e: nat, d: nat)
    requires d > 1 && k > 0 && Power(b, k, d) == 1 && Power(b, e, d) == 1
    requires forall j: nat | 0 < j < k :: Power(b, j, d) != 1
    ensures Divides(k, e)
  {
    var t, s := e / k, e % k;
    assert e == k * t + s;
    hide Times, Power;
    PowerOfOne(b, k, t, d);
    PowerAdd(b, k * t, s, d);
    ModSmall(1, d);
    TimesOne(Power(b, s, d), d);
  }

  // As many different remainders as the order, none of them 0.
  lemma OrderBelow(b: nat, k: nat, d: nat)
    requires d > 1 && k > 0 && Power(b, k, d) == 1
    requires forall j: nat | 0 < j < k :: Power(b, j, d) != 1
    ensures k < d
  {
    hide Times, Power;
    forall i: nat | i < k ensures Power(b, i, d) != 0 {
      PowerAdd(b, i, k - i, d);
      TimesZero(Power(b, k - i, d), d);
    }
    var s: seq<nat> := seq(k, i requires 0 <= i < k => Power(b, i, d) - 1);
    forall i, j | 0 <= i < j < k ensures s[i] != s[j] {
      PowerAdd(b, i, k - i, d);
      PowerAdd(b, j, k - i, d);
      PowerAdd(b, k, j - i, d);
      ModSmall(1, d);
      TimesOne(Power(b, j - i, d), d);
      assert j + (k - i) == k + (j - i);
    }
    PigeonHole(s, d - 1);
  }

  lemma TimesZero(x: nat, m: nat)
    requires m > 0
    ensures Times(0, x, m) == 0
  {
  }

  // ---------------------------------------------------------- the theorem

  // All prime divisors of f are listed.
  ghost predicate PrimesOf(f: nat, qs: set<nat>) {
    forall q: nat | Prime(q) && Divides(q, f) :: q in qs
  }

  // The power b^e stays away from 1 modulo every divisor of n: its distance
  // from 1 has an inverse u modulo n.
  ghost predicate Apart(b: nat, e: nat, n: nat, u: nat)
    requires n > 0
  {
    (Power(b, e, n) - 1) * u % n == 1
  }

  lemma ApartDown(b: nat, e: nat, n: nat, u: nat, d: nat)
    requires n > 1 && d > 1 && Divides(d, n) && Apart(b, e, n, u)
    ensures Power(b, e, d) != 1
  {
    hide Power;
    var x := Power(b, e, n);
    PowerDown(b, e, d, n);
    ModDown((x - 1) * u, d, n);
    ModSmall(1, d);
    OneLess(x, d, u);
  }

  lemma OneLess(x: nat, d: nat, u: nat)
    requires d > 1
    ensures x % d == 1 ==> (x - 1) * u % d == 0
  {
    if x % d == 1 {
      DivModUnique(x - 1, d, x / d, 0);
      ModFactor(x - 1, u, d);
    }
  }

  // A proper divisor k of f divides f / q for a prime q.
  lemma ProperDivisor(k: nat, f: nat) returns (q: nat, v: nat)
    requires 0 < k < f && Divides(k, f)
    ensures Prime(q) && Divides(q, f) && f / q == k * v
  {
    hide Prime;
    var t := f / k;
    assert f == k * t;
    assert t >= 2 by { if t <= 1 { MulMonotone(t, 1, k); } }
    q := PrimeFactor(t);
    PrimePositive(q);
    v := t / q;
    assert t == q * v;
    assert f == (k * v) * q by { assert k * (q * v) == (k * v) * q; }
    DivModUnique(f, q, k * v, 0);
  }

  lemma PrimePositive(q: nat)
    requires Prime(q)
    ensures q >= 2
  {
  }

  lemma FullOrder(b: nat, f: nat, qs: set<nat>, d: nat)
    requires d > 1 && f > 0 && Power(b, f, d) == 1 && PrimesOf(f, qs)
    requires forall q | q in qs && q > 0 :: Power(b, f / q, d) != 1
    ensures f < d
  {
    hide Power, Prime, Divides;
    var k := Order(b, f, d);
    OrderDivides(b, k, f, d);
    if k < f {
      var q, v := ProperDivisor(k, f);
      PrimePositive(q);
      PowerOfOne(b, k, v, d);
    }
    OrderBelow(b, k, d);
  }

  // Pocklington's criterion.
  lemma Certified(n: nat, b: nat, f: nat, qs: set<nat>)
    requires n >= 2 && f >= 1 && (f + 1) * (f + 1) > n && Power(b, f, n) == 1 && PrimesOf(f, qs)
    requires forall q | q in qs && q > 0 :: exists u: nat :: Apart(b, f / q, n, u)
    ensures Prime(n)
  {
    hide Power, Prime, Divides, PrimesOf, Apart;
    forall d: nat | 2 <= d < f + 1 ensures !Divides(d, n) {
      if Divides(d, n) { SmallDivisor(n, b, f, qs, d); }
    }
    StopAtRoot(n, f + 1);
  }

  lemma SmallDivisor(n: nat, b: nat, f: nat, qs: set<nat>, d: nat)
    requires n >= 2 && f >= 1 && Power(b, f, n) == 1 && PrimesOf(f, qs)
    requires forall q | q in qs && q > 0 :: exists u: nat :: Apart(b, f / q, n, u)
    requires d >= 2 && Divides(d, n)
    ensures f < d
  {
    hide Power, Prime, Divides, PrimesOf, Apart;
    PowerDown(b, f, d, n);
    ModSmall(1, d);
    forall q | q in qs && q > 0 ensures Power(b, f / q, d) != 1 {
      var u: nat :| Apart(b, f / q, n, u);
      ApartDown(b, f / q, n, u, d);
    }
    FullOrder(b, f, qs, d);
  }

  // ------------------------------------------------------- prime divisors

  lemma PrimeDividesPrime(q: nat, p: nat)
    requires Prime(q) && Prime(p) && Divides(q, p)
    ensures q == p
  {
    if q > p { ModSmall(p, q); }
  }

  lemma OnePrime(p: nat)
    requires Prime(p)
    ensures PrimesOf(p, {p})
  {
    hide Divides;
    forall q: nat | Prime(q) && Divides(q, p) ensures q in {p} { PrimeDividesPrime(q, p); }
  }

  lemma TwoPrimes(p: nat, r: nat)
    requires Prime(p) && Prime(r)
    ensures PrimesOf(p * r, {p, r})
  {
    hide Divides;
    forall q: nat | Prime(q) && Divides(q, p * r) ensures q in {p, r} {
      PrimeDividesProduct(q, p, r);
      if Divides(q, p) { PrimeDividesPrime(q, p); } else { PrimeDividesPrime(q, r); }
    }
  }

  // The least factor that makes a multiple of p out of a.
  lemma {:induction false} LeastFactor(a: nat, p: nat, n: nat) returns (m: nat)
    requires p > 0 && n > 0 && Divides(p, a * n)
    ensures 1 <= m <= n && Divides(p, a * m) && forall j: nat | 0 < j < m :: !Divides(p, a * j)
    decreases n
  {
    if j: nat :| 0 < j < n && Divides(p, a * j) {
      m := LeastFactor(a, p, j);
    } else {
      m := n;
    }
  }

  // Reducing the other factor by a good one keeps the product a multiple.
  lemma FactorRest(a: nat, p: nat, n: nat, m: nat)
    requires p > 0 && m > 0 && Divides(p, a * n) && Divides(p, a * m)
    ensures Divides(p, a * (n % m))
  {
    var t, s := n / m, n % m;
    var x, y := a * n / p, a * m / p;
    assert a * n == x * p && a * m == y * p;
    assert a * s == (x - y * t) * p by {
      assert n == m * t + s;
      assert a * n == a * m * t + a * s by { assert a * (m * t + s) == a * m * t + a * s; }
      assert a * m * t == y * t * p by { assert y * p * t == y * t * p; }
      assert (x - y * t) * p == x * p - y * t * p;
    }
    DivModUnique(a * s, p, x - y * t, 0);
  }

  // So it divides every other such factor.
  lemma LeastDivides(a: nat, p: nat, n: nat, m: nat)
    requires p > 0 && m > 0 && Divides(p, a * n) && Divides(p, a * m)
    requires forall j: nat | 0 < j < m :: !Divides(p, a * j)
    ensures n % m == 0
  {
    hide Divides;
    FactorRest(a, p, n, m);
  }

  // Euclid: a prime that divides a product divides one of its factors.
  lemma PrimeDividesProduct(p: nat, a: nat, b: nat)
    requires Prime(p) && Divides(p, a * b)
    ensures Divides(p, a) || Divides(p, b)
  {
    DivModUnique(a * p, p, a, 0);
    var m := LeastFactor(a, p, p);
    LeastDivides(a, p, p, m);
    LeastDivides(a, p, b, m);
    assert Divides(m, p);
    assert a * 1 == a;
  }
}
