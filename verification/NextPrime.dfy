// next_prime: the least prime above a number, found by trying one number after
// the other.
module NextPrime {
  import opened Bits
  import opened Primes = Prime
  import opened LastPrime

  ghost predicate IsNextPrime(n: nat, p: nat) {
    p > n && Prime(p) && forall q: nat | n < q < p :: !Prime(q)
  }

  ghost function Factorial(n: nat): (f: nat)
    ensures f >= 1
  {
    if n == 0 then 1 else n * Factorial(n - 1)
  }

  lemma {:induction false} FactorialDivisible(d: nat, n: nat)
    requires 1 <= d <= n
    ensures Divides(d, Factorial(n))
  {
    if d == n {
      DivModUnique(Factorial(n), n, Factorial(n - 1), 0);
    } else {
      FactorialDivisible(d, n - 1);
      var q := Factorial(n - 1) / d;
      assert Factorial(n) == (n * q) * d by {
        assert Factorial(n - 1) == q * d;
        assert n * (q * d) == (n * q) * d;
      }
      DivModUnique(Factorial(n), d, n * q, 0);
    }
  }

  // Euclid: there is a prime above every number, and so a least one.
  lemma PrimeAbove(n: nat) returns (p: nat)
    ensures p > n && Prime(p)
  {
    var f := Factorial(n);
    p := PrimeFactor(f + 1);
    if p <= n {
      FactorialDivisible(p, n);
      DivModUnique(f + 1, p, f / p, 1);
    }
  }

  lemma NextPrimeExists(n: nat) returns (p: nat)
    ensures IsNextPrime(n, p)
  {
    p := PrimeAbove(n);
    while !IsNextPrime(n, p)
      invariant p > n && Prime(p)
      decreases p
    {
      var q: nat :| n < q < p && Prime(q);
      p := q;
    }
  }

  lemma TwoIsPrime()
    ensures Prime(2)
  {
  }

  lemma TwoIsNext(n: nat)
    requires n <= 1
    ensures IsNextPrime(n, 2)
  {
  }

  // No prime above n fits 64 bits exactly from the last prime on.
  lemma NextFits(n: nat, p: nat)
    requires IsNextPrime(n, p)
    ensures p < WORD <==> n < LAST
  {
    hide Prime;
    LastIsPrime();
    if p < WORD && n >= LAST { NoneAboveLast(p); }
  }

  // next_prime searches upwards and wraps to 0 at 2^64.  It finds the next
  // prime exactly for the numbers below 2^64 - 59, and otherwise comes round to
  // 2.
  method NextPrime(n: nat) returns (prime: nat)
    requires n < WORD
    ensures IsNextPrime(n, prime) <==> n < WORD - 59
    ensures n >= WORD - 59 ==> prime == 2
  {
    hide Prime;
    if n <= 1 {
      TwoIsNext(n);
      return 2;
    }
    ghost var next := NextPrimeExists(n);
    NextFits(n, next);
    FirstNumbers(0);
    FirstNumbers(1);
    prime := n;
    var found := false;
    while !found
      invariant if found then prime == next < WORD || (prime == 2 && next >= WORD)
                else n <= prime < next || (prime < 2 && next >= WORD)
      invariant prime < WORD
      decreases !found, if prime >= 2 then WORD - prime + 2 else 1 - prime
    {
      if prime == 1 { TwoIsPrime(); }
      prime := (prime + 1) % WORD;
      found := IsPrime(prime);
    }
  }

  // The largest 64-bit number, for one, has no next prime.
  method AfterTheLargest() returns (prime: nat)
    ensures prime == 2 && !IsNextPrime(WORD - 1, prime)
  {
    prime := NextPrime(WORD - 1);
  }
}
