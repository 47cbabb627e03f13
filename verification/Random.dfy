// The xoshiro256** generator behind po_rand_*: 256 bits of state that no draw
// ever takes to zero, so a seeded stream depends on the seed alone.
module Random {
  import opened WordNumber

  datatype Words = Words(s0: bv64, s1: bv64, s2: bv64, s3: bv64)

  const ZERO := Words(0, 0, 0, 0)
  const GOLDEN: bv64 := 0x9E37_79B9_7F4A_7C15

  function Xor(x: bv64, y: bv64): bv64 { x ^ y }

  function Shl17(x: bv64): bv64 { x << 17 }

  function Rotl(x: bv64, k: bv8): bv64
    requires k <= 64
  {
    (x << k) | (x >> (64 - k))
  }

  // The "**" of xoshiro256**.
  function StarStar(x: bv64): bv64 {
    Mul(Rotl(Mul(x, 5), 7), 9)
  }

  function Output(w: Words): bv64 { StarStar(w.s1) }

  // The exclusive-ors of a draw, before the last word is rotated.
  function Mix(w: Words): Words {
    var t := Shl17(w.s1);
    var s2 := Xor(w.s2, w.s0);
    var s3 := Xor(w.s3, w.s1);
    Words(Xor(w.s0, s3), Xor(w.s1, s2), Xor(s2, t), s3)
  }

  function NextState(w: Words): Words {
    var m := Mix(w);
    m.(s3 := Rotl(m.s3, 45))
  }

  // The state before a draw, computed from the state after it: the middle words
  // differ by s1 ^ (s1 << 17), which Unshift undoes.
  function Unmix(w: Words): Words {
    var s1 := Unshift(Xor(w.s1, w.s2));
    var s0 := Xor(w.s0, w.s3);
    Words(s0, s1, Xor(Xor(w.s1, s1), s0), Xor(w.s3, s1))
  }

  function Unshift(y: bv64): bv64 {
    Xor(y, Shl17(Xor(y, Shl17(Xor(y, Shl17(y))))))
  }

  function PrevState(w: Words): Words {
    Unmix(w.(s3 := Rotl(w.s3, 19)))
  }

  // --------------------------------------------------------- word equations

  lemma RotlBack(x: bv64)
    ensures Rotl(Rotl(x, 45), 19) == x
  {
  }

  lemma RotlForth(x: bv64)
    ensures Rotl(Rotl(x, 19), 45) == x
  {
  }

  lemma XorComm(a: bv64, b: bv64)
    ensures Xor(a, b) == Xor(b, a)
  {
  }

  lemma XorAssoc(a: bv64, b: bv64, c: bv64)
    ensures Xor(Xor(a, b), c) == Xor(a, Xor(b, c))
  {
    hide Xor;
    XorLeft(a, b, c);
    XorRight(a, b, c);
  }

  lemma XorLeft(a: bv64, b: bv64, c: bv64)
    ensures Xor(Xor(a, b), c) == a ^ b ^ c
  {
  }

  lemma XorRight(a: bv64, b: bv64, c: bv64)
    ensures Xor(a, Xor(b, c)) == a ^ b ^ c
  {
  }

  lemma XorTwice(a: bv64, b: bv64)
    ensures Xor(Xor(a, b), b) == a
  {
  }

  lemma XorZero(a: bv64)
    ensures Xor(a, 0) == a
  {
  }

  lemma XorChain(x: bv64, p: bv64, q: bv64)
    ensures Xor(Xor(x, p), Xor(p, q)) == Xor(x, q)
  {
    hide Xor;
    XorAssoc(Xor(x, p), p, q);
    XorTwice(x, p);
  }

  lemma XorFront(a: bv64, b: bv64)
    ensures Xor(Xor(a, b), a) == b && Xor(a, Xor(b, a)) == b && Xor(a, Xor(a, b)) == b
  {
    hide Xor;
    XorComm(a, b);
    XorTwice(b, a);
    XorComm(a, Xor(b, a));
  }

  lemma ShlXor(a: bv64, b: bv64)
    ensures Shl17(Xor(a, b)) == Xor(Shl17(a), Shl17(b))
  {
  }

  lemma ShlVanishes(a: bv64)
    ensures Shl17(Shl17(Shl17(Shl17(a)))) == 0
  {
  }

  lemma UnshiftOf(x: bv64)
    ensures Unshift(Xor(x, Shl17(x))) == x
  {
    hide Xor, Shl17;
    var x1 := Shl17(x);
    var x2 := Shl17(x1);
    var x3 := Shl17(x2);
    var y := Xor(x, x1);
    ShlXor(x, x1);
    XorChain(x, x1, x2);
    ShlXor(x, x2);
    XorChain(x, x1, x3);
    ShlXor(x, x3);
    ShlVanishes(x);
    XorZero(x1);
    XorTwice(x, x1);
    assert Xor(y, Shl17(y)) == Xor(x, x2);
    assert Xor(y, Shl17(Xor(x, x2))) == Xor(x, x3);
  }

  lemma ShiftOfUnshift(y: bv64)
    ensures Xor(Unshift(y), Shl17(Unshift(y))) == y
  {
    hide Xor, Shl17;
    var a := Xor(y, Shl17(y));
    var b := Xor(y, Shl17(a));
    var u := Xor(y, Shl17(b));
    // each stage differs from the next by one more shift of y
    XorFront(y, Shl17(y));
    StageGap(y, a, y, Shl17(y));
    StageGap(y, b, a, Shl17(Shl17(y)));
    ShlXor(u, b);
    ShlVanishes(y);
    XorEqual(Shl17(u), Shl17(b));
    XorTwice(y, Shl17(b));
  }

  // If a and p differ by d, then y ^ (a << 17) and y ^ (p << 17) differ by d << 17.
  lemma StageGap(y: bv64, a: bv64, p: bv64, d: bv64)
    requires Xor(a, p) == d
    ensures Xor(Xor(y, Shl17(a)), Xor(y, Shl17(p))) == Shl17(d)
  {
    hide Xor, Shl17;
    XorComm(y, Shl17(a));
    XorChain(Shl17(a), y, Shl17(p));
    ShlXor(a, p);
  }

  lemma XorEqual(a: bv64, b: bv64)
    requires Xor(a, b) == 0
    ensures a == b
  {
  }

  lemma UnmixOfMix(w: Words)
    ensures Unmix(Mix(w)) == w
  {
    hide Xor, Shl17, Unshift;
    var u := Xor(w.s2, w.s0);
    XorChain(w.s1, u, Shl17(w.s1));
    UnshiftOf(w.s1);
    XorTwice(w.s0, Xor(w.s3, w.s1));
    XorFront(w.s1, u);
    XorTwice(w.s2, w.s0);
    XorTwice(w.s3, w.s1);
  }

  lemma MixOfUnmix(w: Words)
    ensures Mix(Unmix(w)) == w
  {
    hide Xor, Shl17, Unshift;
    var s1 := Unmix(w).s1;
    XorTwice(w.s3, s1);
    XorTwice(w.s0, w.s3);
    XorTwice(Xor(w.s1, s1), Xor(w.s0, w.s3));
    XorFront(s1, w.s1);
    ShiftOfUnshift(Xor(w.s1, w.s2));
    XorAssoc(w.s1, s1, Shl17(s1));
    XorFront(w.s1, w.s2);
  }

  // A draw is a bijection on the 256-bit states.
  lemma PrevOfNext(w: Words)
    ensures PrevState(NextState(w)) == w
  {
    hide Rotl, Mix, Unmix;
    RotlBack(Mix(w).s3);
    UnmixOfMix(w);
  }

  lemma NextOfPrev(w: Words)
    ensures NextState(PrevState(w)) == w
  {
    hide Rotl, Mix, Unmix;
    RotlForth(w.s3);
    MixOfUnmix(w.(s3 := Rotl(w.s3, 19)));
  }

  function After(w: Words, draws: nat): Words {
    if draws == 0 then w else NextState(After(w, draws - 1))
  }

  // It fixes zero, so no number of draws leads to zero from elsewhere.
  lemma {:induction false} NeverZero(w: Words, draws: nat)
    ensures After(w, draws) == ZERO <==> w == ZERO
  {
    if draws > 0 {
      NeverZero(w, draws - 1);
      ZeroFixed();
      PrevOfNext(After(w, draws - 1));
    }
  }

  lemma ZeroFixed()
    ensures NextState(ZERO) == ZERO && PrevState(ZERO) == ZERO
  {
  }

  // ----------------------------------------------------------------- seeding

  // The bytes of a seed, folded into one word.
  function Absorb(bytes: seq<bv8>): bv64 {
    if bytes == [] then GOLDEN
    else AbsorbByte(Absorb(bytes[..|bytes| - 1]), bytes[|bytes| - 1])
  }

  function AbsorbByte(acc: bv64, b: bv8): bv64 {
    Plus(Mul(acc, GOLDEN), b as bv64)
  }

  function Shr33(x: bv64): bv64 { x >> 33 }

  function Fold(x: bv64): bv64 { Xor(x, Shr33(x)) }

  function Scramble(acc: bv64): bv64 {
    Fold(Mul(Fold(Mul(Fold(acc), 0xff51_afd7_ed55_8ccd)), 0xc4ce_b9fe_1a85_ec53))
  }

  lemma ScrambleZero()
    ensures Scramble(0) == 0
  {
  }

  function Scrambles(acc: bv64, times: nat): bv64 {
    if times == 0 then acc else Scramble(Scrambles(acc, times - 1))
  }

  // i * GOLDEN, modulo 2^64
  function Multiple(i: nat): bv64 {
    if i == 0 then 0 else Multiple(i - 1) + GOLDEN
  }

  // The word that seed_from_bytes puts in cell i.
  function SeedWord(bytes: seq<bv8>, i: nat): bv64 {
    CellWord(Scrambles(Absorb(bytes), i + 1), i)
  }

  function CellWord(acc: bv64, i: nat): bv64 {
    acc + Multiple(i)
  }

  function SeedState(bytes: seq<bv8>): Words {
    Words(SeedWord(bytes, 0), SeedWord(bytes, 1), SeedWord(bytes, 2), SeedWord(bytes, 3))
  }

  lemma CellWords(acc: bv64)
    ensures CellWord(acc, 0) == acc && CellWord(0, 1) == GOLDEN
  {
    assert Multiple(1) == GOLDEN;
  }

  // No byte string seeds the state with zero: if the first word is zero, then
  // the second is the golden-ratio constant.
  lemma SeedNeverZero(bytes: seq<bv8>)
    ensures SeedState(bytes) != ZERO
  {
    hide Absorb, Scramble, CellWord;
    CellWords(Scrambles(Absorb(bytes), 1));
    ScrambleZero();
    if SeedWord(bytes, 0) == 0 {
      assert Scrambles(Absorb(bytes), 1) == 0;
      assert Scrambles(Absorb(bytes), 2) == Scramble(Scrambles(Absorb(bytes), 1));
    }
  }

  function LowByte(x: bv64): bv8 { (x & 0xFF) as bv8 }

  // x >> (i * 8)
  function Shifted(x: bv64, i: nat): bv64 {
    if i == 0 then x else Shr8(Shifted(x, i - 1))
  }

  function Shr8(x: bv64): bv64 { x >> 8 }

  function ByteOf(seed: bv64, i: nat): bv8
    requires i < 8
  {
    LowByte(Shifted(seed, i))
  }

  // The low i bytes of a seed, lowest first.
  function LowBytes(seed: bv64, i: nat): seq<bv8>
    requires i <= 8
  {
    if i == 0 then [] else LowBytes(seed, i - 1) + [ByteOf(seed, i - 1)]
  }

  // The state that po_rand_seed leaves, after eight warm-up draws.
  function Seeded(seed: bv64): Words {
    After(SeedState(LowBytes(seed, 8)), 8)
  }

  // After seeding, no number of draws makes the generator look unseeded.
  lemma SeededNeverZero(seed: bv64, draws: nat)
    ensures After(Seeded(seed), draws) != ZERO
  {
    hide SeedState, LowBytes;
    SeedNeverZero(LowBytes(seed, 8));
    NeverZero(SeedState(LowBytes(seed, 8)), 8);
    NeverZero(Seeded(seed), draws);
  }

  // What po_rand_seed_auto gets from outside: 32 bytes of /dev/urandom, or else
  // a word mixed from clock, process and thread.
  datatype Entropy = Urandom(bytes: seq<bv8>) | Clock(mix: bv64)

  function AutoSeeded(e: Entropy): Words {
    match e
    case Urandom(bytes) => After(SeedState(bytes), 8)
    case Clock(mix) => Seeded(mix)
  }

  lemma AutoSeededNeverZero(e: Entropy)
    ensures AutoSeeded(e) != ZERO
  {
    hide SeedState, LowBytes;
    match e
    case Urandom(bytes) => SeedNeverZero(bytes); NeverZero(SeedState(bytes), 8);
    case Clock(mix) => SeededNeverZero(mix, 0);
  }

  // The state a draw starts from: seeded on demand.
  function Ready(w: Words, e: Entropy): Words {
    if w == ZERO then AutoSeeded(e) else w
  }

  // --------------------------------------------------------------- generator

  // One thread's generator.
  class Generator {
    const state: array<bv64>

    ghost predicate Valid() { state.Length == 4 }

    function Value(): Words
      requires Valid()
      reads state
    {
      Words(state[0], state[1], state[2], state[3])
    }

    constructor ()
      ensures Valid() && fresh(state) && Value() == ZERO
    {
      state := new bv64[4](_ => 0);
    }

    // xoshiro256ss
    method Draw() returns (result: bv64)
      requires Valid()
      modifies state
      ensures Value() == NextState(old(Value())) && result == Output(old(Value()))
    {
      hide Xor, Shl17, Rotl, StarStar;
      result := StarStar(state[1]);
      var t := Shl17(state[1]);
      state[2] := Xor(state[2], state[0]);
      state[3] := Xor(state[3], state[1]);
      state[1] := Xor(state[1], state[2]);
      state[0] := Xor(state[0], state[3]);
      state[2] := Xor(state[2], t);
      state[3] := Rotl(state[3], 45);
    }

    method Draws(n: nat)
      requires Valid()
      modifies state
      ensures Value() == After(old(Value()), n)
    {
      hide NextState, Output;
      for i := 0 to n
        invariant Value() == After(old(Value()), i)
      {
        var _ := Draw();
      }
    }

    method SeedFromBytes(bytes: seq<bv8>)
      requires Valid()
      modifies state
      ensures Value() == SeedState(bytes)
    {
      hide Scramble, AbsorbByte, CellWord;
      var acc := GOLDEN;
      for i := 0 to |bytes|
        invariant acc == Absorb(bytes[..i])
      {
        assert bytes[..i + 1][..i] == bytes[..i];
        acc := AbsorbByte(acc, bytes[i]);
      }
      assert bytes[..|bytes|] == bytes;
      for i := 0 to 4
        invariant acc == Scrambles(Absorb(bytes), i)
        invariant forall k: nat | k < i :: state[k] == SeedWord(bytes, k)
      {
        acc := Scramble(acc);
        state[i] := CellWord(acc, i);
      }
    }

    // The result depends on the seed alone, whatever the state was.
    method Seed(seed: bv64)
      requires Valid()
      modifies state
      ensures Value() == Seeded(seed)
    {
      hide SeedState, ByteOf;
      var b := [];
      for i := 0 to 8
        invariant b == LowBytes(seed, i)
      {
        b := b + [ByteOf(seed, i)];
      }
      SeedFromBytes(b);
      Draws(8);
    }

    method SeedAuto(e: Entropy)
      requires Valid()
      modifies state
      ensures Value() == AutoSeeded(e)
    {
      hide SeedState, LowBytes;
      match e {
        case Urandom(bytes) =>
          SeedFromBytes(bytes);
          Draws(8);
        case Clock(mix) =>
          Seed(mix);
      }
    }

    // po_rand_u64.  Only a generator that was never seeded uses the entropy.
    method U64(e: Entropy) returns (x: bv64)
      requires Valid()
      modifies state
      ensures var w := Ready(old(Value()), e);
              x == Output(w) && Value() == NextState(w) && Value() != ZERO
    {
      hide NextState, PrevState, Output, AutoSeeded;
      AutoSeededNeverZero(e);
      if state[0] == 0 && state[1] == 0 && state[2] == 0 && state[3] == 0 {
        SeedAuto(e);
      }
      ghost var w := Value();
      x := Draw();
      NeverZero(w, 1);
      assert After(w, 1) == NextState(w);
    }

    // The numbers after po_rand_seed are a function of the seed alone, however
    // many are drawn and whatever entropy is on offer.
    method Stream(seed: bv64, es: seq<Entropy>) returns (xs: seq<bv64>)
      requires Valid()
      modifies state
      ensures |xs| == |es| && Value() == After(Seeded(seed), |es|)
      ensures forall i: nat | i < |es| :: xs[i] == Output(After(Seeded(seed), i))
    {
      hide NextState, Output, Seeded, AutoSeeded;
      Seed(seed);
      xs := [];
      for i := 0 to |es|
        invariant |xs| == i && Value() == After(Seeded(seed), i)
        invariant forall j: nat | j < i :: xs[j] == Output(After(Seeded(seed), j))
      {
        SeededNeverZero(seed, i);
        var x := U64(es[i]);
        xs := xs + [x];
      }
    }

    // po_rand_range_i64; the span must fit a signed 64-bit number.
    method RangeI64(min: int, max: int, e: Entropy) returns (r: int)
      requires Valid()
      requires -0x8000_0000_0000_0000 <= min < 0x8000_0000_0000_0000
      requires -0x8000_0000_0000_0000 <= max < 0x8000_0000_0000_0000
      requires -0x7FFF_FFFF_FFFF_FFFF < max - min < 0x7FFF_FFFF_FFFF_FFFF
      modifies state
      ensures var w := Ready(old(Value()), e); var lo := if min > max then max else min;
              var hi := if min > max then min else max;
              && lo <= r <= hi && (r - lo) == Number(Output(w)) % (hi - lo + 1)
              && Value() == NextState(w) && Value() != ZERO
    {
      hide NextState, Output, Ready, Number;
      var lo, hi := min, max;
      if lo > hi {
        lo, hi := hi, lo;
      }
      var span := hi - lo + 1;
      var x := U64(e);
      r := lo + Number(x) % span;
    }
  }
}
