// What the generator returns, as numbers, and what its state keeps of the seed:
// each output is a bijection of one word of the state, and each seeding step a
// bijection of the word that it scrambles.
module RandomNumbers {
  import opened Bits
  import opened WordNumber
  import opened Random

  // -------------------------------------------------------------- the output

  function Top7(y: bv64): bv64 { y >> 57 }

  lemma RotatedSum(y: bv64)
    ensures Rotl(y, 7) == Plus(Mul(y, 128), Top7(y))
  {
    assert y << 7 == y * 128;
    assert (y << 7) | (y >> 57) == (y << 7) + (y >> 57);
  }

  lemma SmallNumbers()
    ensures Number(5) == 5 && Number(9) == 9 && Number(128) == 128
  {
    SmallHalves();
    hide Half, Odd;
    assert Number(1) == 1 && Number(2) == 2 && Number(4) == 4;
    assert Number(8) == 8 && Number(16) == 16 && Number(32) == 32 && Number(64) == 64;
  }

  lemma SmallHalves()
    ensures Half(1) == 0 && Half(2) == 1 && Half(4) == 2 && Half(5) == 2 && Half(8) == 4 && Half(9) == 4
    ensures Half(16) == 8 && Half(32) == 16 && Half(64) == 32 && Half(128) == 64
    ensures Odd(1) && !Odd(2) && !Odd(4) && Odd(5) && !Odd(8) && Odd(9) && !Odd(16) && !Odd(32) && !Odd(64) && !Odd(128)
  {
  }

  lemma Pow2Is57()
    ensures Pow2(57) == 0x200_0000_0000_0000
  {
    Pow2Is64();
    assert Pow2(64) == 2 * Pow2(63) == 4 * Pow2(62);
    assert Pow2(62) == 2 * Pow2(61) == 4 * Pow2(60);
    assert Pow2(60) == 2 * Pow2(59) == 4 * Pow2(58);
  }

  lemma NumberTop7(y: bv64)
    ensures Number(Top7(y)) == Number(y) / 0x200_0000_0000_0000
  {
    hide Number, Halvings, Pow2;
    HalvingsAreShifts(y);
    NumberHalvings(y, 57);
    Pow2Is57();
  }

  lemma NumberTimes(x: bv64)
    ensures Number(Mul(x, 5)) == 5 * Number(x) % WORD && Number(Mul(x, 9)) == 9 * Number(x) % WORD
    ensures Number(Mul(x, 128)) == 128 * Number(x) % WORD
  {
    hide Number, Mul;
    SmallNumbers();
    NumberMul(x, 5);
    NumberMul(x, 9);
    NumberMul(x, 128);
  }

  // Turned left by seven bits: what the shift drops comes back at the bottom.
  lemma NumberRotated(y: bv64)
    ensures Number(Rotl(y, 7)) == (128 * Number(y)) % WORD + Number(y) / 0x200_0000_0000_0000
  {
    hide Number, Rotl, Plus, Mul, Top7;
    NumberTimes(y);
    NumberTop7(y);
    NumberRange(y);
    NoCarry(Number(y));
    NumberParts(y, (128 * Number(y)) % WORD, Number(y) / 0x200_0000_0000_0000);
  }

  lemma NumberParts(y: bv64, a: nat, b: nat)
    requires Number(Mul(y, 128)) == a && Number(Top7(y)) == b && a + b < WORD
    ensures Number(Rotl(y, 7)) == a + b
  {
    hide Number, Rotl, Plus, Mul, Top7;
    RotatedSum(y);
    NumberAdd(Mul(y, 128), Top7(y));
    ModSmall(a + b, WORD);
  }

  lemma NoCarry(y: nat)
    requires y < WORD
    ensures (128 * y) % WORD + y / 0x200_0000_0000_0000 < WORD
  {
    var h, l := y / 0x200_0000_0000_0000, y % 0x200_0000_0000_0000;
    assert 128 * y == h * WORD + 128 * l;
    DivModUnique(128 * y, WORD, h, 128 * l);
  }

  // What a draw returns, in numbers: five times the second word, turned left by
  // seven bits, times nine.
  lemma OutputNumber(w: Words)
    ensures var y := 5 * Number(w.s1) % WORD;
            Number(Output(w)) == 9 * ((128 * y) % WORD + y / 0x200_0000_0000_0000) % WORD
  {
    hide Number, Rotl, Mul;
    var y := Mul(w.s1, 5);
    NumberTimes(w.s1);
    NumberRotated(y);
    NumberTimes(Rotl(y, 7));
  }

  // The inverse of an output: 9 and 5 are odd, so they have inverses modulo 2^64.
  function Unstar(z: bv64): bv64 {
    Mul(Rotl(Mul(z, 0x8E38_E38E_38E3_8E39), 57), 0xCCCC_CCCC_CCCC_CCCD)
  }

  lemma TurnedBack(x: bv64)
    ensures Rotl(Rotl(x, 7), 57) == x && Rotl(Rotl(x, 57), 7) == x
  {
  }

  // Words multiply as their numbers do.
  lemma MulAssoc(x: bv64, y: bv64, z: bv64)
    ensures Mul(Mul(x, y), z) == Mul(x, Mul(y, z))
  {
    hide Number, Mul;
    var a, b, c := Number(x), Number(y), Number(z);
    NumberMul(x, y);
    NumberMul(Mul(x, y), z);
    NumberMul(y, z);
    NumberMul(x, Mul(y, z));
    ModAssoc(a, b, c);
    NumberInjective(Mul(Mul(x, y), z), Mul(x, Mul(y, z)));
  }

  lemma ModAssoc(a: int, b: int, c: int)
    ensures ((a * b) % WORD * c) % WORD == (a * ((b * c) % WORD)) % WORD
  {
    ModMul(a * b, c);
    ModMul(b * c, a);
    assert a * b * c == b * c * a;
  }

  lemma ModMul(a: int, b: int)
    ensures (a % WORD * b) % WORD == (a * b) % WORD
  {
    var q := a / WORD;
    assert a * b == a % WORD * b + q * b * WORD;
    ModShift(a % WORD * b, WORD, q * b);
  }

  lemma MulOne(x: bv64)
    ensures Mul(x, 1) == x
  {
  }

  lemma Inverses()
    ensures Mul(5, 0xCCCC_CCCC_CCCC_CCCD) == 1 && Mul(0xCCCC_CCCC_CCCC_CCCD, 5) == 1
    ensures Mul(9, 0x8E38_E38E_38E3_8E39) == 1 && Mul(0x8E38_E38E_38E3_8E39, 9) == 1
    ensures Mul(0xff51_afd7_ed55_8ccd, 0x4F74_430C_22A5_4005) == 1
    ensures Mul(0xc4ce_b9fe_1a85_ec53, 0x9CB4_B2F8_1293_37DB) == 1
  {
  }

  lemma Over5(x: bv64)
    ensures Mul(Mul(x, 5), 0xCCCC_CCCC_CCCC_CCCD) == x && Mul(Mul(x, 0xCCCC_CCCC_CCCC_CCCD), 5) == x
  {
    hide Mul;
    Inverses();
    MulOne(x);
    MulAssoc(x, 5, 0xCCCC_CCCC_CCCC_CCCD);
    MulAssoc(x, 0xCCCC_CCCC_CCCC_CCCD, 5);
  }

  lemma Over9(x: bv64)
    ensures Mul(Mul(x, 9), 0x8E38_E38E_38E3_8E39) == x && Mul(Mul(x, 0x8E38_E38E_38E3_8E39), 9) == x
  {
    hide Mul;
    Inverses();
    MulOne(x);
    MulAssoc(x, 9, 0x8E38_E38E_38E3_8E39);
    MulAssoc(x, 0x8E38_E38E_38E3_8E39, 9);
  }

  // An output gives the second word back, and every number is the output of
  // exactly one.
  lemma OutputIsBijective(w: Words, z: bv64)
    ensures Unstar(Output(w)) == w.s1
    ensures Output(w) == z <==> w.s1 == Unstar(z)
  {
    hide Rotl, Mul;
    Over5(w.s1);
    TurnedBack(Mul(w.s1, 5));
    Over9(Rotl(Mul(w.s1, 5), 7));
    var y := Mul(z, 0x8E38_E38E_38E3_8E39);
    Over5(Rotl(y, 57));
    TurnedBack(y);
    Over9(z);
  }

  // The published values of xoshiro256** from the state 1, 2, 3, 4.
  lemma KnownDraws()
    ensures var w := Words(1, 2, 3, 4);
            && Output(w) == 11520 && Output(After(w, 1)) == 0 && Output(After(w, 2)) == 1509978240
            && Output(After(w, 3)) == 1215971899390074240 && Output(After(w, 4)) == 1216172134540287360
  {
    var w := Words(1, 2, 3, 4);
    assert After(w, 1) == Words(0x7, 0x0, 0x4_0002, 0xC000_0000_0000);
    assert After(w, 2) == Words(0xC000_0000_0007, 0x4_0005, 0x4_0005, 0x1800_0000);
    assert After(w, 3) == Words(0xC000_1804_0002, 0xC000_0000_0007, 0xC008_000E_0002, 0x8000_A000_0000_0300);
    assert After(w, 4) == Words(0x8000_A000_1804_0305, 0xC008_180A_0007, 0x8000_0008_1804_0000, 0x60_F000_0C00_0000);
  }

  // ----------------------------------------------------------------- seeding

  function Unscramble(z: bv64): bv64 {
    Fold(Mul(Fold(Mul(Fold(z), 0x9CB4_B2F8_1293_37DB)), 0x4F74_430C_22A5_4005))
  }

  lemma FoldedTwice(x: bv64)
    ensures Fold(Fold(x)) == x
  {
    hide Xor, Shr33;
    var y := Shr33(x);
    ShrXor(x, y);
    ShrVanishes(x);
    XorZero(y);
    XorTwice(x, y);
  }

  lemma ShrXor(a: bv64, b: bv64)
    ensures Shr33(Xor(a, b)) == Xor(Shr33(a), Shr33(b))
  {
  }

  lemma ShrVanishes(a: bv64)
    ensures Shr33(Shr33(a)) == 0
  {
  }

  lemma Divided(x: bv64)
    ensures Mul(Mul(x, 0xff51_afd7_ed55_8ccd), 0x4F74_430C_22A5_4005) == x
    ensures Mul(Mul(x, 0xc4ce_b9fe_1a85_ec53), 0x9CB4_B2F8_1293_37DB) == x
  {
    hide Mul;
    Inverses();
    MulOne(x);
    MulAssoc(x, 0xff51_afd7_ed55_8ccd, 0x4F74_430C_22A5_4005);
    MulAssoc(x, 0xc4ce_b9fe_1a85_ec53, 0x9CB4_B2F8_1293_37DB);
  }

  // Scrambling loses nothing.
  lemma ScrambleUndone(acc: bv64)
    ensures Unscramble(Scramble(acc)) == acc
  {
    hide Fold, Mul;
    var a := Mul(Fold(acc), 0xff51_afd7_ed55_8ccd);
    var b := Mul(Fold(a), 0xc4ce_b9fe_1a85_ec53);
    FoldedTwice(b);
    Divided(Fold(a));
    FoldedTwice(a);
    Divided(Fold(acc));
    FoldedTwice(acc);
  }

  // Two seeds give the same state exactly when their bytes fold into the same
  // word.
  lemma SameSeedState(bs: seq<bv8>, bs': seq<bv8>)
    ensures SeedState(bs) == SeedState(bs') <==> Absorb(bs) == Absorb(bs')
  {
    hide Absorb, Scramble, CellWord;
    CellWords(Scrambles(Absorb(bs), 1));
    CellWords(Scrambles(Absorb(bs'), 1));
    ScrambleUndone(Absorb(bs));
    ScrambleUndone(Absorb(bs'));
    assert Scrambles(Absorb(bs), 1) == Scramble(Absorb(bs)) && Scrambles(Absorb(bs'), 1) == Scramble(Absorb(bs'));
  }

  lemma AbsorbedByte(acc: bv64, b: bv8, b': bv8)
    requires AbsorbByte(acc, b) == AbsorbByte(acc, b')
    ensures b == b'
  {
    hide Plus, Mul;
    SameSum(Mul(acc, GOLDEN), b as bv64, b' as bv64);
  }

  lemma SameSum(a: bv64, x: bv64, y: bv64)
    requires Plus(a, x) == Plus(a, y)
    ensures x == y
  {
    hide Plus, Number;
    NumberAdd(a, x);
    NumberAdd(a, y);
    NumberRange(a);
    NumberRange(x);
    NumberRange(y);
    NumberInjective(x, y);
  }

  // The last byte of a seed matters.
  lemma LastByteMatters(bs: seq<bv8>, b: bv8, b': bv8)
    ensures SeedState(bs + [b]) == SeedState(bs + [b']) <==> b == b'
  {
    hide SeedState, AbsorbByte;
    SameSeedState(bs + [b], bs + [b']);
    assert (bs + [b])[..|bs|] == bs && (bs + [b'])[..|bs|] == bs;
    if Absorb(bs + [b]) == Absorb(bs + [b']) { AbsorbedByte(Absorb(bs), b, b'); }
  }

  lemma {:induction false} SameAfter(w: Words, v: Words, draws: nat)
    ensures After(w, draws) == After(v, draws) <==> w == v
  {
    hide NextState, PrevState;
    if draws > 0 {
      PrevOfNext(After(w, draws - 1));
      PrevOfNext(After(v, draws - 1));
      SameAfter(w, v, draws - 1);
    }
  }

  // The bytes of a seed spell it, lowest first.
  lemma BytesSpellSeed(seed: bv64)
    ensures |LowBytes(seed, 8)| == 8
    ensures forall i: nat | i < 8 :: LowBytes(seed, 8)[i] == ByteOf(seed, i)
    ensures forall seed': bv64 | LowBytes(seed', 8) == LowBytes(seed, 8) :: seed' == seed
  {
    BytesAt(seed, 8);
    forall seed': bv64 | LowBytes(seed', 8) == LowBytes(seed, 8) ensures seed' == seed {
      BytesAt(seed', 8);
      SameBytes(seed, seed');
    }
  }

  lemma {:induction false} BytesAt(seed: bv64, n: nat)
    requires n <= 8
    ensures |LowBytes(seed, n)| == n && forall i: nat | i < n :: LowBytes(seed, n)[i] == ByteOf(seed, i)
  {
    hide ByteOf;
    if n > 0 { BytesAt(seed, n - 1); }
  }

  lemma SameBytes(x: bv64, y: bv64)
    requires forall i: nat | i < 8 :: ByteOf(x, i) == ByteOf(y, i)
    ensures x == y
  {
    SameFrom(x, y, 0);
  }

  lemma {:induction false} SameFrom(x: bv64, y: bv64, i: nat)
    requires i <= 8 && forall k: nat | k < 8 :: ByteOf(x, k) == ByteOf(y, k)
    ensures Shifted(x, i) == Shifted(y, i)
    decreases 8 - i
  {
    hide LowByte, Shr8;
    if i == 8 {
      ShiftedOut(x);
      ShiftedOut(y);
    } else {
      SameFrom(x, y, i + 1);
      assert ByteOf(x, i) == ByteOf(y, i);
      SameLow(Shifted(x, i), Shifted(y, i));
    }
  }

  lemma ShiftedOut(x: bv64)
    ensures Shifted(x, 8) == 0
  {
    EightBytesOut(x);
    hide Shr8;
    assert Shifted(x, 1) == Shr8(x);
    assert Shifted(x, 3) == Shr8(Shr8(Shr8(x)));
    assert Shifted(x, 5) == Shr8(Shr8(Shr8(Shr8(Shr8(x)))));
    assert Shifted(x, 7) == Shr8(Shr8(Shr8(Shr8(Shr8(Shr8(Shr8(x)))))));
  }

  lemma EightBytesOut(x: bv64)
    ensures Shr8(Shr8(Shr8(Shr8(Shr8(Shr8(Shr8(Shr8(x)))))))) == 0
  {
  }

  lemma SameLow(x: bv64, y: bv64)
    requires LowByte(x) == LowByte(y) && Shr8(x) == Shr8(y)
    ensures x == y
  {
  }

  // Two seeds lead to the same stream of states exactly when their bytes fold
  // into the same word.
  lemma SameStream(seed: bv64, seed': bv64, draws: nat)
    ensures After(Seeded(seed), draws) == After(Seeded(seed'), draws) <==>
            Absorb(LowBytes(seed, 8)) == Absorb(LowBytes(seed', 8))
  {
    hide SeedState, LowBytes, Absorb;
    SameAfter(Seeded(seed), Seeded(seed'), draws);
    SameAfter(SeedState(LowBytes(seed, 8)), SeedState(LowBytes(seed', 8)), 8);
    SameSeedState(LowBytes(seed, 8), LowBytes(seed', 8));
  }

  // Seeding from eight bytes that were read is seeding from the number they
  // spell.
  lemma SameSeeding(seed: bv64)
    ensures AutoSeeded(Urandom(LowBytes(seed, 8))) == Seeded(seed) == AutoSeeded(Clock(seed))
  {
    hide SeedState, LowBytes;
  }

  // -------------------------------------------------------- a known stream

  lemma AbsorbAt(bs: seq<bv8>, i: nat, acc: bv64)
    requires i < |bs| && Absorb(bs[..i]) == acc
    ensures Absorb(bs[..i + 1]) == AbsorbByte(acc, bs[i])
  {
    hide AbsorbByte;
    assert bs[..i + 1][..i] == bs[..i];
  }

  lemma AbsorbNothing()
    ensures Absorb([]) == GOLDEN
  {
  }

  lemma KnownBytes()
    ensures LowBytes(0x0123_4567_89AB_CDEF, 8) == [0xEF, 0xCD, 0xAB, 0x89, 0x67, 0x45, 0x23, 0x01]
  {
    var x: bv64 := 0x0123_4567_89AB_CDEF;
    assert Shifted(x, 1) == 0x01_2345_6789_ABCD;
    assert Shifted(x, 2) == 0x0123_4567_89AB;
    assert Shifted(x, 3) == 0x01_2345_6789;
    assert Shifted(x, 4) == 0x0123_4567;
    assert Shifted(x, 5) == 0x01_2345;
    assert Shifted(x, 6) == 0x0123;
    assert Shifted(x, 7) == 0x01;
    assert LowBytes(x, 2) == [0xEF, 0xCD];
    assert LowBytes(x, 4) == [0xEF, 0xCD, 0xAB, 0x89];
    assert LowBytes(x, 6) == [0xEF, 0xCD, 0xAB, 0x89, 0x67, 0x45];
  }

  lemma KnownSteps()
    ensures AbsorbByte(GOLDEN, 0xEF) == 0xDF44_2D22_CE48_5AA8
    ensures AbsorbByte(0xDF44_2D22_CE48_5AA8, 0xCD) == 0x1615_0111_8468_D095
    ensures AbsorbByte(0x1615_0111_8468_D095, 0xAB) == 0xFC56_0105_D7B3_48E4
    ensures AbsorbByte(0xFC56_0105_D7B3_48E4, 0x89) == 0x8C3E_A5B5_B6EB_6B3D
    ensures AbsorbByte(0x8C3E_A5B5_B6EB_6B3D, 0x67) == 0x0B98_9AD7_4BE3_5868
    ensures AbsorbByte(0x0B98_9AD7_4BE3_5868, 0x45) == 0xE9D2_C026_7E88_A0CD
    ensures AbsorbByte(0xE9D2_C026_7E88_A0CD, 0x23) == 0xFE0A_DCDB_BD5A_7CF4
    ensures AbsorbByte(0xFE0A_DCDB_BD5A_7CF4, 0x01) == 0x0032_CE37_877A_7005
  {
  }

  lemma KnownFold()
    ensures Absorb([0xEF, 0xCD, 0xAB, 0x89, 0x67, 0x45, 0x23, 0x01]) == 0x0032_CE37_877A_7005
  {
    hide Absorb, AbsorbByte, Mul, Plus;
    var bs: seq<bv8> := [0xEF, 0xCD, 0xAB, 0x89, 0x67, 0x45, 0x23, 0x01];
    assert bs[..0] == [] && bs[..8] == bs;
    AbsorbNothing();
    KnownSteps();
    AbsorbAt(bs, 0, GOLDEN);
    AbsorbAt(bs, 1, 0xDF44_2D22_CE48_5AA8);
    AbsorbAt(bs, 2, 0x1615_0111_8468_D095);
    AbsorbAt(bs, 3, 0xFC56_0105_D7B3_48E4);
    AbsorbAt(bs, 4, 0x8C3E_A5B5_B6EB_6B3D);
    AbsorbAt(bs, 5, 0x0B98_9AD7_4BE3_5868);
    AbsorbAt(bs, 6, 0xE9D2_C026_7E88_A0CD);
    AbsorbAt(bs, 7, 0xFE0A_DCDB_BD5A_7CF4);
  }

  lemma KnownCells(bs: seq<bv8>)
    requires Absorb(bs) == 0x0032_CE37_877A_7005
    ensures SeedState(bs) == Words(0xC9AF_B9C5_697F_2E90, 0xEF71_B1A4_3020_C257,
                                   0xF2D8_9726_DB7E_E27F, 0x81C0_99D8_2BAC_1F45)
  {
    hide Absorb;
    var acc := Absorb(bs);
    assert Scrambles(acc, 1) == 0xC9AF_B9C5_697F_2E90;
    assert Scrambles(acc, 2) == 0x513A_37EA_B0D6_4642;
    assert Scrambles(acc, 3) == 0xB669_A3B3_DCE9_EA55;
    assert Scrambles(acc, 4) == 0xA71A_2CAB_ADCC_AB06;
    assert Multiple(1) == GOLDEN && Multiple(2) == GOLDEN * 2 && Multiple(3) == GOLDEN * 3;
  }

  // The first number after po_rand_seed(0x0123456789ABCDEF).
  lemma KnownStream()
    ensures Output(Seeded(0x0123_4567_89AB_CDEF)) == 0x72B7_C56F_4421_1645
  {
    hide Absorb, SeedState, LowBytes, NextState;
    KnownBytes();
    KnownFold();
    KnownCells(LowBytes(0x0123_4567_89AB_CDEF, 8));
    WarmUp();
    KnownOutput();
  }

  lemma WarmUp()
    ensures After(Words(0xC9AF_B9C5_697F_2E90, 0xEF71_B1A4_3020_C257, 0xF2D8_9726_DB7E_E27F, 0x81C0_99D8_2BAC_1F45), 8) ==
            Words(0xB206_9CA6_E41D_0E7E, 0x5876_E058_6B58_5C7E, 0x72EA_B72C_86F1_54B3, 0x305F_4545_EA5D_21A9)
  {
    var w := Words(0xC9AF_B9C5_697F_2E90, 0xEF71_B1A4_3020_C257, 0xF2D8_9726_DB7E_E27F, 0x81C0_99D8_2BAC_1F45);
    assert After(w, 1) == Words(0xA71E_91B9_72F3_F382, 0xD406_9F47_8221_0EB8, 0x583F_4EA2_36AF_CCEF, 0x9BA2_4DD6_250F_8371);
    assert After(w, 2) == Words(0xE8BA_4328_D5DD_7E4B, 0x2B27_405C_C67D_31D5, 0xC1AE_DB59_592C_3F6D, 0xD1B9_29F4_9A52_34E5);
    assert After(w, 3) == Words(0x1224_2A80_89F2_7B7B, 0x0233_D82D_4A8C_70F3, 0xA9AD_148B_EF5B_4126, 0xE0A6_1F53_CD35_0B85);
    assert After(w, 4) == Words(0xF0B1_EDFE_0E4B_000D, 0xB9BA_E626_2C25_4AAE, 0x0BD3_AB13_874F_3A5D, 0x2F6E_DC52_B8EF_D0F7);
    assert After(w, 5) == Words(0x6665_D78A_9A81_9A54, 0x42D8_A0CB_A521_70FE, 0x372E_1EA7_1C58_3A50, 0x534B_32DA_874E_9299);
    assert After(w, 6) == Words(0x77F6_459B_B8EE_7833, 0x1393_69E6_23F8_D0FA, 0x10DC_836F_6725_A004, 0xFC4C_E232_7242_244D);
    assert After(w, 7) == Words(0x9829_CE4F_E954_8C84, 0x74B9_AF12_FC33_08CD, 0xB4E6_8105_7E3F_D837, 0x5E96_FDFB_F17A_8A37);
  }

  lemma KnownOutput()
    ensures StarStar(0x5876_E058_6B58_5C7E) == 0x72B7_C56F_4421_1645
  {
  }
}
