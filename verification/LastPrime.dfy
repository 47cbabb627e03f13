// 2^64 - 59 is the largest prime below 2^64: a certificate for it, and a divisor
// for each of the numbers above it.
module LastPrime {
  import opened Bits
  import opened Primes = Prime
  import opened PrimeCertificate

  const LAST: nat := 0xFFFFFFFFFFFFFFC5
  // The one large prime divisor of LAST - 1, and the product of two prime
  // divisors of FACTOR - 1.
  const FACTOR: nat := 5594472617641
  const PRODUCT: nat := 2131 * 15331
  // Elements of order FACTOR modulo LAST, and PRODUCT modulo FACTOR.
  const BASE: nat := 11493017446059487016
  const BASE2: nat := 552689412041

  // ------------------------------------------------------------- computing

  lemma PowerFirst(b: nat, m: nat)
    requires b < m && m > 1
    ensures Power(b, 1, m) == b
  {
    ModSmall(b, m);
    ModSmall(1, m);
    assert Power(b, 0, m) == 1;
  }

  // One squaring, with its quotient; and one with a multiplication.
  lemma Doubled(b: nat, e: nat, m: nat, r: nat, k: nat, r': nat)
    requires m > 0 && Power(b, e, m) == r && r * r == k * m + r' && r' < m
    ensures Power(b, 2 * e, m) == r'
  {
    PowerAdd(b, e, e, m);
    DivModUnique(r * r, m, k, r');
  }

  lemma DoubledPlus(b: nat, e: nat, m: nat, r: nat, k: nat, t: nat, l: nat, r': nat)
    requires m > 0 && Power(b, e, m) == r && r * r == k * m + t && t < m && t * b == l * m + r' && r' < m
    ensures Power(b, 2 * e + 1, m) == r'
  {
    Doubled(b, e, m, r, k, t);
    DivModUnique(t * b, m, l, r');
  }

  // ------------------------------------------------------ the small factors

  lemma NoDivisors(n: nat, i: nat)
    requires i >= 5 && i % 6 == 5 && n % 2 != 0 && n % 3 != 0
    requires NoneBelow(n, i) && n % i != 0 && n % (i + 2) != 0
    ensures NoneBelow(n, i + 6)
  {
    SixStep(n, i);
  }

  lemma NoneBelowFive(n: nat)
    requires n % 2 != 0 && n % 3 != 0
    ensures NoneBelow(n, 5)
  {
    hide NoneBelow;
    SmallTrial(n);
  }

  lemma Prime2131()
    ensures Prime(2131)
  {
    hide NoneBelow;
    NoneBelowFive(2131);
    NoDivisors(2131, 5);
    NoDivisors(2131, 11);
    NoDivisors(2131, 17);
    NoDivisors(2131, 23);
    NoDivisors(2131, 29);
    NoDivisors(2131, 35);
    NoDivisors(2131, 41);
    StopAtRoot(2131, 47);
  }

  lemma Prime15331()
    ensures Prime(15331)
  {
    hide NoneBelow;
    NoneBelowFive(15331);
    NoDivisors(15331, 5);
    NoDivisors(15331, 11);
    NoDivisors(15331, 17);
    NoDivisors(15331, 23);
    NoDivisors(15331, 29);
    NoDivisors(15331, 35);
    NoDivisors(15331, 41);
    NoDivisors(15331, 47);
    NoDivisors(15331, 53);
    NoDivisors(15331, 59);
    NoDivisors(15331, 65);
    NoDivisors(15331, 71);
    NoDivisors(15331, 77);
    NoDivisors(15331, 83);
    NoDivisors(15331, 89);
    NoDivisors(15331, 95);
    NoDivisors(15331, 101);
    NoDivisors(15331, 107);
    NoDivisors(15331, 113);
    NoDivisors(15331, 119);
    StopAtRoot(15331, 125);
  }

  // -------------------------------------------------------- the large factor

  // BASE2 to the 15331st and to the 2131st are not 1 modulo FACTOR, BASE2 to the
  // PRODUCT is.
  lemma FactorApart()
    ensures Power(552689412041, 15331, 5594472617641) == 1346892610175
  {
    hide Power;
    PowerFirst(552689412041, 5594472617641);
    DoubledPlus(552689412041, 1, 5594472617641, 552689412041, 54601319384, 1367522132537, 135100313298, 4547743987999);
    DoubledPlus(552689412041, 3, 5594472617641, 4547743987999, 3696858809383, 2945993898498, 291040773084,
                1727276639574);
    Doubled(552689412041, 7, 5594472617641, 1727276639574, 533291481347, 1052288259049);
    DoubledPlus(552689412041, 14, 5594472617641, 1052288259049, 197929394924, 3805792130117, 375982001969,
                3214652403668);
    DoubledPlus(552689412041, 29, 5594472617641, 3214652403668, 1847178596213, 2280140260691, 225259727981,
                5356572467510);
    DoubledPlus(552689412041, 59, 5594472617641, 5356572467510, 5128788817235, 1591219757465, 157199859984,
                3866302258321);
    DoubledPlus(552689412041, 119, 5594472617641, 3866302258321, 2671975389701, 5180071423700, 511749869052,
                2357377625368);
    DoubledPlus(552689412041, 239, 5594472617641, 2357377625368, 993342831111, 5192614906273, 512989065395,
                1780912999998);
    Doubled(552689412041, 479, 5594472617641, 1780912999998, 566925844548, 5092139528736);
    Doubled(552689412041, 958, 5594472617641, 5092139528736, 4634911412087, 3189632930929);
    Doubled(552689412041, 1916, 5594472617641, 3189632930929, 1818537497526, 4128103346875);
    DoubledPlus(552689412041, 3832, 5594472617641, 4128103346875, 3046084663770, 3119316699055, 308163687660,
                5237160311195);
    DoubledPlus(552689412041, 7665, 5594472617641, 5237160311195, 4902669116418, 1412212798087, 139515395712,
                1346892610175);
  }

  lemma FactorApartToo()
    ensures Power(552689412041, 2131, 5594472617641) == 1852426820963
  {
    hide Power;
    PowerFirst(552689412041, 5594472617641);
    Doubled(552689412041, 1, 5594472617641, 552689412041, 54601319384, 1367522132537);
    Doubled(552689412041, 2, 5594472617641, 1367522132537, 334279370155, 4116572152014);
    Doubled(552689412041, 4, 5594472617641, 4116572152014, 3029090933308, 948608969768);
    Doubled(552689412041, 8, 5594472617641, 948608969768, 160847865210, 950901804214);
    DoubledPlus(552689412041, 16, 5594472617641, 950901804214, 161626359275, 4446419187521, 439270861508,
                4724465677733);
    Doubled(552689412041, 33, 5594472617641, 4724465677733, 3989755150412, 5051692401197);
    DoubledPlus(552689412041, 66, 5594472617641, 5051692401197, 4561573156304, 2554286273945, 252343174310,
                5153863569035);
    Doubled(552689412041, 133, 5594472617641, 5153863569035, 4747955974342, 4874838264003);
    Doubled(552689412041, 266, 5594472617641, 4874838264003, 4247772707878, 1549243108211);
    DoubledPlus(552689412041, 532, 5594472617641, 1549243108211, 429022424878, 5366315547723, 530149307647,
                5025837931916);
    DoubledPlus(552689412041, 1065, 5594472617641, 5025837931916, 4515000545044, 2847441909852, 281304620209,
                1852426820963);
  }

  lemma FactorPower1()
    ensures Power(552689412041, 8167590, 5594472617641) == 795729808851
  {
    hide Power;
    PowerFirst(552689412041, 5594472617641);
    DoubledPlus(552689412041, 1, 5594472617641, 552689412041, 54601319384, 1367522132537, 135100313298, 4547743987999);
    DoubledPlus(552689412041, 3, 5594472617641, 4547743987999, 3696858809383, 2945993898498, 291040773084,
                1727276639574);
    DoubledPlus(552689412041, 7, 5594472617641, 1727276639574, 533291481347, 1052288259049, 103957713075, 772046452934);
    DoubledPlus(552689412041, 15, 5594472617641, 772046452934, 106543684494, 3706074649702, 366130707774,
                4691607620648);
    Doubled(552689412041, 31, 5594472617641, 4691607620648, 3934451658001, 3560904544263);
    Doubled(552689412041, 62, 5594472617641, 3560904544263, 2266530205790, 4508011871779);
    DoubledPlus(552689412041, 124, 5594472617641, 4508011871779, 3632544553354, 493570506927, 48760841623,
                1258910836664);
    Doubled(552689412041, 249, 5594472617641, 1258910836664, 283289704497, 1975527417319);
    DoubledPlus(552689412041, 498, 5594472617641, 1975527417319, 697600800524, 3119016703877, 308134050522,
                3699452724355);
    Doubled(552689412041, 997, 5594472617641, 3699452724355, 2446334336606, 403582499579);
    Doubled(552689412041, 1994, 5594472617641, 403582499579, 29114242771, 721603854030);
    Doubled(552689412041, 3988, 5594472617641, 721603854030, 93076176744, 1927498899996);
    Doubled(552689412041, 7976, 5594472617641, 1927498899996, 664093340589, 2891026069467);
    Doubled(552689412041, 15952, 5594472617641, 2891026069467, 1493980274026, 3556407971423);
    DoubledPlus(552689412041, 31904, 5594472617641, 3556407971423, 2260809646170, 4355074559959, 430246738602,
                222490188437);
    Doubled(552689412041, 63809, 5594472617641, 222490188437, 8848355749, 1804947334860);
    DoubledPlus(552689412041, 127618, 5594472617641, 1804947334860, 582331008528, 5053316977152, 499227537579,
                883484856093);
    Doubled(552689412041, 255237, 5594472617641, 883484856093, 139520834990, 3705595166059);
    Doubled(552689412041, 510474, 5594472617641, 3705595166059, 2454464696354, 843176810567);
    DoubledPlus(552689412041, 1020948, 5594472617641, 843176810567, 127080277707, 3913095632302, 386582734797,
                2608420594505);
    DoubledPlus(552689412041, 2041897, 5594472617641, 2608420594505, 1216175046845, 5204687802380, 514181771537,
                479582573363);
    Doubled(552689412041, 4083795, 5594472617641, 479582573363, 41111908198, 795729808851);
  }

  lemma FactorPower()
    ensures Power(552689412041, 32670361, 5594472617641) == 1
  {
    hide Power;
    FactorPower1();
    Doubled(552689412041, 8167590, 5594472617641, 795729808851, 113180628804, 2680754808837);
    DoubledPlus(552689412041, 16335180, 5594472617641, 2680754808837, 1284561894617, 2850036154072, 281560910911, 1);
  }

  lemma FactorIsPrime()
    ensures Prime(FACTOR)
  {
    hide Power, Prime, Divides;
    Prime2131();
    Prime15331();
    TwoPrimes(2131, 15331);
    FactorApart();
    FactorApartToo();
    FactorPower();
    assert PRODUCT / 2131 == 15331 && PRODUCT / 15331 == 2131;
    assert Apart(BASE2, 15331, FACTOR, 1933328135809);
    assert Apart(BASE2, 2131, FACTOR, 3161697676777);
    Certified(FACTOR, BASE2, PRODUCT, {2131, 15331});
  }

  // ---------------------------------------------------------- the last prime

  // BASE to the FACTOR is 1 modulo LAST.
  lemma LastPower1()
    ensures Power(11493017446059487016, 5335304, 18446744073709551557) == 5996784432043270228
  {
    hide Power;
    PowerFirst(11493017446059487016, 18446744073709551557);
    Doubled(11493017446059487016, 1, 18446744073709551557, 11493017446059487016, 7160583433457109817,
                707738172700249187);
    DoubledPlus(11493017446059487016, 2, 18446744073709551557, 707738172700249187, 27153481345847094,
                4218391128862535611, 2628216808592075276, 12603256085745122044);
    Doubled(11493017446059487016, 5, 18446744073709551557, 12603256085745122044, 8610845541531334294,
                3070276465859542178);
    Doubled(11493017446059487016, 10, 18446744073709551557, 3070276465859542178, 511016878596251756,
                3445201699927199592);
    Doubled(11493017446059487016, 20, 18446744073709551557, 3445201699927199592, 643442263076531292,
                5495123995007144820);
    DoubledPlus(11493017446059487016, 40, 18446744073709551557, 5495123995007144820, 1636949458389213449,
                14240951956709542307, 8872650297145050839, 7267389047912579589);
    Doubled(11493017446059487016, 81, 18446744073709551557, 7267389047912579589, 2863103828116312060,
                2545514892988531501);
    DoubledPlus(11493017446059487016, 162, 18446744073709551557, 2545514892988531501, 351262317324674050,
                6322864115774317151, 3939382868938148350, 6769489354311130466);
    DoubledPlus(11493017446059487016, 325, 18446744073709551557, 6769489354311130466, 2484231685278449279,
                18418489063413399753, 11475413508748128177, 3742076373895185459);
    Doubled(11493017446059487016, 651, 18446744073709551557, 3742076373895185459, 759111501309432791,
                16893664101364135094);
    DoubledPlus(11493017446059487016, 1302, 18446744073709551557, 16893664101364135094, 15471342022707834382,
                14060724226836156062, 8760361622492126895, 12570569503449865477);
    Doubled(11493017446059487016, 2605, 18446744073709551557, 12570569503449865477, 8566238953045055850,
                10751228489876979079);
    Doubled(11493017446059487016, 5210, 18446744073709551557, 10751228489876979079, 6266087585954026469,
                18149736518505526008);
    DoubledPlus(11493017446059487016, 10420, 18446744073709551557, 18149736518505526008, 17857511026059881481,
                15243608239685400147, 9497342985816659988, 6969370660485990036);
    Doubled(11493017446059487016, 20841, 18446744073709551557, 6969370660485990036, 2633100302641934125,
                15060727138206098671);
    Doubled(11493017446059487016, 41682, 18446744073709551557, 15060727138206098671, 12296235098462237443,
                13582489635803617490);
    Doubled(11493017446059487016, 83364, 18446744073709551557, 13582489635803617490, 10000899018794368471,
                14122594575804140753);
    Doubled(11493017446059487016, 166728, 18446744073709551557, 14122594575804140753, 10812080264982207730,
                17095689938516471399);
    DoubledPlus(11493017446059487016, 333456, 18446744073709551557, 17095689938516471399, 15843588077444428209,
                2502823356314345788, 1559353367921552899, 15896713296576974865);
    Doubled(11493017446059487016, 666913, 18446744073709551557, 15896713296576974865, 13699192259826767990,
                8258455027259507795);
    Doubled(11493017446059487016, 1333826, 18446744073709551557, 8258455027259507795, 3697242134695736976,
                3719908085082490393);
    Doubled(11493017446059487016, 2667652, 18446744073709551557, 3719908085082490393, 750144096224748153,
                5996784432043270228);
  }

  lemma LastPower()
    ensures Power(11493017446059487016, 5594472617641, 18446744073709551557) == 1
  {
    hide Power;
    LastPower1();
    DoubledPlus(11493017446059487016, 5335304, 18446744073709551557, 5996784432043270228, 1949472675541102017,
                11038613309972981515, 6877472514655622781, 4584556924887289223);
    DoubledPlus(11493017446059487016, 10670609, 18446744073709551557, 4584556924887289223, 1139396855810844796,
                15760358738764796357, 9819298040727612555, 14264922066832602577);
    Doubled(11493017446059487016, 21341219, 18446744073709551557, 14264922066832602577, 11031106668998594242,
                11038291374004706135);
    DoubledPlus(11493017446059487016, 42682438, 18446744073709551557, 11038291374004706135, 6605169777959871994,
                17391818108843243567, 10835758773739679618, 9424313153928960846);
    DoubledPlus(11493017446059487016, 85364877, 18446744073709551557, 9424313153928960846, 4814815995084038105,
                12727297881150956231, 7929586706726000171, 11643026781013480449);
    Doubled(11493017446059487016, 170729755, 18446744073709551557, 11643026781013480449, 7348726262028996072,
                11958245662470757497);
    Doubled(11493017446059487016, 341459510, 18446744073709551557, 11958245662470757497, 7752025980986255738,
                2803077620483620943);
    DoubledPlus(11493017446059487016, 682919020, 18446744073709551557, 2803077620483620943, 425942058666836833,
                2287400308388110268, 1425136682407486996, 1611602363253227516);
    Doubled(11493017446059487016, 1365838041, 18446744073709551557, 1611602363253227516, 140797864754085622,
                1067009509658116802);
    DoubledPlus(11493017446059487016, 2731676082, 18446744073709551557, 1067009509658116802, 61718712481270203,
                3727580736198351133, 2322423418546824699, 1006968241440882785);
    DoubledPlus(11493017446059487016, 5463352165, 18446744073709551557, 1006968241440882785, 54968239122246167,
                2982683727977224206, 1858324481802518799, 3462094952625689253);
    Doubled(11493017446059487016, 10926704331, 18446744073709551557, 3462094952625689253, 649767862182191923,
                13006730677682223898);
    DoubledPlus(11493017446059487016, 21853408662, 18446744073709551557, 13006730677682223898, 9170997453305026281,
                2482068632392844887, 1546422391963691632, 8517951063125016168);
    Doubled(11493017446059487016, 43706817325, 18446744073709551557, 8517951063125016168, 3933241011198245179,
                3960158840834210521);
    DoubledPlus(11493017446059487016, 87413634650, 18446744073709551557, 3960158840834210521, 850169438138879680,
                2568824574167429681, 1600474616485290612, 12596247304770439012);
    Doubled(11493017446059487016, 174827269301, 18446744073709551557, 12596247304770439012, 8601271071411882529,
                7694063513458488491);
    DoubledPlus(11493017446059487016, 349654538602, 18446744073709551557, 7694063513458488491, 3209163260062978894,
                1213791608083619123, 756237961118974333, 387603828884620487);
    Doubled(11493017446059487016, 699309077205, 18446744073709551557, 387603828884620487, 8144349353235553,
                2519434279401211148);
    Doubled(11493017446059487016, 1398618154410, 18446744073709551557, 2519434279401211148, 344101325570428346,
                12966300365218243182);
    DoubledPlus(11493017446059487016, 2797236308820, 18446744073709551557, 12966300365218243182,
                9114071539631309486, 8244393616749315422, 5136568236154153443, 1);
  }

  lemma LastIsPrime()
    ensures Prime(LAST)
  {
    hide Power, Prime, Divides;
    FactorIsPrime();
    OnePrime(FACTOR);
    LastPower();
    PowerFirst(BASE, LAST);
    assert FACTOR / FACTOR == 1;
    assert Apart(BASE, 1, LAST, 1898613474652435203);
    Certified(LAST, BASE, FACTOR, {FACTOR});
  }

  // The divisors of the odd numbers above it.
  function DivisorAbove(n: nat): nat {
    if n % 2 == 0 then 2
    else if n % 3 == 0 then 3
    else if n % 5 == 0 then 5
    else if n % 7 == 0 then 7
    else if n == WORD - 3 then 13
    else if n == WORD - 5 then 11
    else if n == WORD - 15 then 53
    else if n == WORD - 17 then 19
    else if n == WORD - 27 then 11
    else if n == WORD - 29 then 13
    else if n == WORD - 33 then 827
    else if n == WORD - 35 then 17
    else if n == WORD - 39 then 139646831
    else if n == WORD - 45 then 11071
    else if n == WORD - 47 then 31
    else if n == WORD - 53 then 29
    else if n == WORD - 57 then 41
    else 1
  }

  lemma NoneAboveLast(n: nat)
    requires LAST < n < WORD
    ensures !Prime(n)
  {
    hide DivisorAbove;
    if n < WORD - 45 {
      DivisorLow(n);
    } else if n < WORD - 30 {
      DivisorBelowMiddle(n);
    } else if n < WORD - 15 {
      DivisorAboveMiddle(n);
    } else {
      DivisorHigh(n);
    }
    assert Divides(DivisorAbove(n), n);
  }

  lemma DivisorLow(n: nat)
    requires LAST < n < WORD - 45
    ensures 2 <= DivisorAbove(n) < n && n % DivisorAbove(n) == 0
  {
  }

  lemma DivisorBelowMiddle(n: nat)
    requires WORD - 45 <= n < WORD - 30
    ensures 2 <= DivisorAbove(n) < n && n % DivisorAbove(n) == 0
  {
  }

  lemma DivisorAboveMiddle(n: nat)
    requires WORD - 30 <= n < WORD - 15
    ensures 2 <= DivisorAbove(n) < n && n % DivisorAbove(n) == 0
  {
  }

  lemma DivisorHigh(n: nat)
    requires WORD - 15 <= n < WORD
    ensures 2 <= DivisorAbove(n) < n && n % DivisorAbove(n) == 0
  {
  }
}
