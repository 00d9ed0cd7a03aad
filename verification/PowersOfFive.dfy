/** What the 128-bit rows of the table of powers of five must be, and literal checks that decide it row by row. */
module PowersOfFive {
  import opened Arith

  const SMALLEST_POWER: int := -342
  const LARGEST_POWER: int := 308

  /** Two words of powers::power_of_five_128. */
  datatype Row = Row(high: u64, low: u64) {
    function Whole(): nat { high * WORD + low }
  }

  /** detail::power: floor(log2(5^q)) + q + 63. */
  function Power(q: int): int {
    ((152170 + 65536) * q) / 65536 + 63
  }

  /** Where the top bit of 5^q stands. */
  function Log5(q: int): int {
    Power(q) - q - 63
  }

  lemma Log5Sign(q: int)
    ensures q >= 0 ==> Log5(q) >= 0
    ensures q <= 0 ==> Log5(q) <= 0
  {
  }

  // ----- what a row is

  /** Top / Bottom is 5^q * 2^(127 - Log5(q)): a row is its whole part, or close to it. */
  function Top(q: int): nat {
    Log5Sign(q);
    if q >= 0 then Pow(5, q) * Pow(2, 127) else Pow(2, 127 - Log5(q))
  }

  function Bottom(q: int): (r: nat)
    ensures r > 0
  {
    Log5Sign(q);
    if q >= 0 then Pow(2, Log5(q)) else Pow(5, -q)
  }

  /** The last exponent whose power of five fits a row. */
  const EXACT_POWERS: int := 55

  /** The first exponent whose row is the next one up; below it, and above EXACT_POWERS, rows are cut off. */
  const FIRST_ROUNDED_UP: int := -27

  ghost predicate IsRow(q: int, r: Row) {
    && r.high >= TOP_BIT
    && if q < FIRST_ROUNDED_UP || q > EXACT_POWERS then IsCutOff(q, r.Whole()) && KeepsAway(r.Whole())
       else if q < 0 then IsNextUp(q, r.Whole()) && r.low > 0 && NoFalseTie(r.high)
       else r.Whole() * Bottom(q) == Top(q) && (q < 28 ==> r.high % 2 == 0 && r.low == 0)
  }

  ghost predicate IsCutOff(q: int, t: nat) {
    t * Bottom(q) <= Top(q) < (t + 1) * Bottom(q)
  }

  ghost predicate IsNextUp(q: int, t: nat) {
    (t - 1) * Bottom(q) < Top(q) < t * Bottom(q)
  }

  /** 2^137: the weight of the last bit that any format keeps of a product with a row. */
  const SPAN: nat := 0x200_0000_0000_0000_0000_0000_0000_0000_0000

  /** No product of a word and t is just below a multiple of SPAN. */
  ghost predicate KeepsAway(t: nat) {
    forall w: nat, c: nat | 0 < w < WORD :: FarBelow(w, t, c)
  }

  ghost predicate FarBelow(w: nat, t: nat, c: nat) {
    w * t < c * SPAN ==> w * t + WORD <= c * SPAN
  }

  /** No product of a word and the high word of a row looks like a tie: k * 2^73, or one more. */
  ghost predicate NoFalseTie(high: u64) {
    forall w: nat, k: nat | 0 < w < WORD :: !LooksTied(w, high, k)
  }

  const TIE_SPAN: nat := 0x200_0000_0000_0000_0000

  ghost predicate LooksTied(w: nat, high: nat, k: nat) {
    k * TIE_SPAN <= w * high <= k * TIE_SPAN + 1
  }

  // ----- no product is just below a multiple of SPAN

  /** A basis (a, k), (b, l) of the pairs of whole numbers that shows it: the first vector's word is too large, and
      the two together are WORD apart. */
  predicate ShowsDistance(t: nat, a: nat, b: nat, k: nat, l: nat) {
    && a >= 0x1_0000_0000_0000_0000 && b * k == a * l + 1
    && a * t <= k * 0x200_0000_0000_0000_0000_0000_0000_0000_0000
    && l * 0x200_0000_0000_0000_0000_0000_0000_0000_0000 <= b * t
    && l * 0x200_0000_0000_0000_0000_0000_0000_0000_0000 + a * t + 0x1_0000_0000_0000_0000 <=
       k * 0x200_0000_0000_0000_0000_0000_0000_0000_0000 + b * t
  }

  lemma DistanceShown(t: nat, a: nat, b: nat, k: nat, l: nat, w: nat, c: nat)
    requires ShowsDistance(t, a, b, k, l) && 0 < w < WORD
    ensures FarBelow(w, t, c)
  {
    hide ShowsDistance, FarBelow;
    assert b * k == a * l + 1 by { BasisIs(t, a, b, k, l); }
    InBasis(w, c, a, b, k, l);
    BasisDistance(t, a, b, k, l, w, c, c * b - w * l, w * k - c * a);
  }

  lemma BasisIs(t: nat, a: nat, b: nat, k: nat, l: nat)
    requires ShowsDistance(t, a, b, k, l)
    ensures b * k == a * l + 1
  {
  }

  /** (w, c) in terms of the basis. */
  lemma InBasis(w: int, c: int, a: int, b: int, k: int, l: int)
    requires b * k == a * l + 1
    ensures var (i, j) := (c * b - w * l, w * k - c * a); w == i * a + j * b && c == i * k + j * l
  {
    var (i, j) := (c * b - w * l, w * k - c * a);
    MulDistributes(c * b, w * l, a);
    MulDistributes(w * k, c * a, b);
    MulDistributes(c * b, w * l, k);
    MulDistributes(w * k, c * a, l);
    assert (c * b) * a == (c * a) * b && (w * l) * k == (w * k) * l;
    assert (w * k) * b - (w * l) * a == w by { MulAssoc(w, k, b); MulAssoc(w, l, a); MulDistributes(b * k, a * l, w); }
    assert (c * b) * k - (c * a) * l == c by { MulAssoc(c, b, k); MulAssoc(c, a, l); MulDistributes(b * k, a * l, c); }
  }

  lemma BasisDistance(t: nat, a: nat, b: nat, k: nat, l: nat, w: nat, c: nat, i: int, j: int)
    requires ShowsDistance(t, a, b, k, l) && 0 < w < WORD
    requires w == i * a + j * b && c == i * k + j * l
    ensures FarBelow(w, t, c)
  {
    var x, y := k * SPAN - a * t, b * t - l * SPAN;
    assert c * SPAN - w * t == i * x - j * y by { ResidueInBasis(t, a, b, k, l, w, c, i, j); }
    if i <= 0 {
      MulOrder(i, 0, x);
      if j <= 0 {
        MulOrder(i, 0, a);
        MulOrder(j, 0, b);
      } else {
        MulOrder(0, j, y);
      }
    } else {
      MulOrder(1, i, x);
      MulOrder(1, i, a);
      if j < 0 {
        MulOrder(j, -1, y);
      } else {
        MulOrder(0, j, b);
      }
    }
  }

  lemma ResidueInBasis(t: int, a: int, b: int, k: int, l: int, w: int, c: int, i: int, j: int)
    requires w == i * a + j * b && c == i * k + j * l
    ensures c * SPAN - w * t == i * (k * SPAN - a * t) - j * (b * t - l * SPAN)
  {
    MulDistributes(i * k, j * l, SPAN);
    MulDistributes(i * a, j * b, t);
    MulAssoc(i, k, SPAN);
    MulAssoc(j, l, SPAN);
    MulAssoc(i, a, t);
    MulAssoc(j, b, t);
    MulDistributes(k * SPAN, a * t, i);
    MulDistributes(b * t, l * SPAN, j);
  }

  // ----- no false ties

  /** An odd high word: u is its inverse, and the one word that would do is not 1 modulo 2^73. */
  predicate InverseShows(high: nat, u: nat, c: nat) {
    high % 2 == 1 && u * high == c * 0x1_0000_0000_0000_0000 + 1 && c % 512 != 0 && u < 0x1_0000_0000_0000_0000
  }

  lemma OddNoFalseTie(high: u64, u: nat, c: nat)
    requires InverseShows(high, u, c)
    ensures NoFalseTie(high)
  {
    forall w: nat, k: nat | 0 < w < WORD ensures !LooksTied(w, high, k) {
      if w * high == k * TIE_SPAN {
        TooManyTwos(w, high, high, 0, k);
      }
      if w * high == k * TIE_SPAN + 1 {
        OnlyInverse(w, high, u, c, k);
      }
    }
  }

  /** An even one: it is odd * p, and no word makes up for the missing twos. */
  lemma EvenNoFalseTie(high: u64, odd: nat, p: nat)
    requires odd % 2 == 1 && (p == 2 || p == 4 || p == 8) && high == odd * p
    ensures NoFalseTie(high)
  {
    assert Pow(2, 1) == 2 && Pow(2, 2) == 4 && Pow(2, 3) == 8;
    hide Pow;
    var s := if p == 2 then 1 else if p == 4 then 2 else 3;
    EvenProduct(odd, p);
    forall w: nat, k: nat | 0 < w < WORD ensures !LooksTied(w, high, k) {
      EvenProduct(w, high);
      if w * high == k * TIE_SPAN {
        TooManyTwos(w, high, odd, s, k);
      }
    }
  }

  /** A multiple of 2^73 is a multiple of high only with a factor of at least 2^64. */
  lemma TooManyTwos(w: nat, high: nat, odd: nat, s: nat, k: nat)
    requires odd % 2 == 1 && s <= 9 && high == odd * Pow(2, s) && w > 0 && w * high == k * TIE_SPAN
    ensures w >= WORD
  {
    hide Pow;
    WordIsPow2();
    NineBits();
    PowAdd(2, 64 + (9 - s), s);
    PowAdd(2, 64, 9);
    var p := Pow(2, 64 + (9 - s));
    MulAssoc(w, odd, Pow(2, s));
    MulAssoc(k, p, Pow(2, s));
    MulOrder(w * odd, k * p, Pow(2, s));
    var b := OddDivides(odd, w, k, 64 + (9 - s));
    PowMonotone(2, 64, 64 + (9 - s));
    MulOrder(b, 0, p);
    MulOrder(1, b, p);
  }

  lemma NineBits()
    ensures Pow(2, 9) == 512
  {
  }

  /** An odd factor of a number times a power of two is a factor of that number. */
  lemma {:induction false} OddDivides(odd: nat, a: nat, m: nat, n: nat) returns (b: nat)
    requires odd % 2 == 1 && a * odd == m * Pow(2, n)
    ensures b * odd == m && a == b * Pow(2, n)
    decreases n
  {
    if n == 0 {
      b := a;
    } else {
      hide Pow;
      PowStep(2, n - 1);
      OddFactor(a, odd, m, Pow(2, n - 1));
      b := OddDivides(odd, a / 2, m, n - 1);
      MulAssoc(b, 2, Pow(2, n - 1));
    }
  }

  lemma OddFactor(a: nat, odd: nat, m: nat, p: nat)
    requires odd % 2 == 1 && a * odd == m * (2 * p)
    ensures (a / 2) * odd == m * p && a % 2 == 0
  {
    var k := odd / 2;
    assert a * (2 * k + 1) == 2 * (m * p);
    assert a == 2 * (m * p - a * k);
    MulAssoc(2, a / 2, odd);
  }

  /** The one word with which an odd high word gives 1 modulo 2^64. */
  lemma OnlyInverse(w: nat, high: nat, u: nat, c: nat, k: nat)
    requires u * high == c * WORD + 1 && u < WORD && 0 < w < WORD && w * high == k * TIE_SPAN + 1
    ensures c == k * 512
  {
    MulAssoc(u, high, w);
    MulAssoc(high, w, u);
    assert w - u == WORD * (k * 512 * u - c * w);
    SameWord(w, u, k * 512 * u - c * w);
  }

  lemma SameWord(w: int, u: int, d: int)
    requires 0 <= w < WORD && 0 <= u < WORD && w - u == WORD * d
    ensures w == u && d == 0
  {
  }

  // ----- powers of 5^28, to 256 bits

  /** The first 256 bits of 5^(28 * j), and how much too small they can be. */
  function Anchor(j: int): nat
    requires -13 <= j <= 11
  {
    match j
    case -13 => 0xe1af_a13a_fbd1_4d6d_8218_9c09_a3a1_ec21_7a43_5162_13c7_e04c_3b0c_e8c2_0846_005b
    case -12 => 0xe3e2_7a44_4d8d_98b7_fd1b_1b23_0816_9b25_363b_1f2c_568d_c3e2_744c_e999_bfed_2136
    case -11 => 0xe61a_cf03_3d1a_45df_6fb9_2487_298e_33bd_add7_728c_20b9_9bd1_8c0a_d035_d9a5_36f9
    case -10 => 0xe858_ad24_8f5c_22c9_d1b3_400f_8f9c_ff68_f910_f9f6_4823_2f14_6a40_608f_e10d_e7e3
    case -9 => 0xea9c_2277_23ee_8bcb_465e_15a9_79c1_cadc_0a0c_e827_eac1_1f2d_c339_8f62_ce1c_8b3d
    case -8 => 0xece5_3cec_4a31_4ebd_a4f8_bf56_3524_6428_4609_ac5c_7899_ca36_9bdb_fc21_260d_d1aa
    case -7 => 0xef34_0a98_172a_ace4_86fb_8971_16c8_7c34_9c39_c1da_4c49_278d_9be0_ce9a_9d69_7d5e
    case -6 => 0xf188_99b1_bc3f_8ca1_dc44_e6c3_cb27_9ac1_f80f_3617_4730_ca34_d881_81aa_d19d_7451
    case -5 => 0xf3e2_f893_dec3_f126_5a89_dba3_c3ef_ccfa_d8ec_b586_59be_9c90_c25c_0c9f_4b31_6002
    case -4 => 0xf643_35bc_f065_d37d_4d46_17b5_ff4a_16d5_aa09_501d_5954_a559_ee19_bfa6_947f_8e01
    case -3 => 0xf8a9_5fcf_8874_7d94_75a4_4c63_97ce_912a_33cc_a6c0_6b07_b74d_ca7a_d501_1203_d972
    case -2 => 0xfb15_8592_be06_8d2e_eed6_e2f0_f0d5_6712_ac2e_4f16_2cfa_d40a_ebbc_75a0_3b4d_60e6
    case -1 => 0xfd87_b5f2_8300_ca0d_8bca_9d6e_1888_53fc_76dc_b600_81ce_0fa5_ccb9_def1_bf1f_5c08
    case 0 => 0x8000_0000_0000_0000_0000_0000_0000_0000_0000_0000_0000_0000_0000_0000_0000_0000
    case 1 => 0x813f_3978_f894_0984_4000_0000_0000_0000_0000_0000_0000_0000_0000_0000_0000_0000
    case 2 => 0x8281_8f12_81ed_449f_bff8_f10e_7a89_21a4_2000_0000_0000_0000_0000_0000_0000_0000
    case 3 => 0x83c7_088e_1aab_65db_7926_67c6_da79_e0fa_0861_d3ee_22d1_cc53_1000_0000_0000_0000
    case 4 => 0x850f_adc0_9923_329e_03e2_cf6b_c604_ddb0_74a7_ef01_9879_1097_5177_5f71_e92b_f2f2
    case 5 => 0x865b_8692_5b9b_c5c2_0b8a_2392_ba45_a9b2_5c66_58d4_09fb_8bf7_4d0a_c114_3887_061e
    case 6 => 0x87aa_9aff_7904_2286_90fb_44d2_f05d_0842_fb11_8fc9_c217_a1d2_b204_b3d9_686f_55b4
    case 7 => 0x88fc_f317_f222_41e2_441f_ece3_bdf8_1f03_12f2_7492_8400_100d_466b_58d4_a413_7c19
    case 8 => 0x8a52_96ff_e33c_c92f_82bd_6b70_d99a_aa6f_bc10_c5c5_cda9_7c8d_d792_4bff_8331_49f8
    case 9 => 0x8bab_8eef_b640_9c1a_1ad0_89b6_c2f7_548e_25c7_b885_ba46_6e37_71d7_e631_e705_24e1
    case 10 => 0x8d07_e334_5563_7eb2_db0b_487b_6423_e1e8_7ec6_3730_f500_b406_a67d_072d_3c7f_a148
    case 11 => 0x8e67_9c2f_5e44_ff8f_570f_09ea_a7ea_7648_5961_db50_c6d2_b886_e6dd_cc11_1bca_7dc1
  }

  function Slack(j: int): nat {
    if j < 0 then -j else if j < 3 then 0 else j - 3
  }

  /** lo and hi bracket the power at 255 bits after its top one. */
  ghost predicate Brackets(q: int, lo: nat, hi: nat) {
    lo * Bottom(q) <= Top(q) * Pow(2, 128) <= hi * Bottom(q)
  }

  /** The step from one power to a later one on the same side of 5^0. */
  lemma PowerRatio(r: int, i: nat)
    requires 0 <= r || r + i <= 0
    ensures Log5(r + i) >= Log5(r)
    ensures Top(r + i) * (Bottom(r) * Pow(2, Log5(r + i) - Log5(r))) == (Top(r) * Pow(5, i)) * Bottom(r + i)
  {
    hide Pow;
    Log5Sign(r);
    Log5Sign(r + i);
    Log5Monotone(r, i);
    var q, d := r + i, Log5(r + i) - Log5(r);
    PowZeros();
    if 0 <= r {
      PowAdd(5, r, i);
      PowAdd(2, Log5(r), d);
      MulAssoc(Pow(5, r), Pow(5, i), Pow(2, 127));
      MulAssoc(Pow(5, r), Pow(2, 127), Pow(5, i));
    } else {
      PowAdd(5, -q, i);
      PowAdd(2, 127 - Log5(q), d);
      BottomAtMostZero(q);
      BottomAtMostZero(r);
      RatioArithmetic(Pow(2, 127 - Log5(q)), Pow(5, -q), Pow(5, i), Pow(2, d));
    }
  }

  lemma RatioArithmetic(t: nat, b: nat, five: nat, two: nat)
    ensures t * ((b * five) * two) == ((t * two) * five) * b
  {
    MulAssoc(b, five, two);
    MulAssoc(t, two, five);
    MulAssoc(t, two * five, b);
    MulAssoc(five, two, b);
  }

  lemma BottomAtMostZero(q: int)
    requires q <= 0
    ensures Log5(q) <= 0 && Bottom(q) == Pow(5, -q) && Top(q) == Pow(2, 127 - Log5(q))
  {
    hide Pow;
    Log5Sign(q);
    PowZeros();
  }

  lemma PowZeros()
    ensures Pow(2, 0) == 1 && Pow(5, 0) == 1
  {
  }

  lemma Log5Monotone(r: int, i: nat)
    ensures Log5(r) <= Log5(r + i)
  {
  }

  /** Bounds for one fraction give bounds for another that is x / y times it. */
  lemma LowerByRatio(n: nat, b: nat, n': nat, b': nat, x: nat, y: nat, bound: nat, bound': nat)
    requires b > 0 && y > 0 && b' > 0 && n' * (b * y) == (n * x) * b' && bound * b <= n
    ensures bound' * y <= bound * x ==> bound' * b' <= n'
    ensures bound' * y < bound * x ==> bound' * b' < n'
  {
    MulPositive(b, y);
    RatioProduct(b, b', y, bound');
    MulAssoc(bound, x, b);
    MulAssoc(bound, b, x);
    MulOrder(bound * b, n, x);
    MulOrder(bound' * y, bound * x, b);
    MulOrder((bound' * y) * b, n * x, b');
    MulOrder(bound' * b', n', b * y);
  }

  lemma UpperByRatio(n: nat, b: nat, n': nat, b': nat, x: nat, y: nat, bound: nat, bound': nat)
    requires b > 0 && y > 0 && b' > 0 && n' * (b * y) == (n * x) * b' && n <= bound * b
    ensures bound * x <= bound' * y ==> n' <= bound' * b'
    ensures bound * x < bound' * y ==> n' < bound' * b'
  {
    MulPositive(b, y);
    RatioProduct(b, b', y, bound');
    MulAssoc(bound, x, b);
    MulAssoc(bound, b, x);
    MulOrder(n, bound * b, x);
    MulOrder(bound * x, bound' * y, b);
    MulOrder(n * x, (bound' * y) * b, b');
    MulOrder(n', bound' * b', b * y);
  }

  lemma RatioProduct(b: nat, b': nat, y: nat, bound: nat)
    ensures (bound * b') * (b * y) == ((bound * y) * b) * b'
  {
    MulAssoc(b, y, b');
    MulAssoc(bound, b', b * y);
    MulAssoc(bound, y, b);
    MulAssoc(bound, y * b, b');
  }

  /** The powers by which the checks below go from one exponent to another. */
  function PowerOf5(i: nat): nat
    requires i <= 28
  {
    if i < 8 then (match i case 0 => 1 case 1 => 5 case 2 => 25 case 3 => 125 case 4 => 625 case 5 => 3125
      case 6 => 15625 case 7 => 78125)
    else if i < 16 then (match i case 8 => 390625 case 9 => 1953125 case 10 => 9765625 case 11 => 48828125
      case 12 => 244140625 case 13 => 1220703125 case 14 => 6103515625 case 15 => 30517578125)
    else if i < 24 then (match i case 16 => 152587890625 case 17 => 762939453125 case 18 => 3814697265625
      case 19 => 19073486328125 case 20 => 95367431640625 case 21 => 476837158203125 case 22 => 2384185791015625
      case 23 => 11920928955078125)
    else (match i case 24 => 59604644775390625 case 25 => 298023223876953125 case 26 => 1490116119384765625
      case 27 => 7450580596923828125 case 28 => 37252902984619140625)
  }

  function PowerOf2(i: nat): nat
    requires i <= 66
  {
    if i < 8 then (match i case 0 => 0x1 case 1 => 0x2 case 2 => 0x4 case 3 => 0x8 case 4 => 0x10 case 5 => 0x20
      case 6 => 0x40 case 7 => 0x80)
    else if i < 16 then (match i case 8 => 0x100 case 9 => 0x200 case 10 => 0x400 case 11 => 0x800 case 12 => 0x1000
      case 13 => 0x2000 case 14 => 0x4000 case 15 => 0x8000)
    else if i < 24 then (match i case 16 => 0x10000 case 17 => 0x20000 case 18 => 0x40000 case 19 => 0x80000
      case 20 => 0x100000 case 21 => 0x200000 case 22 => 0x400000 case 23 => 0x800000)
    else if i < 32 then (match i case 24 => 0x1000000 case 25 => 0x2000000 case 26 => 0x4000000 case 27 => 0x8000000
      case 28 => 0x10000000 case 29 => 0x20000000 case 30 => 0x40000000 case 31 => 0x80000000)
    else if i < 40 then (match i case 32 => 0x100000000 case 33 => 0x200000000 case 34 => 0x400000000
      case 35 => 0x800000000 case 36 => 0x1000000000 case 37 => 0x2000000000 case 38 => 0x4000000000
      case 39 => 0x8000000000)
    else if i < 48 then (match i case 40 => 0x10000000000 case 41 => 0x20000000000 case 42 => 0x40000000000
      case 43 => 0x80000000000 case 44 => 0x100000000000 case 45 => 0x200000000000 case 46 => 0x400000000000
      case 47 => 0x800000000000)
    else if i < 56 then (match i case 48 => 0x1000000000000 case 49 => 0x2000000000000 case 50 => 0x4000000000000
      case 51 => 0x8000000000000 case 52 => 0x10000000000000 case 53 => 0x20000000000000 case 54 => 0x40000000000000
      case 55 => 0x80000000000000)
    else if i < 64 then (match i case 56 => 0x100000000000000 case 57 => 0x200000000000000
      case 58 => 0x400000000000000 case 59 => 0x800000000000000 case 60 => 0x1000000000000000
      case 61 => 0x2000000000000000 case 62 => 0x4000000000000000 case 63 => 0x8000000000000000)
    else (match i case 64 => 0x10000000000000000 case 65 => 0x20000000000000000 case 66 => 0x40000000000000000)
  }

  lemma NextPowerOf5(i: nat)
    requires i < 28
    ensures PowerOf5(i + 1) == 5 * PowerOf5(i)
  {
  }

  lemma NextPowerOf2(i: nat)
    requires i < 66
    ensures PowerOf2(i + 1) == 2 * PowerOf2(i)
  {
  }

  lemma FirstPowers()
    ensures PowerOf5(0) == Pow(5, 0) && PowerOf2(0) == Pow(2, 0)
  {
  }

  lemma {:induction false} PowerOf5Is(i: nat)
    requires i <= 28
    ensures PowerOf5(i) == Pow(5, i)
  {
    hide Pow, PowerOf5;
    FirstPowers();
    if i > 0 {
      PowerOf5Is(i - 1);
      NextPowerOf5(i - 1);
      PowStep(5, i - 1);
    }
  }

  lemma {:induction false} PowerOf2Is(i: nat)
    requires i <= 66
    ensures PowerOf2(i) == Pow(2, i)
  {
    hide Pow, PowerOf2;
    FirstPowers();
    if i > 0 {
      PowerOf2Is(i - 1);
      NextPowerOf2(i - 1);
      PowStep(2, i - 1);
    }
  }

  /** From one anchor to the next: on the left of 5^0 it is the earlier one that follows from the later one. */
  predicate AnchorStep(j: int, two: nat)
    requires -13 <= j <= 10
  {
    var (a, e, a', e') := (Anchor(j), Slack(j), Anchor(j + 1), Slack(j + 1));
    if j >= 0 then a' * two <= a * 37252902984619140625 && (a + e) * 37252902984619140625 <= (a' + e') * two
    else a * 37252902984619140625 <= a' * two && (a' + e') * two <= (a + e) * 37252902984619140625
  }

  predicate AnchorsFit(j: int)
    requires -13 <= j <= 10
  {
    || (Log5(28 * j + 28) - Log5(28 * j) == 65 && AnchorStep(j, 0x2_0000_0000_0000_0000))
    || (Log5(28 * j + 28) - Log5(28 * j) == 66 && AnchorStep(j, 0x4_0000_0000_0000_0000))
  }

  lemma Fits(j: int, m: nat)
    requires -13 <= j <= 10 && m == Log5(28 * j + 28) - Log5(28 * j)
    requires (m == 65 && AnchorStep(j, 0x2_0000_0000_0000_0000)) || (m == 66 && AnchorStep(j, 0x4_0000_0000_0000_0000))
    ensures AnchorsFit(j)
  {
  }

  lemma FarNegativeAnchors(j: int)
    requires -13 <= j <= -8
    ensures AnchorsFit(j)
  {
    hide AnchorsFit;
    match j
    case -13 => Fits(-13, 65);
    case -12 => Fits(-12, 65);
    case -11 => Fits(-11, 65);
    case -10 => Fits(-10, 65);
    case -9 => Fits(-9, 65);
    case -8 => Fits(-8, 65);
  }

  lemma NegativeAnchors(j: int)
    requires -7 <= j <= -1
    ensures AnchorsFit(j)
  {
    hide AnchorsFit;
    match j
    case -7 => Fits(-7, 65);
    case -6 => Fits(-6, 65);
    case -5 => Fits(-5, 65);
    case -4 => Fits(-4, 65);
    case -3 => Fits(-3, 65);
    case -2 => Fits(-2, 65);
    case -1 => Fits(-1, 66);
  }

  lemma PositiveAnchors(j: int)
    requires 0 <= j <= 5
    ensures AnchorsFit(j)
  {
    hide AnchorsFit;
    match j
    case 0 => Fits(0, 65);
    case 1 => Fits(1, 65);
    case 2 => Fits(2, 65);
    case 3 => Fits(3, 65);
    case 4 => Fits(4, 65);
    case 5 => Fits(5, 65);
  }

  lemma FarPositiveAnchors(j: int)
    requires 6 <= j <= 10
    ensures AnchorsFit(j)
  {
    hide AnchorsFit;
    match j
    case 6 => Fits(6, 65);
    case 7 => Fits(7, 65);
    case 8 => Fits(8, 65);
    case 9 => Fits(9, 65);
    case 10 => Fits(10, 65);
  }

  lemma AnchorSteps(j: int)
    requires -13 <= j <= 10
    ensures Log5(28 * j + 28) - Log5(28 * j) >= 0 && AnchorStep(j, Pow(2, Log5(28 * j + 28) - Log5(28 * j)))
    ensures Pow(5, 28) == 37252902984619140625
  {
    hide Pow, AnchorStep, Log5;
    PowerOf5Is(28);
    PowerOf2Is(65);
    PowerOf2Is(66);
    if j < -7 {
      FarNegativeAnchors(j);
    } else if j < 0 {
      NegativeAnchors(j);
    } else if j < 6 {
      PositiveAnchors(j);
    } else {
      FarPositiveAnchors(j);
    }
  }

  lemma AnchorOfOne()
    ensures Brackets(0, Anchor(0), Anchor(0)) && Slack(0) == 0
  {
    hide Pow;
    PowZeros();
    PowAdd(2, 127, 128);
    WordIsPow2();
    PowDoubles(2, 64, WORD);
    PowStep(2, 127);
    PowAdd(2, 127, 128);
  }

  lemma {:induction false} AnchorBrackets(j: int)
    requires -13 <= j <= 11
    ensures Brackets(28 * j, Anchor(j), Anchor(j) + Slack(j))
    decreases if j < 0 then -j else j
  {
    hide Pow, Anchor, Top, Bottom, Log5;
    if j == 0 {
      AnchorOfOne();
    } else {
      var r := if j > 0 then j - 1 else j;
      AnchorSteps(r);
      PowerRatio(28 * r, 28);
      AnchorBrackets(if j > 0 then j - 1 else j + 1);
      var (five, two, s) := (Pow(5, 28), Pow(2, Log5(28 * r + 28) - Log5(28 * r)), Pow(2, 128));
      var (a, e, a', e') := (Anchor(r), Slack(r), Anchor(r + 1), Slack(r + 1));
      var (n, b, n', b') := (Top(28 * r), Bottom(28 * r), Top(28 * r + 28), Bottom(28 * r + 28));
      RatioScaled(n, b, n', b', five, two, s);
      if j > 0 {
        LowerByRatio(n * s, b, n' * s, b', five, two, a, a');
        UpperByRatio(n * s, b, n' * s, b', five, two, a + e, a' + e');
      } else {
        LowerByRatio(n' * s, b', n * s, b, two, five, a', a);
        UpperByRatio(n' * s, b', n * s, b, two, five, a' + e', a + e);
      }
    }
  }

  lemma RatioScaled(n: nat, b: nat, n': nat, b': nat, five: nat, two: nat, s: nat)
    requires n' * (b * two) == (n * five) * b'
    ensures (n' * s) * (b * two) == ((n * s) * five) * b'
    ensures (n * s) * (b' * five) == ((n' * s) * two) * b
  {
    MulAssoc(n', s, b * two);
    MulAssoc(n', b * two, s);
    MulAssoc(n, s, five);
    MulAssoc(n, five, s);
    MulAssoc(n * five, s, b');
    MulAssoc(n * five, b', s);
    MulAssoc(n * s, b', five);
    MulAssoc(n * s, five, b');
    MulAssoc(n' * s, two, b);
  }

  // ----- rows from anchors

  /** What leads from the anchor before row q = 28 * j + i to the row. */
  predicate Factors(j: int, i: nat, n: nat, five: nat, two: nat) {
    && -13 <= j <= 11 && i < 28 && n <= 66 && (0 <= j || 28 * j + i <= 0)
    && LeadsTo(n + 65 * j - (if j < 0 then 1 else 0), 28 * j + i) && five == PowerOf5(i) && two == PowerOf2(n)
  }

  /** e is Log5(q). */
  predicate LeadsTo(e: int, q: int) {
    65536 * e <= 152170 * q < 65536 * (e + 1)
  }

  lemma FactorsAre(j: int, i: nat, n: nat, five: nat, two: nat)
    requires Factors(j, i, n, five, two)
    ensures n == Log5(28 * j + i) - Log5(28 * j) && five == Pow(5, i) && two == Pow(2, n)
  {
    hide Pow, PowerOf5, PowerOf2, Log5;
    LogOfAnchor(j);
    LogIs(n + 65 * j - (if j < 0 then 1 else 0), 28 * j + i);
    PowerOf5Is(i);
    PowerOf2Is(n);
  }

  lemma LogOfAnchor(j: int)
    requires -13 <= j <= 11
    ensures Log5(28 * j) == 65 * j - (if j < 0 then 1 else 0)
  {
    hide Log5;
    LogIs(65 * j - (if j < 0 then 1 else 0), 28 * j);
  }

  lemma LogIs(e: int, q: int)
    requires LeadsTo(e, q)
    ensures Log5(q) == e
  {
    DivModUnique(217706 * q, 65536, e + q, 152170 * q - 65536 * e);
  }

  /** t is at most the row's number; it is beyond it; it is exactly that. */
  predicate AtMost(j: int, five: nat, two: nat, t: nat)
    requires -13 <= j <= 11
  {
    t * (two * 0x1_0000_0000_0000_0000_0000_0000_0000_0000) <= Anchor(j) * five
  }

  predicate Below(j: int, five: nat, two: nat, t: nat)
    requires -13 <= j <= 11
  {
    t * (two * 0x1_0000_0000_0000_0000_0000_0000_0000_0000) < Anchor(j) * five
  }

  predicate Beyond(j: int, five: nat, two: nat, t: nat)
    requires -13 <= j <= 11
  {
    (Anchor(j) + Slack(j)) * five < t * (two * 0x1_0000_0000_0000_0000_0000_0000_0000_0000)
  }

  predicate Same(j: int, five: nat, two: nat, t: nat)
    requires -13 <= j <= 11
  {
    Slack(j) == 0 && Anchor(j) * five == t * (two * 0x1_0000_0000_0000_0000_0000_0000_0000_0000)
  }

  lemma RowBounds(j: int, i: nat, n: nat, five: nat, two: nat, t: nat)
    requires Factors(j, i, n, five, two)
    ensures var q := 28 * j + i;
      && (AtMost(j, five, two, t) ==> t * Bottom(q) <= Top(q))
      && (Below(j, five, two, t) ==> t * Bottom(q) < Top(q))
      && (Beyond(j, five, two, t) ==> Top(q) < t * Bottom(q))
      && (Same(j, five, two, t) ==> Top(q) == t * Bottom(q))
  {
    hide Pow, Anchor, Slack, Top, Bottom, Log5, PowerOf5, PowerOf2;
    var (r, q, s) := (28 * j, 28 * j + i, Pow(2, 128));
    assert s == 0x1_0000_0000_0000_0000_0000_0000_0000_0000 by { WordIsPow2(); PowDoubles(2, 64, WORD); }
    AnchorBrackets(j);
    PowerRatio(r, i);
    FactorsAre(j, i, n, five, two);
    hide Factors;
    var (x, b, x', b', y) := (Top(r) * s, Bottom(r), Top(q), Bottom(q), two * s);
    assert x' * (b * y) == (x * five) * b' by { RowRatio(Top(r), b, x', b', five, two, s); }
    MulPositive(two, s);
    LowerByRatio(x, b, x', b', five, y, Anchor(j), t);
    UpperByRatio(x, b, x', b', five, y, Anchor(j) + Slack(j), t);
  }

  lemma RowRatio(n: nat, b: nat, n': nat, b': nat, five: nat, two: nat, s: nat)
    requires n' * (b * two) == (n * five) * b'
    ensures n' * (b * (two * s)) == ((n * s) * five) * b'
  {
    MulAssoc(b, two, s);
    MulAssoc(n', b * two, s);
    MulAssoc(n, s, five);
    MulAssoc(n, five, s);
    MulAssoc(n * five, s, b');
    MulAssoc(n * five, b', s);
  }

  /** A row that is cut off. */
  function Cut(j: int, i: nat, ghost n: nat, ghost five: nat, ghost two: nat, high: u64, low: u64, ghost a: nat,
      ghost b: nat, ghost k: nat, ghost l: nat): (r: Row)
    requires high >= 0x8000_0000_0000_0000 && (28 * j + i < -27 || 28 * j + i > 55) && Factors(j, i, n, five, two)
    requires AtMost(j, five, two, high * 0x1_0000_0000_0000_0000 + low)
    requires Beyond(j, five, two, high * 0x1_0000_0000_0000_0000 + low + 1)
    requires ShowsDistance(high * 0x1_0000_0000_0000_0000 + low, a, b, k, l)
    ensures IsRow(28 * j + i, r)
  {
    RowBounds(j, i, n, five, two, high * WORD + low);
    RowBounds(j, i, n, five, two, high * WORD + low + 1);
    var t := high * WORD + low;
    assert KeepsAway(t) by {
      forall w: nat, c: nat | 0 < w < WORD ensures FarBelow(w, t, c) {
        DistanceShown(t, a, b, k, l, w, c);
      }
    }
    Row(high, low)
  }

  /** The next number up. */
  ghost predicate RoundsUp(j: int, i: nat, n: nat, five: nat, two: nat, high: u64, low: u64) {
    && high >= 0x8000_0000_0000_0000 && low > 0 && -27 <= 28 * j + i < 0 && Factors(j, i, n, five, two)
    && Below(j, five, two, high * 0x1_0000_0000_0000_0000 + low - 1)
    && Beyond(j, five, two, high * 0x1_0000_0000_0000_0000 + low)
  }

  lemma NextUp(j: int, i: nat, n: nat, five: nat, two: nat, high: u64, low: u64)
    requires RoundsUp(j, i, n, five, two, high, low)
    ensures IsNextUp(28 * j + i, high * WORD + low)
  {
    hide Factors, Below, Beyond;
    RowBounds(j, i, n, five, two, high * WORD + low - 1);
    RowBounds(j, i, n, five, two, high * WORD + low);
  }

  function UpOdd(j: int, i: nat, ghost n: nat, ghost five: nat, ghost two: nat, high: u64, low: u64,
      ghost u: nat, ghost c: nat): (r: Row)
    requires RoundsUp(j, i, n, five, two, high, low) && InverseShows(high, u, c)
    ensures IsRow(28 * j + i, r)
  {
    NextUp(j, i, n, five, two, high, low);
    OddNoFalseTie(high, u, c);
    Row(high, low)
  }

  function UpEven(j: int, i: nat, ghost n: nat, ghost five: nat, ghost two: nat, high: u64, low: u64,
      ghost odd: nat, ghost p: nat): (r: Row)
    requires RoundsUp(j, i, n, five, two, high, low)
    requires odd % 2 == 1 && (p == 2 || p == 4 || p == 8) && high == odd * p
    ensures IsRow(28 * j + i, r)
  {
    NextUp(j, i, n, five, two, high, low);
    EvenNoFalseTie(high, odd, p);
    Row(high, low)
  }

  /** A row that is the whole power. */
  function Whole(j: int, i: nat, ghost n: nat, ghost five: nat, ghost two: nat, high: u64, low: u64): (r: Row)
    requires high >= 0x8000_0000_0000_0000 && 0 <= 28 * j + i <= 55 && Factors(j, i, n, five, two)
    requires Same(j, five, two, high * 0x1_0000_0000_0000_0000 + low)
    requires j <= 0 ==> high % 2 == 0 && low == 0
    ensures IsRow(28 * j + i, r)
  {
    RowBounds(j, i, n, five, two, high * WORD + low);
    Row(high, low)
  }
}
