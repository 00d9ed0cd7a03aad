/** From the kept bits of the product to the float nearest to w * 10^q. */
module FastRounding {
  import opened Arith
  import opened LimbValue
  import opened LimbOps
  import opened FloatFormat
  import opened Rounding
  import opened RoundingCorrect
  import opened PowersOfFive
  import opened FastProduct

  // ----- the normalized word, and the bits kept of the product's high word

  /** w with its top bit moved up to bit 63. */
  function Normalize(w: u64): (r: u64)
    requires w > 0
  {
    (w * Pow(2, LeadingZeroes(w))) % WORD
  }

  lemma NormalizeExact(w: u64)
    requires w > 0
    ensures Normalize(w) == w * Pow(2, LeadingZeroes(w)) >= TOP_BIT
  {
    hide Pow, LeadingZeroes;
    LeadingZeroesCorrect(w);
    TopBitSet(w, LeadingZeroes(w));
    DivModUnique(w * Pow(2, LeadingZeroes(w)), WORD, 0, w * Pow(2, LeadingZeroes(w)));
  }

  /** The bits of the high word below the mantissa and its rounding bit. */
  function Drop(f: Format, high: u64): nat {
    Shr(high, 63) + 64 - f.MantissaBits() - 3
  }

  /** Cutting them off leaves the mantissa, with its top bit set, and one bit more. */
  lemma MantissaShape(f: Format, high: u64)
    requires high >= TOP_BIT / 2
    ensures 0 <= Shr(high, 63) <= 1 && 9 <= Drop(f, high) < 64 && 64 - (f.MantissaBits() + 3) <= Drop(f, high)
    ensures
      var m := Shr(high, Drop(f, high));
      2 * f.Hidden() <= m < 4 * f.Hidden() && m * Pow(2, Drop(f, high)) < WORD
  {
    hide Pow;
    var b := f.MantissaBits();
    WordIsPow2();
    PowStep(2, 62);
    PowStep(2, 63);
    TopBitOf(high);
    var d := Drop(f, high);
    DivModDefinition(high, Pow(2, d));
    PowStep(2, b);
    PowStep(2, b + 1);
    PowAdd(2, b + 1, d);
    PowAdd(2, b + 2, d);
    var m, p := Shr(high, d), Pow(2, d);
    MulDistributes(m, 1, p);
    MulOrder(m + 1, 2 * f.Hidden(), p);
    MulOrder(4 * f.Hidden(), m, p);
  }

  lemma TopBitOf(high: u64)
    ensures Shr(high, 63) == if high >= TOP_BIT then 1 else 0
  {
    hide Pow;
    WordIsPow2();
    PowStep(2, 63);
    DivModUnique(high, TOP_BIT, if high >= TOP_BIT then 1 else 0, if high >= TOP_BIT then high - TOP_BIT else high);
  }

  // ----- the product in the units of the format

  /** The powers of two and five in a row's terms and in the value's. */
  lemma PowersApart(q: int) returns (top: nat, bottom: nat)
    ensures top - bottom == 127 - Log5(q)
    ensures Top(q) == Pow(5, Max(q, 0)) * Pow(2, top) && Bottom(q) == Pow(5, Max(-q, 0)) * Pow(2, bottom)
    ensures Pow(10, Max(q, 0)) == Pow(5, Max(q, 0)) * Pow(2, Max(q, 0))
    ensures Pow(10, Max(-q, 0)) == Pow(5, Max(-q, 0)) * Pow(2, Max(-q, 0))
  {
    hide Pow, Log5, Top, Bottom;
    PowZeros();
    PowProduct(5, 2, Max(q, 0));
    PowProduct(5, 2, Max(-q, 0));
    if q >= 0 {
      TopBottomRight(q);
      top, bottom := 127, Log5(q);
    } else {
      BottomAtMostZero(q);
      top, bottom := 127 - Log5(q), 0;
    }
  }

  /** Comparing twice the value with x steps is comparing the product with x units of 2^n. */
  lemma ProductInUnits(f: Format, q: int, w: u64, n: nat, e: int, x: nat)
    requires w > 0 && e == Power(q) + f.Bias() - LeadingZeroes(w) - 189 + n
    ensures
      var (product, part) := (Normalize(w) * Top(q), (x * Pow(2, n)) * Bottom(q));
      var (value, steps) := ((2 * ValueNum(f, w, q)) * DownFactor(e), (x * UpFactor(e)) * ValueDen(q));
      && (part <= product <==> steps <= value)
      && (product <= part <==> value <= steps)
  {
    hide Pow, Top, Bottom, LeadingZeroes, Normalize, Power, Log5, ValueNum, ValueDen, UpFactor, DownFactor;
    var top, bottom := PowersApart(q);
    LogFromPower(q);
    var (u, z) := (LeadingZeroes(w) + top, Max(q, 0) + f.Bias() + Max(1 - e, 0));
    ValueInTwos(f, q, w, e, top);
    StepInTwos(q, n, e, x, bottom, u, z);
    CompareScaled((2 * ValueNum(f, w, q)) * DownFactor(e), (x * UpFactor(e)) * ValueDen(q), Pow(2, u),
      Normalize(w) * Top(q), (x * Pow(2, n)) * Bottom(q), Pow(2, z));
  }

  lemma LogFromPower(q: int)
    ensures Power(q) == Log5(q) + q + 63
  {
  }

  lemma ValueInTwos(f: Format, q: int, w: u64, e: int, top: nat)
    requires w > 0 && Top(q) == Pow(5, Max(q, 0)) * Pow(2, top)
    requires Pow(10, Max(q, 0)) == Pow(5, Max(q, 0)) * Pow(2, Max(q, 0))
    ensures ((2 * ValueNum(f, w, q)) * DownFactor(e)) * Pow(2, LeadingZeroes(w) + top) ==
      (Normalize(w) * Top(q)) * Pow(2, Max(q, 0) + f.Bias() + Max(1 - e, 0))
  {
    hide Pow, Top, LeadingZeroes, Normalize;
    NormalizeExact(w);
    var (lz, b, k) := (LeadingZeroes(w), f.Bias(), Max(q, 0));
    PowAdd(2, lz, top);
    PowAdd(2, k + b, Max(1 - e, 0));
    PowAdd(2, k, b);
    PowStep(2, b - 1);
    ValueScale(w, Pow(2, lz), Pow(5, k), Pow(2, top), Pow(2, k), Pow(2, b - 1), Pow(2, Max(1 - e, 0)));
  }

  lemma StepInTwos(q: int, n: nat, e: int, x: nat, bottom: nat, u: nat, z: nat)
    requires Bottom(q) == Pow(5, Max(-q, 0)) * Pow(2, bottom)
    requires Pow(10, Max(-q, 0)) == Pow(5, Max(-q, 0)) * Pow(2, Max(-q, 0))
    requires Max(e - 1, 0) + Max(-q, 0) + u == n + bottom + z
    ensures ((x * UpFactor(e)) * ValueDen(q)) * Pow(2, u) == ((x * Pow(2, n)) * Bottom(q)) * Pow(2, z)
  {
    hide Pow, Bottom, UpFactor, ValueDen;
    var (up, k) := (Max(e - 1, 0), Max(-q, 0));
    StepFactors(e, q);
    ThreeTwos(up, k, u);
    ThreeTwos(n, bottom, z);
    StepScale(x, UpFactor(e), Pow(5, k), Pow(2, k), ValueDen(q), Pow(2, u), Pow(2, n), Pow(2, bottom), Bottom(q),
      Pow(2, z));
  }

  lemma StepFactors(e: int, q: int)
    ensures UpFactor(e) == Pow(2, Max(e - 1, 0)) && ValueDen(q) == Pow(10, Max(-q, 0))
  {
  }

  lemma ThreeTwos(i: nat, j: nat, k: nat)
    ensures (Pow(2, i) * Pow(2, j)) * Pow(2, k) == Pow(2, i + j + k)
  {
    hide Pow;
    PowAdd(2, i, j);
    PowAdd(2, i + j, k);
  }

  lemma ValueScale(w: nat, l: nat, five: nat, top: nat, ten: nat, b: nat, down: nat)
    ensures ((2 * ((w * (five * ten)) * b)) * down) * (l * top) == ((w * l) * (five * top)) * ((ten * (2 * b)) * down)
  {
    calc {
      ((w * l) * (five * top)) * ((ten * (2 * b)) * down);
      { MulInterchange(w, l, five, top); }
      ((w * five) * (l * top)) * ((ten * (2 * b)) * down);
      { MulAssoc(w * five, l * top, (ten * (2 * b)) * down); MulAssoc(w * five, (ten * (2 * b)) * down, l * top); }
      ((w * five) * ((ten * (2 * b)) * down)) * (l * top);
      { MulAssoc(w * five, ten * (2 * b), down); MulAssoc(w * five, ten, 2 * b); MulAssoc(w, five, ten); }
      (((w * (five * ten)) * (2 * b)) * down) * (l * top);
      { MulAssoc(w * (five * ten), b, 2); }
      ((2 * ((w * (five * ten)) * b)) * down) * (l * top);
    }
  }

  lemma StepScale(x: nat, up: nat, five: nat, ten: nat, den: nat, u: nat, n: nat, two: nat, bottom: nat, z: nat)
    requires (up * ten) * u == (n * two) * z && den == five * ten && bottom == five * two
    ensures ((x * up) * den) * u == ((x * n) * bottom) * z
  {
    StepRegroup(x, up, five, ten, u);
    StepRegroup(x, n, five, two, z);
  }

  lemma StepRegroup(x: nat, up: nat, five: nat, ten: nat, u: nat)
    ensures ((x * up) * (five * ten)) * u == (x * five) * ((up * ten) * u)
  {
    MulInterchange(x, up, five, ten);
    MulAssoc(x * five, up * ten, u);
  }

  lemma CompareScaled(value: nat, steps: nat, u: nat, product: nat, part: nat, z: nat)
    requires u > 0 && z > 0 && value * u == product * z && steps * u == part * z
    ensures part <= product <==> steps <= value
    ensures product <= part <==> value <= steps
  {
    MulOrder(part, product, z);
    MulOrder(product, part, z);
    MulOrder(steps, value, u);
    MulOrder(value, steps, u);
  }

  // ----- the decision

  /** The kept part m of twice the value, rounding bit included, decides; and so does, of a subnormal's, what is left
      of it once it is aligned. */
  lemma KeptRounds(f: Format, num: nat, den: nat, e: int, m: nat, up: bool)
    requires e >= 1 && den > 0 && m < 4 * f.Hidden() && (e == 1 || m >= 2 * f.Hidden())
    requires InWindow(2 * num, den, m, e)
    requires
      var tie := (2 * num) * DownFactor(e) == (m * UpFactor(e)) * den;
      up <==> m % 2 == 1 && (!tie || m % 4 == 3)
    ensures (e - 1) * f.Hidden() + m / 2 >= 0
    ensures NearestEven(f, num, den, Min((e - 1) * f.Hidden() + m / 2 + (if up then 1 else 0), f.Infinity()))
  {
    hide Pow, Units, NearestEven, Format.Infinity, Format.Hidden, UpFactor, DownFactor, InWindow, Point;
    KeptBetween(f, num, den, e, m);
    RoundingBit(m);
    var c := (e - 1) * f.Hidden() + m / 2;
    BetweenRounds(f, num, den, c, up);
  }

  lemma RoundingBit(m: nat)
    ensures m % 4 == 3 <==> m % 2 == 1 && m / 2 % 2 == 1
  {
  }

  /** The kept part's neighbours, and the midpoint between them. */
  lemma KeptBetween(f: Format, num: nat, den: nat, e: int, m: nat)
    requires e >= 1 && den > 0 && m < 4 * f.Hidden() && (e == 1 || m >= 2 * f.Hidden())
    requires InWindow(2 * num, den, m, e)
    ensures
      var c := (e - 1) * f.Hidden() + m / 2;
      c >= 0 && c % 2 == m / 2 % 2 && Point(f, den, c) <= num < Point(f, den, c + 1)
    ensures
      var c := (e - 1) * f.Hidden() + m / 2;
      var mid := Point(f, den, c) + Point(f, den, c + 1);
      var tie := (2 * num) * DownFactor(e) == (m * UpFactor(e)) * den;
      (mid < 2 * num <==> m % 2 == 1 && !tie) && (mid == 2 * num <==> m % 2 == 1 && tie)
  {
    hide Pow, Units, Format.Hidden, UpFactor, DownFactor;
    FactorsAbove(e);
    assert (2 * num) * DownFactor(e) == 2 * num;
    KeptFloat(f, e, m / 2);
    KeptMiddle(num, den, m, UpFactor(e));
  }

  /** Between neighbouring floats. */
  lemma BetweenRounds(f: Format, num: nat, den: nat, c: nat, up: bool)
    requires den > 0 && Point(f, den, c) <= num < Point(f, den, c + 1)
    requires
      var mid := Point(f, den, c) + Point(f, den, c + 1);
      up <==> mid < 2 * num || (mid == 2 * num && c % 2 == 1)
    ensures NearestEven(f, num, den, Min(c + (if up then 1 else 0), f.Infinity()))
  {
    hide Point, NearestEven, Format.Infinity;
    PointOrder(f, den, c + 1, c + 2);
    NearestOrInfinity(f, num, den, c, up);
  }

  lemma FactorsAbove(e: int)
    requires e >= 1
    ensures UpFactor(e) == Pow(2, e - 1) && DownFactor(e) == 1
  {
  }

  lemma KeptMiddle(num: nat, den: nat, m: nat, step: nat)
    requires den > 0 && step > 0 && (m * step) * den <= 2 * num < ((m + 1) * step) * den
    ensures
      var j := m / 2;
      var (low, high) := ((j * step) * den, ((j + 1) * step) * den);
      && low <= num < high
      && (low + high < 2 * num <==> m % 2 == 1 && (m * step) * den != 2 * num)
      && (low + high == 2 * num <==> m % 2 == 1 && (m * step) * den == 2 * num)
  {
    var (j, s) := (m / 2, step * den);
    MulAssoc(m, step, den);
    MulAssoc(m + 1, step, den);
    MulAssoc(j, step, den);
    MulAssoc(j + 1, step, den);
    MulDistributes(m, 1, s);
    MulDistributes(j, 1, s);
    MulPositive(step, den);
    if m % 2 == 1 {
      assert m * s == j * s + j * s + s by { MulDistributes(j, j, s); MulDistributes(2 * j, 1, s); }
    } else {
      assert m * s == j * s + j * s by { MulDistributes(j, j, s); }
    }
  }

  lemma KeptFloat(f: Format, e: int, j: nat)
    requires e >= 1 && j < 2 * f.Hidden() && (e == 1 || j >= f.Hidden())
    ensures
      var c, step := (e - 1) * f.Hidden() + j, UpFactor(e);
      c >= 0 && c % 2 == j % 2 && Units(f, c) == j * step && Units(f, c + 1) == (j + 1) * step
  {
    hide Pow, Units, Format.Hidden, UpFactor;
    FactorsAbove(e);
    KeptParity(f, e, j);
    KeptUnits(f, e, j);
    KeptUnits(f, e, j + 1);
  }

  lemma KeptUnits(f: Format, e: int, j: nat)
    requires e >= 1 && j <= 2 * f.Hidden() && (e == 1 || j >= f.Hidden())
    ensures var c := (e - 1) * f.Hidden() + j; c >= 0 && Units(f, c) == j * Pow(2, e - 1)
  {
    hide Pow, Units, Format.Hidden;
    MulOrder(0, e - 1, f.Hidden());
    if j >= f.Hidden() {
      UnitsNormal(f, e, j);
    } else {
      UnitsSubnormal(f, j);
      PowZeros();
    }
  }

  lemma KeptParity(f: Format, e: int, j: nat)
    requires e >= 1
    ensures var c := (e - 1) * f.Hidden() + j; c >= 0 && c % 2 == j % 2
  {
    hide Pow, Format.Hidden;
    MulOrder(0, e - 1, f.Hidden());
    HiddenEven(f);
    EvenProduct(e - 1, f.Hidden());
  }

  /** Shifting the kept part of a subnormal into place. */
  lemma WindowAligned(num: nat, den: nat, m: nat, e: int)
    requires e <= 0 && InWindow(num, den, m, e)
    ensures InWindow(num, den, Shr(m, 1 - e), 1)
    ensures num == Shr(m, 1 - e) * den ==> (m * UpFactor(e)) * den == num * DownFactor(e)
  {
    hide Pow, UpFactor, DownFactor;
    FactorsBelow(e);
    var (r, p) := (Shr(m, 1 - e), Pow(2, 1 - e));
    DivModDefinition(m, p);
    MulDistributes(r, 1, p);
    assert m * UpFactor(e) == m && (m + 1) * UpFactor(e) == m + 1 && r * UpFactor(1) == r && num * DownFactor(1) == num;
    AlignArithmetic(num, den, m, r, p);
  }

  lemma FactorsBelow(e: int)
    requires e <= 0
    ensures UpFactor(e) == 1 && DownFactor(e) == Pow(2, 1 - e) && UpFactor(1) == 1 && DownFactor(1) == 1
  {
  }

  lemma AlignArithmetic(num: nat, den: nat, m: nat, r: nat, p: nat)
    requires p > 0 && r * p <= m < (r + 1) * p && m * den <= num * p < (m + 1) * den
    ensures r * den <= num < (r + 1) * den
    ensures num == r * den ==> m * den == num * p
  {
    MulOrder(r * p, m, den);
    MulOrder(m + 1, (r + 1) * p, den);
    AlignRegroup(r, p, den);
    AlignRegroup(r + 1, p, den);
    MulOrder(r * den, num, p);
    MulOrder(num, (r + 1) * den, p);
  }

  lemma AlignRegroup(r: nat, p: nat, den: nat)
    ensures (r * p) * den == (r * den) * p
  {
    MulAssoc(r, p, den);
    MulAssoc(r, den, p);
  }

  // ----- the whole argument

  /** Everything compute_float knows about w * 10^q once it has the product. */
  ghost predicate FastWindow(f: Format, q: int, w: u64, low: u64, high: u64, e: int) {
    && w > 0 && high >= TOP_BIT / 2
    && var (d, num, den) := (Drop(f, high), 2 * ValueNum(f, w, q), ValueDen(q));
       var m := Shr(high, d);
       var tie := num * DownFactor(e) == (m * UpFactor(e)) * den;
       && InWindow(num, den, m, e)
       && (q < FIRST_ROUNDED_UP ==> !tie)
       && (tie && m % 2 == 1 ==> f.MinExponentRoundToEven() <= q <= f.MaxExponentRoundToEven())
       && (f.MinExponentRoundToEven() <= q <= f.MaxExponentRoundToEven() ==> (tie <==> ShowsTie(low, high, m, d)))
  }

  lemma FastWindowHolds(f: Format, q: int, w: u64, low: u64, high: u64, e: int)
    requires SMALLEST_POWER <= q <= LARGEST_POWER && w > 0
    requires (low, high) == ProductApproximation(f.MantissaBits() + 3, q, Normalize(w))
    requires e == Power(q) + Shr(high, 63) - LeadingZeroes(w) - f.MinimumExponent()
    ensures FastWindow(f, q, w, low, high, e)
  {
    hide Pow, Power, Shr, LowBits, LeadingZeroes, Normalize, ProductApproximation, Format.Hidden, Top, Bottom, ShowsTie,
      ValueNum, ValueDen, UpFactor, DownFactor, IsRow, Tied;
    NormalizeExact(w);
    var (w', k, row) := (Normalize(w), 64 - (f.MantissaBits() + 3), PowerTable.PowerOfFive128(q));
    ProductIs(f.MantissaBits() + 3, q, w', row);
    HighLarge(k, q, w', row, low, high);
    MantissaShape(f, high);
    var d := Drop(f, high);
    var (m, n) := (Shr(high, d), 128 + d);
    KeptBits(k, w', row, low, high, d);
    KeptExactly(q, row, w', m, n);
    DropIs(f, high);
    ProductInUnits(f, q, w, n, e, m);
    ProductInUnits(f, q, w, n, e, m + 1);
    TiedIs(q, w', m, n);
    if q < FIRST_ROUNDED_UP {
      NoTieFarDown(q, w', m, n);
    } else if q <= 27 {
      TieShows(k, q, row, w', low, high, d);
    }
    if Tied(q, w', m, n) && m % 2 == 1 {
      TieInRange(f, q, w', m, n);
    }
    assert f.MinExponentRoundToEven() >= FIRST_ROUNDED_UP && f.MaxExponentRoundToEven() <= 27;
  }

  lemma TiedIs(q: int, w: nat, m: nat, n: nat)
    ensures Tied(q, w, m, n) <==> w * Top(q) == (m * Pow(2, n)) * Bottom(q)
  {
  }

  lemma DropIs(f: Format, high: u64)
    ensures Drop(f, high) == Shr(high, 63) + 61 - f.MantissaBits()
  {
  }

  lemma HighLarge(k: nat, q: int, w: u64, row: Row, low: u64, high: u64)
    requires w >= TOP_BIT && IsRow(q, row)
    requires FirstWordOnly(k, w, row, low, high) || BothWords(w, row, low, high)
    ensures high >= TOP_BIT / 2
  {
    hide Pow, LowBits, IsCutOff, IsNextUp, KeepsAway, NoFalseTie, Top, Bottom;
    var t := row.high * WORD;
    MulOrder(TOP_BIT, w, row.high);
    MulOrder(TOP_BIT, row.high, TOP_BIT);
    MulDistributes(t, row.low, w);
    MulAssoc(w, row.high, WORD);
    MulOrder(0, w, row.low);
  }
}
