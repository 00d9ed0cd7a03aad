/** compute_error: the extended value that the fast algorithm hands to the slow path, and how close it is. */
module FastError {
  import opened Arith
  import opened LimbValue
  import opened FloatFormat
  import opened Rounding
  import opened RoundingCorrect
  import opened PowersOfFive
  import opened FastProduct
  import opened FastRounding
  import opened ComputeFloat
  import opened NumberString
  import opened SlowPath

  // ----- the extended value that the fast algorithm hands to the slow path

  /** compute_error_scaled: the top 64 bits of the product, and their exponent. */
  function ErrorMantissa(high: u64): nat {
    if high >= TOP_BIT then high else 2 * high
  }

  function ErrorExponent(f: Format, q: int, high: u64, lz: nat): int {
    Power(q) + f.Bias() - (if high >= TOP_BIT then 0 else 1) - lz - 62
  }

  /** compute_error: the value's leading part, not rounded. */
  method ComputeError(f: Format, q: int, w: u64) returns (answer: AdjustedMantissa)
    requires SMALLEST_POWER <= q <= LARGEST_POWER && w > 0
    ensures fresh(answer) && answer.power2 < 0 && answer.mantissa >= TOP_BIT
    ensures
      var c := FloorCode(f, answer.mantissa, answer.power2 - INVALID_AM_BIAS);
      && c >= 0 && Point(f, ValueDen(q), c) <= ValueNum(f, w, q)
      && (w >= MINIMAL_19 ==> BracketsDecimal(f, c, w, q))
  {
    hide Pow, Power, LeadingZeroes, Normalize, ProductApproximation, FloorCode, BracketsDecimal, Point, ValueNum,
      ValueDen;
    var lz := LeadingZeroes(w);
    var (low, high) := ProductApproximation(f.MantissaBits() + 3, q, Normalize(w));
    ErrorShape(f, q, w, low, high);
    var hilz := if high >= TOP_BIT then 0 else 1;
    var mantissa := (high * (if hilz == 1 then 2 else 1)) % WORD;
    answer := new AdjustedMantissa(mantissa, Power(q) + f.Bias() - hilz - lz - 62 + INVALID_AM_BIAS);
    ErrorFloor(f, q, w, low, high);
    if w >= MINIMAL_19 { ErrorBrackets(f, q, w, low, high); }
  }

  /** w * 10^q is not below the float c, and (w + 1) * 10^q not past the midpoint over its successor. */
  ghost predicate BracketsDecimal(f: Format, c: int, w: nat, q: int) {
    && 0 <= c && Point(f, ValueDen(q), c) <= ValueNum(f, w, q)
    && 2 * ValueNum(f, w + 1, q) <= Point(f, ValueDen(q), c + 1) + Point(f, ValueDen(q), c + 2)
  }

  ghost predicate IsProduct(f: Format, q: int, w: u64, low: u64, high: u64) {
    && SMALLEST_POWER <= q <= LARGEST_POWER && w > 0
    && (low, high) == ProductApproximation(f.MantissaBits() + 3, q, Normalize(w))
  }

  lemma ProductFacts(f: Format, q: int, w: u64, low: u64, high: u64) returns (k: nat, row: Row)
    requires IsProduct(f, q, w, low, high)
    ensures k == 61 - f.MantissaBits()
    ensures Normalize(w) >= TOP_BIT && IsRow(q, row) && high >= TOP_BIT / 2
    ensures FirstWordOnly(k, Normalize(w), row, low, high) || BothWords(Normalize(w), row, low, high)
  {
    hide Pow, LeadingZeroes, Normalize, ProductApproximation, IsRow, FirstWordOnly, BothWords;
    k, row := 64 - (f.MantissaBits() + 3), PowerTable.PowerOfFive128(q);
    NormalizeExact(w);
    ProductIs(f.MantissaBits() + 3, q, Normalize(w), row);
    HighLarge(k, q, Normalize(w), row, low, high);
  }

  lemma ErrorShape(f: Format, q: int, w: u64, low: u64, high: u64)
    requires w > 0 && q <= LARGEST_POWER && IsProduct(f, q, w, low, high)
    ensures TOP_BIT <= ErrorMantissa(high) < WORD
    ensures ErrorMantissa(high) == (high * (if high >= TOP_BIT then 1 else 2)) % WORD
    ensures ErrorExponent(f, q, high, LeadingZeroes(w)) < 0x8000
  {
    hide Pow, Power, Normalize, LeadingZeroes, ProductApproximation, IsRow, FirstWordOnly, BothWords, IsProduct;
    var _, _ := ProductFacts(f, q, w, low, high);
    PowerBound(q);
    LeadingZeroesCorrect(w);
  }

  lemma PowerBound(q: int)
    requires q <= LARGEST_POWER
    ensures Power(q) < 1100
  {
  }

  /** The exponent belongs to the top 64 bits of the 192-bit product. */
  lemma ErrorScale(f: Format, q: int, w: u64, high: u64, s: int)
    requires w > 0
    ensures ErrorExponent(f, q, high, LeadingZeroes(w)) + 1 + s ==
      Power(q) + f.Bias() - LeadingZeroes(w) - 189 + (128 + s - (if high >= TOP_BIT then 0 else 1))
  {
  }

  /** x is the high word, moved up by at most a bit; so are its leading bits. */
  lemma ErrorLeading(high: u64, s: nat)
    requires s > 0
    ensures Shr(ErrorMantissa(high), s) == Shr(high, s - if high >= TOP_BIT then 0 else 1)
  {
    hide Pow;
    if high < TOP_BIT {
      var (h, p) := (Shr(high, s - 1), Pow(2, s - 1));
      PowStep(2, s - 1);
      DivModDefinition(high, p);
      MulAssoc(h, 2, p);
      MulAssoc(2, h, p);
      DivModUnique(2 * high, 2 * p, h, 2 * (high % p));
    }
  }

  /** How the float below is spaced, when the extended value does not vanish altogether. */
  lemma FloorSpacing(f: Format, x: u64, e: int) returns (m: nat, t: nat, step: nat)
    requires x >= TOP_BIT
    ensures m == Shr(x, RoundingShift(f, e)) && t >= 2048 && step > 0
    ensures m * t <= x < (m + 1) * t && step * DownFactor(e) == t * UpFactor(e)
    ensures
      var c := FloorCode(f, x, e);
      && c >= 0 && Units(f, c) == m * step && Units(f, c + 1) == (m + 1) * step
    ensures 1 - e > 64 ==> m == 0
    ensures 1 - e <= 64 ==> e + RoundingShift(f, e) >= 1 && step == Pow(2, e + RoundingShift(f, e) - 1)
  {
    hide Pow, Units, Shr, FloorCode, UpFactor, DownFactor;
    m, t, step := FloorParts(f, x, e);
    var s := RoundingShift(f, e);
    if 1 - e > 64 {
      HalfOrLess(x, s);
    } else {
      LargeShift(s);
      SpacingIs(e, s, step);
    }
  }

  lemma LargeShift(s: nat)
    requires s >= 11
    ensures Pow(2, s) >= 2048
  {
    hide Pow;
    PowerOf2Is(11);
    PowMonotone(2, 11, s);
  }

  lemma SpacingIs(e: int, s: nat, step: nat)
    requires e + s >= 1 && step * DownFactor(e) == Pow(2, s) * UpFactor(e)
    ensures step == Pow(2, e + s - 1)
  {
    hide Pow;
    PowAdd(2, s, Max(e - 1, 0));
    PowAdd(2, e + s - 1, Max(1 - e, 0));
    MulOrder(step, Pow(2, e + s - 1), DownFactor(e));
    MulOrder(Pow(2, e + s - 1), step, DownFactor(e));
  }

  /** Cut off, the extended value is a float not above the value. */
  lemma ErrorFloor(f: Format, q: int, w: u64, low: u64, high: u64)
    requires IsProduct(f, q, w, low, high)
    ensures
      var c := FloorCode(f, ErrorMantissa(high), ErrorExponent(f, q, high, LeadingZeroes(w)));
      c >= 0 && Point(f, ValueDen(q), c) <= ValueNum(f, w, q)
  {
    hide Pow, Power, LeadingZeroes, Normalize, ProductApproximation, ErrorMantissa, ErrorExponent, FloorCode, Units,
      Shr, ValueNum, ValueDen, UpFactor, DownFactor, IsRow, FirstWordOnly, BothWords, Keeps, Top, Bottom;
    ErrorShape(f, q, w, low, high);
    var k, row := ProductFacts(f, q, w, low, high);
    var (x, e) := (ErrorMantissa(high), ErrorExponent(f, q, high, LeadingZeroes(w)));
    var m, t, step := FloorSpacing(f, x, e);
    if 1 - e <= 64 {
      var r := RoundingShift(f, e);
      var s := r - if high >= TOP_BIT then 0 else 1;
      ErrorLeading(high, r);
      KeptBits(k, Normalize(w), row, low, high, s);
      KeptExactly(q, row, Normalize(w), m, 128 + s);
      KeepsAtLeast(q, Normalize(w), m, 128 + s);
      ErrorScale(f, q, w, high, r);
      ProductInUnits(f, q, w, 128 + s, e + 1 + r, m);
      FactorsAbove(e + 1 + r);
      PowStep(2, e + r - 1);
      HalfSteps(m, step, ValueDen(q), ValueNum(f, w, q));
    }
  }

  lemma KeepsAtLeast(q: int, w: nat, m: nat, n: nat)
    requires Keeps(q, w, m, n)
    ensures (m * Pow(2, n)) * Bottom(q) <= w * Top(q)
  {
  }

  lemma HalfSteps(m: nat, step: nat, den: nat, num: nat)
    requires (m * (2 * step)) * den <= 2 * num
    ensures (m * step) * den <= num
  {
    MulAssoc(m, 2, step);
    MulAssoc(2, m * step, den);
  }

  lemma RowCeiling(q: int, row: Row)
    requires IsRow(q, row)
    ensures Top(q) <= (row.Whole() + 1) * Bottom(q)
  {
    hide Pow, Top, Bottom, KeepsAway, NoFalseTie;
    MulDistributes(row.Whole(), 1, Bottom(q));
  }

  /** However the row was rounded, and whether or not the second word was looked at. */
  lemma ProductCeiling(k: nat, q: int, row: Row, w: u64, low: u64, high: u64)
    requires IsRow(q, row) && (FirstWordOnly(k, w, row, low, high) || BothWords(w, row, low, high))
    ensures w * Top(q) <= ((high + 3) * (WORD * WORD)) * Bottom(q)
  {
    hide Pow, Top, Bottom, FirstWordOnly, BothWords, IsRow;
    ProductSpread(k, w, row, low, high);
    RowCeiling(q, row);
    var (t, b) := (row.Whole(), Bottom(q));
    hide Row.Whole;
    MulOrder(Top(q), (t + 1) * b, w);
    MulAssoc(w, t + 1, b);
    MulDistributes(t, 1, w);
    MulOrder(w * (t + 1), (high + 3) * (WORD * WORD), b);
  }

  /** The value in units of the extended value's last bit. */
  lemma ErrorCeiling(f: Format, q: int, w: u64, low: u64, high: u64)
    requires IsProduct(f, q, w, low, high)
    ensures
      var (x, e) := (ErrorMantissa(high), ErrorExponent(f, q, high, LeadingZeroes(w)));
      ValueNum(f, w, q) * DownFactor(e) <= ((x + 6) * UpFactor(e)) * ValueDen(q)
  {
    hide Pow, Power, LeadingZeroes, Normalize, ProductApproximation, ErrorExponent, ValueNum, ValueDen, UpFactor,
      DownFactor, IsRow, FirstWordOnly, BothWords, Top, Bottom;
    var k, row := ProductFacts(f, q, w, low, high);
    ProductCeiling(k, q, row, Normalize(w), low, high);
    var (x, e) := (ErrorMantissa(high), ErrorExponent(f, q, high, LeadingZeroes(w)));
    var n := 128 - if high >= TOP_BIT then 0 else 1;
    WordIsPow2();
    PowDoubles(2, 64, WORD);
    PowStep(2, 127);
    assert (x + 6) * Pow(2, n) >= (high + 3) * (WORD * WORD) by {
      if high < TOP_BIT { MulAssoc(high + 3, 2, Pow(2, 127)); }
    }
    MulOrder((high + 3) * (WORD * WORD), (x + 6) * Pow(2, n), Bottom(q));
    ErrorScale(f, q, w, high, 0);
    ProductInUnits(f, q, w, n, e + 1, x + 6);
    FactorStep(e);
    if e >= 1 {
      HalvedSteps(ValueNum(f, w, q), x + 6, UpFactor(e), ValueDen(q));
    } else {
      MulAssoc(ValueNum(f, w, q), 2, DownFactor(e + 1));
    }
  }

  /** One exponent more is a step twice as large, or a value cut up half as finely. */
  lemma FactorStep(e: int)
    ensures if e >= 1 then UpFactor(e + 1) == 2 * UpFactor(e) && DownFactor(e + 1) == DownFactor(e) == 1
            else UpFactor(e + 1) == UpFactor(e) == 1 && DownFactor(e) == 2 * DownFactor(e + 1)
  {
    hide Pow;
    PowZeros();
    if e >= 1 { PowStep(2, e - 1); } else { PowStep(2, -e); }
  }

  lemma HalvedSteps(num: nat, x: nat, up: nat, den: nat)
    requires 2 * num <= (x * (2 * up)) * den
    ensures num <= (x * up) * den
  {
    MulAssoc(x, 2, up);
    MulAssoc(2, x * up, den);
  }

  /** Going to the next 19-digit number moves the value by less than 19 last bits of the extended value. */
  lemma NextWord(w: nat, d: nat, x: nat, up: nat)
    requires w >= MINIMAL_19 && x < WORD && up > 0 && w * d <= (x + 6) * up
    ensures (w + 1) * d < (x + 25) * up
  {
    if d >= 19 * up {
      MulOrder(MINIMAL_19, w, d);
      MulOrder(x + 6, 19 * MINIMAL_19 - 1, up);
    }
    assert d < 19 * up;
    MulDistributes(w, 1, d);
    MulDistributes(x + 6, 19, up);
  }

  /** Floats get no closer together. */
  lemma SpacingGrows(f: Format, c: nat)
    ensures Units(f, c + 2) - Units(f, c + 1) >= Units(f, c + 1) - Units(f, c)
  {
    hide Pow, Units, Format.Hidden;
    var h := f.Hidden();
    if c + 2 <= h {
      UnitsSubnormal(f, c);
      UnitsSubnormal(f, c + 1);
      UnitsSubnormal(f, c + 2);
    } else if c + 1 == h {
      UnitsSubnormal(f, c);
      UnitsSubnormal(f, c + 1);
      UnitsNormal(f, 1, h + 1);
      PowZeros();
      assert Units(f, c + 2) == h + 1 by { assert (1 - 1) * h + (h + 1) == c + 2; }
    } else {
      var e, m := CodeFields(f, c);
      UnitsNormal(f, e, m);
      UnitsNormal(f, e, m + 1);
      var p := Pow(2, e - 1);
      MulDistributes(m, 1, p);
      if m + 2 <= 2 * h {
        UnitsNormal(f, e, m + 2);
        MulDistributes(m + 1, 1, p);
      } else {
        UnitsNormal(f, e + 1, h + 1);
        MulDistributes(e - 1, 1, h);
        PowStep(2, e - 1);
        MulAssoc(h + 1, 2, p);
        MulDistributes(m + 1, 2, p);
      }
    }
  }

  lemma ErrorBrackets(f: Format, q: int, w: u64, low: u64, high: u64)
    requires IsProduct(f, q, w, low, high) && w >= MINIMAL_19
    ensures BracketsDecimal(f, FloorCode(f, ErrorMantissa(high), ErrorExponent(f, q, high, LeadingZeroes(w))), w, q)
  {
    hide Pow, Power, LeadingZeroes, Normalize, ProductApproximation, ErrorMantissa, ErrorExponent, FloorCode, Units,
      Shr, ValueNum, ValueDen, UpFactor, DownFactor;
    ErrorShape(f, q, w, low, high);
    ErrorFloor(f, q, w, low, high);
    ErrorCeiling(f, q, w, low, high);
    var (x, e) := (ErrorMantissa(high), ErrorExponent(f, q, high, LeadingZeroes(w)));
    var m, t, step := FloorSpacing(f, x, e);
    var c := FloorCode(f, x, e);
    var (den, unit) := (ValueDen(q), UpFactor(e) * ValueDen(q));
    MulPositive(UpFactor(e), den);
    NextValue(f, w, q, DownFactor(e), x, UpFactor(e));
    SpacingGrows(f, c);
    CutBrackets(x, m, t, step, UpFactor(e), DownFactor(e), den, ValueNum(f, w + 1, q));
    MulDistributes(m, 1, step);
    MulDistributes(Units(f, c + 1), Units(f, c + 2), den);
    MulOrder((m + 1) * step + ((m + 1) * step + step), Units(f, c + 1) + Units(f, c + 2), den);
  }

  lemma NextValue(f: Format, w: nat, q: int, down: nat, x: nat, up: nat)
    requires w >= MINIMAL_19 && x < WORD && up > 0 && ValueNum(f, w, q) * down <= ((x + 6) * up) * ValueDen(q)
    ensures ValueNum(f, w + 1, q) * down < ((x + 25) * up) * ValueDen(q)
  {
    hide Pow, ValueDen;
    var (ten, b, den) := (Pow(10, Max(q, 0)), Pow(2, f.Bias() - 1), ValueDen(q));
    MulPositive(up, den);
    DecimalStep(w, ten, b, down);
    DecimalStep(w + 1, ten, b, down);
    MulAssoc(x + 6, up, den);
    MulAssoc(x + 25, up, den);
    NextWord(w, (ten * b) * down, x, up * den);
  }

  lemma DecimalStep(w: nat, ten: nat, b: nat, down: nat)
    ensures ((w * ten) * b) * down == w * ((ten * b) * down)
  {
    MulAssoc(w, ten, b);
    MulAssoc(w, ten * b, down);
  }

  lemma CutBrackets(x: nat, m: nat, t: nat, step: nat, up: nat, down: nat, den: nat, next: nat)
    requires t >= 2048 && step * down == t * up && x < (m + 1) * t && up > 0 && down > 0 && den > 0
    requires next * down < ((x + 25) * up) * den
    ensures 2 * next <= ((m + 1) * step + ((m + 1) * step + step)) * den
  {
    var k := 2 * m + 3;
    assert k * t == (m + 1) * t + (m + 1) * t + t by {
      MulDistributes(m + 1, m + 1, t);
      MulDistributes(2 * m + 2, 1, t);
    }
    assert k * step == (m + 1) * step + ((m + 1) * step + step) by {
      MulDistributes(m + 1, m + 1, step);
      MulDistributes(2 * m + 2, 1, step);
    }
    StepProduct(k, t, up, down, step, den);
    MulOrder(2 * (x + 25), k * t, up);
    MulOrder(2 * (x + 25) * up, (k * t) * up, den);
    MulAssoc(2, x + 25, up);
    MulAssoc(2, (x + 25) * up, den);
    MulAssoc(2, next, down);
    MulOrder(2 * next, (k * step) * den, down);
    MulOrder((k * step) * den, 2 * next, down);
  }
}
