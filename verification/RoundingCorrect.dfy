/** Why `round` is correct: where its truncated value lies, and what each way of answering its callback gives. */
module RoundingCorrect {
  import opened Arith
  import opened FloatFormat
  import opened Rounding

  /** x * 2^(e - Bias), in units, is x * UpFactor(e) / DownFactor(e). */
  function UpFactor(e: int): (r: nat)
    ensures r > 0
  {
    Pow(2, Max(e - 1, 0))
  }

  function DownFactor(e: int): (r: nat)
    ensures r > 0
  {
    Pow(2, Max(1 - e, 0))
  }

  /** num/den units lies in [x, x+1) * 2^(e - Bias): x is its leading part. */
  ghost predicate InWindow(num: nat, den: nat, x: nat, e: int) {
    (x * UpFactor(e)) * den <= num * DownFactor(e) < ((x + 1) * UpFactor(e)) * den
  }

  /** The cut-off mantissa m, the value t of its last bit in x, and the spacing `step` of the floats around it. */
  lemma FloorParts(f: Format, x: u64, e: int) returns (m: nat, t: nat, step: nat)
    requires x >= TOP_BIT
    ensures m == Shr(x, RoundingShift(f, e)) && t > 0 && step > 0
    ensures m * t <= x < (m + 1) * t
    ensures step * DownFactor(e) == t * UpFactor(e)
    ensures FloorCode(f, x, e) >= 0
    ensures Units(f, FloorCode(f, x, e)) == m * step
    ensures Units(f, FloorCode(f, x, e) + 1) == (m + 1) * step
    ensures FloorCode(f, x, e) % 2 == m % 2
    ensures 1 - e <= 64 ==> t == Pow(2, RoundingShift(f, e))
  {
    hide Pow, Units, Shr, Format.Hidden, UpFactor, DownFactor;
    FloorMantissa(f, x, e);
    m := Shr(x, RoundingShift(f, e));
    if IsSubnormal(f, e) {
      t, step := DownFactor(e), 1;
      SubnormalParts(f, x, e, m);
    } else {
      t, step := Pow(2, MantissaShift(f)), Pow(2, e + MantissaShift(f) - 1);
      NormalParts(f, x, e, m);
    }
  }

  lemma SubnormalParts(f: Format, x: u64, e: int, m: nat)
    requires x >= TOP_BIT && IsSubnormal(f, e) && m == Shr(x, RoundingShift(f, e)) < f.Hidden()
    ensures m * DownFactor(e) <= x < (m + 1) * DownFactor(e)
    ensures DownFactor(e) == Pow(2, 1 - e) && UpFactor(e) == 1
    ensures Units(f, m) == m && Units(f, m + 1) == m + 1
  {
    assert UpFactor(e) == 1;
    hide Pow, Units, Shr, Format.Hidden;
    SubnormalFloor(x, e, m);
    UnitsSubnormal(f, m);
    UnitsSubnormal(f, m + 1);
  }

  lemma NormalParts(f: Format, x: u64, e: int, m: nat)
    requires x >= TOP_BIT && !IsSubnormal(f, e) && m == Shr(x, RoundingShift(f, e))
    requires f.Hidden() <= m < 2 * f.Hidden()
    ensures
      var t, step := Pow(2, MantissaShift(f)), Pow(2, e + MantissaShift(f) - 1);
      m * t <= x < (m + 1) * t && step * DownFactor(e) == t * UpFactor(e)
    ensures
      var c, step := FloorCode(f, x, e), Pow(2, e + MantissaShift(f) - 1);
      c >= 0 && Units(f, c) == m * step && Units(f, c + 1) == (m + 1) * step && c % 2 == m % 2
  {
    hide Pow, Units, Format.Hidden, Shr, UpFactor, DownFactor, FloorCode;
    NormalCut(f, x, e, m);
    NormalParity(f, x, e, m);
    var e1 := e + MantissaShift(f);
    UnitsNormal(f, e1, m);
    UnitsNormal(f, e1, m + 1);
  }

  lemma NormalParity(f: Format, x: u64, e: int, m: nat)
    requires !IsSubnormal(f, e) && m == Shr(x, MantissaShift(f))
    ensures FloorCode(f, x, e) == (e + MantissaShift(f) - 1) * f.Hidden() + m
    ensures FloorCode(f, x, e) >= 0 && FloorCode(f, x, e) % 2 == m % 2
  {
    hide Pow, Format.Hidden, Shr;
    var k, h := e + MantissaShift(f) - 1, f.Hidden();
    HiddenEven(f);
    EvenProduct(k, h);
    MulOrder(0, k, h);
    EvenPlus(k * h, m);
  }

  lemma EvenPlus(p: int, m: int)
    requires p % 2 == 0
    ensures (p + m) % 2 == m % 2
  {
  }

  lemma NormalCut(f: Format, x: u64, e: int, m: nat)
    requires !IsSubnormal(f, e) && m == Shr(x, MantissaShift(f))
    ensures
      var t, step := Pow(2, MantissaShift(f)), Pow(2, e + MantissaShift(f) - 1);
      m * t <= x < (m + 1) * t && step * DownFactor(e) == t * UpFactor(e)
  {
    hide Pow;
    var s, e1 := MantissaShift(f), e + MantissaShift(f);
    PowAdd(2, e1 - 1, Max(1 - e, 0));
    PowAdd(2, s, Max(e - 1, 0));
    DivModDefinition(x, Pow(2, s));
    MulDistributes(m, 1, Pow(2, s));
  }

  lemma HiddenEven(f: Format)
    ensures f.Hidden() % 2 == 0
  {
    hide Pow;
    PowStep(2, f.MantissaBits() - 1);
  }

  lemma SubnormalFloor(x: u64, e: int, m: nat)
    requires e < 0 && m == Shr(x, Min(1 - e, 64))
    ensures m * Pow(2, 1 - e) <= x < (m + 1) * Pow(2, 1 - e)
  {
    hide Pow;
    if 1 - e <= 64 {
      DivModDefinition(x, Pow(2, 1 - e));
      MulDistributes(m, 1, Pow(2, 1 - e));
    } else {
      WordIsPow2();
      DivModUnique(x, WORD, 0, x);
      PowMonotone(2, 64, 1 - e);
    }
  }

  lemma WindowArithmetic(m: nat, t: nat, up: nat, down: nat, step: nat, x: nat, den: nat, num: nat)
    requires down > 0 && step * down == t * up
    requires m * t <= x < (m + 1) * t
    requires (x * up) * den <= num * down < ((x + 1) * up) * den
    ensures (m * step) * den <= num < ((m + 1) * step) * den
  {
    StepProduct(m, t, up, down, step, den);
    StepProduct(m + 1, t, up, down, step, den);
    MulOrder(m * t, x, up);
    MulOrder((m * t) * up, x * up, den);
    MulOrder(x + 1, (m + 1) * t, up);
    MulOrder((x + 1) * up, ((m + 1) * t) * up, den);
    MulOrder((m * step) * den, num, down);
    MulOrder(num, ((m + 1) * step) * den, down);
  }

  lemma StepProduct(m: nat, t: nat, up: nat, down: nat, step: nat, den: nat)
    requires step * down == t * up
    ensures ((m * step) * den) * down == ((m * t) * up) * den
  {
    MulAssoc(m * step, den, down);
    MulAssoc(m * step, down, den);
    MulAssoc(m, step, down);
    MulAssoc(m, t, up);
  }

  /** A value with leading part x lies between the float that cutting x off gives and the next one. */
  lemma FloorCodeBrackets(f: Format, x: u64, e: int, num: nat, den: nat)
    requires x >= TOP_BIT && den > 0 && InWindow(num, den, x, e)
    ensures FloorCode(f, x, e) >= 0
    ensures Point(f, den, FloorCode(f, x, e)) <= num < Point(f, den, FloorCode(f, x, e) + 1)
  {
    hide Pow, Units, FloorCode, UpFactor, DownFactor;
    var m, t, step := FloorParts(f, x, e);
    WindowArithmetic(m, t, UpFactor(e), DownFactor(e), step, x, den, num);
  }

  /** Rounding up exactly when the value is past the midpoint, or on it with an odd last digit, is correct. */
  lemma RoundedNearest(f: Format, x: u64, e: int, num: nat, den: nat, up: bool)
    requires x >= TOP_BIT && den > 0 && FloorCode(f, x, e) >= 0
    requires Point(f, den, FloorCode(f, x, e)) <= num
    requires
      var c := FloorCode(f, x, e);
      c + 1 >= f.Infinity() || 2 * num < Point(f, den, c + 1) + Point(f, den, c + 2)
    requires
      var c := FloorCode(f, x, e);
      var mid := Point(f, den, c) + Point(f, den, c + 1);
      c < f.Infinity() ==> (up <==> mid < 2 * num || (mid == 2 * num && c % 2 == 1))
    ensures NearestEven(f, num, den, RoundedCode(f, x, e, up))
  {
    hide Point, FloorCode, NearestEven, Format.Infinity;
    NearestOrInfinity(f, num, den, FloorCode(f, x, e), up);
  }

  /** Whether the dropped bits of x, and the value beyond x, are below, at or above the midpoint. */
  lemma MidpointArithmetic(m: nat, half: nat, r: nat, up: nat, down: nat, step: nat, x: nat, den: nat, num: nat,
      truncated: bool)
    requires half > 0 && down > 0 && up > 0 && den > 0 && step * down == (2 * half) * up
    requires x == m * (2 * half) + r && r < 2 * half
    requires (x * up) * den <= num * down < ((x + 1) * up) * den
    requires truncated <==> num * down != (x * up) * den
    ensures
      var mid := (m * step) * den + ((m + 1) * step) * den;
      (mid < 2 * num <==> r > half || (r == half && truncated)) && (mid == 2 * num <==> r == half && !truncated)
  {
    var mid := (m * step) * den + ((m + 1) * step) * den;
    var k := (2 * m + 1) * half;
    MidpointScale(m, half, up, down, step, den);
    MulOrder(mid, 2 * num, down);
    MulOrder(2 * num, mid, down);
    MulAssoc(2, num, down);
    MulDistributes(2 * m, 1, half);
    MulAssoc(m, 2, half);
    assert x == k + (r - half);
    LeadingPart(k, r - half, up, den);
    LeadingPart(x, 1, up, den);
    MulPositive(up, den);
    MidpointCases((k * up) * den, (x * up) * den, num * down, up * den, r - half, truncated);
  }

  lemma LeadingPart(k: int, delta: int, up: int, den: int)
    ensures ((k + delta) * up) * den == (k * up) * den + delta * (up * den)
  {
    MulDistributes(k, delta, up);
    MulDistributes(k * up, delta * up, den);
    MulAssoc(delta, up, den);
  }

  lemma MidpointCases(mid: int, x: int, n: int, unit: int, delta: int, truncated: bool)
    requires unit > 0 && x == mid + delta * unit && x <= n < x + unit
    requires truncated <==> n != x
    ensures mid < n <==> delta > 0 || (delta == 0 && truncated)
    ensures mid == n <==> delta == 0 && !truncated
  {
    MulOrder(1, delta, unit);
    MulOrder(delta, -1, unit);
  }

  lemma MidpointScale(m: nat, half: nat, up: nat, down: nat, step: nat, den: nat)
    requires step * down == (2 * half) * up
    ensures ((m * step) * den + ((m + 1) * step) * den) * down == 2 * ((((2 * m + 1) * half) * up) * den)
  {
    StepProduct(m, 2 * half, up, down, step, den);
    StepProduct(m + 1, 2 * half, up, down, step, den);
    MulDistributes((m * step) * den, ((m + 1) * step) * den, down);
    MulAssoc(m, 2, half);
    MulAssoc(m + 1, 2, half);
    MulDistributes(2 * m, 1, half);
    MulDistributes((m * (2 * half)) * up, ((m + 1) * (2 * half)) * up, den);
    MulDistributes(m * (2 * half), (m + 1) * (2 * half), up);
    MulAssoc(2, (2 * m + 1) * half, up);
    MulAssoc(2, ((2 * m + 1) * half) * up, den);
  }

  /** The callback of positive_digit_comp. */
  function TruncatedTieEven(truncated: bool): (bool, bool, bool) -> bool {
    (isOdd: bool, isHalfway: bool, isAbove: bool) => isAbove || (isHalfway && truncated) || (isOdd && isHalfway)
  }

  /** With the 64 leading bits and one sticky bit for the rest, ties to even comes out right. */
  lemma StickyRounding(f: Format, x: u64, e: int, num: nat, den: nat, truncated: bool)
    requires x >= TOP_BIT && den > 0 && 1 - e <= 64 && InWindow(num, den, x, e)
    requires truncated <==> num * DownFactor(e) != (x * UpFactor(e)) * den
    ensures NearestEven(f, num, den,
      RoundedCode(f, x, e, Answer(x, RoundingShift(f, e), TruncatedTieEven(truncated))))
  {
    hide Pow, Units, FloorCode, UpFactor, DownFactor, NearestEven, RoundedCode;
    var s := RoundingShift(f, e);
    var m, t, step := FloorParts(f, x, e);
    FloorCodeBrackets(f, x, e, num, den);
    var c := FloorCode(f, x, e);
    PointOrder(f, den, c + 1, c + 2);
    PowStep(2, s - 1);
    DivModDefinition(x, t);
    MidpointArithmetic(m, Pow(2, s - 1), LowBits(x, s), UpFactor(e), DownFactor(e), step, x, den, num, truncated);
    RoundedNearest(f, x, e, num, den, Answer(x, s, TruncatedTieEven(truncated)));
  }
}
