/** The arithmetic behind the slow path: whole numbers in units, and a value compared with a midpoint between floats. */
module Halfway {
  import opened Arith
  import opened LimbValue
  import opened LimbOps
  import opened FloatFormat
  import opened Rounding
  import opened RoundingCorrect

  /** A whole number in units of the smallest subnormal. */
  function WholeUnits(f: Format, n: nat): nat {
    n * Pow(2, f.Bias() - 1)
  }

  lemma WholeRounds(f: Format, n: nat, exponent: nat, c: int)
    ensures Rounds(f, n, exponent, c) <==> NearestEven(f, WholeUnits(f, Scaled(n, 10, exponent)), 1, c)
  {
    hide Pow, NearestEven;
  }

  /** The top 64 bits of a whole number are its leading part as an extended float. */
  lemma Hi64Window(f: Format, v: nat, bl: int, hi: u64, truncated: bool)
    requires bl > 0 && IsHi64(v, bl, hi, truncated)
    ensures 1 - (bl - 64 + f.Bias()) <= 64
    ensures InWindow(WholeUnits(f, v), 1, hi, bl - 64 + f.Bias())
    ensures var e := bl - 64 + f.Bias();
      truncated <==> WholeUnits(f, v) * DownFactor(e) != (hi * UpFactor(e)) * 1
  {
    var e := bl - 64 + f.Bias();
    assert DownFactor(e) == 1;
    hide Pow, DownFactor;
    if bl >= 64 {
      PowAdd(2, bl - 64, f.Bias() - 1);
      WindowScaled(v, Pow(2, bl - 64), Pow(2, f.Bias() - 1), hi, truncated);
    } else {
      ShortWindow(f, v, bl, hi);
    }
  }

  /** Fewer than 64 bits are shifted up without loss. */
  lemma ShortWindow(f: Format, v: nat, bl: nat, hi: nat)
    requires bl < 64 && hi == v * Pow(2, 64 - bl)
    ensures var e := bl - 64 + f.Bias();
      hi * UpFactor(e) == WholeUnits(f, v) < (hi + 1) * UpFactor(e)
  {
    hide Pow;
    var e := bl - 64 + f.Bias();
    PowAdd(2, 64 - bl, e - 1);
    MulAssoc(v, Pow(2, 64 - bl), Pow(2, e - 1));
    MulDistributes(hi, 1, UpFactor(e));
  }

  lemma WindowScaled(v: nat, unit: nat, k: nat, hi: nat, truncated: bool)
    requires TopPart(v, unit, hi, truncated) && k > 0
    ensures hi * (unit * k) <= v * k < (hi + 1) * (unit * k)
    ensures truncated <==> v * k != hi * (unit * k)
  {
    MulAssoc(hi, unit, k);
    MulAssoc(hi + 1, unit, k);
    MulOrder(hi * unit, v, k);
    MulOrder(v, (hi + 1) * unit, k);
  }

  /** The callback of negative_digit_comp, once the comparison with the midpoint is known. */
  function OrdTieEven(ord: int): (bool, bool, bool) -> bool {
    (isOdd: bool, isHalfway: bool, isAbove: bool) => if ord > 0 then true else if ord < 0 then false else isOdd
  }

  /** to_extended: the integer mantissa and the exponent of a finite float, as (mantissa, power2 + Bias). */
  function ToExtended(f: Format, bits: nat): (r: (nat, int)) {
    var h := f.Hidden();
    if bits < h then (bits % h, 1 - f.Bias())
    else (bits % h + h, ExponentField(bits, h) - f.Bias())
  }

  /** to_extended_halfway: the midpoint between a float and its successor. */
  function ToExtendedHalfway(f: Format, bits: nat): (nat, int) {
    var (m, e) := ToExtended(f, bits);
    (m * 2 + 1, e - 1)
  }

  /** The digits of the value and of the midpoint, multiplied to the same scale. */
  function RealDigits(n: nat, pow2Exp: int): nat {
    n * Pow(2, Max(-pow2Exp, 0))
  }

  function HalfwayDigits(mantissa: nat, pow5Exp: nat, pow2Exp: int): nat {
    (mantissa * Pow(5, pow5Exp)) * Pow(2, Max(pow2Exp, 0))
  }

  /** What the slow path needs of its arguments: the digits that parse_mantissa can produce, the exponents that can
      come with them, and an extended value that, cut off, is finite and not more than one float below the result. */
  ghost predicate SlowPathInput(f: Format, n: nat, exponent: int, x: u64, e: int) {
    && f.SmallestPowerOfTen() - f.MaxDigits() <= exponent < 0
    && n < Pow(10, f.MaxDigits() + 1)
    && var c := FloorCode(f, x, e);
       var num, den := WholeUnits(f, n), Pow(10, -exponent);
       && 0 <= c < f.Infinity()
       && Point(f, den, c) <= num
       && (c + 1 == f.Infinity() || 2 * num < Point(f, den, c + 1) + Point(f, den, c + 2))
  }

  lemma FloorIsFinite(f: Format, n: nat, exponent: int, x: u64, e: int)
    requires SlowPathInput(f, n, exponent, x, e)
    ensures exponent < 0 && 0 <= FloorCode(f, x, e) == RoundedCode(f, x, e, GoesUp(f, x, e, Down)) < f.Infinity()
  {
    hide FloorCode, Point, Pow;
  }

  /** The steps by which the method scales the two numbers. */
  lemma ScalingSteps(n: nat, t: nat, k: nat, p2: int)
    ensures RealDigits(n, p2) == if p2 < 0 then Scaled(n, 2, -p2) else n
    ensures HalfwayDigits(t, k, p2) == if p2 > 0 then Scaled(Scaled(t, 5, k), 2, p2) else Scaled(t, 5, k)
  {
  }

  // ----- the midpoint, and the comparison with it

  /** to_extended_halfway(c) is half the sum of c and its successor. */
  lemma HalfwayIsMidpoint(f: Format, c: nat)
    ensures
      var (t, te) := ToExtendedHalfway(f, c);
      && 0 < t <= 4 * f.Hidden() && 0 <= te + f.Bias() < Max(c / f.Hidden(), 1)
      && Units(f, c) + Units(f, c + 1) == t * Pow(2, te + f.Bias())
  {
    var h := f.Hidden();
    assert Pow(2, 0) == 1;
    hide Pow, Units, Format.Hidden, Format.Bias;
    if c < h {
      UnitsSubnormal(f, c);
      UnitsSubnormal(f, c + 1);
      DivModUnique(c, h, 0, c);
    } else {
      var e, m := CodeFields(f, c);
      MulDistributes(e, 1, h);
      DivModUnique(c, h, e, m - h);
      UnitsNormal(f, e, m);
      UnitsNormal(f, e, m + 1);
      MulDistributes(m, m + 1, Pow(2, e - 1));
    }
  }

  /** Both sides of the comparison, times one factor, are twice the value and the sum of the two floats around it. */
  lemma CommonScale(f: Format, c: nat, n: nat, k: nat) returns (scale: nat)
    ensures scale > 0
    ensures
      var (t, te) := ToExtendedHalfway(f, c);
      && RealDigits(n, te + k) * scale == 2 * WholeUnits(f, n)
      && HalfwayDigits(t, k, te + k) * scale == Point(f, Pow(10, k), c) + Point(f, Pow(10, k), c + 1)
  {
    hide Pow, Units, ToExtendedHalfway, Format.Bias;
    var (t, te) := ToExtendedHalfway(f, c);
    HalfwayIsMidpoint(f, c);
    var bias, p2 := f.Bias(), te + k;
    scale := Pow(2, bias - Max(-p2, 0));
    assert RealDigits(n, p2) * scale == 2 * WholeUnits(f, n) by {
      PowAdd(2, Max(-p2, 0), bias - Max(-p2, 0));
      PowStep(2, bias - 1);
      MulAssoc(n, Pow(2, Max(-p2, 0)), scale);
      MulAssoc(n, Pow(2, bias - 1), 2);
    }
    PowAdd(2, Max(p2, 0), bias - Max(-p2, 0));
    PowAdd(2, te + bias, k);
    PowProduct(5, 2, k);
    MulDistributes(Units(f, c), Units(f, c + 1), Pow(10, k));
    FiveTwo(t, Pow(5, k), Pow(2, Max(p2, 0)), scale, Pow(2, te + bias), Pow(2, k));
  }

  lemma FiveTwo(t: nat, five: nat, up: nat, scale: nat, unit: nat, two: nat)
    requires up * scale == unit * two
    ensures ((t * five) * up) * scale == (t * unit) * (five * two)
  {
    MulAssoc(t * five, up, scale);
    MulInterchange(t, five, unit, two);
  }

  /** A comparison of the scaled digits is a comparison of the value with the midpoint. */
  lemma ComparesWithMidpoint(f: Format, c: nat, n: nat, k: nat)
    ensures
      var (t, te) := ToExtendedHalfway(f, c);
      var digits, half := RealDigits(n, te + k), HalfwayDigits(t, k, te + k);
      var num, mid := WholeUnits(f, n), Point(f, Pow(10, k), c) + Point(f, Pow(10, k), c + 1);
      (digits > half <==> mid < 2 * num) && (digits < half <==> mid > 2 * num)
  {
    hide Pow, Point, ToExtendedHalfway, RealDigits, HalfwayDigits, WholeUnits;
    var (t, te) := ToExtendedHalfway(f, c);
    var scale := CommonScale(f, c, n, k);
    MulOrder(RealDigits(n, te + k), HalfwayDigits(t, k, te + k), scale);
    MulOrder(HalfwayDigits(t, k, te + k), RealDigits(n, te + k), scale);
  }

  /** Rounding as the comparison says gives the correctly rounded value. */
  lemma OrdDecides(f: Format, n: nat, exponent: int, x: u64, e: int, ord: int)
    requires x >= TOP_BIT && SlowPathInput(f, n, exponent, x, e)
    requires
      var (t, te) := ToExtendedHalfway(f, FloorCode(f, x, e));
      var digits, half := RealDigits(n, te - exponent), HalfwayDigits(t, -exponent, te - exponent);
      (ord > 0 <==> digits > half) && (ord < 0 <==> digits < half)
    ensures Rounds(f, n, exponent, RoundedCode(f, x, e, GoesUp(f, x, e, TieEven(OrdTieEven(ord)))))
  {
    hide Pow, Point, FloorCode, ToExtendedHalfway, RealDigits, HalfwayDigits, NearestEven, RoundedCode, Shr;
    var c, k := FloorCode(f, x, e), -exponent;
    ComparesWithMidpoint(f, c, n, k);
    var m, t, step := FloorParts(f, x, e);
    RoundedNearest(f, x, e, WholeUnits(f, n), Pow(10, k), GoesUp(f, x, e, TieEven(OrdTieEven(ord))));
  }

  // ----- nothing overflows the 62 limbs

  lemma DoubledAtMost(f: Format, c: nat)
    requires c >= 1
    ensures Units(f, c + 1) <= 2 * Units(f, c)
  {
    hide Pow, Units, Format.Hidden;
    if c < f.Hidden() {
      UnitsSubnormal(f, c);
      UnitsSubnormal(f, c + 1);
    } else {
      var e, m := CodeFields(f, c);
      UnitsNormal(f, e, m);
      UnitsNormal(f, e, m + 1);
      MulOrder(m + 1, 2 * m, Pow(2, e - 1));
      MulAssoc(2, m, Pow(2, e - 1));
    }
  }

  /** The midpoint above is at most three times the midpoint below. */
  lemma NextMidpoint(f: Format, den: nat, c: nat)
    ensures Point(f, den, c + 1) + Point(f, den, c + 2) <= 3 * (Point(f, den, c) + Point(f, den, c + 1))
  {
    hide Pow, Units;
    DoubledAtMost(f, c + 1);
    if c == 0 {
      UnitsSubnormal(f, 0);
      MulOrder(0, 1, f.Hidden());
    }
    var u0, u1, u2 := Units(f, c), Units(f, c + 1), Units(f, c + 2);
    UnitsOrder(f, c, c + 1);
    if c == 0 { UnitsSubnormal(f, 0); } else { UnitsOrder(f, 0, c); UnitsSubnormal(f, 0); }
    assert u1 + u2 <= 3 * (u0 + u1);
    MulOrder(u1 + u2, 3 * (u0 + u1), den);
    MulDistributes(u1, u2, den);
    MulDistributes(u0, u1, den);
    MulAssoc(3, u0 + u1, den);
  }

  /** Except next to zero, the midpoint above a float is at most one and a half times the float. */
  lemma MidpointAtMost(f: Format, den: nat, c: nat)
    requires c >= 1
    ensures Point(f, den, c) + Point(f, den, c + 1) <= 3 * Point(f, den, c)
  {
    hide Pow, Units;
    DoubledAtMost(f, c);
    MulOrder(Units(f, c + 1), 2 * Units(f, c), den);
    MulAssoc(2, Units(f, c), den);
  }

  /** Every big integer of the comparison stays below 2^2700. */
  lemma HalfwayFits(f: Format, n: nat, exponent: int, x: u64, e: int)
    requires SlowPathInput(f, n, exponent, x, e)
    ensures
      var (t, te) := ToExtendedHalfway(f, FloorCode(f, x, e));
      && t < WORD && Scaled(t, 5, -exponent) < Limit()
      && HalfwayDigits(t, -exponent, te - exponent) < Limit()
      && RealDigits(n, te - exponent) < Limit()
  {
    hide Pow, Point, FloorCode, ToExtendedHalfway, HalfwayDigits, RealDigits, Scaled, Limit;
    var c, k := FloorCode(f, x, e), -exponent;
    var (t, te) := ToExtendedHalfway(f, c);
    var p2 := te + k;
    HalfwayMantissaFits(f, c, k);
    PowMonotone(10, f.MaxDigits() + 1, 770);
    TenTo770();
    assert HalfwayDigits(t, k, p2) <= Pow(2, 2690) by {
      if c == 0 || p2 <= 0 {
        SmallHalfway(f, c, k);
      } else {
        HalfwayAtMostDigits(f, c, n, k);
      }
    }
    assert RealDigits(n, p2) <= Pow(2, 2700) by {
      if p2 >= 0 {
        RealUnshifted(n, p2);
        PowMonotone(2, 2569, 2700);
      } else {
        if c + 1 == f.Infinity() { LargestHalfway(f); }
        DigitsAtMostHalfway(f, c, n, k);
        Doubled(2690);
      }
    }
    LimitIsPow2();
    PowMonotone(2, 2690, 2700);
    PowStrict(2, 2700, 3968);
  }

  lemma Doubled(j: nat)
    requires j <= 2698
    ensures 3 * Pow(2, j) <= Pow(2, 2700)
  {
    hide Pow;
    PowStep(2, j);
    PowStep(2, j + 1);
    PowMonotone(2, j + 2, 2700);
  }

  lemma RealUnshifted(n: nat, p2: int)
    requires p2 >= 0
    ensures RealDigits(n, p2) == n
  {
  }

  lemma HalfwayMantissaFits(f: Format, c: nat, k: nat)
    requires k <= 1113
    ensures var t := ToExtendedHalfway(f, c).0;
      t < WORD && Scaled(t, 5, k) <= Pow(2, 2651) < Limit()
  {
    hide Pow, ToExtendedHalfway, Limit;
    var t := ToExtendedHalfway(f, c).0;
    HalfwayIsMidpoint(f, c);
    var b := f.MantissaBits();
    PowStep(2, b);
    PowStep(2, b + 1);
    PowMonotone(2, b + 2, 54);
    WordIsPow2();
    PowStrict(2, 54, 64);
    ScaledFiveBound(t, 54, k, 371);
    LimitIsPow2();
    PowStrict(2, 2651, 3968);
  }

  lemma SmallHalfway(f: Format, c: nat, k: nat)
    requires k <= f.MaxDigits() - f.SmallestPowerOfTen()
    requires c == 0 || ToExtendedHalfway(f, c).1 + k <= 0
    ensures
      var (t, te) := ToExtendedHalfway(f, c);
      HalfwayDigits(t, k, te + k) <= Pow(2, 2690)
  {
    hide Pow, ToExtendedHalfway;
    var (t, te) := ToExtendedHalfway(f, c);
    HalfwayOfZero(f);
    HalfwayMantissaFits(f, c, k);
    var up := Pow(2, Max(te + k, 0));
    PowMonotone(2, Max(te + k, 0), 39);
    MulOrder(Scaled(t, 5, k), Pow(2, 2651), up);
    MulOrder(up, Pow(2, 39), Pow(2, 2651));
    PowAdd(2, 2651, 39);
  }

  lemma HalfwayOfZero(f: Format)
    ensures ToExtendedHalfway(f, 0).1 == 0 - f.Bias()
  {
    hide Pow;
  }

  lemma HalfwayAtMostDigits(f: Format, c: nat, n: nat, k: nat)
    requires c >= 1 && ToExtendedHalfway(f, c).1 + k >= 0 && n < Pow(2, 2569)
    requires Point(f, Pow(10, k), c) <= WholeUnits(f, n)
    ensures
      var (t, te) := ToExtendedHalfway(f, c);
      HalfwayDigits(t, k, te + k) <= Pow(2, 2690)
  {
    hide Pow, Point, ToExtendedHalfway, HalfwayDigits, RealDigits, WholeUnits;
    var (t, te) := ToExtendedHalfway(f, c);
    var half := HalfwayDigits(t, k, te + k);
    var scale := CommonScale(f, c, n, k);
    RealUnshifted(n, te + k);
    MidpointAtMost(f, Pow(10, k), c);
    MulAssoc(2, n, scale);
    MulOrder(half, 2 * n, scale);
    PowStep(2, 2569);
    PowMonotone(2, 2570, 2690);
  }

  lemma DigitsAtMostHalfway(f: Format, c: nat, n: nat, k: nat)
    requires 2 * WholeUnits(f, n) < Point(f, Pow(10, k), c + 1) + Point(f, Pow(10, k), c + 2)
    ensures
      var (t, te) := ToExtendedHalfway(f, c);
      RealDigits(n, te + k) <= 3 * HalfwayDigits(t, k, te + k)
  {
    hide Pow, Point, ToExtendedHalfway, HalfwayDigits, RealDigits, WholeUnits;
    var (t, te) := ToExtendedHalfway(f, c);
    var half := HalfwayDigits(t, k, te + k);
    var scale := CommonScale(f, c, n, k);
    NextMidpoint(f, Pow(10, k), c);
    MulAssoc(3, half, scale);
    MulOrder(RealDigits(n, te + k), 3 * half, scale);
    MulOrder(3 * half, RealDigits(n, te + k), scale);
  }

  /** The midpoint above the largest finite float is a whole number. */
  lemma LargestHalfway(f: Format)
    ensures f.Infinity() >= 1 && ToExtendedHalfway(f, f.Infinity() - 1).1 > 0
  {
    var h := f.Hidden();
    MulOrder(2, f.InfinitePower(), h);
    hide Pow, Format.Hidden;
    var c := f.Infinity() - 1;
    MulDistributes(f.InfinitePower(), 1, h);
    DivModUnique(c, h, f.InfinitePower() - 1, h - 1);
  }
}
