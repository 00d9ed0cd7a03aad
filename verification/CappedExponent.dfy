/** The exponent that the parser accumulates stops at 2^28: when the float found for it is still the literal's. */
module CappedExponent {
  import opened Wrappers
  import opened Arith
  import opened Digits
  import opened Swar
  import opened FloatFormat
  import opened RoundingCorrect
  import opened Halfway
  import opened ComputeFloat
  import opened Literals
  import opened NumberString
  import opened SlowPath

  // ----- both ends of the range

  /** m * 10^e is at most half the smallest subnormal number. */
  ghost predicate Underflows(f: Format, m: nat, e: int) {
    2 * ValueNum(f, m, e) <= ValueDen(e)
  }

  /** m * 10^e is at least halfway from the largest finite number to the next power of two. */
  ghost predicate Overflows(f: Format, m: nat, e: int) {
    Point(f, ValueDen(e), f.Infinity() - 1) + Point(f, ValueDen(e), f.Infinity()) <= 2 * ValueNum(f, m, e)
  }

  lemma InfinityIsEven(f: Format)
    ensures f.Infinity() > 1 && f.Infinity() % 2 == 0
  {
    hide Pow, Format.Hidden;
    HiddenEven(f);
    EvenProduct(f.InfinitePower(), f.Hidden());
    MulOrder(2, f.InfinitePower(), f.Hidden());
  }

  lemma RoundsToZero(f: Format, m: nat, e: int)
    ensures Rounds(f, m, e, 0) <==> Underflows(f, m, e)
  {
    hide Pow, NearestEven, Units;
    InfinityIsEven(f);
    UnitsSubnormal(f, 0);
    UnitsSubnormal(f, 1);
    ValueRounds(f, m, e, 0);
    NearestByMidpoints(f, ValueNum(f, m, e), ValueDen(e), 0);
  }

  lemma RoundsToInfinity(f: Format, m: nat, e: int)
    ensures Rounds(f, m, e, f.Infinity()) <==> Overflows(f, m, e)
  {
    hide Pow, NearestEven, Units, Format.Infinity;
    InfinityIsEven(f);
    ValueRounds(f, m, e, f.Infinity());
    NearestByMidpoints(f, ValueNum(f, m, e), ValueDen(e), f.Infinity());
  }

  /** Numbers that differ by a power of ten round alike only at the ends of the range. */
  lemma FarApart(f: Format, m: nat, e: int, e': int, c: int)
    requires m > 0 && e' < e && Rounds(f, m, e, c) && Rounds(f, m, e', c)
    ensures c == 0 || c == f.Infinity()
  {
    hide Pow, NearestEven, Rounds, Format.Infinity;
    RoundsBits(f, m, e, c);
    var d, b := Max(0, -e'), Pow(2, f.Bias() - 1);
    RoundsAs(f, m, e, c, d);
    RoundsAs(f, m, e', c, d);
    var n, n' := (m * Pow(10, e + d)) * b, (m * Pow(10, e' + d)) * b;
    var r := Pow(10, e - e');
    PowAdd(10, e' + d, e - e');
    PowMonotone(10, 1, e - e');
    TimesRatio(m, Pow(10, e' + d), r, b);
    TenIsPow();
    NotBetween(f, n', n, r, Pow(10, d), c);
  }

  lemma TenIsPow()
    ensures Pow(10, 1) == 10
  {
  }

  lemma TimesRatio(m: nat, p: nat, r: nat, b: nat)
    ensures (m * (p * r)) * b == ((m * p) * b) * r
  {
    MulAssoc(m, p, r);
    MulAssoc(m * p, r, b);
    MulAssoc(m * p, b, r);
  }

  lemma NotBetween(f: Format, n': nat, n: nat, r: nat, den: nat, c: nat)
    requires den > 0 && r >= 10 && n == n' * r && NearestEven(f, n', den, c) && NearestEven(f, n, den, c)
    ensures c == 0 || c == f.Infinity()
  {
    hide NearestEven, Point, Format.Infinity;
    NearestByMidpoints(f, n', den, c);
    NearestByMidpoints(f, n, den, c);
    if 0 < c < f.Infinity() {
      var p, q := Point(f, den, c - 1) + Point(f, den, c), Point(f, den, c) + Point(f, den, c + 1);
      NextMidpoint(f, den, c - 1);
      PointPositive(f, den, c);
      PointOrder(f, den, 0, c - 1);
      PointZero(f, den);
      MulOrder(p, 2 * n', r);
      MulAssoc(2, n', r);
      MulOrder(10, r, p);
    }
  }

  lemma PointZero(f: Format, den: nat)
    ensures Point(f, den, 0) == 0
  {
    hide Pow;
    UnitsSubnormal(f, 0);
  }

  lemma PointPositive(f: Format, den: nat, c: nat)
    requires den > 0 && c > 0
    ensures Point(f, den, c) > 0
  {
    hide Point;
    PointZero(f, den);
    PointOrder(f, den, 0, c);
  }

  // ----- when the capped exponent gives the literal's float

  /** The literal is zero, or the number with the capped exponent and the literal's own number are both too small, or
      both too large, for the format. */
  ghost predicate SameEnd(f: Format, l: Literal)
    requires Digital(l)
  {
    var v := DigitsValue(LiteralDigits(l));
    || v == 0
    || (Underflows(f, v, CappedPlace(l)) && Underflows(f, v, LastPlace(l)))
    || (Overflows(f, v, CappedPlace(l)) && Overflows(f, v, LastPlace(l)))
  }

  /** The float found for the capped exponent is the literal's nearest if and only if the exponent is below the cap, or
      the difference does not matter because both numbers leave the range at the same end. */
  lemma CappedIsRight(f: Format, l: Literal, c: int)
    requires Digital(l) && RoundsCapped(f, l, c)
    ensures RoundsLiteral(f, l, c) <==> ExponentIsExact(l) || SameEnd(f, l)
  {
    hide DigitsValue, Rounds, CappedPlace, LastPlace, ExponentIsExact, Underflows, Overflows, Format.Infinity;
    var v, e, e' := DigitsValue(LiteralDigits(l)), CappedPlace(l), LastPlace(l);
    PlaceIsExact(l);
    if e != e' {
      RoundAlike(f, v, e, e', c);
    }
  }

  lemma RoundAlike(f: Format, v: nat, e: int, e': int, c: int)
    requires e != e' && Rounds(f, v, e, c)
    ensures Rounds(f, v, e', c) <==>
      v == 0 || (Underflows(f, v, e) && Underflows(f, v, e')) || (Overflows(f, v, e) && Overflows(f, v, e'))
  {
    hide Rounds, Underflows, Overflows, Format.Infinity;
    RoundsBits(f, v, e, c);
    InfinityIsEven(f);
    RoundsToZero(f, v, e);
    RoundsToZero(f, v, e');
    RoundsToInfinity(f, v, e);
    RoundsToInfinity(f, v, e');
    ZeroUnderflows(f, e);
    ZeroUnderflows(f, e');
    if Underflows(f, v, e) { RoundsUnique(f, v, e, c, 0); }
    if Overflows(f, v, e) { RoundsUnique(f, v, e, c, f.Infinity()); }
    if v > 0 && Rounds(f, v, e', c) {
      if e' < e { FarApart(f, v, e, e', c); } else { FarApart(f, v, e', e, c); }
    }
  }

  lemma ZeroUnderflows(f: Format, e: int)
    ensures Underflows(f, 0, e)
  {
  }

  // ----- literals of reasonable length

  const LITERAL_BOUND: nat := 0x800_0000

  lemma SmallUnderflows(f: Format, m: nat, n: nat, e: int)
    requires m < Pow(10, n) && e + n + f.Bias() <= 0
    ensures Underflows(f, m, e)
  {
    hide Pow;
    var b := f.Bias();
    assert ValueNum(f, m, e) == m * Pow(2, b - 1) && ValueDen(e) == Pow(10, -e) by { TenToZero(); }
    hide ValueNum, ValueDen;
    PowStep(2, b - 1);
    PowBaseMonotone(2, 10, b);
    PowAdd(10, n, b);
    PowMonotone(10, n + b, -e);
    BelowPowers(m, Pow(10, n), Pow(2, b - 1), Pow(10, b));
  }

  lemma TenToZero()
    ensures Pow(10, 0) == 1
  {
  }

  lemma BelowPowers(m: nat, p: nat, two: nat, ten: nat)
    requires m <= p && 2 * two <= ten
    ensures 2 * (m * two) <= p * ten
  {
    MulAssoc(2, m, two);
    MulAssoc(m, 2, two);
    MulOrder(m, p, 2 * two);
    MulOrder(2 * two, ten, p);
  }

  lemma LargeOverflows(f: Format, m: nat, e: int)
    requires m > 0 && e > f.LargestPowerOfTen()
    ensures Overflows(f, m, e)
  {
    hide Rounds, Overflows;
    TooLargeRounds(f, e, m);
    RoundsToInfinity(f, m, e);
  }

  /** Up to 2^27 digits, a capped exponent makes the literal too small or too large whatever the digits are. */
  lemma ShortLiteralIsRight(f: Format, l: Literal)
    requires Digital(l) && |LiteralDigits(l)| <= LITERAL_BOUND
    ensures ExponentIsExact(l) || SameEnd(f, l)
  {
    hide DigitsValue, Pow, CappedPlace, LastPlace, ExponentIsExact, Underflows, Overflows;
    var v, n := DigitsValue(LiteralDigits(l)), |LiteralDigits(l)|;
    PlaceIsExact(l);
    DigitsValueBound(LiteralDigits(l));
    if !ExponentIsExact(l) && v > 0 {
      if l.exponent.sign == [MINUS] {
        SmallUnderflows(f, v, n, CappedPlace(l));
        SmallUnderflows(f, v, n, LastPlace(l));
      } else {
        LargeOverflows(f, v, CappedPlace(l));
        LargeOverflows(f, v, LastPlace(l));
      }
    }
  }

  // ----- a literal that goes wrong

  const LOST_EXPONENT: seq<byte> := [0x32, 0x36, 0x38, 0x34, 0x33, 0x35, 0x34, 0x35] + [0x36] + [0x30]
  const LOST_ZEROS: nat := 2684354559

  /** 0.000...0001e+2684354560, with as many zeros as it takes to make it 1. */
  function LostOne(): Literal {
    Literal(false, [ZERO], true, seq(LOST_ZEROS, _ => ZERO) + [0x31], Exponent([0x65], [PLUS], LOST_EXPONENT))
  }

  lemma LostExponent()
    ensures AllDigits(LOST_EXPONENT) && DigitsValue(LOST_EXPONENT) == 2684354560
    ensures CappedValue(LOST_EXPONENT) == 268435456
  {
    var eight: seq<byte> := [0x32, 0x36, 0x38, 0x34, 0x33, 0x35, 0x34, 0x35];
    DigitsValueOf8(eight);
    hide DigitsValue, CappedValue;
    DigitsValueSnoc(eight, 0x36);
    DigitsValueSnoc(eight + [0x36], 0x30);
    CappedValueExact(eight + [0x36]);
    CappedValueSnoc(eight + [0x36], 0x30);
  }

  lemma LostDigits()
    ensures Digital(LostOne()) && DigitsValue(LiteralDigits(LostOne())) == 1
    ensures LastPlace(LostOne()) == 0 && CappedPlace(LostOne()) == -2415919104
  {
    LostExponent();
    hide LOST_EXPONENT;
    var zeros: seq<byte> := seq(LOST_ZEROS, _ => ZERO);
    assert AllZeros([ZERO] + zeros);
    assert DigitsValue([0x31]) == 1 by { DigitsValueSnoc([], 0x31); assert [] + [0x31] == [0x31]; }
    LeadingZerosValue([ZERO] + zeros, [0x31]);
    assert LiteralDigits(LostOne()) == [ZERO] + zeros + [0x31];
  }

  /** In every format with exponents this text denotes 1, and its capped exponent gives 0. */
  lemma OneIsLost(f: Format, o: Options)
    requires o.scientific && UsualPoint(o)
    ensures Text(LostOne(), o) != [] && ScanLiteral(Text(LostOne(), o), o) == Some(LostOne())
    ensures Digital(LostOne()) && RoundsCapped(f, LostOne(), 0) && !RoundsLiteral(f, LostOne(), 0)
    ensures !ExponentIsExact(LostOne()) && !SameEnd(f, LostOne())
  {
    hide LOST_EXPONENT, Rounds, DigitsValue, CappedValue, Underflows, SameEnd;
    var l := LostOne();
    LostExponent();
    LostDigits();
    OneIsWritten(o);
    TooSmallRounds(f, CappedPlace(l), 1);
    CappedIsRight(f, l, 0);
    RoundsToZero(f, 1, 0);
    OneDoesNotUnderflow(f);
  }

  lemma OneDoesNotUnderflow(f: Format)
    ensures !Underflows(f, 1, 0)
  {
    assert Pow(10, 0) == 1;
  }

  lemma OneIsWritten(o: Options)
    requires o.scientific && UsualPoint(o)
    ensures Text(LostOne(), o) != [] && ScanLiteral(Text(LostOne(), o), o) == Some(LostOne())
  {
    LostExponent();
    LostDigits();
    assert LOST_EXPONENT != [];
    hide LOST_EXPONENT, DigitsValue, CappedValue, Text, ScanLiteral;
    TextIsScanned(LostOne(), o);
  }
}
