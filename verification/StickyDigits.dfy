/** Why the sticky digit is enough: a value cut after maxDigits digits, with a 1 appended if anything was lost, rounds
    like the value itself, because every midpoint near it is a whole number at the position of its last kept digit. */
module StickyDigits {
  import opened Arith
  import opened LimbOps
  import opened FloatFormat
  import opened Halfway
  import opened Digits
  import opened ParseMantissa

  /** Compared with a whole number k at the last kept position, the cut digits stand as all the digits do. */
  lemma StickyKeepsOrder(s: seq<byte>, maxDigits: nat, k: nat)
    requires AllDigits(s) && |s| > maxDigits
    ensures
      var all, kept := DigitsValue(s), KeptValue(s, maxDigits);
      var p, q := k * Pow(10, |s| - maxDigits), k * Pow(10, KeptDigits(s, maxDigits) - maxDigits);
      (all < p <==> kept < q) && (all == p <==> kept == q)
  {
    var head, rest := s[..maxDigits], s[maxDigits..];
    assert s == head + rest;
    assert Pow(10, 0) == 1 && Pow(10, 1) == 10;
    hide Pow, DigitsValue;
    DigitsValueAppend(head, rest);
    DigitsValueBound(rest);
    ZeroValueIsZeros(rest);
    CutOrder(DigitsValue(head), k, Pow(10, |rest|), DigitsValue(rest));
  }

  lemma CutOrder(h: nat, k: nat, p: nat, r: nat)
    requires r < p
    ensures h * p + r < k * p <==> h < k
    ensures h * p + r == k * p <==> h == k && r == 0
  {
    if h < k {
      MulOrder(h + 1, k, p);
      MulDistributes(h, 1, p);
    } else {
      MulOrder(k, h, p);
      if h > k { MulOrder(k + 1, h, p); MulDistributes(k, 1, p); }
    }
  }

  // ----- midpoints are whole numbers at the last kept position

  /** Twice the midpoint above c, in units. */
  function Middle(f: Format, c: nat): int {
    Units(f, c) + Units(f, c + 1)
  }

  /** m half-units are a whole number k of 10^-places. */
  ghost predicate Aligned(f: Format, m: int, places: nat, k: nat) {
    m * Pow(10, places) == k * Pow(2, f.Bias())
  }

  /** A midpoint t * 2^te is a whole number of 10^-places if 2^te is, or if 2^-Bias, below every float, is. */
  lemma MiddleAligned(f: Format, c: nat, places: nat) returns (k: nat)
    requires places >= f.Bias() || ToExtendedHalfway(f, c).1 + places >= 0
    ensures Aligned(f, Middle(f, c), places, k)
  {
    hide Pow, Units, ToExtendedHalfway, Format.Bias;
    var (t, te) := ToExtendedHalfway(f, c);
    HalfwayIsMidpoint(f, c);
    var n := te + f.Bias();
    PowProduct(5, 2, places);
    PowAdd(2, n, places);
    var rest: nat := n + places - f.Bias();
    PowAdd(2, rest, f.Bias());
    k := (t * Pow(5, places)) * Pow(2, rest);
    AlignArithmetic(t, Pow(2, n), Pow(5, places), Pow(2, places), Pow(2, rest), Pow(2, f.Bias()));
  }

  lemma AlignArithmetic(t: nat, n: nat, five: nat, two: nat, rest: nat, b: nat)
    requires n * two == rest * b
    ensures (t * n) * (five * two) == ((t * five) * rest) * b
  {
    MulInterchange(t, n, five, two);
    MulAssoc(t * five, rest, b);
  }

  /** A midpoint at least a quarter of 10^sci is coarse enough for maxDigits digits counted from that position. */
  lemma MiddleIsCoarse(f: Format, c: nat, sci: int)
    requires sci + 1 - f.MaxDigits() + f.Bias() > 0
    requires sci < f.MaxDigits() && 4 * Middle(f, c) * Pow(10, Max(-sci, 0)) >= Pow(10, Max(sci, 0)) * Pow(2, f.Bias())
    ensures ToExtendedHalfway(f, c).1 >= sci + 1 - f.MaxDigits()
  {
    hide Pow, Units, ToExtendedHalfway;
    var (t, te) := ToExtendedHalfway(f, c);
    HalfwayIsMidpoint(f, c);
    var n, p := te + f.Bias(), f.MantissaBits();
    if te < sci + 1 - f.MaxDigits() {
      assert 4 * Middle(f, c) <= Pow(2, p + 4 + n) by {
        PowStep(2, p);
        PowStep(2, p + 1);
        PowStep(2, p + 2);
        PowStep(2, p + 3);
        PowAdd(2, p + 4, n);
        MulOrder(4 * t, Pow(2, p + 4), Pow(2, n));
        MulAssoc(4, t, Pow(2, n));
      }
      var up, down := Max(sci, 0), Max(-sci, 0);
      FivesBelow(f, down);
      PowProduct(5, 2, up);
      PowProduct(5, 2, down);
      assert Pow(2, p + 4 + n) * Pow(10, down) < Pow(10, up) * Pow(2, f.Bias()) by {
        CoarseArithmetic(f, n, up, down);
      }
      MulOrder(4 * Middle(f, c), Pow(2, p + 4 + n), Pow(10, down));
    }
  }

  lemma CoarseArithmetic(f: Format, n: nat, up: nat, down: nat)
    requires up == 0 || down == 0
    requires n - f.Bias() <= up - down - f.MaxDigits()
    requires Pow(5, down) < Pow(2, f.MaxDigits() - f.MantissaBits() - 4)
    ensures Pow(2, f.MantissaBits() + 4 + n) * Pow(10, down) < Pow(10, up) * Pow(2, f.Bias())
  {
    hide Pow;
    var p, d, b := f.MantissaBits() + 4, f.MaxDigits(), f.Bias();
    PowProduct(5, 2, up);
    PowProduct(5, 2, down);
    PowAdd(2, p + n, down);
    PowAdd(2, d - p, p + n + down);
    PowAdd(2, up, b);
    PowMonotone(2, d + n + down, up + b);
    CoarseProducts(Pow(5, down), Pow(2, down), Pow(2, p + n), Pow(2, d - p), Pow(5, up), Pow(2, up), Pow(2, b));
  }

  lemma CoarseProducts(five: nat, two: nat, a: nat, bound: nat, fiveUp: nat, twoUp: nat, b: nat)
    requires five < bound && a > 0 && two > 0 && fiveUp > 0 && bound * (a * two) <= twoUp * b
    ensures a * (five * two) < (fiveUp * twoUp) * b
  {
    MulPositive(a, two);
    MulOrder(five, bound, a * two);
    MulOrder(1, fiveUp, twoUp * b);
    MulAssoc(fiveUp, twoUp, b);
    MulAssoc(a, five, two);
    MulAssoc(five, a, two);
  }

  /** 5^31 < 2^72. */
  lemma FivesBelow(f: Format, n: nat)
    requires n < f.Bias() + 1 - f.MaxDigits()
    ensures Pow(5, n) < Pow(2, f.MaxDigits() - f.MantissaBits() - 4)
  {
    hide Pow;
    if f.Double? {
      FiveTo306();
      PowMonotone(5, n, 306);
    } else {
      PowMonotone(5, n, 36);
      PowersOfFiveBound(12);
      PowStrict(2, 84, 87);
    }
  }

  lemma FiveTo31()
    ensures Pow(5, 31) < Pow(2, 72)
  {
    hide Pow;
    SmallPowers(27);
    SmallPowers(4);
    PowAdd(5, 27, 4);
    WordIsPow2();
    TwoToTheEighth();
    PowAdd(2, 64, 8);
  }

  lemma TwoToTheEighth()
    ensures Pow(2, 8) == 0x100
  {
    assert Pow(2, 4) == 16;
    PowDoubles(2, 4, 16);
  }

  lemma FiveTo279()
    ensures Pow(5, 279) <= Pow(2, 648)
  {
    hide Pow;
    FiveTo31();
    PowOfPow(5, 31, 9);
    PowOfPow(2, 72, 9);
    PowBaseMonotone(Pow(5, 31), Pow(2, 72), 9);
  }

  lemma FiveTo306()
    ensures Pow(5, 306) < Pow(2, 713)
  {
    hide Pow;
    FiveTo279();
    ScaledFiveBound(Pow(5, 279), 648, 27, 9);
    PowAdd(5, 279, 27);
    PowStrict(2, 711, 713);
  }

  // ----- the cut digits round like all the digits

  /** A significand cut in the fraction: more digits than kept, and the last kept place right of the point. */
  ghost predicate CutInFraction(f: Format, s: seq<byte>, sci: int) {
    AllDigits(s) && |s| > f.MaxDigits() && s[0] != ZERO && sci + 1 < f.MaxDigits()
  }

  /** The number kept, and the places after the point of its last digit; then the same for all the digits. */
  ghost function Kept(f: Format, s: seq<byte>): nat
    requires AllDigits(s)
  {
    KeptValue(s, f.MaxDigits())
  }

  ghost function KeptPlaces(f: Format, s: seq<byte>, sci: int): int {
    KeptDigits(s, f.MaxDigits()) - 1 - sci
  }

  ghost function AllPlaces(s: seq<byte>, sci: int): int {
    |s| - 1 - sci
  }

  /** Against an aligned number of half-units, both compare alike. */
  lemma AlignedOrder(f: Format, s: seq<byte>, sci: int, m: nat, k: nat)
    requires CutInFraction(f, s, sci)
    requires Aligned(f, m, f.MaxDigits() - 1 - sci, k)
    ensures KeptPlaces(f, s, sci) > 0 && AllPlaces(s, sci) > 0
    ensures
      var all, kept := 2 * WholeUnits(f, DigitsValue(s)), 2 * WholeUnits(f, Kept(f, s));
      var p, q := m * Pow(10, AllPlaces(s, sci)), m * Pow(10, KeptPlaces(f, s, sci));
      (all < p <==> kept < q) && (all == p <==> kept == q)
  {
    hide Pow, DigitsValue, KeptValue;
    var places, r, d := f.MaxDigits() - 1 - sci, |s| - f.MaxDigits(), KeptDigits(s, f.MaxDigits()) - f.MaxDigits();
    StickyKeepsOrder(s, f.MaxDigits(), k);
    PowStep(2, f.Bias() - 1);
    PowAdd(10, places, r);
    PowAdd(10, places, d);
    AlignedArithmetic(DigitsValue(s), m, Pow(10, places), Pow(10, r), k, Pow(2, f.Bias() - 1));
    AlignedArithmetic(Kept(f, s), m, Pow(10, places), Pow(10, d), k, Pow(2, f.Bias() - 1));
  }

  lemma AlignedArithmetic(v: nat, m: nat, a: nat, r: nat, k: nat, b: nat)
    requires m * a == k * (2 * b) && b > 0
    ensures 2 * (v * b) < m * (a * r) <==> v < k * r
    ensures 2 * (v * b) == m * (a * r) <==> v == k * r
  {
    MulAssoc(m, a, r);
    MulAssoc(k, r, 2 * b);
    MulAssoc(k, 2 * b, r);
    MulAssoc(2, v, b);
    MulAssoc(v, 2, b);
    MulOrder(v, k * r, 2 * b);
    MulOrder(k * r, v, 2 * b);
  }

  lemma KeptAtLeast(f: Format, s: seq<byte>, sci: int)
    requires CutInFraction(f, s, sci)
    ensures KeptDigits(s, f.MaxDigits()) >= 1
    ensures Kept(f, s) >= Pow(10, KeptDigits(s, f.MaxDigits()) - 1)
  {
    hide Pow, DigitsValue;
    var head := s[..f.MaxDigits()];
    LeadingDigit(head);
    PowStep(10, f.MaxDigits() - 1);
  }

  /** If the cut value is at most twice the midpoint m, then m is at least a quarter of 10^sci. */
  lemma MiddleIsLarge(f: Format, s: seq<byte>, sci: int, m: nat)
    requires CutInFraction(f, s, sci) && KeptPlaces(f, s, sci) > 0
    requires 2 * WholeUnits(f, Kept(f, s)) <= (3 * m) * Pow(10, KeptPlaces(f, s, sci))
    ensures 4 * m * Pow(10, Max(-sci, 0)) >= Pow(10, Max(sci, 0)) * Pow(2, f.Bias())
  {
    hide Pow, KeptValue, KeptDigits, DigitsValue;
    KeptAtLeast(f, s, sci);
    var d, places := KeptDigits(s, f.MaxDigits()) - 1, KeptPlaces(f, s, sci);
    var up, down := Max(sci, 0), Max(-sci, 0);
    assert d + down == places + up;
    PowAdd(10, d, down);
    PowAdd(10, places, up);
    PowStep(2, f.Bias() - 1);
    LargeArithmetic(Kept(f, s), m, Pow(10, d), Pow(10, places), Pow(10, up), Pow(10, down), Pow(2, f.Bias() - 1));
  }

  lemma LargeArithmetic(v: nat, m: nat, d: nat, places: nat, up: nat, down: nat, b: nat)
    requires v >= d && d * down == places * up && places > 0 && down > 0
    requires 2 * (v * b) <= (3 * m) * places
    ensures 4 * m * down >= up * (2 * b)
  {
    MulOrder(d, v, b);
    MulAssoc(2, d, b);
    MulOrder(2 * (d * b), (3 * m) * places, down);
    assert (2 * (d * b)) * down == (up * (2 * b)) * places by { Shuffle(d, b, down, places, up); }
    assert ((3 * m) * places) * down == ((3 * m) * down) * places by {
      MulAssoc(3 * m, places, down);
      MulAssoc(3 * m, down, places);
    }
    MulOrder(up * (2 * b), (3 * m) * down, places);
    MulOrder(3 * m, 4 * m, down);
  }

  lemma Shuffle(d: nat, b: nat, down: nat, places: nat, up: nat)
    requires d * down == places * up
    ensures (2 * (d * b)) * down == (up * (2 * b)) * places
  {
    MulAssoc(2, d, b);
    MulAssoc(d, 2 * b, down);
    MulAssoc(d, down, 2 * b);
    MulAssoc(up, 2 * b, places);
    MulAssoc(up, places, 2 * b);
  }

  /** The midpoint over c is aligned if the cut value is at most three times it, or if c is next to infinity. */
  lemma NearMiddleAligned(f: Format, s: seq<byte>, sci: int, c: nat) returns (k: nat)
    requires CutInFraction(f, s, sci) && KeptPlaces(f, s, sci) > 0
    requires c + 1 == f.Infinity() ||
      2 * WholeUnits(f, Kept(f, s)) <= (3 * Middle(f, c)) * Pow(10, KeptPlaces(f, s, sci))
    ensures Middle(f, c) >= 0 && Aligned(f, Middle(f, c), f.MaxDigits() - 1 - sci, k)
  {
    hide Pow, KeptValue, KeptDigits, DigitsValue, Units, ToExtendedHalfway;
    HalfwayIsMidpoint(f, c);
    var places := f.MaxDigits() - 1 - sci;
    if c + 1 == f.Infinity() {
      LargestHalfway(f);
    } else if places < f.Bias() {
      MiddleIsLarge(f, s, sci, Middle(f, c));
      MiddleIsCoarse(f, c, sci);
    }
    k := MiddleAligned(f, c, places);
  }

  lemma PointsAtMiddle(f: Format, den: nat, c: nat)
    ensures Point(f, den, c) + Point(f, den, c + 1) == Middle(f, c) * den
  {
    hide Units;
    MulDistributes(Units(f, c), Units(f, c + 1), den);
  }

  /** The float nearest to the cut digits is the float nearest to all of them. */
  lemma StickyRounds(f: Format, s: seq<byte>, sci: int, c: int)
    requires CutInFraction(f, s, sci)
    requires Rounds(f, Kept(f, s), sci + 1 - KeptDigits(s, f.MaxDigits()), c)
    ensures Rounds(f, DigitsValue(s), sci + 1 - |s|, c)
  {
    hide Pow, Point, DigitsValue, KeptValue, NearestEven, Middle, Aligned;
    var kept, all := Pow(10, KeptPlaces(f, s, sci)), Pow(10, AllPlaces(s, sci));
    var num, num' := WholeUnits(f, Kept(f, s)), WholeUnits(f, DigitsValue(s));
    assert NearestEven(f, num, kept, c) && 0 <= c by { NearestNonNegative(f, num, kept, c); }
    NearestByMidpoints(f, num, kept, c);
    NearestByMidpoints(f, num', all, c);
    if c < f.Infinity() {
      PointsAtMiddle(f, kept, c);
      PointsAtMiddle(f, all, c);
      MiddleGrows(f, kept, c);
      var k := NearMiddleAligned(f, s, sci, c);
      AlignedOrder(f, s, sci, Middle(f, c), k);
    }
    if c > 0 {
      PointsAtMiddle(f, kept, c - 1);
      PointsAtMiddle(f, all, c - 1);
      MiddleGrows(f, kept, c - 1);
      if c < f.Infinity() { PointsAtMiddle(f, kept, c); }
      var k := NearMiddleAligned(f, s, sci, c - 1);
      AlignedOrder(f, s, sci, Middle(f, c - 1), k);
    }
  }

  lemma NearestNonNegative(f: Format, num: nat, den: nat, c: int)
    requires NearestEven(f, num, den, c)
    ensures 0 <= c <= f.Infinity()
  {
  }

  lemma MiddleGrows(f: Format, den: nat, c: nat)
    ensures Middle(f, c + 1) * den <= (3 * Middle(f, c)) * den
    ensures Middle(f, c) * den <= (3 * Middle(f, c)) * den
  {
    hide Units;
    PointsAtMiddle(f, den, c);
    PointsAtMiddle(f, den, c + 1);
    NextMidpoint(f, den, c);
    HalfwayIsMidpoint(f, c);
    MulAssoc(3, Middle(f, c), den);
    MulOrder(0, Middle(f, c), den);
  }
}
