/** The binary formats, the numbers their bit patterns stand for, and the correctly rounded result of
    section 4.3.1 of IEEE 754-2019 (roundTiesToEven), stated without reference to any algorithm. */
module FloatFormat {
  import opened Arith

  datatype Format = Double | Single {
    function MantissaBits(): (r: nat)
      ensures 0 < r < 62
    {
      if Double? then 52 else 23
    }

    function MinimumExponent(): int { if Double? then -1023 else -127 }

    function InfinitePower(): (r: nat)
      ensures r > 1
    {
      if Double? then 0x7FF else 0xFF
    }

    function MaxExponentRoundToEven(): int { if Double? then 23 else 10 }

    function MinExponentRoundToEven(): int { if Double? then -4 else -17 }

    function MaxDigits(): nat { if Double? then 769 else 114 }

    function SmallestPowerOfTen(): int { if Double? then -342 else -65 }

    function LargestPowerOfTen(): int { if Double? then 308 else 38 }

    /** The exponent field e >= 1 with integer mantissa m means m * 2^(e - Bias). */
    function Bias(): (r: nat)
      ensures r > 1
    {
      MantissaBits() - MinimumExponent()
    }

    /** The hidden bit, which is also the number of codes in one binade. */
    function Hidden(): (r: nat)
      ensures r > 0
    {
      Pow(2, MantissaBits())
    }

    /** The bit pattern of +infinity. */
    function Infinity(): nat {
      InfinitePower() * Hidden()
    }
  }

  /** The number that the bit pattern c stands for, in units of the smallest subnormal, 2^(1 - Bias). Infinity
      counts as the power of two after the largest finite number, which is where overflow rounding places it. */
  function Units(f: Format, c: nat): int {
    var h := f.Hidden();
    if c < h then c else (h + c % h) * Pow(2, ExponentField(c, h) - 1)
  }

  /** The exponent field of a bit pattern: what is left above the mantissa field. */
  function ExponentField(c: nat, hidden: nat): (e: nat)
    requires hidden > 0
    ensures c >= hidden ==> e >= 1
  {
    DivModDefinition(c, hidden);
    MulOrder(c / hidden, 0, hidden);
    c / hidden
  }

  /** A unit is divided into den parts: the number of parts in the number with bit pattern c. */
  function Point(f: Format, den: nat, c: nat): int {
    Units(f, c) * den
  }

  function Distance(f: Format, num: nat, den: nat, c: nat): int {
    var p := Point(f, den, c);
    if p < num then num - p else p - num
  }

  /** c is the float nearest to num/den units, and of two equally near ones the one with an even last digit. */
  ghost predicate NearestEven(f: Format, num: nat, den: nat, c: int) {
    && 0 <= c <= f.Infinity()
    && forall d: nat | d <= f.Infinity() ::
      && Distance(f, num, den, c) <= Distance(f, num, den, d)
      && (d != c && Distance(f, num, den, c) == Distance(f, num, den, d) ==> c % 2 == 0)
  }

  /** c is the correctly rounded value of m * 10^e. */
  ghost predicate Rounds(f: Format, m: nat, e: int, c: int) {
    if e >= 0 then NearestEven(f, m * Pow(10, e) * Pow(2, f.Bias() - 1), 1, c)
    else NearestEven(f, m * Pow(2, f.Bias() - 1), Pow(10, -e), c)
  }

  /** m * 10^e in units, as a fraction. */
  ghost function ValueNum(f: Format, m: nat, e: int): nat {
    (m * Pow(10, Max(e, 0))) * Pow(2, f.Bias() - 1)
  }

  ghost function ValueDen(e: int): (r: nat)
    ensures r > 0
  {
    Pow(10, Max(-e, 0))
  }

  lemma ValueRounds(f: Format, m: nat, e: int, c: int)
    ensures Rounds(f, m, e, c) <==> NearestEven(f, ValueNum(f, m, e), ValueDen(e), c)
  {
    hide NearestEven;
    assert Pow(10, 0) == 1;
  }

  // ----- bit patterns are ordered as the numbers they stand for

  /** Up to and including the first normal number, the bit pattern is the number. */
  lemma UnitsSubnormal(f: Format, c: nat)
    requires c <= f.Hidden()
    ensures Units(f, c) == c
  {
    if c == f.Hidden() {
      DivModUnique(c, c, 1, 0);
      assert Pow(2, 0) == 1;
    }
  }

  /** An exponent field e with an integer mantissa from one hidden bit up to two of them, both included. */
  lemma UnitsNormal(f: Format, e: nat, m: nat)
    requires e >= 1 && f.Hidden() <= m <= 2 * f.Hidden()
    ensures Units(f, (e - 1) * f.Hidden() + m) == m * Pow(2, e - 1)
  {
    hide Pow;
    var h := f.Hidden();
    var c := (e - 1) * h + m;
    MulDistributes(e - 1, 1, h);
    MulDistributes(e, 1, h);
    MulOrder(1, e, h);
    if m < 2 * h {
      DivModUnique(c, h, e, m - h);
    } else {
      DivModUnique(c, h, e + 1, 0);
      PowStep(2, e - 1);
      MulAssoc(h, 2, Pow(2, e - 1));
    }
  }

  lemma UnitsStep(f: Format, c: nat)
    ensures Units(f, c) < Units(f, c + 1)
  {
    var h := f.Hidden();
    if c < h {
      UnitsSubnormal(f, c);
      UnitsSubnormal(f, c + 1);
    } else {
      var e, m := CodeFields(f, c);
      UnitsNormal(f, e, m);
      UnitsNormal(f, e, m + 1);
      MulDistributes(m, 1, Pow(2, e - 1));
    }
  }

  /** The exponent field and integer mantissa of a normal bit pattern. */
  lemma CodeFields(f: Format, c: nat) returns (e: nat, m: nat)
    requires c >= f.Hidden()
    ensures e >= 1 && f.Hidden() <= m < 2 * f.Hidden() && c == (e - 1) * f.Hidden() + m
  {
    var h := f.Hidden();
    e, m := c / h, h + c % h;
    DivModDefinition(c, h);
    MulDistributes(e, 1, h);
    if e < 1 { MulOrder(e, 0, h); }
  }

  lemma {:induction false} UnitsOrder(f: Format, c: nat, d: nat)
    requires c < d
    ensures Units(f, c) < Units(f, d)
  {
    UnitsStep(f, d - 1);
    if c < d - 1 {
      UnitsOrder(f, c, d - 1);
    }
  }

  lemma PointOrder(f: Format, den: nat, c: nat, d: nat)
    requires den > 0
    ensures c < d ==> Point(f, den, c) < Point(f, den, d)
    ensures c <= d ==> Point(f, den, c) <= Point(f, den, d)
  {
    hide Units;
    if c < d {
      UnitsOrder(f, c, d);
      MulOrder(Units(f, c), Units(f, d), den);
    }
  }

  // ----- nearest-even is decided by the two midpoints next to a float

  /** num is not below the midpoint under c; on it only if c is the even neighbour. */
  ghost predicate AboveMidpoint(f: Format, num: nat, den: nat, c: nat) {
    c == 0 ||
    var mid := Point(f, den, c - 1) + Point(f, den, c);
    mid < 2 * num || (mid == 2 * num && c % 2 == 0)
  }

  /** num is not above the midpoint over c; on it only if c is the even neighbour. */
  ghost predicate BelowMidpoint(f: Format, num: nat, den: nat, c: nat) {
    c >= f.Infinity() ||
    var mid := Point(f, den, c) + Point(f, den, c + 1);
    2 * num < mid || (2 * num == mid && c % 2 == 0)
  }

  lemma NearestByMidpoints(f: Format, num: nat, den: nat, c: nat)
    requires den > 0
    ensures NearestEven(f, num, den, c) <==>
      c <= f.Infinity() && AboveMidpoint(f, num, den, c) && BelowMidpoint(f, num, den, c)
  {
    hide Point;
    if c <= f.Infinity() && AboveMidpoint(f, num, den, c) && BelowMidpoint(f, num, den, c) {
      forall d: nat | d <= f.Infinity()
        ensures Distance(f, num, den, c) <= Distance(f, num, den, d)
        ensures d != c && Distance(f, num, den, c) == Distance(f, num, den, d) ==> c % 2 == 0
      {
        if d < c {
          PointOrder(f, den, d, c - 1);
          PointOrder(f, den, c - 1, c);
        } else if c < d {
          PointOrder(f, den, c + 1, d);
          PointOrder(f, den, c, c + 1);
        }
      }
    }
    if NearestEven(f, num, den, c) {
      if c > 0 {
        PointOrder(f, den, c - 1, c);
        assert Distance(f, num, den, c) <= Distance(f, num, den, c - 1);
      }
      if c < f.Infinity() {
        PointOrder(f, den, c, c + 1);
        assert Distance(f, num, den, c) <= Distance(f, num, den, c + 1);
      }
    }
  }

  /** There is only one correctly rounded result. */
  lemma NearestUnique(f: Format, num: nat, den: nat, c: nat, d: nat)
    requires den > 0 && NearestEven(f, num, den, c) && NearestEven(f, num, den, d)
    ensures c == d
  {
    hide NearestEven, AboveMidpoint, BelowMidpoint, Point;
    NearestMonotone(f, num, num, den, c, d);
    NearestMonotone(f, num, num, den, d, c);
  }

  /** Rounding is monotone. */
  lemma NearestMonotone(f: Format, num: nat, num': nat, den: nat, c: nat, d: nat)
    requires den > 0 && NearestEven(f, num, den, c) && NearestEven(f, num', den, d) && num <= num'
    ensures c <= d
  {
    hide Point, NearestEven;
    NearestByMidpoints(f, num, den, c);
    NearestByMidpoints(f, num', den, d);
    if d < c {
      PointOrder(f, den, d, c - 1);
      PointOrder(f, den, d + 1, c);
    }
  }

  /** Past the last midpoint everything rounds to infinity. */
  lemma NearestInfinity(f: Format, num: nat, den: nat)
    requires den > 0 && num >= Point(f, den, f.Infinity())
    ensures NearestEven(f, num, den, f.Infinity())
  {
    hide Point, NearestEven;
    NearestByMidpoints(f, num, den, f.Infinity());
    MulPositive(f.InfinitePower(), f.Hidden());
    PointOrder(f, den, f.Infinity() - 1, f.Infinity());
  }

  /** Between a float c and the midpoint above its successor, the midpoint above c decides. */
  lemma NearestNextTo(f: Format, num: nat, den: nat, c: nat, up: bool)
    requires den > 0 && c < f.Infinity()
    requires Point(f, den, c) <= num
    requires c + 1 == f.Infinity() || 2 * num < Point(f, den, c + 1) + Point(f, den, c + 2)
    requires var mid := Point(f, den, c) + Point(f, den, c + 1);
      up <==> mid < 2 * num || (mid == 2 * num && c % 2 == 1)
    ensures NearestEven(f, num, den, if up then c + 1 else c)
  {
    hide Point, NearestEven;
    NearestByMidpoints(f, num, den, c);
    NearestByMidpoints(f, num, den, c + 1);
    if c > 0 { PointOrder(f, den, c - 1, c); }
    PointOrder(f, den, c, c + 1);
  }

  /** The same for a bit pattern c that may already be infinity or past it. */
  lemma NearestOrInfinity(f: Format, num: nat, den: nat, c: nat, up: bool)
    requires den > 0 && Point(f, den, c) <= num
    requires c + 1 >= f.Infinity() || 2 * num < Point(f, den, c + 1) + Point(f, den, c + 2)
    requires
      var mid := Point(f, den, c) + Point(f, den, c + 1);
      c < f.Infinity() ==> (up <==> mid < 2 * num || (mid == 2 * num && c % 2 == 1))
    ensures NearestEven(f, num, den, Min(c + (if up then 1 else 0), f.Infinity()))
  {
    hide Point, NearestEven, Format.Infinity;
    if c >= f.Infinity() {
      PointOrder(f, den, f.Infinity(), c);
      NearestInfinity(f, num, den);
    } else {
      NearestNextTo(f, num, den, c, up);
    }
  }

  /** What lies between two numbers that round alike rounds like them. */
  lemma NearestSqueezed(f: Format, lo: nat, num: nat, hi: nat, den: nat, c: nat)
    requires den > 0 && lo <= num <= hi
    requires NearestEven(f, lo, den, c) && NearestEven(f, hi, den, c)
    ensures NearestEven(f, num, den, c)
  {
    hide Point, NearestEven;
    NearestByMidpoints(f, lo, den, c);
    NearestByMidpoints(f, num, den, c);
    NearestByMidpoints(f, hi, den, c);
  }

  /** The result depends on the fraction only, not on how it is written. */
  lemma NearestScaled(f: Format, num: nat, den: nat, k: nat, c: nat)
    requires den > 0 && k > 0
    ensures NearestEven(f, num * k, den * k, c) <==> NearestEven(f, num, den, c)
  {
    hide NearestEven, Point;
    MulPositive(den, k);
    NearestByMidpoints(f, num, den, c);
    NearestByMidpoints(f, num * k, den * k, c);
    if c > 0 { MidpointScaled(f, num, den, k, c - 1); }
    MidpointScaled(f, num, den, k, c);
  }

  lemma MidpointScaled(f: Format, num: nat, den: nat, k: nat, c: nat)
    requires den > 0 && k > 0
    ensures
      var mid, mid' := Point(f, den, c) + Point(f, den, c + 1), Point(f, den * k, c) + Point(f, den * k, c + 1);
      (mid < 2 * num <==> mid' < 2 * (num * k)) && (mid == 2 * num <==> mid' == 2 * (num * k))
  {
    hide Units;
    var mid := Point(f, den, c) + Point(f, den, c + 1);
    MulAssoc(Units(f, c), den, k);
    MulAssoc(Units(f, c + 1), den, k);
    MulDistributes(Point(f, den, c), Point(f, den, c + 1), k);
    MulAssoc(2, num, k);
    MulOrder(mid, 2 * num, k);
    MulOrder(2 * num, mid, k);
  }

  // ----- rounding does not depend on how the number is written

  lemma Regroup(w: nat, ten: nat, den: nat, b: nat)
    ensures (w * (ten * den)) * b == ((w * ten) * b) * den
  {
    MulAssoc(w, ten, den);
    MulAssoc(w * ten, den, b);
    MulAssoc(w * ten, b, den);
  }

  /** The same fraction with any large enough power of ten below. */
  lemma RoundsAs(f: Format, m: nat, e: int, c: nat, d: nat)
    requires e + d >= 0
    ensures Rounds(f, m, e, c) <==> NearestEven(f, (m * Pow(10, e + d)) * Pow(2, f.Bias() - 1), Pow(10, d), c)
  {
    hide Pow, NearestEven;
    var b := Pow(2, f.Bias() - 1);
    if e >= 0 {
      PowAdd(10, e, d);
      NearestScaled(f, m * Pow(10, e) * b, 1, Pow(10, d), c);
      Regroup(m, Pow(10, e), Pow(10, d), b);
    } else {
      PowAdd(10, -e, e + d);
      NearestScaled(f, m * b, Pow(10, -e), Pow(10, e + d), c);
      MulAssoc(m, Pow(10, e + d), b);
      MulAssoc(m, b, Pow(10, e + d));
    }
  }

  lemma RoundsBits(f: Format, m: nat, e: int, c: int)
    requires Rounds(f, m, e, c)
    ensures 0 <= c <= f.Infinity()
  {
    hide Pow;
  }

  lemma RoundsUnique(f: Format, m: nat, e: int, c: nat, d: nat)
    requires Rounds(f, m, e, c) && Rounds(f, m, e, d)
    ensures c == d
  {
    hide NearestEven, Pow;
    NearestUnique(f, if e >= 0 then m * Pow(10, e) * Pow(2, f.Bias() - 1) else m * Pow(2, f.Bias() - 1),
      if e >= 0 then 1 else Pow(10, -e), c, d);
  }
}
