/** Clinger's fast path: one conversion and one multiplication or division by the machine, under the assumption that
    its operations are those of IEEE 754. */
module FastPath {
  import opened Wrappers
  import opened Arith
  import opened FloatFormat
  import opened Halfway
  import opened PowersOfFive
  import opened FastProduct
  import opened ComputeFloat
  import opened CappedExponent

  /** The machine: whether it now rounds to nearest, whether it rounds every operation to the operands' type
      (FLT_EVAL_METHOD 0 or 1), and the float that it makes of an exact result of num/den units. */
  datatype Machine = Machine(nearest: bool, evaluatesExactly: bool, round: (nat, nat) -> int)

  /** Section 4.3 of IEEE 754-2019: in every rounding mode a float stands for itself; in roundTiesToEven the nearest
      float is taken. */
  ghost predicate IsIeee(f: Format, h: Machine) {
    && (forall den: nat, c: nat | den > 0 && c < f.Infinity() :: h.round(Exactly(f, c, den), den) == c)
    && (h.nearest ==> forall num: nat, den: nat | den > 0 :: NearestEven(f, num, den, h.round(num, den)))
  }

  function Exactly(f: Format, c: nat, den: nat): nat {
    UnitsNonNegative(f, c);
    MulOrder(0, Units(f, c), den);
    Units(f, c) * den
  }

  lemma UnitsNonNegative(f: Format, c: nat)
    ensures Units(f, c) >= 0
  {
    hide Pow, Units;
    UnitsSubnormal(f, 0);
    if c > 0 { UnitsOrder(f, 0, c); }
  }

  // ----- whole numbers that are floats

  /** A whole number of at most one bit more than the mantissa field, times a small power of two, is a float. */
  lemma WholeIsFloat(f: Format, n: nat, k: nat) returns (c: nat)
    requires n <= 2 * f.Hidden() && k <= 22
    ensures c < f.Infinity() && Units(f, c) == WholeUnits(f, n * Pow(2, k))
  {
    hide Pow, Units, Format.Hidden;
    if n == 0 {
      c := 0;
      UnitsSubnormal(f, 0);
      MulPositive(f.InfinitePower(), f.Hidden());
    } else {
      PowZeros();
      var s := Shortfall(f, n, 0);
      c := ScaledIsFloat(f, n, s, k);
    }
  }

  lemma ScaledIsFloat(f: Format, n: nat, s: nat, k: nat) returns (c: nat)
    requires k <= 22 && s <= f.MantissaBits() && f.Hidden() <= n * Pow(2, s) <= 2 * f.Hidden()
    ensures c < f.Infinity() && Units(f, c) == WholeUnits(f, n * Pow(2, k))
  {
    hide Pow, Units, Format.Hidden;
    var (e, m, h) := (k + f.Bias() - s, n * Pow(2, s), f.Hidden());
    MulOrder(0, e - 1, h);
    MulOrder(e + 2, f.InfinitePower(), h);
    MulDistributes(e - 1, 3, h);
    c := (e - 1) * h + m;
    UnitsNormal(f, e, m);
    PowAdd(2, s, e - 1);
    PowAdd(2, k, f.Bias() - 1);
    MulAssoc(n, Pow(2, s), Pow(2, e - 1));
    MulAssoc(n, Pow(2, k), Pow(2, f.Bias() - 1));
  }

  /** How far a number must be shifted to have all its mantissa bits. */
  lemma {:induction false} Shortfall(f: Format, n: nat, s: nat) returns (r: nat)
    requires 0 < n && s <= f.MantissaBits() && n * Pow(2, s) <= 2 * f.Hidden()
    ensures r <= f.MantissaBits() && f.Hidden() <= n * Pow(2, r) <= 2 * f.Hidden()
    decreases f.MantissaBits() - s
  {
    hide Pow, Format.Hidden;
    if n * Pow(2, s) >= f.Hidden() {
      r := s;
    } else {
      HiddenPower(f);
      MulOrder(1, n, Pow(2, s));
      if s == f.MantissaBits() { r := s; return; }
      PowStep(2, s);
      MulAssoc(n, 2, Pow(2, s));
      r := Shortfall(f, n, s + 1);
    }
  }

  // ----- the two tables

  /** max_exponent_fast_path. */
  function MaxExponentFastPath(f: Format): int { if f.Double? then 22 else 10 }

  function MinExponentFastPath(f: Format, h: Machine): int {
    if h.evaluatesExactly then -MaxExponentFastPath(f) else 0
  }

  /** exact_power_of_ten: a float that is the power. */
  method ExactPowerOfTen(f: Format, k: nat) returns (c: nat)
    requires k <= MaxExponentFastPath(f)
    ensures c < f.Infinity() && Exactly(f, c, 1) == Pow(10, k) * Pow(2, f.Bias() - 1)
  {
    hide Pow, Units, Format.Infinity;
    ghost var d := TenIsFloat(f, k);
    c :| c < f.Infinity() && Units(f, c) == WholeUnits(f, Pow(10, k));
  }

  lemma TenIsFloat(f: Format, k: nat) returns (c: nat)
    requires k <= MaxExponentFastPath(f)
    ensures c < f.Infinity() && Units(f, c) == WholeUnits(f, Pow(10, k))
  {
    hide Pow, Units, Format.Hidden, WholeUnits;
    HiddenIs(f);
    PowerOf5Is(MaxExponentFastPath(f));
    PowMonotone(5, k, MaxExponentFastPath(f));
    PowProduct(5, 2, k);
    c := WholeIsFloat(f, Pow(5, k), k);
  }

  /** max_mantissa_fast_path(power): the table's quotients. The one for double starts from 2^52. */
  function MaxMantissaFastPath(f: Format, power: nat): nat {
    (if f.Double? then 0x10_0000_0000_0000 else 0x100_0000) / Pow(5, power)
  }

  /** Up to that bound the product has at most one bit more than the mantissa field, so it is a float. */
  lemma ProductIsFloat(f: Format, w: nat, k: nat) returns (c: nat)
    requires k <= MaxExponentFastPath(f) && w <= MaxMantissaFastPath(f, k)
    ensures c < f.Infinity() && Units(f, c) == WholeUnits(f, w * Pow(10, k))
  {
    hide Pow, Units, Format.Hidden, WholeUnits;
    HiddenIs(f);
    PowProduct(5, 2, k);
    BelowQuotient(w, Pow(5, k), if f.Double? then 0x10_0000_0000_0000 else 0x100_0000);
    MulAssoc(w, Pow(5, k), Pow(2, k));
    c := WholeIsFloat(f, w * Pow(5, k), k);
  }

  lemma BelowQuotient(w: nat, d: nat, n: nat)
    requires d > 0 && w <= n / d
    ensures w * d <= n
  {
    DivModDefinition(n, d);
    MulOrder(w, n / d, d);
  }

  /** The table's claim, the largest v with 5^k * v <= 2^53, holds of float with 2^24 and fails of double: its entries
      are the largest only for 2^52. */
  lemma MaxMantissaIs(f: Format, k: nat, v: nat)
    ensures v <= MaxMantissaFastPath(f, k) <==> v * Pow(5, k) <= if f.Double? then f.Hidden() else 2 * f.Hidden()
  {
    hide Pow, Format.Hidden;
    HiddenIs(f);
    var (n, d) := (if f.Double? then 0x10_0000_0000_0000 else 0x100_0000, Pow(5, k));
    DivModDefinition(n, d);
    MulDistributes(n / d, 1, d);
    MulOrder(v, n / d, d);
    MulOrder(n / d + 1, v, d);
  }

  // ----- the path

  /** The first branch of from_chars_advanced: Some float if it is taken. */
  method ClingerPath(f: Format, h: Machine, w: u64, q: int) returns (r: Option<int>)
    requires IsIeee(f, h)
    ensures r.Some? <==>
      && -22 <= q <= 22 && (f.Single? ==> -10 <= q <= 10) && (!h.evaluatesExactly ==> q >= 0)
      && (if h.nearest then w <= 2 * f.Hidden() else q >= 0 && w <= MaxMantissaFastPath(f, q))
    ensures r.Some? ==> Rounds(f, w, q, r.value)
    ensures r.Some? ==> r.value < f.Infinity() && (w > 0 ==> r.value > 0)
  {
    hide Pow, Format.Hidden, Rounds, Units, NearestEven, MaxMantissaFastPath, WholeUnits, Format.Infinity;
    if !(MinExponentFastPath(f, h) <= q <= MaxExponentFastPath(f)) { return None; }
    if h.nearest {
      if w > 2 * f.Hidden() { return None; }
    } else {
      if q < 0 || w > MaxMantissaFastPath(f, q) { return None; }
      SmallMantissa(f, w, q);
    }
    var unit := Pow(2, f.Bias() - 1);
    var v := h.round(w * unit, 1);
    ConversionIsExact(f, h, w);
    var power := ExactPowerOfTen(f, if q < 0 then -q else q);
    var c;
    if q < 0 {
      c := h.round(Exactly(f, v, 1) * unit, Exactly(f, power, 1));
      QuotientRounds(f, h, w, q, c);
    } else {
      c := h.round(Exactly(f, v, 1) * Exactly(f, power, 1), unit);
      if h.nearest { ProductRounds(f, h, w, q, c); } else { ExactProductRounds(f, h, w, q, c); }
    }
    InRange(f, w, q, c);
    return Some(c);
  }

  /** The operands are the numbers meant: the word, and the table's power of ten. */
  lemma ConversionIsExact(f: Format, h: Machine, w: nat)
    requires IsIeee(f, h) && w <= 2 * f.Hidden()
    ensures
      var v := h.round(w * Pow(2, f.Bias() - 1), 1);
      v >= 0 && Exactly(f, v, 1) == w * Pow(2, f.Bias() - 1)
  {
    hide Pow, Units, Format.Hidden, NearestEven, Format.Infinity;
    var c := WholeIsFloat(f, w, 0);
    assert Pow(2, 0) == 1 by { PowersOfFive.PowZeros(); }
    assert Exactly(f, c, 1) == w * Pow(2, f.Bias() - 1);
  }

  lemma QuotientRounds(f: Format, h: Machine, w: nat, q: int, c: int)
    requires IsIeee(f, h) && h.nearest && q < 0
    requires var unit := Pow(2, f.Bias() - 1); c == h.round((w * unit) * unit, Pow(10, -q) * unit)
    ensures Rounds(f, w, q, c)
  {
    hide Pow, Units, NearestEven;
    var k := -q;
    var unit := Pow(2, f.Bias() - 1);
    MulPositive(Pow(10, k), unit);
    assert NearestEven(f, (w * unit) * unit, Pow(10, k) * unit, c);
    CodeNonNegative(f, (w * unit) * unit, Pow(10, k) * unit, c);
    NearestScaled(f, w * unit, Pow(10, k), unit, c);
  }

  lemma CodeNonNegative(f: Format, num: nat, den: nat, c: int)
    requires NearestEven(f, num, den, c)
    ensures c >= 0
  {
  }

  lemma ProductRounds(f: Format, h: Machine, w: nat, k: nat, c: int)
    requires IsIeee(f, h) && h.nearest
    requires var unit := Pow(2, f.Bias() - 1); c == h.round((w * unit) * (Pow(10, k) * unit), unit)
    ensures Rounds(f, w, k, c)
  {
    hide Pow, Units, NearestEven;
    var unit := Pow(2, f.Bias() - 1);
    var num := (w * unit) * (Pow(10, k) * unit);
    assert NearestEven(f, num, unit, c);
    CodeNonNegative(f, num, unit, c);
    ProductNumber(w, Pow(10, k), unit);
    NearestScaled(f, (w * Pow(10, k)) * unit, 1, unit, c);
  }

  lemma ProductNumber(w: nat, ten: nat, unit: nat)
    ensures (w * unit) * (ten * unit) == ((w * ten) * unit) * unit
  {
    MulInterchange(w, unit, ten, unit);
    MulAssoc(w * ten, unit, unit);
  }

  /** In any rounding mode, because the product is itself a float. */
  lemma ExactProductRounds(f: Format, h: Machine, w: nat, k: nat, c: int)
    requires IsIeee(f, h) && k <= MaxExponentFastPath(f) && w <= MaxMantissaFastPath(f, k)
    requires var unit := Pow(2, f.Bias() - 1); c == h.round((w * unit) * (Pow(10, k) * unit), unit)
    ensures Rounds(f, w, k, c)
  {
    hide Pow, Units, NearestEven, Format.Infinity, MaxMantissaFastPath, Format.Hidden, Exactly, IsIeee;
    var unit := Pow(2, f.Bias() - 1);
    var d := ProductIsFloat(f, w, k);
    ProductNumber(w, Pow(10, k), unit);
    ExactlyIs(f, h, d, unit, (w * Pow(10, k)) * unit);
    ExactlyIs(f, h, d, 1, (w * Pow(10, k)) * unit);
    FloatIsNearest(f, d, 1);
  }

  lemma ExactlyIs(f: Format, h: Machine, d: nat, den: nat, u: nat)
    requires IsIeee(f, h) && Units(f, d) == u && den > 0 && d < f.Infinity()
    ensures Exactly(f, d, den) == u * den && h.round(u * den, den) == d
  {
    hide Pow, Units, NearestEven, Format.Infinity;
    assert Exactly(f, d, den) == u * den;
  }

  lemma FloatIsNearest(f: Format, c: nat, den: nat)
    requires c <= f.Infinity() && den > 0
    ensures NearestEven(f, Exactly(f, c, den), den, c)
  {
    hide Pow, Units, Format.Infinity;
    var num := Exactly(f, c, den);
    forall d: nat | d <= f.Infinity()
      ensures Distance(f, num, den, c) <= Distance(f, num, den, d)
      ensures d != c ==> Distance(f, num, den, c) < Distance(f, num, den, d)
    {
      if d < c { PointOrder(f, den, d, c); }
      if c < d { PointOrder(f, den, c, d); }
    }
  }

  lemma SmallMantissa(f: Format, w: nat, k: nat)
    requires w <= MaxMantissaFastPath(f, k)
    ensures w <= 2 * f.Hidden()
  {
    hide Pow, Format.Hidden;
    HiddenIs(f);
    BelowQuotient(w, Pow(5, k), if f.Double? then 0x10_0000_0000_0000 else 0x100_0000);
    MulOrder(1, Pow(5, k), w);
  }

  /** The fast path need not look at the range. */
  lemma InRange(f: Format, w: u64, q: int, c: int)
    requires Rounds(f, w, q, c) && -22 <= q <= MaxExponentFastPath(f) && w <= 2 * f.Hidden()
    ensures c < f.Infinity() && (w > 0 ==> c > 0)
  {
    hide Pow, Rounds, Units, Format.Hidden, Format.Infinity, Underflows, NearestEven, ValueNum, ValueDen;
    RoundsBits(f, w, q, c);
    var d := LargeFloat(f);
    FloatIsNearest(f, d, ValueDen(q));
    FarBelowLargest(f, w, q, d);
    ValueRounds(f, w, q, c);
    NearestMonotone(f, ValueNum(f, w, q), Exactly(f, d, ValueDen(q)), ValueDen(q), c, d);
    if w > 0 {
      RoundsToZero(f, w, q);
      NoUnderflow(f, w, q);
    }
  }

  lemma NoUnderflow(f: Format, w: u64, q: int)
    requires w > 0 && -22 <= q
    ensures !Underflows(f, w, q)
  {
    hide Pow;
    PowMonotone(10, Max(-q, 0), 22);
    PowBaseMonotone(10, 16, 22);
    PowerOf2Is(4);
    PowOfPow(2, 4, 22);
    PowMonotone(2, 88, f.Bias() - 1);
    MulOrder(1, w, Pow(10, Max(q, 0)));
    MulOrder(1, w * Pow(10, Max(q, 0)), Pow(2, f.Bias() - 1));
  }

  /** 2^127 is a float of both formats. */
  lemma LargeFloat(f: Format) returns (d: nat)
    ensures d < f.Infinity() && Units(f, d) == Pow(2, 127) * Pow(2, f.Bias() - 1)
  {
    hide Pow, Units, Format.Hidden;
    var (e, h) := (127 + f.Bias() - f.MantissaBits(), f.Hidden());
    MulOrder(0, e - 1, h);
    MulOrder(e + 1, f.InfinitePower(), h);
    MulDistributes(e - 1, 1, h);
    MulDistributes(e - 1, 2, h);
    d := (e - 1) * h + h;
    UnitsNormal(f, e, h);
    HiddenPower(f);
    PowAdd(2, f.MantissaBits(), e - 1);
    PowAdd(2, 127, f.Bias() - 1);
  }

  lemma FarBelowLargest(f: Format, w: u64, q: int, d: nat)
    requires q <= MaxExponentFastPath(f) && w <= 2 * f.Hidden()
    requires Units(f, d) == Pow(2, 127) * Pow(2, f.Bias() - 1)
    ensures ValueNum(f, w, q) <= Exactly(f, d, ValueDen(q))
  {
    hide Pow, Units, Format.Hidden, ValueDen;
    var (ten, unit, max) := (Pow(10, Max(q, 0)), Pow(2, f.Bias() - 1), MaxExponentFastPath(f));
    HiddenIs(f);
    PowMonotone(10, Max(q, 0), max);
    PowProduct(5, 2, max);
    PowerOf5Is(max);
    PowerOf2Is(max);
    PowerOf2Is(63);
    PowStep(2, 126);
    PowDoubles(2, 63, 0x8000_0000_0000_0000);
    MulOrder(w, 2 * f.Hidden(), ten);
    MulOrder(ten, Pow(10, max), 2 * f.Hidden());
    MulOrder(w * ten, Pow(2, 127), unit);
    MulOrder(1, ValueDen(q), Units(f, d));
  }
}
