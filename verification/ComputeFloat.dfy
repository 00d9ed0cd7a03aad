/** compute_float: w * 10^q to the nearest float, for every 64-bit w and every exponent q. */
module ComputeFloat {
  import opened Arith
  import opened LimbValue
  import opened FloatFormat
  import opened Rounding
  import opened RoundingCorrect
  import opened PowersOfFive
  import opened FastProduct
  import opened FastRounding

  // ----- exponents beyond the range of the format

  /** 5^28 > 2^65. */
  lemma PowersOfFiveAtLeast(k: nat)
    ensures Pow(5, 28 * k) >= Pow(2, 65 * k)
  {
    hide Pow;
    PowerOf5Is(28);
    PowerOf2Is(65);
    PowOfPow(5, 28, k);
    PowOfPow(2, 65, k);
    PowBaseMonotone(Pow(2, 65), Pow(5, 28), k);
  }

  /** 10^n >= 2^(65 * k + j + n) when 5^(n - 28 * k) >= 2^j. */
  lemma PowerOfTenAtLeast(n: nat, k: nat, j: nat)
    requires n >= 28 * k && Pow(5, n - 28 * k) >= Pow(2, j)
    ensures Pow(10, n) >= Pow(2, 65 * k + j + n)
  {
    hide Pow;
    PowersOfFiveAtLeast(k);
    PowAdd(5, 28 * k, n - 28 * k);
    PowAdd(2, 65 * k, j);
    MulOrder(Pow(2, 65 * k), Pow(5, 28 * k), Pow(2, j));
    MulOrder(Pow(2, j), Pow(5, n - 28 * k), Pow(5, 28 * k));
    PowProduct(5, 2, n);
    PowAdd(2, 65 * k + j, n);
    MulOrder(Pow(2, 65 * k + j), Pow(5, n), Pow(2, n));
  }

  lemma RangeOfTens()
    ensures Pow(10, 343) >= Pow(2, 1139) && Pow(10, 66) >= Pow(2, 219)
    ensures Pow(10, 309) >= Pow(2, 1026) && Pow(10, 39) >= Pow(2, 129)
  {
    hide Pow;
    PowerOf5Is(1);
    PowerOf5Is(7);
    PowerOf5Is(10);
    PowerOf5Is(11);
    PowerOf2Is(2);
    PowerOf2Is(16);
    PowerOf2Is(23);
    PowerOf2Is(25);
    PowerOfTenAtLeast(343, 12, 16);
    PowerOfTenAtLeast(66, 2, 23);
    PowerOfTenAtLeast(309, 11, 2);
    PowerOfTenAtLeast(39, 1, 25);
  }

  lemma TooSmallRounds(f: Format, q: int, w: u64)
    requires w == 0 || q < f.SmallestPowerOfTen()
    ensures Rounds(f, w, q, 0)
  {
    hide Pow, NearestEven;
    if w == 0 {
      ZeroIsNearest(f, 0, if q >= 0 then 1 else Pow(10, -q));
      if q >= 0 { MulAssoc(0, Pow(10, q), Pow(2, f.Bias() - 1)); }
    } else {
      var num := w * Pow(2, f.Bias() - 1);
      assert 2 * num < Pow(10, -q) by {
        var n := if f.Double? then 343 else 66;
        RangeOfTens();
        PowMonotone(10, n, -q);
        PowMonotone(2, 64 + f.Bias(), if f.Double? then 1139 else 219);
        BelowOneUnit(w, f.Bias());
      }
      ZeroIsNearest(f, num, Pow(10, -q));
    }
  }

  lemma ZeroIsNearest(f: Format, num: nat, den: nat)
    requires 2 * num < den
    ensures NearestEven(f, num, den, 0)
  {
    hide Pow, NearestEven, Units;
    UnitsSubnormal(f, 0);
    UnitsSubnormal(f, 1);
    NearestByMidpoints(f, num, den, 0);
  }

  lemma BelowOneUnit(w: u64, bias: nat)
    requires bias > 0
    ensures 2 * (w * Pow(2, bias - 1)) < Pow(2, 64 + bias)
  {
    hide Pow;
    WordIsPow2();
    PowAdd(2, 64, bias);
    PowStep(2, bias - 1);
    MulOrder(w, WORD, Pow(2, bias));
    MulAssoc(w, Pow(2, bias - 1), 2);
  }

  lemma TooLargeRounds(f: Format, q: int, w: nat)
    requires w > 0 && q > f.LargestPowerOfTen()
    ensures Rounds(f, w, q, f.Infinity())
  {
    hide Pow, NearestEven, Units, Format.Hidden;
    var n, e := f.Bias() - 1, f.InfinitePower();
    RangeOfTens();
    PowMonotone(10, if f.Double? then 309 else 39, q);
    PowMonotone(2, f.MantissaBits() + e - f.Bias(), if f.Double? then 1026 else 129);
    MulDistributes(e, 1, f.Hidden());
    UnitsNormal(f, e, f.Hidden());
    assert f.Hidden() * Pow(2, e - 1) == Pow(2, f.MantissaBits() + e - f.Bias()) * Pow(2, n) by {
      PowAdd(2, f.MantissaBits(), e - 1);
      PowAdd(2, f.MantissaBits() + e - f.Bias(), n);
      assert f.Hidden() == Pow(2, f.MantissaBits()) by { HiddenPower(f); }
    }
    MulOrder(1, w, Pow(10, q));
    MulOrder(Pow(2, f.MantissaBits() + e - f.Bias()), w * Pow(10, q), Pow(2, n));
    NearestInfinity(f, w * Pow(10, q) * Pow(2, n), 1);
  }

  lemma HiddenPower(f: Format)
    ensures f.Hidden() == Pow(2, f.MantissaBits())
  {
  }

  // ----- the three ways in which the kept bits are rounded

  /** The test by which compute_float recognizes a tie that must go down to the even mantissa. */
  predicate RoundsDownTie(f: Format, q: int, low: u64, high: u64, m: nat) {
    && low <= 1 && f.MinExponentRoundToEven() <= q <= f.MaxExponentRoundToEven()
    && m % 4 == 1 && (m * Pow(2, Drop(f, high))) % WORD == high
  }

  /** It finds the ties of which the lower neighbour is even, and nothing else. */
  lemma FlipTest(f: Format, q: int, w: u64, low: u64, high: u64, e: int)
    requires FastWindow(f, q, w, low, high, e)
    ensures
      var m := Shr(high, Drop(f, high));
      var tie := (2 * ValueNum(f, w, q)) * DownFactor(e) == (m * UpFactor(e)) * ValueDen(q);
      RoundsDownTie(f, q, low, high, m) <==> tie && m % 4 == 1
  {
    hide Pow, Shr, Format.Hidden, ValueNum, ValueDen, UpFactor, DownFactor, InWindow;
    MantissaShape(f, high);
    var (m, p) := (Shr(high, Drop(f, high)), Pow(2, Drop(f, high)));
    DivModUnique(m * p, WORD, 0, m * p);
  }

  /** A normal result: the kept bits and the tie test give the nearest float. */
  lemma NormalRounds(f: Format, q: int, w: u64, low: u64, high: u64, e: int)
    requires FastWindow(f, q, w, low, high, e) && e >= 1
    ensures
      var m := Shr(high, Drop(f, high));
      var up := m % 2 == 1 && !RoundsDownTie(f, q, low, high, m);
      Rounds(f, w, q, Min((e - 1) * f.Hidden() + m / 2 + (if up then 1 else 0), f.Infinity()))
  {
    hide Pow, Shr, Drop, Format.Hidden, Format.Infinity, ValueNum, ValueDen, UpFactor, DownFactor, InWindow,
      NearestEven, Rounds, RoundsDownTie, ShowsTie;
    MantissaShape(f, high);
    FlipTest(f, q, w, low, high, e);
    var m := Shr(high, Drop(f, high));
    var up := m % 2 == 1 && !RoundsDownTie(f, q, low, high, m);
    KeptRounds(f, ValueNum(f, w, q), ValueDen(q), e, m, up);
    ValueRounds(f, w, q, Min((e - 1) * f.Hidden() + m / 2 + (if up then 1 else 0), f.Infinity()));
  }

  /** The test that flips the rounding bit fires exactly when the value lies halfway between two floats of which the
      lower one is even. */
  lemma FlipTestIsTie(f: Format, q: int, w: u64, low: u64, high: u64, e: int)
    requires FastWindow(f, q, w, low, high, e) && e >= 1
    ensures
      var m := Shr(high, Drop(f, high));
      var (c, num, den) := ((e - 1) * f.Hidden() + m / 2, ValueNum(f, w, q), ValueDen(q));
      && c >= 0
      && (RoundsDownTie(f, q, low, high, m) <==> 2 * num == Point(f, den, c) + Point(f, den, c + 1) && c % 2 == 0)
  {
    hide Pow, Shr, Drop, Format.Hidden, ValueNum, ValueDen, UpFactor, DownFactor, InWindow, Point, RoundsDownTie,
      ShowsTie;
    MantissaShape(f, high);
    FlipTest(f, q, w, low, high, e);
    var m := Shr(high, Drop(f, high));
    KeptBetween(f, ValueNum(f, w, q), ValueDen(q), e, m);
    FlipParity(m);
  }

  lemma FlipParity(m: nat)
    ensures m % 4 == 1 <==> m % 2 == 1 && m / 2 % 2 == 0
  {
  }

  /** Subnormals have exponents at which no tie is possible. */
  lemma SubnormalExponent(f: Format, q: int, w: u64, upper: nat, e: int)
    requires w > 0 && e <= 0 && e == Power(q) + upper - LeadingZeroes(w) - f.MinimumExponent()
    ensures q < FIRST_ROUNDED_UP
  {
    hide Pow, LeadingZeroes;
    LeadingZeroesCorrect(w);
  }

  /** A subnormal result: the kept bits are shifted into place, and rounded up whenever the rounding bit is set. */
  lemma SubnormalRounds(f: Format, q: int, w: u64, low: u64, high: u64, e: int)
    requires FastWindow(f, q, w, low, high, e) && e <= 0 && q < FIRST_ROUNDED_UP
    ensures
      var m := Shr(Shr(high, Drop(f, high)), 1 - e);
      m < 2 * f.Hidden() && Rounds(f, w, q, Min((m + m % 2) / 2, f.Infinity()))
  {
    hide Pow, Shr, Format.Hidden, ValueNum, ValueDen, UpFactor, DownFactor, InWindow, NearestEven, Rounds,
      Format.Infinity;
    MantissaShape(f, high);
    var kept := Shr(high, Drop(f, high));
    WindowAligned(2 * ValueNum(f, w, q), ValueDen(q), kept, e);
    HalfOrLess(kept, 1 - e);
    var m := Shr(kept, 1 - e);
    FactorsBelow(0);
    var up := m % 2 == 1;
    KeptRounds(f, ValueNum(f, w, q), ValueDen(q), 1, m, up);
    var c := m / 2 + (if up then 1 else 0);
    assert (1 - 1) * f.Hidden() == 0;
    assert c == (m + m % 2) / 2;
    ValueRounds(f, w, q, Min(c, f.Infinity()));
  }

  lemma HalfOrLess(m: nat, s: nat)
    requires s >= 1
    ensures 0 <= 2 * Shr(m, s) <= m
    ensures s >= 64 && m < WORD ==> Shr(m, s) == 0
  {
    hide Pow;
    DivModDefinition(m, Pow(2, s));
    PowStep(2, s - 1);
    MulOrder(2, Pow(2, s), Shr(m, s));
    WordIsPow2();
    if s >= 64 && m < WORD {
      PowMonotone(2, 64, s);
      DivModUnique(m, Pow(2, s), 0, m);
    }
  }

  // ----- the operation

  /** compute_float. */
  method Compute(f: Format, q: int, w: u64) returns (answer: AdjustedMantissa)
    ensures fresh(answer)
    ensures Rounds(f, w, q, answer.Bits(f)) && Finished(f, answer.mantissa, answer.power2)
    ensures w == 0 || q < f.SmallestPowerOfTen() ==> answer.mantissa == 0 && answer.power2 == 0
    ensures w > 0 && q > f.LargestPowerOfTen() ==> answer.mantissa == 0 && answer.power2 == f.InfinitePower()
  {
    hide Pow, Power, Shr, LowBits, Drop, LeadingZeroes, Normalize, ProductApproximation, Rounds, Format.Hidden,
      Format.Infinity, ClearBit, RoundsDownTie, ToBits, FastWindow;
    if w == 0 || q < f.SmallestPowerOfTen() {
      TooSmallRounds(f, q, w);
      ZeroBits(f);
      answer := new AdjustedMantissa(0, 0);
      return;
    }
    if q > f.LargestPowerOfTen() {
      TooLargeRounds(f, q, w);
      ZeroBits(f);
      answer := new AdjustedMantissa(0, f.InfinitePower());
      return;
    }
    var lz := LeadingZeroes(w);
    var (low, high) := ProductApproximation(f.MantissaBits() + 3, q, Normalize(w));
    var upperbit := Shr(high, 63);
    var power2 := Power(q) + upperbit - lz - f.MinimumExponent();
    FastWindowHolds(f, q, w, low, high, power2);
    HighIsLarge(f, q, w, low, high, power2);
    var mantissa := Shr(high, Drop(f, high));
    ghost var m, e := mantissa, power2;
    var h := f.Hidden();
    if power2 <= 0 {
      SubnormalExponent(f, q, w, upperbit, e);
      SubnormalResult(f, q, w, low, high, e);
      if -power2 + 1 >= 64 {
        answer := new AdjustedMantissa(0, 0);
      } else {
        mantissa := Shr(mantissa, -power2 + 1);
        mantissa := mantissa + mantissa % 2;
        mantissa := mantissa / 2;
        answer := new AdjustedMantissa(mantissa, if mantissa < h then 0 else 1);
      }
      return;
    }
    if low <= 1 && f.MinExponentRoundToEven() <= q <= f.MaxExponentRoundToEven() && mantissa % 4 == 1 {
      if (mantissa * Pow(2, Drop(f, high))) % WORD == high {
        mantissa := mantissa - 1;
      }
    }
    TieTest(f, q, low, high, m);
    mantissa := mantissa + mantissa % 2;
    mantissa := mantissa / 2;
    ghost var kept: nat := mantissa;
    if mantissa >= 2 * h {
      mantissa := h;
      power2 := power2 + 1;
    }
    ClearTopBit(mantissa, h);
    mantissa := ClearBit(mantissa, h);
    if power2 >= f.InfinitePower() {
      power2 := f.InfinitePower();
      mantissa := 0;
    }
    NormalResult(f, q, w, low, high, e, kept, mantissa, power2);
    answer := new AdjustedMantissa(mantissa, power2);
  }

  lemma SubnormalResult(f: Format, q: int, w: u64, low: u64, high: u64, e: int)
    requires FastWindow(f, q, w, low, high, e) && e <= 0 && q < FIRST_ROUNDED_UP
    ensures
      var m := Shr(Shr(high, Drop(f, high)), 1 - e);
      var (mantissa, h) := ((m + m % 2) / 2, f.Hidden());
      var power2 := if mantissa < h then 0 else 1;
      && Rounds(f, w, q, ToBits(f, mantissa, power2)) && Finished(f, mantissa, power2)
      && (-e + 1 >= 64 ==> mantissa == 0) && h > 0 && m < WORD - 1
  {
    hide Pow, Shr, Drop, Format.Hidden, Format.Infinity, Rounds, ToBits, FastWindow;
    HighIsLarge(f, q, w, low, high, e);
    MantissaShape(f, high);
    SubnormalRounds(f, q, w, low, high, e);
    HiddenFits(f);
    var kept := Shr(high, Drop(f, high));
    HalfOrLess(kept, 1 - e);
    var m := Shr(kept, 1 - e);
    SmallBits(f, (m + m % 2) / 2, if (m + m % 2) / 2 < f.Hidden() then 0 else 1);
  }

  lemma NormalResult(f: Format, q: int, w: u64, low: u64, high: u64, e: int, kept: nat, mantissa: nat, power2: int)
    requires FastWindow(f, q, w, low, high, e) && e >= 1 && Packs(f, kept, e, mantissa, power2)
    requires
      var m := Shr(high, Drop(f, high));
      kept == m / 2 + (if m % 2 == 1 && !RoundsDownTie(f, q, low, high, m) then 1 else 0)
    ensures Rounds(f, w, q, ToBits(f, mantissa, power2)) && Finished(f, mantissa, power2)
  {
    hide Pow, Shr, Drop, Format.Hidden, Format.Infinity, Rounds, ToBits, FastWindow, RoundsDownTie, Packs;
    HighIsLarge(f, q, w, low, high, e);
    MantissaShape(f, high);
    NormalRounds(f, q, w, low, high, e);
    HiddenEven(f);
    PackedBits(f, kept, e, mantissa, power2);
  }

  lemma HighIsLarge(f: Format, q: int, w: u64, low: u64, high: u64, e: int)
    requires FastWindow(f, q, w, low, high, e)
    ensures high >= TOP_BIT / 2 && 0 < 2 * f.Hidden() <= Shr(high, Drop(f, high)) < 4 * f.Hidden() < WORD
  {
    hide Pow, Shr, Drop, Format.Hidden;
    MantissaShape(f, high);
    HiddenFits(f);
  }

  /** A subnormal, or the smallest normal number with its hidden bit still set. */
  lemma SmallBits(f: Format, mantissa: nat, power2: int)
    requires mantissa <= f.Hidden() && power2 == (if mantissa < f.Hidden() then 0 else 1)
    ensures ToBits(f, mantissa, power2) == mantissa == Min(mantissa, f.Infinity()) && Finished(f, mantissa, power2)
  {
    hide Pow, Format.Hidden;
    MulOrder(1, f.InfinitePower(), f.Hidden());
    if mantissa == f.Hidden() {
      DivModUnique(mantissa, mantissa, 1, 0);
    }
  }

  lemma TieTest(f: Format, q: int, low: u64, high: u64, m: nat)
    ensures RoundsDownTie(f, q, low, high, m) <==>
      low <= 1 && f.MinExponentRoundToEven() <= q <= f.MaxExponentRoundToEven() && m % 4 == 1 &&
      (m * Pow(2, Drop(f, high))) % WORD == high
  {
  }

  lemma HiddenFits(f: Format)
    ensures 4 * f.Hidden() < WORD
  {
    hide Pow, Format.Hidden;
    HiddenIs(f);
  }

  lemma ZeroBits(f: Format)
    ensures ToBits(f, 0, 0) == 0 && ToBits(f, 0, f.InfinitePower()) == f.Infinity()
  {
  }
}
