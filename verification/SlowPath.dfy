/** digit_comp: from the digits of a literal, however many, to the nearest float. */
module SlowPath {
  import opened Arith
  import opened LimbValue
  import opened LimbOps
  import opened BigInt
  import opened Digits
  import opened FloatFormat
  import opened Rounding
  import opened Halfway
  import opened DigitComp
  import opened ParseMantissa
  import opened StickyDigits
  import opened Literals
  import opened NumberString

  /** invalid_am_bias: added to a power2 that still has to be rounded. */
  const INVALID_AM_BIAS: int := -0x8000

  // ----- the exponent in scientific notation

  /** k is the number of digits of m after the first. */
  ghost predicate HasDigitsAfterFirst(m: nat, k: nat) {
    Pow(10, k) <= m < Pow(10, k + 1)
  }

  /** scientific_exponent. */
  method ScientificExponent(mantissa: u64, exponent: int) returns (e: int)
    ensures mantissa > 0 ==> e >= exponent && HasDigitsAfterFirst(mantissa, e - exponent)
    ensures mantissa == 0 ==> e == exponent
  {
    hide Pow;
    var m := mantissa;
    e := exponent;
    LowDigitsStart(mantissa);
    TensAre();
    while m >= 10000
      invariant e >= exponent && LowDigits(mantissa, m, e - exponent)
      decreases m
    {
      DropDigits(mantissa, m, e - exponent, 4);
      m := m / 10000;
      e := e + 4;
    }
    while m >= 100
      invariant e >= exponent && LowDigits(mantissa, m, e - exponent)
      decreases m
    {
      DropDigits(mantissa, m, e - exponent, 2);
      m := m / 100;
      e := e + 2;
    }
    while m >= 10
      invariant e >= exponent && LowDigits(mantissa, m, e - exponent)
      decreases m
    {
      DropDigits(mantissa, m, e - exponent, 1);
      m := m / 10;
      e := e + 1;
    }
    OneDigitLeft(mantissa, m, e - exponent);
  }

  /** m is what is left of n once its last k digits are gone. */
  ghost predicate LowDigits(n: nat, m: nat, k: nat) {
    m * Pow(10, k) <= n < (m + 1) * Pow(10, k) && (n > 0 <==> m > 0) && (n == 0 ==> k == 0)
  }

  lemma LowDigitsStart(n: nat)
    ensures LowDigits(n, n, 0)
  {
  }

  lemma TensAre()
    ensures Pow(10, 1) == 10 && Pow(10, 2) == 100 && Pow(10, 4) == 10000
  {
    PowDoubles(10, 2, 100);
  }

  lemma DropDigits(n: nat, m: nat, k: nat, j: nat)
    requires LowDigits(n, m, k) && m >= Pow(10, j)
    ensures LowDigits(n, m / Pow(10, j), k + j)
  {
    hide Pow;
    PowAdd(10, j, k);
    var t, p := Pow(10, j), Pow(10, k);
    DivModDefinition(m, t);
    var r := m / t;
    MulDistributes(r, 1, t);
    MulOrder(1, m / t, t);
    MulAssoc(r, t, p);
    MulAssoc(r + 1, t, p);
    MulOrder(r * t, m, p);
    MulOrder(m + 1, (r + 1) * t, p);
  }

  lemma OneDigitLeft(n: nat, m: nat, k: nat)
    requires LowDigits(n, m, k) && m < 10
    ensures n > 0 ==> HasDigitsAfterFirst(n, k)
    ensures n == 0 ==> k == 0
  {
    hide Pow;
    PowStep(10, k);
    if n > 0 {
      MulOrder(1, m, Pow(10, k));
      MulOrder(m + 1, 10, Pow(10, k));
    }
  }

  lemma DigitsAfterFirstUnique(m: nat, j: nat, k: nat)
    requires HasDigitsAfterFirst(m, j) && HasDigitsAfterFirst(m, k)
    ensures j == k
  {
    hide Pow;
    if j < k { PowMonotone(10, j + 1, k); }
    if k < j { PowMonotone(10, k + 1, j); }
  }

  // ----- the literal's value

  /** The significant digits of a literal. */
  ghost function SignificantDigits(l: Literal): seq<byte> {
    StripZeros(LiteralDigits(l))
  }

  /** c is the correctly rounded value of the literal. */
  ghost predicate RoundsLiteral(f: Format, l: Literal, c: int)
    requires Digital(l)
  {
    Rounds(f, DigitsValue(LiteralDigits(l)), LastPlace(l), c)
  }

  /** The same for the exponent that the parser accumulates. */
  ghost predicate RoundsCapped(f: Format, l: Literal, c: int)
    requires Digital(l)
  {
    Rounds(f, DigitsValue(LiteralDigits(l)), CappedPlace(l), c)
  }

  /** The scientific exponent counts from the first significant digit to the place of the units. */
  lemma ScientificExponentIs(n: ParsedNumber, l: Literal, e: int)
    requires Denotes(n, l) && n.mantissa > 0 && e >= n.exponent && HasDigitsAfterFirst(n.mantissa, e - n.exponent)
    ensures SignificantDigits(l) != [] && SignificantDigits(l)[0] != ZERO
    ensures e == CappedPlace(l) + |SignificantDigits(l)| - 1
  {
    hide DigitsValue, Pow;
    var s := SignificantDigits(l);
    StripZerosHead(LiteralDigits(l));
    DigitsValueEmpty();
    var head := if |s| <= 19 then s else s[..19];
    assert head != [] && head[0] != ZERO;
    LeadingDigit(head);
    DigitsAfterFirstUnique(n.mantissa, e - n.exponent, |head| - 1);
  }

  // ----- digit_comp

  /** What digit_comp needs: an exponent in the range that the fast algorithm hands on, and, when the exponent of the
      kept digits is negative, an extended value close enough below the literal's. */
  ghost predicate DigitCompInput(f: Format, l: Literal, x: u64, e: int) {
    var s := SignificantDigits(l);
    && AllDigits(s) && AllDigits(l.exponent.digits)
    && var sci := CappedPlace(l) + |s| - 1;
       var exponent := sci + 1 - KeptDigits(s, f.MaxDigits());
       && sci <= f.LargestPowerOfTen() + 18
       && (exponent < 0 ==> SlowPathInput(f, Kept(f, s), exponent, x, e))
  }

  method CompareDigits(f: Format, num: ParsedNumber, ghost l: Literal, am: AdjustedMantissa)
      returns (answer: AdjustedMantissa)
    requires Digital(l) && num.integer == l.integer && num.fraction == l.fraction && Denotes(num, l) && num.mantissa > 0
    requires am.mantissa >= TOP_BIT && DigitCompInput(f, l, am.mantissa, am.power2 - INVALID_AM_BIAS)
    modifies am
    ensures fresh(answer)
    ensures RoundsCapped(f, l, answer.Bits(f)) && Finished(f, answer.mantissa, answer.power2)
  {
    hide Pow, Denotes, KeptValue, KeptDigits, SlowPathInput, Value, RoundsCapped, HasDigitsAfterFirst;
    am.power2 := am.power2 - INVALID_AM_BIAS;
    var sciExp := ScientificExponent(num.mantissa, num.exponent);
    ScientificExponentIs(num, l, sciExp);
    ghost var s := SignificantDigits(l);
    var bigmant := new StackVec();
    EmptyNumber();
    var digits := Parse(bigmant, num.integer, num.fraction, f.MaxDigits());
    var exponent := sciExp + 1 - digits;
    KeptPositive(f, s);
    if exponent >= 0 {
      KeptFits(f, s, sciExp);
      answer := PositiveDigitComp(f, bigmant, exponent);
    } else {
      answer := NegativeDigitComp(f, bigmant, am, exponent);
    }
    AllDigitsRound(f, l, sciExp, answer.Bits(f));
  }

  lemma KeptPositive(f: Format, s: seq<byte>)
    requires AllDigits(s) && s != [] && s[0] != ZERO
    ensures Kept(f, s) > 0
  {
    hide DigitsValue;
    ZeroValueIsZeros(s);
    if |s| > f.MaxDigits() {
      ZeroValueIsZeros(s[..f.MaxDigits()]);
      assert s[..f.MaxDigits()][0] != ZERO;
    }
  }

  lemma KeptBound(f: Format, s: seq<byte>)
    requires AllDigits(s)
    ensures Kept(f, s) < Pow(10, KeptDigits(s, f.MaxDigits()))
  {
    hide DigitsValue, Pow;
    DigitsValueBound(s);
    if |s| > f.MaxDigits() {
      DigitsValueBound(s[..f.MaxDigits()]);
      PowStep(10, f.MaxDigits());
    }
  }

  /** A whole number with an exponent in range fits the buffer. */
  lemma KeptFits(f: Format, s: seq<byte>, sci: int)
    requires AllDigits(s) && sci <= f.LargestPowerOfTen() + 18
    requires sci + 1 - KeptDigits(s, f.MaxDigits()) >= 0
    ensures Scaled(Kept(f, s), 10, sci + 1 - KeptDigits(s, f.MaxDigits())) < Limit()
  {
    hide Pow, KeptValue, KeptDigits, Limit;
    var digits := KeptDigits(s, f.MaxDigits());
    var e: nat := sci + 1 - digits;
    KeptBound(f, s);
    PowAdd(10, digits, e);
    MulOrder(Kept(f, s), Pow(10, digits), Pow(10, e));
    PowMonotone(10, digits + e, 770);
    TenTo770();
  }

  /** The result for the kept digits is the result for all of them. */
  lemma AllDigitsRound(f: Format, l: Literal, sci: int, c: int)
    requires Digital(l) && AllDigits(SignificantDigits(l))
    requires SignificantDigits(l) != [] && SignificantDigits(l)[0] != ZERO
    requires sci == CappedPlace(l) + |SignificantDigits(l)| - 1 && sci <= f.LargestPowerOfTen() + 18
    requires Rounds(f, Kept(f, SignificantDigits(l)), sci + 1 - KeptDigits(SignificantDigits(l), f.MaxDigits()), c)
    ensures RoundsCapped(f, l, c)
  {
    hide DigitsValue, Rounds, StripZeros;
    var s := SignificantDigits(l);
    StripZerosValue(LiteralDigits(l));
    if |s| > f.MaxDigits() {
      StickyRounds(f, s, sci, c);
    }
  }
}
