/** from_chars for floats, after the literal has been scanned: the fast algorithm, its check, and the slow path. */
module FromChars {
  import opened Arith
  import opened Digits
  import opened FloatFormat
  import opened Rounding
  import opened Halfway
  import opened ComputeFloat
  import opened FastError
  import opened ParseMantissa
  import opened StickyDigits
  import opened Literals
  import opened NumberString
  import opened SlowPath
  import opened CappedExponent
  import opened FastPath
  import opened LiteralText

  // ----- literals and their 19-digit prefixes

  /** The kept digits are themselves a run of digits, beginning like the original. */
  lemma KeptSequence(s: seq<byte>, maxDigits: nat) returns (t: seq<byte>)
    requires AllDigits(s) && |s| > 19 && maxDigits >= 19
    ensures AllDigits(t) && |t| == KeptDigits(s, maxDigits) >= 19 && t[..19] == s[..19]
    ensures DigitsValue(t) == KeptValue(s, maxDigits)
  {
    hide DigitsValue;
    if |s| <= maxDigits {
      t := s;
    } else {
      t := s[..maxDigits];
      assert t[..19] == s[..19];
      if !AllZeros(s[maxDigits..]) {
        DigitsValueSnoc(t, 0x31);
        t := t + [0x31];
        assert t[..19] == s[..19];
      }
    }
  }

  lemma PrefixBrackets(t: seq<byte>, k: nat)
    requires AllDigits(t) && k <= |t|
    ensures AllDigits(t[..k])
    ensures
      var w, p := DigitsValue(t[..k]), Pow(10, |t| - k);
      w * p <= DigitsValue(t) < (w + 1) * p
  {
    hide DigitsValue, Pow;
    assert t == t[..k] + t[k..];
    DigitsValueAppend(t[..k], t[k..]);
    DigitsValueBound(t[k..]);
    MulDistributes(DigitsValue(t[..k]), 1, Pow(10, |t| - k));
  }

  /** The extended value of a 19-digit prefix is good enough for the slow path. */
  lemma ErrorIsSlowPathInput(f: Format, n: nat, w: nat, q: int, exponent: int, x: u64, e: int)
    requires f.SmallestPowerOfTen() - f.MaxDigits() <= exponent < 0 && n < Pow(10, f.MaxDigits() + 1) && exponent <= q
    requires w * Pow(10, q - exponent) <= n < (w + 1) * Pow(10, q - exponent)
    requires BracketsDecimal(f, FloorCode(f, x, e), w, q) && FloorCode(f, x, e) < f.Infinity()
    ensures SlowPathInput(f, n, exponent, x, e)
  {
    hide Pow, Units, FloorCode, Format.Infinity;
    var c := FloorCode(f, x, e);
    var (den, b, ten, k) := (Pow(10, -exponent), Pow(2, f.Bias() - 1), Pow(10, Max(q, 0)), Pow(10, q - exponent));
    PowAdd(10, Max(q, 0), -exponent);
    PowAdd(10, q - exponent, Max(-q, 0));
    assert Max(q, 0) - exponent == q - exponent + Max(-q, 0);
    MulDistributes(Units(f, c + 1), Units(f, c + 2), ValueDen(q));
    MulDistributes(Units(f, c + 1), Units(f, c + 2), den);
    OtherPlace(Units(f, c), w, ten, b, ValueDen(q), den, k);
    OtherPlace(Units(f, c + 1) + Units(f, c + 2), 2 * (w + 1), ten, b, ValueDen(q), den, k);
    MulAssoc(2, w + 1, ten);
    MulAssoc(2, (w + 1) * ten, b);
    MulAssoc(2, w + 1, k);
    MulAssoc(2, (w + 1) * k, b);
    MulOrder(w * k, n, b);
    MulOrder(n, (w + 1) * k, b);
  }

  /** Comparing with u parts of one denominator is comparing with u parts of the other. */
  lemma OtherPlace(u: int, w: nat, ten: nat, b: nat, den: nat, den': nat, k: nat)
    requires den > 0 && den' > 0 && ten * den' == k * den
    ensures u * den <= (w * ten) * b ==> u * den' <= (w * k) * b
    ensures (w * ten) * b <= u * den ==> (w * k) * b <= u * den'
  {
    Regroup(w, ten, den', b);
    Regroup(w, k, den, b);
    MulAssoc(u, den, den');
    MulAssoc(u, den', den);
    MulOrder(u * den, (w * ten) * b, den');
    MulOrder((w * ten) * b, u * den, den');
    MulOrder(u * den', (w * k) * b, den);
    MulOrder((w * k) * b, u * den', den);
  }

  lemma ErrorFitsLiteral(f: Format, num: ParsedNumber, l: Literal, x: u64, e: int)
    requires Digital(l) && Denotes(num, l) && num.tooManyDigits
    requires f.SmallestPowerOfTen() <= num.exponent <= f.LargestPowerOfTen()
    requires FloorCode(f, x, e) < f.Infinity() && BracketsDecimal(f, FloorCode(f, x, e), num.mantissa, num.exponent)
    ensures DigitCompInput(f, l, x, e)
  {
    hide Pow, DigitsValue, KeptValue, FloorCode, BracketsDecimal, Format.Infinity, KeptDigits;
    var s := SignificantDigits(l);
    var sci := CappedPlace(l) + |s| - 1;
    var digits := KeptDigits(s, f.MaxDigits());
    var exponent := sci + 1 - digits;
    if exponent < 0 {
      var t := KeptSequence(s, f.MaxDigits());
      PrefixBrackets(t, 19);
      KeptBound(f, s);
      AtMostOneMore(s, f.MaxDigits());
      PowMonotone(10, digits, f.MaxDigits() + 1);
      ErrorIsSlowPathInput(f, Kept(f, s), num.mantissa, num.exponent, exponent, x, e);
    }
  }

  lemma AtMostOneMore(s: seq<byte>, maxDigits: nat)
    ensures KeptDigits(s, maxDigits) <= maxDigits + 1
  {
  }

  /** If a prefix and the next one round alike, so does everything that begins with the prefix. */
  lemma BracketRounds(f: Format, w: nat, q: int, v: nat, last: int, c: nat)
    requires last <= q && w * Pow(10, q - last) <= v < (w + 1) * Pow(10, q - last)
    requires Rounds(f, w, q, c) && Rounds(f, w + 1, q, c)
    ensures Rounds(f, v, last, c)
  {
    hide Pow, NearestEven, Rounds;
    var d := Max(0, -last);
    var b, k := Pow(2, f.Bias() - 1), last + d;
    RoundsAs(f, w, q, c, d);
    RoundsAs(f, w + 1, q, c, d);
    RoundsAs(f, v, last, c, d);
    PowAdd(10, q - last, k);
    MulAssoc(w, Pow(10, q - last), Pow(10, k));
    MulAssoc(w + 1, Pow(10, q - last), Pow(10, k));
    MulOrder(w * Pow(10, q - last), v, Pow(10, k));
    MulOrder(v, (w + 1) * Pow(10, q - last), Pow(10, k));
    MulOrder(w * Pow(10, q + d), v * Pow(10, k), b);
    MulOrder(v * Pow(10, k), (w + 1) * Pow(10, q + d), b);
    NearestSqueezed(f, (w * Pow(10, q + d)) * b, (v * Pow(10, k)) * b, ((w + 1) * Pow(10, q + d)) * b, Pow(10, d), c);
  }

  /** From infinity on, a number and the next one both round to infinity. */
  lemma BothInfinite(f: Format, w: nat, q: int, c: int, r: nat, r': nat)
    requires BracketsDecimal(f, c, w, q) && c >= f.Infinity()
    requires Rounds(f, w, q, r) && Rounds(f, w + 1, q, r')
    ensures r == f.Infinity() && r' == f.Infinity()
  {
    hide Pow, NearestEven, Units, Rounds, Format.Infinity, Point, ValueDen;
    var (inf, den) := (f.Infinity(), ValueDen(q));
    PointOrder(f, den, inf, c);
    DecimalOrder(w, Pow(10, Max(q, 0)), Pow(2, f.Bias() - 1));
    NearestInfinity(f, ValueNum(f, w, q), den);
    NearestInfinity(f, ValueNum(f, w + 1, q), den);
    hide ValueNum;
    ValueRounds(f, w, q, r);
    ValueRounds(f, w + 1, q, r');
    NearestUnique(f, ValueNum(f, w, q), den, r, inf);
    NearestUnique(f, ValueNum(f, w + 1, q), den, r', inf);
  }

  lemma DecimalOrder(w: nat, ten: nat, b: nat)
    ensures (w * ten) * b <= ((w + 1) * ten) * b
  {
    MulOrder(w, w + 1, ten);
    MulOrder(w * ten, (w + 1) * ten, b);
  }

  // ----- the decision

  /** The prefix and its successor round differently, so the extended value cut off is a finite float. */
  lemma PrefixIsFinite(f: Format, w: nat, q: int, c: int, r: AdjustedMantissa, r': AdjustedMantissa)
    requires BracketsDecimal(f, c, w, q) && Rounds(f, w, q, r.Bits(f)) && Rounds(f, w + 1, q, r'.Bits(f))
    requires Finished(f, r.mantissa, r.power2) && Finished(f, r'.mantissa, r'.power2)
    requires r.mantissa != r'.mantissa || r.power2 != r'.power2
    ensures c < f.Infinity()
  {
    hide Rounds, ToBits, Format.Infinity, Format.Hidden, BracketsDecimal, Finished;
    RoundsBits(f, w, q, r.Bits(f));
    RoundsBits(f, w + 1, q, r'.Bits(f));
    if c >= f.Infinity() {
      BothInfinite(f, w, q, c, r.Bits(f), r'.Bits(f));
      InfinityUnique(f, r.mantissa, r.power2);
      InfinityUnique(f, r'.mantissa, r'.power2);
    }
  }

  lemma BracketsLiteral(f: Format, num: ParsedNumber, l: Literal, c: int)
    requires Digital(l) && Denotes(num, l) && num.tooManyDigits
    requires Rounds(f, num.mantissa, num.exponent, c) && Rounds(f, num.mantissa + 1, num.exponent, c)
    ensures RoundsCapped(f, l, c)
  {
    hide Rounds, Pow, DigitsValue, Denotes;
    RoundsBits(f, num.mantissa, num.exponent, c);
    ValueIsBracketed(num, l);
    BracketRounds(f, num.mantissa, num.exponent, DigitsValue(LiteralDigits(l)), CappedPlace(l), c);
  }

  lemma ExactLiteral(f: Format, num: ParsedNumber, l: Literal, c: int)
    requires Digital(l) && Denotes(num, l) && !num.tooManyDigits
    requires Rounds(f, num.mantissa, num.exponent, c)
    ensures RoundsCapped(f, l, c)
  {
    hide Rounds, Pow, DigitsValue, Denotes;
    ValueIsExact(num, l);
  }

  /** The fast algorithm; if the digits beyond the 19th could change its answer, the slow path. */
  method Decide(f: Format, num: ParsedNumber, ghost l: Literal) returns (am: AdjustedMantissa)
    requires Digital(l) && num.integer == l.integer && num.fraction == l.fraction && Denotes(num, l)
    ensures fresh(am)
    ensures RoundsCapped(f, l, am.Bits(f)) && Finished(f, am.mantissa, am.power2)
  {
    hide Denotes, Rounds, RoundsCapped, ToBits, BracketsDecimal, FloorCode, DigitCompInput, Format.Hidden, DigitsValue,
      Format.Infinity, Point, ValueNum, ValueDen;
    am := Compute(f, num.exponent, num.mantissa);
    FinishedPower(f, am.mantissa, am.power2);
    if num.tooManyDigits && am.power2 >= 0 {
      ValueIsBracketed(num, l);
      var next := Compute(f, num.exponent, num.mantissa + 1);
      if am.mantissa != next.mantissa || am.power2 != next.power2 {
        ghost var first := am;
        am := ComputeError(f, num.exponent, num.mantissa);
        ghost var x, e := am.mantissa, am.power2 - INVALID_AM_BIAS;
        PrefixIsFinite(f, num.mantissa, num.exponent, FloorCode(f, x, e), first, next);
        ErrorFitsLiteral(f, num, l, x, e);
      } else {
        BracketsLiteral(f, num, l, am.Bits(f));
      }
    } else {
      ExactLiteral(f, num, l, am.Bits(f));
    }
    if am.power2 < 0 {
      am := CompareDigits(f, num, l, am);
    }
  }

  lemma FinishedPower(f: Format, mantissa: nat, power2: int)
    requires Finished(f, mantissa, power2)
    ensures power2 >= 0
  {
  }

  // ----- from text to float

  /** from_chars_result_t and the value: what was parsed, the sign and the bits below it, where the literal ends, and
      whether the range was left. */
  datatype FloatResult = Invalid | Float(negative: bool, bits: int, end: nat, outOfRange: bool)

  /** The value is zero exactly when the mantissa is: a number with too many digits has a 19-digit mantissa. */
  lemma MantissaZero(num: ParsedNumber, l: Literal)
    requires Digital(l) && Denotes(num, l)
    ensures num.mantissa == 0 <==> DigitsValue(LiteralDigits(l)) == 0
  {
    hide DigitsValue, Denotes, Pow;
    if num.tooManyDigits {
      ValueIsBracketed(num, l);
      var k := num.exponent - CappedPlace(l);
      MulPositive(num.mantissa, Pow(10, k));
    } else {
      ValueIsExact(num, l);
    }
  }

  lemma LiteralIsDigital(l: Literal, o: Options)
    requires IsLiteral(l, o)
    ensures Digital(l)
  {
  }

  /** from_chars: every literal becomes the float nearest to it, ties to even, if and only if its exponent is below the
      parser's cap or does not matter; and always if it has at most 2^27 digits. */
  method FromChars(f: Format, h: Machine, s: seq<byte>, o: Options) returns (r: FloatResult)
    requires IsIeee(f, h) && !IsDigit(o.decimalPoint)
    ensures r.Float? <==> s != [] && ScanLiteral(s, o).Some?
    ensures r.Float? ==>
      var l := ScanLiteral(s, o).value;
      && r.negative == l.negative && r.end == |Text(l, o)| && Digital(l)
      && (RoundsLiteral(f, l, r.bits) <==> ExponentIsExact(l) || SameEnd(f, l))
      && (|LiteralDigits(l)| <= LITERAL_BOUND ==> RoundsLiteral(f, l, r.bits))
      && RoundsCapped(f, l, r.bits)
      && (r.outOfRange <==> (r.bits == 0 && DigitsValue(LiteralDigits(l)) != 0) || r.bits == f.Infinity())
    ensures UsualPoint(o) ==> forall l: Literal, n: nat | IsWritten(s, o, l, n) :: ReadAs(f, l, n, r)
  {
    hide Denotes, RoundsCapped, RoundsLiteral, ToBits, ScanLiteral, DigitsValue, Format.Infinity, Finished,
      ExponentIsExact, SameEnd, Digital, Text, IsIeee, IsWritten, ReadAs, MaxMantissaFastPath,
      Rounds, Format.Hidden;
    if s == [] {
      r := Invalid;
      ReadAsWritten(f, s, o, r);
      return;
    }
    var num := ParseNumberString(s, o);
    if !num.valid {
      r := Invalid;
      ReadAsWritten(f, s, o, r);
      return;
    }
    ghost var l := ScanLiteral(s, o).value;
    LiteralIsDigital(l, o);
    MantissaZero(num, l);
    if !num.tooManyDigits {
      var fast := ClingerPath(f, h, num.mantissa, num.exponent);
      if fast.Some? {
        ExactLiteral(f, num, l, fast.value);
        LiteralIsRight(f, l, fast.value);
        r := Float(num.negative, fast.value, num.lastMatch, false);
        ReadAsWritten(f, s, o, r);
        return;
      }
    }
    var am := Decide(f, num, l);
    FinishedBits(f, am.mantissa, am.power2);
    LiteralIsRight(f, l, am.Bits(f));
    r := Float(num.negative, am.Bits(f), num.lastMatch,
      (num.mantissa != 0 && am.mantissa == 0 && am.power2 == 0) || am.power2 == f.InfinitePower());
    ReadAsWritten(f, s, o, r);
  }

  /** In terms of the characters: the number written in the first n of them was read, and rounded correctly. */
  ghost predicate ReadAs(f: Format, l: Literal, n: nat, r: FloatResult) {
    && r.Float? && r.negative == l.negative && r.end == n
    && Decimal(l.integer) && Decimal(l.fraction) && Decimal(l.exponent.digits)
    && (|l.integer + l.fraction| <= 0x800_0000 ==> Rounds(f, WrittenDigits(l), WrittenPlace(l), r.bits))
  }

  /** What the scan's literal says about the result, said of whatever is written there. */
  lemma ReadAsWritten(f: Format, s: seq<byte>, o: Options, r: FloatResult)
    requires r.Float? <==> s != [] && ScanLiteral(s, o).Some?
    requires r.Float? ==>
      var l := ScanLiteral(s, o).value;
      && r.negative == l.negative && r.end == |Text(l, o)| && Digital(l)
      && (|LiteralDigits(l)| <= LITERAL_BOUND ==> RoundsLiteral(f, l, r.bits))
    ensures UsualPoint(o) ==> forall l: Literal, n: nat | IsWritten(s, o, l, n) :: ReadAs(f, l, n, r)
  {
    hide DigitsValue, ScanLiteral, IsWritten, Text, Rounds;
    if UsualPoint(o) {
      forall l: Literal, n: nat | IsWritten(s, o, l, n) ensures ReadAs(f, l, n, r) {
        WrittenIsScanned(s, o, l, n);
      }
    }
  }

  lemma LiteralIsRight(f: Format, l: Literal, c: int)
    requires Digital(l) && RoundsCapped(f, l, c)
    ensures 0 <= c <= f.Infinity() && (RoundsLiteral(f, l, c) <==> ExponentIsExact(l) || SameEnd(f, l))
    ensures |LiteralDigits(l)| <= LITERAL_BOUND ==> RoundsLiteral(f, l, c)
  {
    hide DigitsValue, Rounds, RoundsLiteral, ExponentIsExact, SameEnd;
    RoundsBits(f, DigitsValue(LiteralDigits(l)), CappedPlace(l), c);
    CappedIsRight(f, l, c);
    if |LiteralDigits(l)| <= LITERAL_BOUND { ShortLiteralIsRight(f, l); }
  }
}
