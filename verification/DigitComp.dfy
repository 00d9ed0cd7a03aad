/** The slow path: rounding by comparing exact big integers (positive_digit_comp and negative_digit_comp). */
module DigitComp {
  import opened Arith
  import opened LimbValue
  import opened LimbOps
  import opened BigInt
  import opened FloatFormat
  import opened Rounding
  import opened RoundingCorrect
  import opened Halfway

  /** A whole number with a non-negative decimal exponent: its top 64 bits and a sticky bit decide. */
  method PositiveDigitComp(f: Format, bigmant: StackVec, exponent: nat) returns (answer: AdjustedMantissa)
    requires bigmant.Valid() && Normalized(bigmant.Limbs()) && bigmant.Number() > 0
    requires Scaled(bigmant.Number(), 10, exponent) < Limit()
    modifies bigmant`length, bigmant.data
    ensures fresh(answer)
    ensures Rounds(f, old(bigmant.Number()), exponent, answer.Bits(f)) && Finished(f, answer.mantissa, answer.power2)
  {
    hide Value, Pow, Limit, Scaled, IsHi64, BitLength, Rounds, RoundedCode;
    ghost var n := bigmant.Number();
    NormalizedZero(bigmant.Limbs());
    var _ := bigmant.Pow10(exponent);
    ghost var s := bigmant.Limbs();
    var hi, truncated := bigmant.Hi64();
    BitLengthCorrect(s);
    var power2 := BitLength(bigmant.data[..bigmant.length]) - 64 + f.Bias();
    assert bigmant.data[..bigmant.length] == s;
    answer := new AdjustedMantissa(hi, power2);
    Hi64Window(f, Value(s), BitLength(s), hi, truncated);
    StickyRounding(f, hi, power2, WholeUnits(f, Value(s)), 1, truncated);
    Round(f, answer, TieEven(TruncatedTieEven(truncated)));
    WholeRounds(f, n, exponent, answer.Bits(f));
  }

  method NegativeDigitComp(f: Format, bigmant: StackVec, am: AdjustedMantissa, exponent: int)
    returns (answer: AdjustedMantissa)
    requires bigmant.Valid() && Normalized(bigmant.Limbs()) && bigmant.Number() > 0
    requires am.mantissa >= TOP_BIT
    requires SlowPathInput(f, bigmant.Number(), exponent, am.mantissa, am.power2)
    modifies bigmant`length, bigmant.data
    ensures fresh(answer)
    ensures Rounds(f, old(bigmant.Number()), exponent, answer.Bits(f)) && Finished(f, answer.mantissa, answer.power2)
  {
    hide Value, Pow, Limit, Scaled, ToExtendedHalfway, HalfwayDigits, RealDigits, SlowPathInput, Rounds, RoundedCode,
      FloorCode, GoesUp;
    ghost var n, x, e := bigmant.Number(), am.mantissa, am.power2;
    var amB := new AdjustedMantissa(am.mantissa, am.power2);
    Round(f, amB, Down);
    FloorIsFinite(f, n, exponent, x, e);
    var b: nat := amB.Bits(f);
    assert b == FloorCode(f, x, e);
    var (theorMantissa, theorExp) := ToExtendedHalfway(f, b);
    var pow2Exp, pow5Exp := theorExp - exponent, -exponent;
    HalfwayFits(f, n, exponent, x, e);
    ScalingSteps(n, theorMantissa, pow5Exp, pow2Exp);
    var theorDigits := new StackVec.FromWord(theorMantissa);
    if pow5Exp != 0 {
      var _ := theorDigits.Pow5(pow5Exp);
    }
    HalfwayIsMidpoint(f, b);
    ScaledSign(theorMantissa, 5, pow5Exp);
    NormalizedZero(theorDigits.Limbs());
    NormalizedZero(bigmant.Limbs());
    if pow2Exp > 0 {
      var _ := theorDigits.Shl(pow2Exp);
    } else if pow2Exp < 0 {
      var _ := bigmant.Shl(-pow2Exp);
    }
    assert bigmant.Number() == RealDigits(n, pow2Exp);
    assert theorDigits.Number() == HalfwayDigits(theorMantissa, pow5Exp, pow2Exp);
    var ord := bigmant.Compare(theorDigits);
    answer := new AdjustedMantissa(am.mantissa, am.power2);
    Round(f, answer, TieEven(OrdTieEven(ord)));
    OrdDecides(f, n, exponent, x, e, ord);
  }
}
