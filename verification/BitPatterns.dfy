/** The interchange formats of section 3.4 of IEEE 754-2019, by their bits: which pattern each number has. */
module BitPatterns {
  import opened Arith
  import opened Digits
  import opened FloatFormat
  import opened PowersOfFive
  import opened FastProduct
  import opened FastRounding
  import opened FastPath
  import opened Literals
  import opened LiteralText
  import opened ComputeFloat
  import opened FromChars

  // ----- the fields of a pattern without its sign

  /** 2^52 for binary64, 2^23 for binary32: the values of the trailing significand field. */
  function FieldSize(f: Format): nat { if f.Double? then 0x10_0000_0000_0000 else 0x80_0000 }

  /** The pattern of infinity, 0x7FF or 0xFF in the exponent field. */
  function InfinityBits(f: Format): nat { if f.Double? then 0x7FF0_0000_0000_0000 else 0x7F80_0000 }

  /** A finite pattern stands for Significand * 2^Place: the implicit bit is there unless the exponent field is zero. */
  function Significand(f: Format, c: nat): nat {
    if c < FieldSize(f) then c else FieldSize(f) + c % FieldSize(f)
  }

  function Place(f: Format, c: nat): int {
    (if c < FieldSize(f) then 1 else c / FieldSize(f)) - (if f.Double? then 1075 else 150)
  }

  lemma FormatIs(f: Format)
    ensures f.Hidden() == FieldSize(f) && f.Infinity() == InfinityBits(f)
    ensures f.Bias() == if f.Double? then 1075 else 150
  {
    hide Pow, Format.Hidden;
    HiddenIs(f);
  }

  lemma PatternUnits(f: Format, c: nat)
    ensures Place(f, c) + f.Bias() >= 1
    ensures Units(f, c) == Significand(f, c) * Pow(2, Place(f, c) + f.Bias() - 1)
  {
    FormatIs(f);
    PowZeros();
    DivModDefinition(c, FieldSize(f));
    if c >= FieldSize(f) { MulOrder(c / FieldSize(f), 0, FieldSize(f)); }
    hide Pow, Format.Hidden, Format.Bias;
  }

  /** The exact number of a finite pattern, as a decimal: its significand times a power of two, or of five over ten. */
  ghost function ExactDigits(f: Format, c: nat): nat {
    var k := Place(f, c);
    Significand(f, c) * (if k >= 0 then Pow(2, k) else Pow(5, -k))
  }

  ghost function ExactPlace(f: Format, c: nat): int {
    Min(Place(f, c), 0)
  }

  /** Every finite pattern is the correctly rounded one of its own number. */
  lemma OwnPattern(f: Format, c: nat)
    requires c < InfinityBits(f)
    ensures Rounds(f, ExactDigits(f, c), ExactPlace(f, c), c)
  {
    hide Pow, Units, NearestEven, Format.Hidden, Format.Bias, Format.Infinity, Significand, Place;
    FormatIs(f);
    PatternUnits(f, c);
    var (k, m, b) := (Place(f, c), Significand(f, c), f.Bias());
    var den := Pow(10, Max(-k, 0));
    FloatIsNearest(f, c, den);
    PowZeros();
    TenToNone();
    if k >= 0 {
      PowAdd(2, k, b - 1);
      MulAssoc(m, Pow(2, k), Pow(2, b - 1));
    } else {
      PowAdd(2, k + b - 1, -k);
      PowProduct(5, 2, -k);
      FivesOut(m, Pow(2, k + b - 1), Pow(5, -k), Pow(2, -k), Pow(2, b - 1));
    }
  }

  lemma TenToNone()
    ensures Pow(10, 0) == 1
  {
  }

  lemma FivesOut(m: nat, two: nat, five: nat, rest: nat, unit: nat)
    requires two * rest == unit
    ensures (m * two) * (five * rest) == (m * five) * unit
  {
    MulInterchange(m, two, five, rest);
  }

  // ----- some patterns

  /** 1 is 0x3FF0000000000000, or 0x3F800000. */
  lemma OneIs(f: Format, c: nat)
    requires Rounds(f, 1, 0, c)
    ensures c == if f.Double? then 0x3FF0_0000_0000_0000 else 0x3F80_0000
  {
    hide Pow, NearestEven, Rounds;
    var one := if f.Double? then 0x3FF0_0000_0000_0000 else 0x3F80_0000;
    var p: int := if f.Double? then 52 else 23;
    assert Significand(f, one) == FieldSize(f) && Place(f, one) == -p;
    OwnPattern(f, one);
    PowerOf2Is(p);
    PowProduct(5, 2, p);
    TenToNone();
    RoundsAs(f, Pow(10, p), -p, one, p);
    RoundsAs(f, 1, 0, one, p);
    assert ExactDigits(f, one) == Pow(10, p);
    RoundsUnique(f, 1, 0, c, one);
  }

  /** The smallest subnormal is what 5e-324, or 1e-45, is nearest to. */
  lemma SmallestIs(f: Format, c: nat)
    requires if f.Double? then Rounds(f, 5, -324, c) else Rounds(f, 1, -45, c)
    ensures c == 1
  {
    hide Pow, NearestEven, Units;
    UnitsSubnormalOnes(f);
    if f.Double? {
      Near5e324();
      BetweenRounds(f, 5 * Pow(2, 1074), Pow(10, 324), 1, false);
      NearestUnique(f, 5 * Pow(2, 1074), Pow(10, 324), c, 1);
    } else {
      Near1e45();
      BetweenRounds(f, Pow(2, 149), Pow(10, 45), 0, true);
      NearestUnique(f, Pow(2, 149), Pow(10, 45), c, 1);
    }
  }

  lemma UnitsSubnormalOnes(f: Format)
    ensures Units(f, 0) == 0 && Units(f, 1) == 1 && Units(f, 2) == 2 && f.Infinity() > 2
  {
    hide Pow, Units, Format.Hidden;
    FormatIs(f);
    UnitsSubnormal(f, 0);
    UnitsSubnormal(f, 1);
    UnitsSubnormal(f, 2);
  }

  lemma Near5e324()
    ensures Pow(10, 324) <= 5 * Pow(2, 1074) && 10 * Pow(2, 1074) < 3 * Pow(10, 324)
  {
    hide Pow;
    PowProduct(5, 2, 324);
    PowStep(5, 323);
    PowAdd(2, 750, 324);
    assert Pow(5, 323) <= Pow(2, 750) by { FiveTo323(); }
    assert Pow(2, 751) < 3 * Pow(5, 323) by { FiveTo323(); }
    PowStep(2, 750);
    NearArithmetic(Pow(5, 323), Pow(2, 750), Pow(2, 324));
  }

  lemma NearArithmetic(five: nat, two: nat, rest: nat)
    requires five <= two && 2 * two < 3 * five && rest > 0
    ensures (5 * five) * rest <= 5 * (two * rest) && 10 * (two * rest) < 3 * ((5 * five) * rest)
  {
    MulOrder(five, two, rest);
    MulOrder(2 * two, 3 * five, rest);
    MulAssoc(5, five, rest);
    MulAssoc(2, two, rest);
    MulAssoc(3, five, rest);
  }

  lemma FiveTo323()
    ensures Pow(5, 323) <= Pow(2, 750) && Pow(2, 751) < 3 * Pow(5, 323)
  {
    hide Pow, Top, Bottom, IsRow;
    RowOf323();
    PowersOfFiveAtLeast(11);
    PowerOf5Is(15);
    PowerOf2Is(36);
    PowAdd(5, 308, 15);
    PowAdd(2, 715, 36);
    MulOrder(Pow(2, 715), Pow(5, 308), Pow(5, 15));
    MulOrder(Pow(2, 36), 3 * Pow(5, 15), Pow(2, 715));
    MulAssoc(3, Pow(5, 15), Pow(2, 715));
    MulAssoc(3, Pow(5, 15), Pow(5, 308));
  }

  /** The table's row for 5^-323 is at least 2^127. */
  lemma RowOf323()
    ensures Pow(5, 323) <= Pow(2, 750)
  {
    hide Pow, KeepsAway, NoFalseTie, Top, Bottom;
    var row := PowerTable.PowerOfFive128(-323);
    LogIs(-750, -323);
    BottomAtMostZero(-323);
    PowerOf2Is(63);
    WordIsPow2();
    PowAdd(2, 64, 63);
    PowAdd(2, 127, 750);
    MulOrder(Pow(2, 127), row.Whole(), Pow(5, 323));
    MulOrder(Pow(5, 323), Pow(2, 750), Pow(2, 127));
  }

  lemma Near1e45()
    ensures Pow(2, 149) < Pow(10, 45) < 2 * Pow(2, 149)
  {
    hide Pow;
    PowProduct(5, 2, 45);
    PowAdd(2, 104, 45);
    PowAdd(5, 28, 17);
    PowerOf5Is(28);
    PowerOf5Is(17);
    PowAdd(2, 52, 52);
    PowerOf2Is(52);
    MulOrder(Pow(2, 104), Pow(5, 45), Pow(2, 45));
    MulOrder(Pow(5, 45), 2 * Pow(2, 104), Pow(2, 45));
    MulAssoc(2, Pow(2, 104), Pow(2, 45));
  }

  /** The largest finite number is all ones below the last bit of the exponent field. */
  lemma LargestIs(f: Format, c: nat)
    requires f.Double? ==> Rounds(f, 0x1F_FFFF_FFFF_FFFF * Pow(2, 971), 0, c)
    requires f.Single? ==> Rounds(f, 0xFF_FFFF * Pow(2, 104), 0, c)
    ensures c == if f.Double? then 0x7FEF_FFFF_FFFF_FFFF else 0x7F7F_FFFF
  {
    hide Pow, NearestEven, Rounds;
    var max := if f.Double? then 0x7FEF_FFFF_FFFF_FFFF else 0x7F7F_FFFF;
    assert Significand(f, max) == (if f.Double? then 0x1F_FFFF_FFFF_FFFF else 0xFF_FFFF);
    assert Place(f, max) == (if f.Double? then 971 else 104);
    OwnPattern(f, max);
    RoundsUnique(f, ExactDigits(f, max), 0, c, max);
  }

  /** Twice that is infinity. */
  lemma TwiceLargestIs(f: Format, c: nat)
    requires f.Double? ==> Rounds(f, 0x1F_FFFF_FFFF_FFFF * Pow(2, 972), 0, c)
    requires f.Single? ==> Rounds(f, 0xFF_FFFF * Pow(2, 105), 0, c)
    ensures c == InfinityBits(f)
  {
    hide Pow, NearestEven, Units;
    FormatIs(f);
    PatternUnits(f, InfinityBits(f));
    TenToNone();
    var k := if f.Double? then 972 else 105;
    var m := if f.Double? then 0x1F_FFFF_FFFF_FFFF else 0xFF_FFFF;
    assert Significand(f, InfinityBits(f)) == FieldSize(f) && Place(f, InfinityBits(f)) == k;
    var num := (m * Pow(2, k)) * Pow(2, f.Bias() - 1);
    PowAdd(2, k, f.Bias() - 1);
    MulAssoc(m, Pow(2, k), Pow(2, f.Bias() - 1));
    MulOrder(FieldSize(f), m, Pow(2, k + f.Bias() - 1));
    NearestInfinity(f, num, 1);
    NearestUnique(f, num, 1, c, f.Infinity());
  }

  // ----- texts

  /** A text that spells out the exact number of a finite pattern is read as that pattern. */
  method ReadExactText(f: Format, h: Machine, s: seq<byte>, o: Options, ghost l: Literal, ghost n: nat, ghost c: nat)
      returns (r: FloatResult)
    requires IsIeee(f, h) && UsualPoint(o) && IsWritten(s, o, l, n) && |l.integer + l.fraction| <= 0x800_0000
    requires c < InfinityBits(f)
    requires Decimal(l.integer) && Decimal(l.fraction) && Decimal(l.exponent.digits)
    requires WrittenDigits(l) == ExactDigits(f, c) && WrittenPlace(l) == ExactPlace(f, c)
    ensures r.Float? && r.negative == l.negative && r.end == n && r.bits == c
  {
    hide IsIeee, IsWritten, Rounds, Significand, Place, ExactDigits, ExactPlace;
    r := FromChars.FromChars(f, h, s, o);
    assert ReadAs(f, l, n, r);
    OwnPattern(f, c);
    RoundsBits(f, WrittenDigits(l), WrittenPlace(l), r.bits);
    RoundsUnique(f, WrittenDigits(l), WrittenPlace(l), r.bits, c);
  }

  lemma OneIsWritten(o: Options)
    requires UsualPoint(o) && o.fixed
    ensures
      var l := Literal(false, [0x31], false, [], NO_EXPONENT);
      IsWritten([0x31], o, l, 1) && WrittenDigits(l) == 1 && WrittenPlace(l) == 0
  {
    var text: seq<byte> := [0x31];
    var none: seq<byte> := [];
    assert Front(false, text, false, none, o) + (none + none + none) == text;
    assert text[1..] == none && text + none == text && none + text == text;
    DigitsValueEmpty();
    DigitsValueSnoc(none, 0x31);
  }

  /** The text "1". */
  method ReadOne(f: Format, h: Machine, o: Options) returns (r: FloatResult)
    requires IsIeee(f, h) && UsualPoint(o) && o.fixed
    ensures r.Float? && !r.negative && r.end == 1 && !r.outOfRange
    ensures r.bits == if f.Double? then 0x3FF0_0000_0000_0000 else 0x3F80_0000
  {
    hide IsIeee, Rounds, IsExponentPart;
    var s: seq<byte> := [0x31];
    ghost var l := Literal(false, s, false, [], NO_EXPONENT);
    OneIsWritten(o);
    r := FromChars.FromChars(f, h, s, o);
    assert ReadAs(f, l, 1, r);
    RoundsBits(f, 1, 0, r.bits);
    OneIs(f, r.bits);
    FormatIs(f);
  }
}
