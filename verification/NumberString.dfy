/** parse_number_string: a literal's digits and exponent as a 64-bit mantissa and a decimal exponent. */
module NumberString {
  import opened Wrappers
  import opened Arith
  import opened Digits
  import opened Swar
  import opened ParseMantissa
  import opened Literals

  /** An exponent stops growing once it has reached this. */
  const EXPONENT_CAP: int := 0x1000_0000
  /** minimal_nineteen_digit_integer. */
  const MINIMAL_19: nat := 1000000000000000000

  datatype ParsedNumber = ParsedNumber(valid: bool, negative: bool, exponent: int, mantissa: u64, tooManyDigits: bool,
                                       integer: seq<byte>, fraction: seq<byte>, lastMatch: nat)

  const INVALID := ParsedNumber(false, false, 0, 0, false, [], [], 0)

  // ----- the value

  predicate Digital(l: Literal) {
    AllDigits(l.integer) && AllDigits(l.fraction) && AllDigits(LiteralDigits(l)) && AllDigits(l.exponent.digits)
  }

  /** The literal's digits, without the point. */
  function LiteralDigits(l: Literal): seq<byte> {
    l.integer + l.fraction
  }

  /** The accumulated exponent digits. */
  function CappedValue(s: seq<byte>): int
    requires AllDigits(s)
  {
    if s == [] then 0 else
      var e := CappedValue(s[..|s| - 1]);
      if e < EXPONENT_CAP then 10 * e + (s[|s| - 1] - ZERO) else e
  }

  function Signed(e: Exponent, value: int): int {
    if e.sign == [MINUS] then -value else value
  }

  /** The power of ten of the literal's last digit: its value is DigitsValue(LiteralDigits(l)) * 10^LastPlace(l). */
  function LastPlace(l: Literal): int
    requires AllDigits(l.exponent.digits)
  {
    Signed(l.exponent, DigitsValue(l.exponent.digits)) - |l.fraction|
  }

  /** The same with the exponent as the parser accumulates it. */
  function CappedPlace(l: Literal): int
    requires AllDigits(l.exponent.digits)
  {
    Signed(l.exponent, CappedValue(l.exponent.digits)) - |l.fraction|
  }

  /** The exponent, without its last digit, is below the cap. */
  predicate ExponentIsExact(l: Literal)
    requires AllDigits(l.exponent.digits)
  {
    DigitsValue(l.exponent.digits) / 10 < 0x1000_0000
  }

  /** The parsed mantissa and exponent are the literal's digits, cut after 19 significant ones, and their place. */
  ghost predicate Denotes(n: ParsedNumber, l: Literal) {
    IsMantissa(n.mantissa, n.exponent, n.tooManyDigits, l)
  }

  ghost predicate IsMantissa(mantissa: nat, exponent: int, tooManyDigits: bool, l: Literal) {
    var s := StripZeros(LiteralDigits(l));
    && AllDigits(s) && AllDigits(l.exponent.digits) && (tooManyDigits <==> |s| > 19)
    && if |s| <= 19 then mantissa == DigitsValue(s) && exponent == CappedPlace(l)
       else mantissa == DigitsValue(s[..19]) && exponent == CappedPlace(l) + |s| - 19
  }

  /** The capped exponent is the exponent written exactly when that one is below ten times the cap. */
  lemma {:induction false} CappedValueExact(s: seq<byte>)
    requires AllDigits(s)
    ensures CappedValue(s) == DigitsValue(s) <==> DigitsValue(s) / 10 < 0x1000_0000
    ensures DigitsValue(s) / 10 >= 0x1000_0000 ==> 0x1000_0000 <= CappedValue(s) < DigitsValue(s)
  {
    if s != [] {
      CappedValueExact(s[..|s| - 1]);
    }
  }

  /** So that is when the place of the last digit is right; otherwise it is off by at least one in the direction of
      the exponent's sign. */
  lemma PlaceIsExact(l: Literal)
    requires AllDigits(l.exponent.digits)
    ensures CappedPlace(l) == LastPlace(l) <==> ExponentIsExact(l)
    ensures !ExponentIsExact(l) ==>
      if l.exponent.sign == [MINUS] then LastPlace(l) < CappedPlace(l) <= -0x1000_0000 - |l.fraction|
      else 0x1000_0000 - |l.fraction| <= CappedPlace(l) < LastPlace(l)
  {
    hide CappedValue, DigitsValue;
    CappedValueExact(l.exponent.digits);
  }

  lemma CappedValueEmpty(s: seq<byte>)
    requires s == []
    ensures CappedValue(s) == 0
  {
  }

  lemma CappedValueSnoc(s: seq<byte>, c: byte)
    requires AllDigits(s) && IsDigit(c)
    ensures AllDigits(s + [c])
    ensures CappedValue(s + [c]) ==
      if CappedValue(s) < EXPONENT_CAP then 10 * CappedValue(s) + (c - ZERO) else CappedValue(s)
  {
    assert (s + [c])[..|s|] == s;
  }

  // ----- the scan

  /** Once the exponent has reached the cap, further digits are skipped. */
  method ParseExponentDigits(s: seq<byte>, start: nat) returns (p: nat, expNumber: int)
    requires start <= |s|
    ensures p == RunEnd(s, start) && expNumber == CappedValue(s[start..p])
  {
    hide RunEnd, CappedValue;
    p, expNumber := start, 0;
    CappedValueEmpty(s[start..p]);
    while p != |s| && IsDigit(s[p])
      invariant start <= p <= |s| && AllDigits(s[start..p]) && expNumber == CappedValue(s[start..p])
      decreases |s| - p
    {
      assert s[start..p + 1] == s[start..p] + [s[p]];
      CappedValueSnoc(s[start..p], s[p]);
      var digit := s[p] - ZERO;
      if expNumber < EXPONENT_CAP {
        expNumber := 10 * expNumber + digit;
      }
      p := p + 1;
    }
    RunEndUnique(s, start, p);
  }

  /** The exponent at `start` and the position after it; None if the format refuses what is there. */
  method ParseExponent(s: seq<byte>, start: nat, o: Options) returns (r: Option<(int, nat)>)
    requires start <= |s|
    ensures
      var e := ScanExponent(s, start, o);
      && AllDigits(e.digits)
      && r == if ExponentAllowed(s, start, o, e)
        then Some((Signed(e, CappedValue(e.digits)), start + |e.Text()|)) else None
  {
    hide RunEnd, CappedValue, AllDigits;
    NoDigits();
    var p := start;
    if !StartsExponent(s, p, o) {
      return if o.scientific && !o.fixed then None else Some((0, p));
    }
    if IsE(s[p]) || IsD(s[p]) {
      p := p + 1;
    }
    ghost var m := p;
    var negExp := false;
    if p != |s| && s[p] == MINUS {
      negExp := true;
      p := p + 1;
    } else if p != |s| && s[p] == PLUS {
      p := p + 1;
    }
    ghost var q := p;
    assert m == AfterMark(s, start) && q == AfterSign(s, m);
    if p == |s| || !IsDigit(s[p]) {
      RunEndUnique(s, q, q);
      return if o.fixed then Some((0, start)) else None;
    }
    var expNumber;
    p, expNumber := ParseExponentDigits(s, p);
    RunEndStarts(s, q);
    assert negExp <==> s[m..q] == [MINUS];
    return Some((if negExp then -expNumber else expNumber, p));
  }

  lemma NoDigits()
    ensures AllDigits([]) && CappedValue([]) == 0
  {
  }

  lemma RunEndStarts(s: seq<byte>, p: nat)
    requires p < |s| && IsDigit(s[p])
    ensures RunEnd(s, p) > p
  {
  }

  /** One digit at a time, as the integer part is read. */
  method ParseInteger(s: seq<byte>, start: nat) returns (p: nat, i: u64)
    requires start <= |s|
    ensures p == RunEnd(s, start) && i == Accumulate(0, s[start..p])
  {
    hide Accumulate;
    p, i := start, 0;
    assert s[start..p] == [];
    DigitsValueEmpty();
    while p != |s| && IsDigit(s[p])
      invariant start <= p <= |s| && AllDigits(s[start..p]) && i == Accumulate(0, s[start..p])
      decreases |s| - p
    {
      assert s[start..p + 1] == s[start..p] + [s[p]];
      AccumulateSnoc(0, s[start..p], s[p]);
      i := (10 * i + (s[p] - ZERO)) % WORD;
      p := p + 1;
    }
    RunEndUnique(s, start, p);
  }

  /** The parts of a literal in the buffer: integer digits from a to b, then a point and fraction digits from c to d,
      or neither. */
  ghost predicate Layout(s: seq<byte>, a: nat, b: nat, c: nat, d: nat, point: byte) {
    && a <= b <= c <= d <= |s| && !IsDigit(point)
    && AllDigits(s[a..b]) && AllDigits(s[c..d]) && (d < |s| ==> !IsDigit(s[d]))
    && (if b < |s| && s[b] == point then c == b + 1 else c == b == d)
  }

  /** What the scan for the first significant digit knows at position p: only zeros so far, all of them counted off. */
  ghost predicate ZerosTo(s: seq<byte>, a: nat, b: nat, c: nat, d: nat, p: nat, count: int)
    requires a <= b <= c <= d <= |s| && a <= p <= |s|
  {
    if p <= b then AllZeros(s[a..p]) && count == (b - p) + (d - c)
    else if p <= d then c <= p && AllZeros(s[a..b]) && AllZeros(s[c..p]) && count == d - p
    else AllZeros(s[a..b]) && AllZeros(s[c..d]) && count <= 0
  }

  /** Subtract the leading zeros from the digit count. The scan may run past a literal that is all zeros. */
  method CountSignificant(s: seq<byte>, a: nat, b: nat, c: nat, d: nat, point: byte) returns (count: int)
    requires Layout(s, a, b, c, d, point)
    ensures count > 19 <==> |StripZeros(s[a..b] + s[c..d])| > 19
  {
    count := (b - a) + (d - c);
    var p := a;
    assert s[a..p] == [];
    while p != |s| && (s[p] == ZERO || s[p] == point)
      invariant a <= p <= |s| && ZerosTo(s, a, b, c, d, p, count)
      decreases |s| - p
    {
      ZerosStep(s, a, b, c, d, point, p, count);
      if s[p] == ZERO {
        count := count - 1;
      }
      p := p + 1;
    }
    ZerosEnd(s, a, b, c, d, point, p, count);
  }

  lemma ZerosStep(s: seq<byte>, a: nat, b: nat, c: nat, d: nat, point: byte, p: nat, count: int)
    requires Layout(s, a, b, c, d, point) && a <= p < |s| && ZerosTo(s, a, b, c, d, p, count)
    requires s[p] == ZERO || s[p] == point
    ensures ZerosTo(s, a, b, c, d, p + 1, if s[p] == ZERO then count - 1 else count)
  {
    if p < b {
      assert s[p] == s[a..b][p - a];
      assert s[a..p + 1] == s[a..p] + [s[p]];
    } else if p == b {
      assert s[c..c] == [];
    } else if p < d {
      assert s[p] == s[c..d][p - c];
      assert s[c..p + 1] == s[c..p] + [s[p]];
    }
  }

  lemma PrefixOfBoth(x: seq<byte>, y: seq<byte>, k: nat)
    requires k < |y|
    ensures (x + y)[..|x| + k] == x + y[..k] && (x + y)[|x| + k] == y[k]
  {
  }

  lemma ZerosEnd(s: seq<byte>, a: nat, b: nat, c: nat, d: nat, point: byte, p: nat, count: int)
    requires Layout(s, a, b, c, d, point) && a <= p <= |s| && ZerosTo(s, a, b, c, d, p, count)
    requires p < |s| ==> s[p] != ZERO && s[p] != point
    ensures count > 19 <==> |StripZeros(s[a..b] + s[c..d])| > 19
  {
    hide StripZeros, AllDigits;
    var l := s[a..b] + s[c..d];
    if p < b {
      assert l[..p - a] == s[a..p] && l[p - a] == s[p];
      StripZerosUnique(l, p - a);
    } else if b < p < d {
      PrefixOfBoth(s[a..b], s[c..d], p - c);
      assert s[c..d][..p - c] == s[c..p];
      AllZerosAppend(s[a..b], s[c..p]);
      StripZerosUnique(l, (b - a) + (p - c));
    } else {
      AllZerosAppend(s[a..b], s[c..d]);
      assert l[..|l|] == l;
      StripZerosUnique(l, |l|);
    }
  }

  /** The first 19 significant digits again, without wrapping, and the exponent of the last of them. */
  method FirstNineteen(integer: seq<byte>, fraction: seq<byte>, expNumber: int) returns (i: u64, exponent: int)
    requires AllDigits(integer) && AllDigits(fraction) && |StripZeros(integer + fraction)| > 19
    ensures AllDigits(StripZeros(integer + fraction))
    ensures i == DigitsValue(StripZeros(integer + fraction)[..19])
    ensures exponent == expNumber - |fraction| + |StripZeros(integer + fraction)| - 19
  {
    hide DigitsValue, StripZeros, Pow, ReadSoFar;
    ghost var l := integer + fraction;
    SignificantAreDigits(integer, fraction);
    NothingRead(l);
    i := 0;
    var p := 0;
    while i < MINIMAL_19 && p != |integer|
      invariant 0 <= p <= |integer| && ReadSoFar(l, p, i)
      decreases |integer| - p
    {
      NextDigit(l, p, i);
      i := i * 10 + (integer[p] - ZERO);
      p := p + 1;
    }
    if i >= MINIMAL_19 {
      exponent := |integer| - p + expNumber;
      NineteenSignificant(l, p, i);
    } else {
      p := 0;
      while i < MINIMAL_19 && p != |fraction|
        invariant 0 <= p <= |fraction| && ReadSoFar(l, |integer| + p, i)
        decreases |fraction| - p
      {
        NextDigit(l, |integer| + p, i);
        i := i * 10 + (fraction[p] - ZERO);
        p := p + 1;
      }
      exponent := -p + expNumber;
      if p == |fraction| { AtLeastNineteen(l, |integer| + p, i); }
      NineteenSignificant(l, |integer| + p, i);
    }
  }

  /** The first p digits make the number i, which has at most 19 of its own. */
  ghost predicate ReadSoFar(l: seq<byte>, p: nat, i: nat) {
    AllDigits(l) && p <= |l| && i == DigitsValue(l[..p]) < 10 * MINIMAL_19
  }

  lemma NothingRead(l: seq<byte>)
    requires AllDigits(l)
    ensures ReadSoFar(l, 0, 0)
  {
    assert l[..0] == [];
    DigitsValueEmpty();
  }

  lemma SignificantAreDigits(integer: seq<byte>, fraction: seq<byte>)
    requires AllDigits(integer) && AllDigits(fraction)
    ensures AllDigits(integer + fraction) && AllDigits(StripZeros(integer + fraction))
  {
    StripZerosValue(integer + fraction);
  }

  lemma NextDigit(l: seq<byte>, p: nat, i: nat)
    requires ReadSoFar(l, p, i) && p < |l| && i < MINIMAL_19
    ensures ReadSoFar(l, p + 1, i * 10 + (l[p] - ZERO)) && 0 <= l[p] - ZERO <= 9
  {
    assert l[..p + 1] == l[..p] + [l[p]];
    DigitsValueSnoc(l[..p], l[p]);
  }

  /** Leading zeros stripped, the number stays the same. */
  lemma StripZerosValue(l: seq<byte>)
    requires AllDigits(l)
    ensures AllDigits(StripZeros(l)) && DigitsValue(StripZeros(l)) == DigitsValue(l)
  {
    hide DigitsValue;
    var s := StripZeros(l);
    var k := |l| - |s|;
    assert l == l[..k] + s;
    assert AllDigits(s);
    LeadingZerosValue(l[..k], s);
  }

  lemma AtLeastNineteen(l: seq<byte>, p: nat, i: nat)
    requires ReadSoFar(l, p, i) && |StripZeros(l)| > 19 && p == |l|
    ensures i >= MINIMAL_19
  {
    hide DigitsValue, StripZeros, Pow;
    assert l[..p] == l;
    StripZerosValue(l);
    var s := StripZeros(l);
    StripZerosHead(l);
    LeadingDigit(s);
    PowMonotone(10, 18, |s| - 1);
    PowersOfTenTable(18);
  }

  lemma StripZerosHead(l: seq<byte>)
    ensures StripZeros(l) != [] ==> StripZeros(l)[0] != ZERO
  {
  }

  /** A prefix with a 19-digit value consists of the leading zeros and the first 19 significant digits. */
  lemma NineteenSignificant(l: seq<byte>, p: nat, i: nat)
    requires ReadSoFar(l, p, i) && i >= MINIMAL_19
    ensures AllDigits(StripZeros(l)) && |StripZeros(l)| >= 19
    ensures p == |l| - |StripZeros(l)| + 19 && i == DigitsValue(StripZeros(l)[..19])
  {
    hide DigitsValue, Pow;
    var s := StripZeros(l);
    var k := |l| - |s|;
    if p <= k {
      assert l[..p] == l[..k][..p];
      LeadingZerosValue(l[..p], []);
    } else {
      var head := s[..p - k];
      assert l[..p] == l[..k] + head;
      assert head[0] == l[k];
      LeadingZerosValue(l[..k], head);
      LeadingDigit(head);
      PowersOfTenTable(18);
      PowersOfTenTable(19);
      if |head| < 19 { PowMonotone(10, |head|, 18); }
      if |head| > 19 { PowMonotone(10, 19, |head| - 1); }
    }
  }

  /** With at most 19 significant digits the wrapped accumulator never wrapped. */
  lemma ShortIsExact(l: seq<byte>)
    requires AllDigits(l) && |StripZeros(l)| <= 19
    ensures AllDigits(StripZeros(l)) && Accumulate(0, l) == DigitsValue(StripZeros(l))
  {
    hide DigitsValue, Pow, StripZeros, Accumulate;
    StripZerosValue(l);
    DigitsValueBound(StripZeros(l));
    NineteenDigits(|StripZeros(l)|);
    AccumulateExact(l);
  }

  lemma MantissaIs(mantissa: nat, exponent: int, tooManyDigits: bool, l: Literal)
    requires Digital(l)
    requires var s := StripZeros(LiteralDigits(l)); tooManyDigits <==> |s| > 19
    requires !tooManyDigits ==> mantissa == Accumulate(0, LiteralDigits(l)) && exponent == CappedPlace(l)
    requires tooManyDigits ==>
      var s := StripZeros(LiteralDigits(l));
      AllDigits(s) && mantissa == DigitsValue(s[..19]) && exponent == CappedPlace(l) + |s| - 19
    ensures IsMantissa(mantissa, exponent, tooManyDigits, l)
  {
    hide DigitsValue, Accumulate;
    if !tooManyDigits {
      ShortIsExact(LiteralDigits(l));
    }
  }

  /** More than 19 digits may have wrapped the accumulator: unless only leading zeros are to blame, the first 19
      significant ones are read again. */
  method Mantissa(s: seq<byte>, a: nat, b: nat, c: nat, d: nat, point: byte, acc: u64, expNumber: int, ghost l: Literal)
      returns (i: u64, exponent: int, tooManyDigits: bool)
    requires Layout(s, a, b, c, d, point) && Digital(l) && l.integer == s[a..b] && l.fraction == s[c..d]
    requires acc == Accumulate(0, LiteralDigits(l)) && expNumber == Signed(l.exponent, CappedValue(l.exponent.digits))
    ensures IsMantissa(i, exponent, tooManyDigits, l)
  {
    hide Accumulate, DigitsValue, IsMantissa, StripZeros, CappedValue;
    var digitCount := (b - a) + (d - c);
    i, exponent, tooManyDigits := acc, expNumber - (d - c), false;
    if digitCount > 19 {
      digitCount := CountSignificant(s, a, b, c, d, point);
      if digitCount > 19 {
        tooManyDigits := true;
        i, exponent := FirstNineteen(s[a..b], s[c..d], expNumber);
      }
    }
    MantissaIs(i, exponent, tooManyDigits, l);
  }

  /** What the scan decides, in terms of where the parts end. */
  lemma GreedyIs(s: seq<byte>, o: Options)
    requires s != []
    ensures
      var (a, b, c, d) := Cuts(s, o);
      var l := Greedy(s, o);
      && Digital(l) && l.negative == (s[0] == MINUS) && l.integer == s[a..b] && l.fraction == s[c..d]
      && l.exponent == ScanExponent(s, d, o) && |Text(l, o)| == d + |l.exponent.Text()|
      && (ScanLiteral(s, o) == if
          && b - a + (d - c) > 0
          && (o.json ==> b > a && (s[a] == ZERO ==> b - a == 1) && (c > b ==> d > c))
          && ExponentAllowed(s, d, o, l.exponent)
        then Some(l) else None)
  {
    hide RunEnd, ScanExponent, Cuts, ExponentAllowed, IsExponent;
    CutsAre(s, o);
    var (a, b, c, d) := Cuts(s, o);
    ScannedExponent(s, d, o);
    ExponentDigitsAre(ScanExponent(s, d, o), o);
  }

  /** Where the parts are that the method finds one after the other. */
  lemma PartsAre(s: seq<byte>, o: Options)
    requires s != [] && !IsDigit(o.decimalPoint)
    ensures
      var (a, b, c, d) := Cuts(s, o);
      && a == (if s[0] == MINUS then 1 else 0) && b == RunEnd(s, a)
      && c == (if b < |s| && s[b] == o.decimalPoint then b + 1 else b) && d == (if c > b then RunEnd(s, c) else b)
      && (a < |s| && !IsDigit(s[a]) ==> b == a) && (a == |s| ==> b == a)
      && Layout(s, a, b, c, d, o.decimalPoint)
      && AllDigits(s[a..b]) && AllDigits(s[c..d]) && AllDigits(s[a..b] + s[c..d])
  {
    hide RunEnd, ScanExponent;
    CutsAre(s, o);
  }

  lemma ExponentDigitsAre(e: Exponent, o: Options)
    requires IsExponent(e, o)
    ensures AllDigits(e.digits)
  {
  }

  /** The accumulator goes through both runs as through one; without a point there is only the first. */
  lemma BothRuns(integer: seq<byte>, fraction: seq<byte>, hasPoint: bool)
    requires AllDigits(integer) && AllDigits(fraction) && AllDigits(integer + fraction) && (hasPoint || fraction == [])
    ensures Accumulate(0, integer + fraction) ==
      if hasPoint then Accumulate(Accumulate(0, integer), fraction) else Accumulate(0, integer)
  {
    AccumulateAppend(0, integer, fraction);
    if !hasPoint { assert integer + fraction == integer; }
  }

  /** parse_number_string, step by step. */
  method ScanNumber(s: seq<byte>, o: Options) returns (answer: ParsedNumber)
    requires |s| > 0 && !IsDigit(o.decimalPoint)
    ensures answer.valid <==> ScanLiteral(s, o).Some?
    ensures answer.valid ==>
      var l := ScanLiteral(s, o).value;
      && answer.negative == l.negative && answer.integer == l.integer && answer.fraction == l.fraction
      && answer.lastMatch == |Text(l, o)| && Denotes(answer, l)
  {
    hide Accumulate, DigitsValue, ScanExponent, IsMantissa, RunEnd, StripZeros, CappedValue, Text, Cuts, PointPart,
      ScanLiteral, ExponentAllowed, AllDigits, Digital, Layout, Greedy;
    ghost var l := Greedy(s, o);
    PartsAre(s, o);
    GreedyIs(s, o);
    var p := 0;
    var negative := s[p] == MINUS;
    if negative {
      p := p + 1;
      if p == |s| { return INVALID; }
      if o.json {
        if !IsDigit(s[p]) { return INVALID; }
      } else if !IsDigit(s[p]) && s[p] != o.decimalPoint {
        return INVALID;
      }
    }
    var startDigits := p;
    var i;
    p, i := ParseInteger(s, p);
    var endOfInteger := p;
    var digitCount := endOfInteger - startDigits;
    if o.json && (digitCount == 0 || (s[startDigits] == ZERO && digitCount > 1)) {
      return INVALID;
    }
    var hasPoint := p != |s| && s[p] == o.decimalPoint;
    var before := p;
    if hasPoint {
      p := p + 1;
      before := p;
      p, i := ParseDigitRun(s, p, i);
      digitCount := digitCount + (p - before);
    }
    if o.json {
      if hasPoint && p == before { return INVALID; }
    } else if digitCount == 0 {
      return INVALID;
    }
    var integer, fraction := s[startDigits..endOfInteger], s[before..p];
    BothRuns(integer, fraction, hasPoint);
    var r := ParseExponent(s, p, o);
    if r.None? { return INVALID; }
    var (expNumber, end) := r.value;
    var exponent, tooManyDigits;
    i, exponent, tooManyDigits := Mantissa(s, startDigits, endOfInteger, before, p, o.decimalPoint, i, expNumber, l);
    return ParsedNumber(true, negative, exponent, i, tooManyDigits, integer, fraction, end);
  }

  /** The whole text: the longest literal at its front, if the format allows that one, and its value. */
  method ParseNumberString(s: seq<byte>, o: Options) returns (answer: ParsedNumber)
    requires |s| > 0 && !IsDigit(o.decimalPoint)
    ensures answer.valid <==> ScanLiteral(s, o).Some?
    ensures answer.valid ==>
      var l := ScanLiteral(s, o).value;
      && answer.negative == l.negative && answer.integer == l.integer && answer.fraction == l.fraction
      && answer.lastMatch == |Text(l, o)| && Denotes(answer, l)
    ensures UsualPoint(o) ==> (answer.valid <==> exists l :: LongestParse(s, o, l) && Allowed(s, o, l))
    ensures UsualPoint(o) && answer.valid ==> forall l :: LongestParse(s, o, l) ==> Denotes(answer, l)
  {
    hide Accumulate, DigitsValue, ScanExponent, Denotes, RunEnd, StripZeros, CappedValue, LongestParse, UsualPoint,
      ScanLiteral;
    answer := ScanNumber(s, o);
    if UsualPoint(o) {
      TheLongestParse(s, o);
    }
  }

  lemma TheLongestParse(s: seq<byte>, o: Options)
    requires |s| > 0 && UsualPoint(o)
    ensures ScanLiteral(s, o).Some? <==> exists l :: LongestParse(s, o, l) && Allowed(s, o, l)
    ensures ScanLiteral(s, o).Some? ==> forall l :: LongestParse(s, o, l) ==> ScanLiteral(s, o) == Some(l)
  {
    hide LongestParse, ScanLiteral, Allowed, UsualPoint;
    forall l ensures ScanLiteral(s, o) == Some(l) <==> LongestParse(s, o, l) && Allowed(s, o, l) {
      ScanIsLongestParse(s, o, l);
    }
    if ScanLiteral(s, o).Some? {
      forall l | LongestParse(s, o, l) ensures ScanLiteral(s, o) == Some(l) {
        LongestIsUnique(s, o, l, ScanLiteral(s, o).value);
      }
    }
  }

  // ----- what the mantissa and exponent say about the value

  /** Without too many digits, mantissa * 10^exponent is the literal's value, the same digits at the same place, exactly
      if the exponent is below the cap. */
  lemma ValueIsExact(n: ParsedNumber, l: Literal)
    requires AllDigits(LiteralDigits(l)) && Denotes(n, l) && !n.tooManyDigits
    ensures n.mantissa == DigitsValue(LiteralDigits(l)) && n.exponent == CappedPlace(l)
    ensures n.exponent == LastPlace(l) <==> ExponentIsExact(l)
  {
    hide DigitsValue, CappedPlace, LastPlace, ExponentIsExact;
    StripZerosValue(LiteralDigits(l));
    PlaceIsExact(l);
  }

  /** With too many, the 19-digit mantissa brackets the value: m * 10^exponent <= value < (m + 1) * 10^exponent. The
      place counted from is the literal's exactly if the exponent is below the cap. */
  lemma ValueIsBracketed(n: ParsedNumber, l: Literal)
    requires AllDigits(LiteralDigits(l)) && Denotes(n, l) && n.tooManyDigits
    ensures MINIMAL_19 <= n.mantissa < 10 * MINIMAL_19
    ensures n.exponent >= CappedPlace(l) && (CappedPlace(l) == LastPlace(l) <==> ExponentIsExact(l))
    ensures
      var k := n.exponent - CappedPlace(l);
      n.mantissa * Pow(10, k) <= DigitsValue(LiteralDigits(l)) < (n.mantissa + 1) * Pow(10, k)
  {
    hide DigitsValue, Pow, CappedPlace, LastPlace, ExponentIsExact, StripZeros;
    StripZerosValue(LiteralDigits(l));
    StripZerosHead(LiteralDigits(l));
    PlaceIsExact(l);
    NineteenBracket(StripZeros(LiteralDigits(l)));
  }

  lemma NineteenBracket(s: seq<byte>)
    requires AllDigits(s) && |s| > 19 && s[0] != ZERO
    ensures MINIMAL_19 <= DigitsValue(s[..19]) < 10 * MINIMAL_19
    ensures
      var m, k := DigitsValue(s[..19]), |s| - 19;
      m * Pow(10, k) <= DigitsValue(s) < (m + 1) * Pow(10, k)
  {
    hide DigitsValue, Pow, AllDigits, IsDigit;
    var head, rest := s[..19], s[19..];
    SplitDigits(s, 19);
    DigitsValueAppend(head, rest);
    DigitsValueBound(rest);
    LeadingDigit(head);
    PowersOfTenTable(18);
    PowersOfTenTable(19);
    MulDistributes(DigitsValue(head), 1, Pow(10, |rest|));
  }

  lemma SplitDigits(s: seq<byte>, k: nat)
    requires AllDigits(s) && k <= |s|
    ensures AllDigits(s[..k]) && AllDigits(s[k..]) && s == s[..k] + s[k..]
  {
  }
}
