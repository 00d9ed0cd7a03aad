/** What the scan does with texts, character by character: each kind of literal is read to its end, with its value. */
module LiteralText {
  import opened Wrappers
  import opened Digits
  import opened Literals
  import opened NumberString

  /** Characters '0' to '9' only. */
  predicate Decimal(s: seq<byte>) {
    forall k :: 0 <= k < |s| ==> 0x30 <= s[k] <= 0x39
  }

  /** An optional '-', digits, and an optional point with more digits; for JSON the point only between digits, and no
      zero before another digit. */
  predicate IsFront(i: seq<byte>, hasPoint: bool, f: seq<byte>, o: Options) {
    && Decimal(i) && Decimal(f) && i + f != [] && (!hasPoint ==> f == [])
    && (o.json ==> i != [] && (|i| > 1 ==> i[0] != 0x30) && (hasPoint ==> f != []))
  }

  function Front(negative: bool, i: seq<byte>, hasPoint: bool, f: seq<byte>, o: Options): seq<byte> {
    (if negative then [0x2D] else []) + i + (if hasPoint then [o.decimalPoint] + f else [])
  }

  /** Where the digits cannot go on. */
  predicate NoDigitAt(s: seq<byte>, p: nat) {
    p < |s| ==> s[p] < 0x30 || 0x39 < s[p]
  }

  /** The front of a text is cut into its parts. */
  lemma FrontIsCut(negative: bool, i: seq<byte>, hasPoint: bool, f: seq<byte>, rest: seq<byte>, o: Options)
    requires UsualPoint(o) && IsFront(i, hasPoint, f, o)
    requires NoDigitAt(rest, 0) && (!hasPoint && rest != [] ==> rest[0] != o.decimalPoint)
    ensures
      var s, d := Front(negative, i, hasPoint, f, o) + rest, |Front(negative, i, hasPoint, f, o)|;
      && s != [] && Cuts(s, o).3 == d && s[d..] == rest
      && Greedy(s, o) == Literal(negative, i, hasPoint, f, ScanExponent(s, d, o))
  {
    hide ScanExponent, RunEnd;
    var front := Front(negative, i, hasPoint, f, o);
    var (s, a, b, d) := (front + rest, if negative then 1 else 0, (if negative then 1 else 0) + |i|, |front|);
    FrontParts(negative, i, hasPoint, f, rest, o);
    RunEndUnique(s, a, b);
    if hasPoint { RunEndUnique(s, b + 1, d); }
  }

  lemma FrontParts(negative: bool, i: seq<byte>, hasPoint: bool, f: seq<byte>, rest: seq<byte>, o: Options)
    requires UsualPoint(o) && IsFront(i, hasPoint, f, o)
    requires NoDigitAt(rest, 0) && (!hasPoint && rest != [] ==> rest[0] != o.decimalPoint)
    ensures
      var front := Front(negative, i, hasPoint, f, o);
      var (s, a, b, d) := (front + rest, if negative then 1 else 0, (if negative then 1 else 0) + |i|, |front|);
      && b <= d && s != [] && (s[0] == MINUS <==> negative) && s[a..b] == i && s[d..] == rest
      && (b < |s| ==> !IsDigit(s[b])) && (d < |s| ==> !IsDigit(s[d]))
      && (hasPoint <==> b < |s| && s[b] == o.decimalPoint)
      && (if hasPoint then b + 1 <= d && s[b + 1..d] == f else d == b)
  {
    var front := Front(negative, i, hasPoint, f, o);
    var (s, b, d) := (front + rest, (if negative then 1 else 0) + |i|, |front|);
    if hasPoint {
      assert s[b] == o.decimalPoint;
      assert s[b + 1..d] == f;
    }
    if d < |s| { assert s[d] == rest[0]; }
    assert i != [] || hasPoint;
    assert !negative ==> s[0] == if i != [] then i[0] else o.decimalPoint;
  }

  // ----- exponents

  /** 'e' or 'E' in scientific formats, 'd', 'D' or just a sign in Fortran's; '+', '-' or nothing; and digits. */
  predicate IsExponentPart(m: seq<byte>, g: seq<byte>, x: seq<byte>, o: Options) {
    && x != [] && Decimal(x) && (g == [] || g == [0x2B] || g == [0x2D])
    && ((o.scientific && (m == [0x65] || m == [0x45])) || (o.fortran && (m == [0x64] || m == [0x44]))
        || (o.fortran && m == [] && g != []))
  }

  /** Where the parts of an exponent stand in a text. */
  lemma ExponentStands(front: seq<byte>, m: seq<byte>, g: seq<byte>, x: seq<byte>, rest: seq<byte>)
    requires x != []
    ensures
      var (s, p) := (front + (m + g + x + rest), |front|);
      var (q, r) := (p + |m|, p + |m| + |g|);
      var end := r + |x|;
      && end <= |s| && s[p..q] == m && s[q..r] == g && s[r..end] == x && (end < |s| ==> rest != [] && s[end] == rest[0])
      && (m != [] ==> s[p] == m[0]) && (g != [] ==> s[q] == g[0]) && s[r] == x[0]
  {
    var tail := m + g + x + rest;
    var (i, j, k) := (|m|, |m| + |g|, |m| + |g| + |x|);
    assert tail[..i] == m && tail[i..j] == g && tail[j..k] == x && tail[k..] == rest;
    Shifted(front, tail, 0, i);
    Shifted(front, tail, i, j);
    Shifted(front, tail, j, k);
  }

  lemma Shifted(front: seq<byte>, tail: seq<byte>, i: nat, j: nat)
    requires i <= j <= |tail|
    ensures (front + tail)[|front| + i..|front| + j] == tail[i..j]
    ensures i < |tail| ==> (front + tail)[|front| + i] == tail[i]
    ensures j < |tail| ==> (front + tail)[|front| + j] == tail[j]
  {
  }

  lemma MarkIsTaken(s: seq<byte>, p: nat, m: seq<byte>, g: seq<byte>, x: seq<byte>, o: Options)
    requires IsExponentPart(m, g, x, o) && p + |m| + |g| < |s| && s[p + |m| + |g|] == x[0]
    requires (m != [] ==> s[p] == m[0]) && (g != [] ==> s[p + |m|] == g[0])
    ensures StartsExponent(s, p, o) && AfterMark(s, p) == p + |m| && AfterSign(s, p + |m|) == p + |m| + |g|
  {
    assert 0x30 <= x[0] <= 0x39;
  }

  lemma ExponentIsScanned(front: seq<byte>, m: seq<byte>, g: seq<byte>, x: seq<byte>, rest: seq<byte>, o: Options)
    requires IsExponentPart(m, g, x, o) && NoDigitAt(rest, 0)
    ensures ScanExponent(front + (m + g + x + rest), |front|, o) == Exponent(m, g, x)
  {
    hide RunEnd, StartsExponent, AfterMark, AfterSign, ScanExponent;
    var (s, p) := (front + (m + g + x + rest), |front|);
    ExponentStands(front, m, g, x, rest);
    MarkIsTaken(s, p, m, g, x, o);
    var (r, end) := (p + |m| + |g|, p + |m| + |g| + |x|);
    hide IsExponentPart;
    DigitsTaken(s, r, end, x);
    ScannedParts(s, p, o, p + |m|, r, end);
  }

  lemma ScannedParts(s: seq<byte>, p: nat, o: Options, q: nat, r: nat, end: nat)
    requires p <= q <= r < end <= |s| && StartsExponent(s, p, o)
    requires AfterMark(s, p) == q && AfterSign(s, q) == r && RunEnd(s, r) == end
    ensures ScanExponent(s, p, o) == Exponent(s[p..q], s[q..r], s[r..end])
  {
    hide RunEnd;
  }

  lemma DigitsTaken(s: seq<byte>, r: nat, end: nat, x: seq<byte>)
    requires r <= end <= |s| && s[r..end] == x && Decimal(x) && NoDigitAt(s, end)
    ensures RunEnd(s, r) == end
  {
    RunEndUnique(s, r, end);
  }

  /** Every number written with an exponent is read to the end of that, whatever its letter's case and its sign; its
      last digit stands at the exponent's place, less the digits after the point. */
  lemma ScientificIsRead(negative: bool, i: seq<byte>, hasPoint: bool, f: seq<byte>, m: seq<byte>, g: seq<byte>,
      x: seq<byte>, rest: seq<byte>, o: Options)
    requires UsualPoint(o) && IsFront(i, hasPoint, f, o) && IsExponentPart(m, g, x, o) && NoDigitAt(rest, 0)
    ensures AllDigits(i + f) && AllDigits(x)
    ensures
      var l := Literal(negative, i, hasPoint, f, Exponent(m, g, x));
      var text := Front(negative, i, hasPoint, f, o) + (m + g + x);
      && text + rest != [] && ScanLiteral(text + rest, o) == Some(l) && Text(l, o) == text
      && LiteralDigits(l) == i + f
      && LastPlace(l) == (if g == [0x2D] then 0 - DigitsValue(x) else DigitsValue(x)) - |f|
  {
    hide RunEnd, DigitsValue, ScanExponent, Cuts;
    var front := Front(negative, i, hasPoint, f, o);
    var after := m + g + x + rest;
    assert front + after == front + (m + g + x) + rest;
    AfterFront(m, g, x, rest, o);
    FrontIsCut(negative, i, hasPoint, f, after, o);
    ExponentIsScanned(front, m, g, x, rest, o);
  }

  /** What an exponent begins with is neither a digit nor the point. */
  lemma AfterFront(m: seq<byte>, g: seq<byte>, x: seq<byte>, rest: seq<byte>, o: Options)
    requires UsualPoint(o) && IsExponentPart(m, g, x, o)
    ensures var after := m + g + x + rest; after != [] && NoDigitAt(after, 0) && after[0] != o.decimalPoint
  {
    var after := m + g + x + rest;
    assert after[0] == if m != [] then m[0] else g[0];
  }

  // ----- no exponent

  /** What is scanned is an exponent part, or nothing. */
  lemma ScannedIsPart(s: seq<byte>, p: nat, o: Options)
    requires p <= |s|
    ensures
      var e := ScanExponent(s, p, o);
      e != NO_EXPONENT ==> IsExponentPart(e.mark, e.sign, e.digits, o) && e.mark + e.sign + e.digits <= s[p..]
  {
    hide ScanExponent;
    ScannedExponent(s, p, o);
    var e := ScanExponent(s, p, o);
    assert e.Text() == s[p..][..|e.Text()|];
  }

  lemma NoExponentIsScanned(s: seq<byte>, p: nat, o: Options)
    requires p <= |s| && forall m, g, x :: IsExponentPart(m, g, x, o) ==> !(m + g + x <= s[p..])
    ensures ScanExponent(s, p, o) == NO_EXPONENT
  {
    hide ScanExponent, IsExponentPart;
    ScannedIsPart(s, p, o);
  }

  /** A number without an exponent is read to the end of its digits if the format allows that, and else not at all. */
  lemma FixedIsRead(negative: bool, i: seq<byte>, hasPoint: bool, f: seq<byte>, rest: seq<byte>, o: Options)
    requires UsualPoint(o) && IsFront(i, hasPoint, f, o)
    requires NoDigitAt(rest, 0) && (!hasPoint && rest != [] ==> rest[0] != o.decimalPoint)
    requires forall m, g, x :: IsExponentPart(m, g, x, o) ==> !(m + g + x <= rest)
    ensures
      var l := Literal(negative, i, hasPoint, f, NO_EXPONENT);
      var text := Front(negative, i, hasPoint, f, o);
      && text + rest != []
      && ScanLiteral(text + rest, o) == (
        if o.fixed || (!o.scientific && !(o.fortran && rest != [] && rest[0] in [0x2B, 0x2D, 0x44, 0x64])) then Some(l)
        else None)
      && Text(l, o) == text && LiteralDigits(l) == i + f && LastPlace(l) == 0 - |f|
  {
    hide RunEnd, ScanExponent, Cuts, IsExponentPart;
    var text := Front(negative, i, hasPoint, f, o);
    FrontIsCut(negative, i, hasPoint, f, rest, o);
    assert (text + rest)[|text|..] == rest;
    NoExponentIsScanned(text + rest, |text|, o);
    assert rest != [] ==> (text + rest)[|text|] == rest[0];
    DigitsValueEmpty();
  }

  // ----- either way

  /** The first n characters of s are the number l, and it neither goes on nor breaks a rule of the format. */
  ghost predicate IsWritten(s: seq<byte>, o: Options, l: Literal, n: nat) {
    var e := l.exponent;
    var text := Front(l.negative, l.integer, l.hasPoint, l.fraction, o) + (e.mark + e.sign + e.digits);
    && IsFront(l.integer, l.hasPoint, l.fraction, o) && n == |text| && text <= s && NoDigitAt(s, n)
    && (IsExponentPart(e.mark, e.sign, e.digits, o) || (e == NO_EXPONENT && StopsAt(s, o, l.hasPoint, n)))
  }

  /** No exponent follows, and none has to. */
  ghost predicate StopsAt(s: seq<byte>, o: Options, hasPoint: bool, n: nat)
    requires n <= |s|
  {
    && (!hasPoint && n < |s| ==> s[n] != o.decimalPoint)
    && (forall m, g, x :: IsExponentPart(m, g, x, o) ==> !(m + g + x <= s[n..]))
    && (o.fixed || (!o.scientific && !(o.fortran && n < |s| && s[n] in [0x2B, 0x2D, 0x44, 0x64])))
  }

  /** The number without its sign is WrittenDigits * 10^WrittenPlace. */
  ghost function WrittenDigits(l: Literal): nat
    requires Decimal(l.integer) && Decimal(l.fraction)
  {
    DigitsValue(l.integer + l.fraction)
  }

  ghost function WrittenPlace(l: Literal): int
    requires Decimal(l.exponent.digits)
  {
    (if l.exponent.sign == [0x2D] then 0 - DigitsValue(l.exponent.digits) else DigitsValue(l.exponent.digits))
      - |l.fraction|
  }

  lemma WrittenIsDecimal(s: seq<byte>, o: Options, l: Literal, n: nat)
    requires IsWritten(s, o, l, n)
    ensures Decimal(l.integer) && Decimal(l.fraction) && Decimal(l.exponent.digits)
  {
  }

  /** Every number written at the front of a text is scanned, to its end and with its value. */
  lemma WrittenIsScanned(s: seq<byte>, o: Options, l: Literal, n: nat)
    requires UsualPoint(o) && IsWritten(s, o, l, n)
    ensures s != [] && ScanLiteral(s, o) == Some(l) && |Text(l, o)| == n
    ensures Decimal(l.integer) && Decimal(l.fraction) && Decimal(l.exponent.digits)
    ensures AllDigits(LiteralDigits(l)) && AllDigits(l.exponent.digits)
    ensures DigitsValue(LiteralDigits(l)) == WrittenDigits(l) && LastPlace(l) == WrittenPlace(l)
  {
    hide DigitsValue, ScanLiteral, Front, IsFront, IsExponentPart, Text, IsWritten;
    WrittenIsDecimal(s, o, l, n);
    WrittenParts(s, o, l, n);
    var (e, rest) := (l.exponent, s[n..]);
    if IsExponentPart(e.mark, e.sign, e.digits, o) {
      ScientificIsRead(l.negative, l.integer, l.hasPoint, l.fraction, e.mark, e.sign, e.digits, rest, o);
    } else {
      DigitsValueEmpty();
      FixedIsRead(l.negative, l.integer, l.hasPoint, l.fraction, rest, o);
    }
  }

  lemma WrittenParts(s: seq<byte>, o: Options, l: Literal, n: nat)
    requires IsWritten(s, o, l, n)
    ensures n <= |s| && IsFront(l.integer, l.hasPoint, l.fraction, o) && NoDigitAt(s[n..], 0)
    ensures
      var (e, rest) := (l.exponent, s[n..]);
      var (front, part) := (Front(l.negative, l.integer, l.hasPoint, l.fraction, o), e.mark + e.sign + e.digits);
      && s == front + part + rest && n == |front + part|
      && (!IsExponentPart(e.mark, e.sign, e.digits, o) ==>
        && e == NO_EXPONENT && s == front + rest && n == |front|
        && (!l.hasPoint && rest != [] ==> rest[0] != o.decimalPoint)
        && (forall m, g, x :: IsExponentPart(m, g, x, o) ==> !(m + g + x <= rest))
        && (o.fixed || (!o.scientific && !(o.fortran && rest != [] && rest[0] in [0x2B, 0x2D, 0x44, 0x64]))))
  {
    hide Front, IsFront, IsExponentPart;
    var (front, rest) := (Front(l.negative, l.integer, l.hasPoint, l.fraction, o), s[n..]);
    assert front + [] == front;
  }

  // ----- what is no number

  /** Where the digits would have to begin: after a '-'. */
  function FirstPlace(s: seq<byte>): (p: nat)
    requires s != []
    ensures p <= |s|
  {
    if s[0] == 0x2D then 1 else 0
  }

  /** A text is refused if neither a digit nor the point and a digit comes first. */
  lemma NoDigitsIsRefused(s: seq<byte>, o: Options)
    requires s != [] && UsualPoint(o) && NoDigitAt(s, FirstPlace(s))
    requires
      var p := FirstPlace(s);
      p < |s| && s[p] == o.decimalPoint ==> NoDigitAt(s, p + 1)
    ensures ScanLiteral(s, o) == None
  {
    hide RunEnd, ScanExponent;
    var p := FirstPlace(s);
    RunEndUnique(s, p, p);
    if p < |s| && s[p] == o.decimalPoint { RunEndUnique(s, p + 1, p + 1); }
  }

  /** In JSON a digit comes first, a zero only alone, and a point has digits on both sides. */
  lemma JsonIsStrict(s: seq<byte>, o: Options, b: nat)
    requires s != [] && UsualPoint(o) && o.json && ScanLiteral(s, o).Some?
    ensures var p := FirstPlace(s); !NoDigitAt(s, p) && (s[p] == 0x30 ==> NoDigitAt(s, p + 1))
    ensures
      var p := FirstPlace(s);
      p < b < |s| && Decimal(s[p..b]) && s[b] == o.decimalPoint ==> !NoDigitAt(s, b + 1)
  {
    hide RunEnd, ScanExponent, Cuts, ScanLiteral, Decimal, NoDigitAt, UsualPoint;
    var p := FirstPlace(s);
    var e := JsonCuts(s, o);
    if p < b < |s| && Decimal(s[p..b]) && s[b] == o.decimalPoint {
      RunEndsAtPoint(s, p, b, o);
    }
  }

  lemma RunEndsAtPoint(s: seq<byte>, p: nat, b: nat, o: Options)
    requires UsualPoint(o) && p <= b < |s| && Decimal(s[p..b]) && s[b] == o.decimalPoint
    ensures RunEnd(s, p) == b
  {
    hide RunEnd;
    RunEndUnique(s, p, b);
  }

  /** Where the integer digits end. */
  lemma JsonCuts(s: seq<byte>, o: Options) returns (e: nat)
    requires s != [] && UsualPoint(o) && o.json && ScanLiteral(s, o).Some?
    ensures
      var p := FirstPlace(s);
      && p < e <= |s| && p < |s| && e == RunEnd(s, p) && !NoDigitAt(s, p) && (s[p] == 0x30 ==> e == p + 1)
      && NoDigitAt(s, e)
      && (e < |s| && s[e] == o.decimalPoint ==> !NoDigitAt(s, e + 1))
  {
    hide RunEnd, ScanExponent, Cuts;
    CutsAre(s, o);
    var (a, b, c, d) := Cuts(s, o);
    assert s[a..b] != [] && s[a] == s[a..b][0];
    if c > b { assert s[c..d] != [] && s[c] == s[c..d][0]; }
    e := b;
  }

  /** A scientific format that is not fixed takes no number without an exponent. */
  lemma ExponentIsRequired(s: seq<byte>, o: Options)
    requires s != [] && o.scientific && !o.fixed && ScanLiteral(s, o).Some?
    ensures var e := ScanLiteral(s, o).value.exponent; IsExponentPart(e.mark, e.sign, e.digits, o)
  {
    hide Cuts, ScanExponent;
  }
}
