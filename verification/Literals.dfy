/** Number literals: their grammar, what it means to be the longest one at the front of a text, and the scan for it. */
module Literals {
  import opened Wrappers
  import opened Arith
  import opened Digits

  const MINUS: byte := 0x2D
  const PLUS: byte := 0x2B

  /** parse_options: the bits of chars_format that the parser looks at, and the decimal point. */
  datatype Options = Options(scientific: bool, fixed: bool, json: bool, fortran: bool, decimalPoint: byte)

  /** A letter or none, a sign or none, and digits; or nothing at all. */
  datatype Exponent = Exponent(mark: seq<byte>, sign: seq<byte>, digits: seq<byte>) {
    function Text(): seq<byte> { mark + sign + digits }
  }

  const NO_EXPONENT := Exponent([], [], [])

  datatype Literal =
    Literal(negative: bool, integer: seq<byte>, hasPoint: bool, fraction: seq<byte>, exponent: Exponent)

  // ----- the grammar, by the codes of its characters

  function Sign(negative: bool): seq<byte> {
    if negative then [0x2D] else []
  }

  function PointPart(l: Literal, o: Options): seq<byte> {
    if l.hasPoint then [o.decimalPoint] + l.fraction else []
  }

  /** The literal as it is written. */
  function Text(l: Literal, o: Options): seq<byte> {
    Sign(l.negative) + l.integer + PointPart(l, o) + l.exponent.Text()
  }

  /** e or E in scientific formats; d, D or just a sign in Fortran's. */
  predicate IsMark(mark: seq<byte>, sign: seq<byte>, o: Options) {
    || (o.scientific && (mark == [0x65] || mark == [0x45]))
    || (o.fortran && (mark == [0x64] || mark == [0x44] || (mark == [] && sign != [])))
  }

  predicate IsExponent(e: Exponent, o: Options) {
    e == NO_EXPONENT ||
    (IsMark(e.mark, e.sign, o) && (e.sign == [] || e.sign == [0x2B] || e.sign == [0x2D])
     && e.digits != [] && AllDigits(e.digits))
  }

  /** Digits with a point before, among or after them, or none, and an exponent or none. */
  predicate IsLiteral(l: Literal, o: Options) {
    && AllDigits(l.integer) && AllDigits(l.fraction) && (!l.hasPoint ==> l.fraction == [])
    && l.integer + l.fraction != [] && IsExponent(l.exponent, o)
  }

  predicate Parses(s: seq<byte>, o: Options, l: Literal) {
    IsLiteral(l, o) && Text(l, o) <= s
  }

  ghost predicate LongestParse(s: seq<byte>, o: Options, l: Literal) {
    Parses(s, o, l) && forall l' :: Parses(s, o, l') ==> |Text(l', o)| <= |Text(l, o)|
  }

  /** Outside the fixed formats an exponent must be there if the format is scientific, or if the character at p can only
      begin one. */
  predicate ExponentAllowed(s: seq<byte>, p: nat, o: Options, e: Exponent) {
    || o.fixed || e != NO_EXPONENT
    || (!o.scientific &&
        !(o.fortran && p < |s| && (s[p] == 0x2B || s[p] == 0x2D || s[p] == 0x64 || s[p] == 0x44)))
  }

  /** The rules of the format for the literal found in s; JSON wants digits on both sides of a point and no leading
      zero. */
  predicate Allowed(s: seq<byte>, o: Options, l: Literal) {
    && (o.json ==> l.integer != [] && (l.integer[0] == 0x30 ==> |l.integer| == 1) && (l.hasPoint ==> l.fraction != []))
    && ExponentAllowed(s, |Sign(l.negative) + l.integer + PointPart(l, o)|, o, l.exponent)
  }

  /** A decimal point that cannot be taken for something else: no digit, sign or exponent letter. */
  predicate UsualPoint(o: Options) {
    var c := o.decimalPoint;
    !(0x30 <= c <= 0x39) && c != 0x2D && c != 0x2B && c != 0x65 && c != 0x45 && c != 0x64 && c != 0x44
  }

  // ----- the scan

  predicate IsE(c: byte) { c == 0x65 || c == 0x45 }

  predicate IsD(c: byte) { c == 0x64 || c == 0x44 }

  /** Something at p that only an exponent can begin with. */
  predicate StartsExponent(s: seq<byte>, p: nat, o: Options) {
    p < |s| && ((o.scientific && IsE(s[p])) || (o.fortran && (s[p] == PLUS || s[p] == MINUS || IsD(s[p]))))
  }

  /** Where a letter and a sign at p end. */
  function AfterMark(s: seq<byte>, p: nat): (q: nat)
    requires p < |s|
    ensures p <= q <= p + 1
  {
    if IsE(s[p]) || IsD(s[p]) then p + 1 else p
  }

  function AfterSign(s: seq<byte>, p: nat): (q: nat)
    requires p <= |s|
    ensures p <= q <= |s| && q <= p + 1
  {
    if p < |s| && (s[p] == MINUS || s[p] == PLUS) then p + 1 else p
  }

  function ScanExponent(s: seq<byte>, p: nat, o: Options): Exponent
    requires p <= |s|
  {
    if !StartsExponent(s, p, o) then NO_EXPONENT else
      var m := AfterMark(s, p);
      var q := AfterSign(s, m);
      var end := RunEnd(s, q);
      if end == q then NO_EXPONENT else Exponent(s[p..m], s[m..q], s[q..end])
  }

  /** Where the parts end: sign, integer digits, point, fraction digits. */
  function Cuts(s: seq<byte>, o: Options): (r: (nat, nat, nat, nat))
    requires s != []
    ensures r.0 <= r.1 <= r.2 <= r.3 <= |s|
  {
    var a := if s[0] == MINUS then 1 else 0;
    var b := RunEnd(s, a);
    var c := if b < |s| && s[b] == o.decimalPoint then b + 1 else b;
    (a, b, c, if c > b then RunEnd(s, c) else b)
  }

  /** Take as much as possible of each part in turn. */
  function Greedy(s: seq<byte>, o: Options): Literal
    requires s != []
  {
    var (a, b, c, d) := Cuts(s, o);
    Literal(s[0] == MINUS, s[a..b], c > b, s[c..d], ScanExponent(s, d, o))
  }

  function ScanLiteral(s: seq<byte>, o: Options): (r: Option<Literal>)
    requires s != []
    ensures r.Some? ==> Parses(s, o, r.value) && Allowed(s, o, r.value)
  {
    var l := Greedy(s, o);
    GreedyParses(s, o);
    if l.integer + l.fraction != [] && Allowed(s, o, l) then Some(l) else None
  }

  // ----- the scan finds the longest literal

  lemma {:induction false} RunEndMaximal(s: seq<byte>, p: nat, q: nat)
    requires p <= q <= |s| && AllDigits(s[p..q])
    ensures q <= RunEnd(s, p)
    decreases q - p
  {
    if p < q {
      assert s[p] == s[p..q][0] && s[p..q][1..] == s[p + 1..q];
      RunEndMaximal(s, p + 1, q);
    }
  }

  lemma CutsAre(s: seq<byte>, o: Options)
    requires s != []
    ensures
      var (a, b, c, d) := Cuts(s, o);
      && a == |Sign(s[0] == MINUS)| && b == RunEnd(s, a) && (c > b ==> d == RunEnd(s, c))
      && AllDigits(s[a..b]) && (b < |s| ==> !IsDigit(s[b])) && AllDigits(s[c..d]) && (d > b ==> c == b + 1)
      && (c > b <==> b < |s| && s[b] == o.decimalPoint) && (c > b && d < |s| ==> !IsDigit(s[d]))
      && (c == b ==> d == b)
      && Sign(s[0] == MINUS) + s[a..b] + PointPart(Greedy(s, o), o) == s[..d]
  {
    hide RunEnd, ScanExponent;
    var (a, b, c, d) := Cuts(s, o);
    assert s[b..b] == [];
    assert s[..a] + s[a..b] == s[..b];
    if c > b {
      assert s[..b] + ([s[b]] + s[c..d]) == s[..d];
    } else {
      assert s[..b] + [] == s[..d];
    }
  }

  lemma ScannedExponent(s: seq<byte>, p: nat, o: Options)
    requires p <= |s|
    ensures
      var e := ScanExponent(s, p, o);
      IsExponent(e, o) && p + |e.Text()| <= |s| && e.Text() == s[p..p + |e.Text()|]
  {
    hide RunEnd;
    if StartsExponent(s, p, o) {
      var m := AfterMark(s, p);
      var q := AfterSign(s, m);
      var end := RunEnd(s, q);
      assert s[p..m] + s[m..q] + s[q..end] == s[p..end];
    }
  }

  /** The scan gives a literal at the front of s if it has any digits. */
  lemma GreedyParses(s: seq<byte>, o: Options)
    requires s != []
    ensures
      var l := Greedy(s, o);
      && Text(l, o) <= s && IsExponent(l.exponent, o) && AllDigits(l.integer) && AllDigits(l.fraction)
      && (l.integer + l.fraction != [] ==> IsLiteral(l, o))
  {
    hide RunEnd, ScanExponent, IsExponent, Cuts;
    var l := Greedy(s, o);
    var (a, b, c, d) := Cuts(s, o);
    CutsAre(s, o);
    ScannedExponent(s, d, o);
    var n := |l.exponent.Text()|;
    assert s[..d] + s[d..d + n] == s[..d + n];
    assert c == d ==> s[c..d] == [];
  }

  lemma ExponentStarts(e: Exponent, o: Options)
    requires IsExponent(e, o) && e != NO_EXPONENT
    ensures
      var t := e.Text();
      t != [] && StartsExponent(t, 0, o) && !IsDigit(t[0])
  {
    if e.mark == [] {
      assert e.Text() == e.sign + e.digits;
    }
  }

  /** No exponent at p is longer than the one scanned, and none other is as long. */
  lemma ExponentLongest(s: seq<byte>, p: nat, o: Options, e: Exponent)
    requires p <= |s| && IsExponent(e, o) && p + |e.Text()| <= |s| && s[p..p + |e.Text()|] == e.Text()
    ensures
      var g := ScanExponent(s, p, o);
      |e.Text()| <= |g.Text()| && (|e.Text()| == |g.Text()| ==> e == g)
  {
    hide RunEnd;
    ScannedExponent(s, p, o);
    if e != NO_EXPONENT {
      ExponentStarts(e, o);
      assert s[p] == e.Text()[0];
      var m := AfterMark(s, p);
      ExponentMark(s, p, e, o);
      var q := AfterSign(s, m);
      var n := |e.digits|;
      assert s[q..q + n] == e.digits by {
        assert s[q..q + n] == s[p..q + n][q - p..] && s[p..q + n] == e.Text();
      }
      RunEndMaximal(s, q, q + n);
      var end := RunEnd(s, q);
      if end == q + n { assert s[q..end] == e.digits; }
    }
  }

  /** Its letter and sign are where the scan looks for them. */
  lemma ExponentMark(s: seq<byte>, p: nat, e: Exponent, o: Options)
    requires p < |s| && IsExponent(e, o) && e != NO_EXPONENT
    requires p + |e.Text()| <= |s| && s[p..p + |e.Text()|] == e.Text()
    ensures
      var m := AfterMark(s, p);
      var q := AfterSign(s, m);
      s[p..m] == e.mark && s[m..q] == e.sign && q == p + |e.mark| + |e.sign|
  {
    var t, i := e.Text(), |e.mark|;
    forall k | 0 <= k < |t| ensures t[k] == s[p + k] {
      assert s[p..p + |t|][k] == s[p + k];
    }
    if e.mark == [] { assert t[0] == e.sign[0]; } else { assert t[0] == e.mark[0]; }
    assert AfterMark(s, p) == p + i;
    if e.sign == [] { assert t[i] == e.digits[0]; } else { assert t[i] == e.sign[0]; }
  }

  /** What follows the integer digits of a literal does not begin with a digit. */
  lemma AfterInteger(l: Literal, o: Options)
    requires IsLiteral(l, o) && UsualPoint(o)
    ensures
      var rest := PointPart(l, o) + l.exponent.Text();
      && (rest != [] ==> !IsDigit(rest[0]) && (l.hasPoint <==> rest[0] == o.decimalPoint))
      && (rest == [] ==> !l.hasPoint && l.exponent == NO_EXPONENT)
  {
    if l.exponent != NO_EXPONENT {
      ExponentStarts(l.exponent, o);
    }
    if !l.hasPoint {
      assert PointPart(l, o) + l.exponent.Text() == l.exponent.Text();
    }
  }

  /** The parts of a text at the front of s are where its lengths say. */
  lemma PrefixParts(s: seq<byte>, x: seq<byte>, y: seq<byte>, z: seq<byte>)
    requires x + y + z <= s
    ensures |x| + |y| + |z| <= |s|
    ensures s[..|x|] == x && s[|x|..|x| + |y|] == y && s[|x| + |y|..|x| + |y| + |z|] == z
  {
    var t := x + y + z;
    assert s[..|t|] == t;
    assert s[..|x|] == s[..|t|][..|x|];
    assert s[|x|..|x| + |y|] == s[..|t|][|x|..|x| + |y|];
    assert s[|x| + |y|..|t|] == s[..|t|][|x| + |y|..];
  }

  /** The first character of a literal tells its sign. */
  lemma FirstCharacter(l: Literal, o: Options)
    requires IsLiteral(l, o) && UsualPoint(o)
    ensures Text(l, o) != [] && (l.negative <==> Text(l, o)[0] == MINUS)
  {
    hide IsExponent, UsualPoint;
    PointIsNoSign(o);
    var rest := PointPart(l, o) + l.exponent.Text();
    assert Text(l, o) == Sign(l.negative) + (l.integer + rest);
    if l.integer != [] {
      assert (l.integer + rest)[0] == l.integer[0];
    } else {
      assert PointPart(l, o)[0] == o.decimalPoint;
      assert (l.integer + rest)[0] == o.decimalPoint;
    }
  }

  lemma PointIsNoSign(o: Options)
    requires UsualPoint(o)
    ensures o.decimalPoint != MINUS && !IsDigit(MINUS)
  {
  }

  /** Any literal at the front of s begins with the sign that is there. */
  lemma SameSign(s: seq<byte>, o: Options, l: Literal)
    requires Parses(s, o, l) && UsualPoint(o)
    ensures s != [] && (l.negative <==> s[0] == MINUS)
  {
    hide IsLiteral, Text, UsualPoint;
    FirstCharacter(l, o);
  }

  lemma DigitInRun(s: seq<byte>, a: nat, b: nat, k: nat)
    requires a <= k < b <= |s| && AllDigits(s[a..b])
    ensures IsDigit(s[k])
  {
    assert s[k] == s[a..b][k - a];
  }

  lemma EmptyExponent(e: Exponent, o: Options)
    requires IsExponent(e, o)
    ensures e.Text() == [] <==> e == NO_EXPONENT
  {
  }

  /** The literal has the integer digits that the scan takes, and something follows them. */
  lemma RestLongest(s: seq<byte>, o: Options, l: Literal, b: nat, c: nat, d: nat)
    requires IsLiteral(l, o) && UsualPoint(o) && b <= c <= d <= |s|
    requires
      var rest := PointPart(l, o) + l.exponent.Text();
      rest != [] && b + |rest| <= |s| && s[b..b + |rest|] == rest
    requires c > b <==> b < |s| && s[b] == o.decimalPoint
    requires c <= b + 1 && (c > b ==> d == RunEnd(s, c)) && (c == b ==> d == b)
    ensures
      var n, g := b + |PointPart(l, o) + l.exponent.Text()|, ScanExponent(s, d, o);
      && n <= d + |g.Text()|
      && (n == d + |g.Text()| ==> l.hasPoint == (c > b) && l.fraction == s[c..d] && l.exponent == g)
      && (l.fraction != [] ==> d > c)
  {
    hide RunEnd, ScanExponent, IsExponent;
    var rest := PointPart(l, o) + l.exponent.Text();
    AfterInteger(l, o);
    assert rest[0] == s[b..b + |rest|][0] == s[b];
    if l.hasPoint {
      FractionLongest(s, o, l, c, d);
    } else {
      assert rest == l.exponent.Text();
      ExponentLongest(s, d, o, l.exponent);
    }
  }

  lemma FractionLongest(s: seq<byte>, o: Options, l: Literal, c: nat, d: nat)
    requires AllDigits(l.fraction) && IsExponent(l.exponent, o) && l.hasPoint && 0 < c <= d <= |s| && d == RunEnd(s, c)
    requires
      var rest := PointPart(l, o) + l.exponent.Text();
      c - 1 + |rest| <= |s| && s[c - 1..c - 1 + |rest|] == rest
    ensures
      var n, g := c - 1 + |PointPart(l, o) + l.exponent.Text()|, ScanExponent(s, d, o);
      && n <= d + |g.Text()|
      && (n == d + |g.Text()| ==> l.fraction == s[c..d] && l.exponent == g)
      && (l.fraction != [] ==> d > c)
  {
    hide RunEnd, ScanExponent, IsExponent, IsDigit, PointPart, Exponent.Text;
    var f, e := l.fraction, l.exponent.Text();
    FractionParts(s, o, l, c);
    RunEndMaximal(s, c, c + |f|);
    EmptyExponent(l.exponent, o);
    if c + |f| < d {
      DigitInRun(s, c, d, c + |f|);
      NothingBeforeDigit(s, o, l.exponent, c + |f|);
    } else {
      ExponentLongest(s, d, o, l.exponent);
    }
  }

  lemma NothingBeforeDigit(s: seq<byte>, o: Options, e: Exponent, p: nat)
    requires p < |s| && IsExponent(e, o) && p + |e.Text()| <= |s| && s[p..p + |e.Text()|] == e.Text()
    ensures e.Text() == [] || !IsDigit(s[p])
  {
    hide IsExponent;
    EmptyExponent(e, o);
    if e != NO_EXPONENT {
      ExponentStarts(e, o);
      assert s[p] == s[p..p + |e.Text()|][0];
    }
  }

  lemma FractionParts(s: seq<byte>, o: Options, l: Literal, c: nat)
    requires l.hasPoint && 0 < c <= |s|
    requires
      var rest := PointPart(l, o) + l.exponent.Text();
      c - 1 + |rest| <= |s| && s[c - 1..c - 1 + |rest|] == rest
    ensures
      var f, e := l.fraction, l.exponent.Text();
      && |PointPart(l, o) + l.exponent.Text()| == 1 + |f| + |e|
      && c + |f| + |e| <= |s| && s[c..c + |f|] == f && s[c + |f|..c + |f| + |e|] == e
  {
    var f, e := l.fraction, l.exponent.Text();
    var from := s[c - 1..];
    assert [o.decimalPoint] + f + e <= from;
    PrefixParts(from, [o.decimalPoint], f, e);
    assert s[c..c + |f|] == from[1..1 + |f|] == f;
    assert s[c + |f|..c + |f| + |e|] == from[1 + |f|..1 + |f| + |e|] == e;
  }

  /** No literal at the front of s is longer than the one scanned, and none other is as long. */
  lemma GreedyLongest(s: seq<byte>, o: Options, l: Literal)
    requires Parses(s, o, l) && UsualPoint(o)
    ensures s != []
    ensures
      var g := Greedy(s, o);
      && g.integer + g.fraction != []
      && |Text(l, o)| <= |Text(g, o)| && (|Text(l, o)| == |Text(g, o)| ==> l == g)
  {
    hide RunEnd, ScanExponent, IsExponent, Cuts, PointPart, UsualPoint, Exponent.Text, Text, IsDigit, Greedy, AllDigits;
    SameSign(s, o, l);
    var (a, b, c, d) := Cuts(s, o);
    CutsAre(s, o);
    GreedyText(s, o);
    IntegerPart(s, o, l, a);
    RunEndMaximal(s, a, a + |l.integer|);
    AfterInteger(l, o);
    if a + |l.integer| < b {
      DigitInRun(s, a, b, a + |l.integer|);
    } else {
      IntegerTaken(s, o, l);
    }
  }

  /** The literal has the integer digits that the scan takes. */
  lemma IntegerTaken(s: seq<byte>, o: Options, l: Literal)
    requires Parses(s, o, l) && UsualPoint(o) && s != [] && (l.negative <==> s[0] == MINUS)
    requires var (a, b, c, d) := Cuts(s, o); l.integer == s[a..b]
    ensures
      var g := Greedy(s, o);
      && g.integer + g.fraction != []
      && |Text(l, o)| <= |Text(g, o)| && (|Text(l, o)| == |Text(g, o)| ==> l == g)
  {
    hide RunEnd, ScanExponent, IsExponent, Cuts, PointPart, UsualPoint, Exponent.Text, Text, IsDigit, AllDigits;
    var (a, b, c, d) := Cuts(s, o);
    CutsAre(s, o);
    GreedyText(s, o);
    IntegerPart(s, o, l, a);
    AfterInteger(l, o);
    if PointPart(l, o) + l.exponent.Text() != [] {
      RestLongest(s, o, l, b, c, d);
    }
  }

  lemma GreedyText(s: seq<byte>, o: Options)
    requires s != []
    ensures
      var (a, b, c, d) := Cuts(s, o);
      var g := Greedy(s, o);
      && |Text(g, o)| == d + |g.exponent.Text()| && (g.exponent.Text() == [] <==> g.exponent == NO_EXPONENT)
      && (b > a || d > c <==> g.integer + g.fraction != [])
  {
    hide RunEnd, ScanExponent, IsExponent, Cuts, PointPart, Exponent.Text;
    var (a, b, c, d) := Cuts(s, o);
    CutsAre(s, o);
    ScannedExponent(s, d, o);
    EmptyExponent(ScanExponent(s, d, o), o);
  }

  lemma IntegerPart(s: seq<byte>, o: Options, l: Literal, a: nat)
    requires Text(l, o) <= s && a == |Sign(l.negative)|
    ensures
      var i, rest := l.integer, PointPart(l, o) + l.exponent.Text();
      && a + |i| + |rest| == |Text(l, o)| <= |s| && s[a..a + |i|] == i
      && s[a + |i|..a + |i| + |rest|] == rest && (rest != [] ==> rest[0] == s[a + |i|])
  {
    hide PointPart, Exponent.Text;
    var i, rest := l.integer, PointPart(l, o) + l.exponent.Text();
    assert Text(l, o) == Sign(l.negative) + i + rest;
    PrefixParts(s, Sign(l.negative), i, rest);
    if rest != [] { assert rest[0] == s[a + |i|..a + |i| + |rest|][0]; }
  }

  /** What the scan returns is the longest literal at the front of the text, if the format allows it. */
  lemma ScanIsLongestParse(s: seq<byte>, o: Options, l: Literal)
    requires s != [] && UsualPoint(o)
    ensures ScanLiteral(s, o) == Some(l) <==> LongestParse(s, o, l) && Allowed(s, o, l)
  {
    hide Greedy, IsLiteral, Text, Allowed, UsualPoint;
    var g := Greedy(s, o);
    GreedyParses(s, o);
    if g.integer + g.fraction != [] {
      forall l' | Parses(s, o, l') ensures |Text(l', o)| <= |Text(g, o)| {
        GreedyLongest(s, o, l');
      }
    }
    if LongestParse(s, o, l) {
      GreedyLongest(s, o, l);
    }
  }

  /** There is only one longest literal. */
  lemma LongestIsUnique(s: seq<byte>, o: Options, l: Literal, l': Literal)
    requires UsualPoint(o) && LongestParse(s, o, l) && LongestParse(s, o, l')
    ensures l == l'
  {
    hide Greedy, IsLiteral, Text, UsualPoint;
    GreedyLongest(s, o, l);
    GreedyLongest(s, o, l');
    GreedyParses(s, o);
  }

  /** So every literal that the format allows scans back to its parts. */
  lemma TextIsScanned(l: Literal, o: Options)
    requires IsLiteral(l, o) && UsualPoint(o) && Allowed(Text(l, o), o, l)
    ensures Text(l, o) != [] && ScanLiteral(Text(l, o), o) == Some(l)
  {
    var s := Text(l, o);
    SameSign(s, o, l);
    assert LongestParse(s, o, l);
    ScanIsLongestParse(s, o, l);
  }
}
