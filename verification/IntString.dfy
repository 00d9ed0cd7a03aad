/** parse_int_string: integers in base 2 to 36, with overflow found after the fact, from the digit count and a table. */
module IntString {
  import opened Arith
  import opened Digits
  import opened Swar
  import opened Numerals

  const MINUS: byte := 0x2D

  // ----- digits in any base

  /** chdigit: the digit that a character stands for; 255 for none. */
  function ChToDigit(c: byte): (d: byte)
    ensures c == ZERO <==> d == 0
  {
    if 0x30 <= c <= 0x39 then c - 0x30
    else if 0x41 <= c <= 0x5A then c - 0x41 + 10
    else if 0x61 <= c <= 0x7A then c - 0x61 + 10
    else 255
  }

  predicate BaseDigits(s: seq<byte>, base: nat) {
    forall i :: 0 <= i < |s| ==> ChToDigit(s[i]) < base
  }

  function BaseValue(s: seq<byte>, base: nat): nat {
    if s == [] then 0 else base * BaseValue(s[..|s| - 1], base) + ChToDigit(s[|s| - 1])
  }

  /** Where the run of digits that starts at p ends. */
  function BaseRunEnd(s: seq<byte>, p: nat, base: nat): (q: nat)
    requires p <= |s|
    ensures p <= q <= |s| && (q < |s| ==> ChToDigit(s[q]) >= base)
    decreases |s| - p
  {
    if p == |s| || ChToDigit(s[p]) >= base then p else BaseRunEnd(s, p + 1, base)
  }

  /** A character is a digit of the base exactly if it spells one. */
  lemma SpellsDigit(c: byte, digit: int)
    ensures Spells(c, digit) <==> 0 <= digit < 36 && ChToDigit(c) == digit
  {
  }

  lemma ContinuesRun(c: byte, base: nat)
    requires 2 <= base <= 36
    ensures Continues(c, base) <==> ChToDigit(c) < base
  {
  }

  /** A run of digits ends at the first character that is no digit or letter of the base. */
  lemma RunEndsAt(s: seq<byte>, p: nat, q: nat, base: nat)
    requires 2 <= base <= 36 && p <= |s|
    ensures q == BaseRunEnd(s, p, base) <==>
      p <= q <= |s| && (forall i :: p <= i < q ==> Continues(s[i], base)) && (q < |s| ==> !Continues(s[q], base))
  {
    hide ChToDigit, Continues, BaseRunEnd;
    forall c: byte ensures Continues(c, base) <==> ChToDigit(c) < base {
      ContinuesRun(c, base);
    }
    var end := BaseRunEnd(s, p, base);
    RunIsDigits(s, p, base);
    if p <= q <= |s| && (forall i :: p <= i < q ==> Continues(s[i], base)) && (q < |s| ==> !Continues(s[q], base)) {
      BaseRunEndUnique(s, p, q, base);
    }
  }

  lemma RunIsDigits(s: seq<byte>, p: nat, base: nat)
    requires p <= |s|
    ensures forall i :: p <= i < BaseRunEnd(s, p, base) ==> ChToDigit(s[i]) < base
    decreases |s| - p
  {
    if p < |s| && ChToDigit(s[p]) < base {
      RunIsDigits(s, p + 1, base);
    }
  }

  /** What a printer writes for v is a run of digits with that number, and every run is what one writes for its number. */
  lemma {:induction false} WritesValue(digits: seq<byte>, v: nat, base: nat)
    requires 2 <= base <= 36
    ensures Writes(digits, v, base) <==> BaseDigits(digits, base) && BaseValue(digits, base) == v
  {
    hide ChToDigit, Spells;
    if digits != [] {
      var (n, c) := (|digits| - 1, digits[|digits| - 1]);
      DivModDefinition(v, base);
      WritesValue(digits[..n], v / base, base);
      SpellsDigit(c, v % base);
      assert BaseDigits(digits, base) <==> BaseDigits(digits[..n], base) && ChToDigit(c) < base by {
        assert digits == digits[..n] + [c];
      }
      if BaseDigits(digits, base) && BaseValue(digits, base) == v {
        DivModUnique(v, base, BaseValue(digits[..n], base), ChToDigit(c));
      }
      assert v == v / base * base + v % base;
    }
  }

  lemma BaseRunEndUnique(s: seq<byte>, p: nat, q: nat, base: nat)
    requires p <= q <= |s| && BaseDigits(s[p..q], base) && (q < |s| ==> ChToDigit(s[q]) >= base)
    ensures q == BaseRunEnd(s, p, base)
    decreases q - p
  {
    if p < q {
      assert s[p] == s[p..q][0] && s[p..q][1..] == s[p + 1..q];
      BaseRunEndUnique(s, p + 1, q, base);
    }
  }

  lemma BaseValueSnoc(s: seq<byte>, c: byte, base: nat)
    ensures BaseValue(s + [c], base) == base * BaseValue(s, base) + ChToDigit(c)
  {
    assert (s + [c])[..|s|] == s;
  }

  lemma {:induction false} BaseValueAppend(s: seq<byte>, t: seq<byte>, base: nat)
    ensures BaseValue(s + t, base) == BaseValue(s, base) * Pow(base, |t|) + BaseValue(t, base)
  {
    hide Pow, BaseValue;
    BaseValueEmpty(base);
    if t == [] {
      assert s + t == s;
    } else {
      var n := |t| - 1;
      BaseValueAppend(s, t[..n], base);
      BaseValueSnoc(t[..n], t[n], base);
      BaseValueSnoc(s + t[..n], t[n], base);
      assert t[..n] + [t[n]] == t && (s + t[..n]) + [t[n]] == s + t;
      PowStep(base, n);
      AppendArithmetic(BaseValue(s, base), base, Pow(base, n), BaseValue(t[..n], base));
    }
  }

  lemma BaseValueEmpty(base: nat)
    ensures BaseValue([], base) == 0 && Pow(base, 0) == 1
  {
  }

  lemma AppendArithmetic(v: nat, b: nat, p: nat, w: nat)
    ensures b * (v * p + w) == v * (b * p) + b * w
  {
    MulAssoc(v, b, p);
    MulAssoc(b, v, p);
    MulDistributes(v * p, w, b);
  }

  lemma {:induction false} BaseValueBound(s: seq<byte>, base: nat)
    requires BaseDigits(s, base)
    ensures BaseValue(s, base) < Pow(base, |s|)
  {
    hide Pow, BaseValue;
    BaseValueEmpty(base);
    if s != [] {
      var n := |s| - 1;
      BaseValueBound(s[..n], base);
      assert s[..n] + [s[n]] == s;
      BaseValueSnoc(s[..n], s[n], base);
      PowStep(base, n);
      BoundStep(BaseValue(s[..n], base), Pow(base, n), base, ChToDigit(s[n]));
    }
  }

  lemma BoundStep(v: nat, p: nat, base: nat, digit: nat)
    requires v < p && digit < base
    ensures base * v + digit < base * p
  {
    MulOrder(v + 1, p, base);
    MulDistributes(v, 1, base);
  }

  lemma {:induction false} BaseZeros(s: seq<byte>, base: nat)
    requires AllZeros(s)
    ensures BaseValue(s, base) == 0
  {
    if s != [] {
      BaseZeros(s[..|s| - 1], base);
    }
  }

  /** Without a leading zero, the number of digits gives the magnitude. */
  lemma BaseLeadingDigit(s: seq<byte>, base: nat)
    requires BaseDigits(s, base) && s != [] && s[0] != ZERO
    ensures Pow(base, |s| - 1) <= BaseValue(s, base) < Pow(base, |s|)
  {
    hide Pow;
    BaseValueBound(s, base);
    var head, tail := s[..1], s[1..];
    assert s == head + tail;
    BaseValueAppend(head, tail, base);
    BaseValueSnoc([], s[0], base);
    assert head == [] + [s[0]];
    MulOrder(1, BaseValue(head, base), Pow(base, |tail|));
  }

  /** In base 10 these are the digits of the other loops. */
  lemma {:induction false} BaseTen(s: seq<byte>)
    requires AllDigits(s)
    ensures BaseDigits(s, 10) && BaseValue(s, 10) == DigitsValue(s)
  {
    if s != [] {
      BaseTen(s[..|s| - 1]);
    }
  }

  // ----- the tables

  const MAX_DIGITS_U64: seq<nat> := [
    64, 41, 32, 28, 25, 23, 22, 21, 20, 19, 18, 18, 17, 17, 16, 16, 16, 16, 15, 15, 15, 15, 14, 14, 14, 14, 14, 14, 14,
    13, 13, 13, 13, 13, 13]

  const MIN_SAFE_U64: seq<u64> := [
    9223372036854775808, 12157665459056928801, 4611686018427387904, 7450580596923828125, 4738381338321616896,
    3909821048582988049, 9223372036854775808, 12157665459056928801, 10000000000000000000, 5559917313492231481,
    2218611106740436992, 8650415919381337933, 2177953337809371136, 6568408355712890625, 1152921504606846976,
    2862423051509815793, 6746640616477458432, 15181127029874798299, 1638400000000000000, 3243919932521508681,
    6221821273427820544, 11592836324538749809, 876488338465357824, 1490116119384765625, 2481152873203736576,
    4052555153018976267, 6502111422497947648, 10260628712958602189, 15943230000000000000, 787662783788549761,
    1152921504606846976, 1667889514952984961, 2386420683693101056, 3379220508056640625, 4738381338321616896]

  function MaxDigits(base: nat): nat
    requires 2 <= base <= 36
  {
    MAX_DIGITS_U64[base - 2]
  }

  function MinSafe(base: nat): u64
    requires 2 <= base <= 36
  {
    MIN_SAFE_U64[base - 2]
  }

  /** acc * b^e by repeated squaring. */
  function FastPow(b: nat, e: nat, acc: nat): nat
    decreases e
  {
    if e == 0 then acc
    else if e % 2 == 0 then FastPow(b * b, e / 2, acc)
    else FastPow(b * b, e / 2, acc * b)
  }

  lemma {:induction false} FastPowIsPow(b: nat, e: nat, acc: nat)
    ensures FastPow(b, e, acc) == acc * Pow(b, e)
    decreases e
  {
    hide Pow;
    BaseValueEmpty(b);
    if e > 0 {
      var h := e / 2;
      FastPowIsPow(b * b, h, if e % 2 == 0 then acc else acc * b);
      PowProduct(b, b, h);
      PowAdd(b, h, h);
      if e % 2 == 1 {
        PowStep(b, 2 * h);
        MulAssoc(acc, b, Pow(b, 2 * h));
      }
    }
  }

  predicate RowIsRight(base: nat)
    requires 2 <= base <= 36
  {
    && MaxDigits(base) > 0 && MinSafe(base) == FastPow(base, MaxDigits(base) - 1, 1)
    && base * MinSafe(base) >= WORD && MinSafe(base) > 0x2_0000_0000
  }

  lemma Powers2To7()
    ensures FastPow(2, 63, 1) == 9223372036854775808
    ensures FastPow(3, 40, 1) == 12157665459056928801
    ensures FastPow(4, 31, 1) == 4611686018427387904
    ensures FastPow(5, 27, 1) == 7450580596923828125
    ensures FastPow(6, 24, 1) == 4738381338321616896
    ensures FastPow(7, 22, 1) == 3909821048582988049
  {
  }

  lemma Powers8To13()
    ensures FastPow(8, 21, 1) == 9223372036854775808
    ensures FastPow(9, 20, 1) == 12157665459056928801
    ensures FastPow(10, 19, 1) == 10000000000000000000
    ensures FastPow(11, 18, 1) == 5559917313492231481
    ensures FastPow(12, 17, 1) == 2218611106740436992
    ensures FastPow(13, 17, 1) == 8650415919381337933
  {
  }

  lemma Powers14To19()
    ensures FastPow(14, 16, 1) == 2177953337809371136
    ensures FastPow(15, 16, 1) == 6568408355712890625
    ensures FastPow(16, 15, 1) == 1152921504606846976
    ensures FastPow(17, 15, 1) == 2862423051509815793
    ensures FastPow(18, 15, 1) == 6746640616477458432
    ensures FastPow(19, 15, 1) == 15181127029874798299
  {
  }

  lemma Powers20To27()
    ensures FastPow(20, 14, 1) == 1638400000000000000
    ensures FastPow(21, 14, 1) == 3243919932521508681
    ensures FastPow(22, 14, 1) == 6221821273427820544
    ensures FastPow(23, 14, 1) == 11592836324538749809
    ensures FastPow(24, 13, 1) == 876488338465357824
    ensures FastPow(25, 13, 1) == 1490116119384765625
    ensures FastPow(26, 13, 1) == 2481152873203736576
    ensures FastPow(27, 13, 1) == 4052555153018976267
  {
  }

  lemma Powers28To36()
    ensures FastPow(28, 13, 1) == 6502111422497947648
    ensures FastPow(29, 13, 1) == 10260628712958602189
    ensures FastPow(30, 13, 1) == 15943230000000000000
    ensures FastPow(31, 12, 1) == 787662783788549761
    ensures FastPow(32, 12, 1) == 1152921504606846976
    ensures FastPow(33, 12, 1) == 1667889514952984961
    ensures FastPow(34, 12, 1) == 2386420683693101056
    ensures FastPow(35, 12, 1) == 3379220508056640625
    ensures FastPow(36, 12, 1) == 4738381338321616896
  {
  }

  /** The tables hold, for every base, the length of the longest 64-bit number and the smallest number of that length;
      one digit more never fits. */
  lemma TablesAreRight(base: nat)
    requires 2 <= base <= 36
    ensures MaxDigits(base) > 0 && MinSafe(base) == Pow(base, MaxDigits(base) - 1) > 0x2_0000_0000
    ensures Pow(base, MaxDigits(base)) >= WORD
  {
    hide FastPow, Pow, MaxDigits, MinSafe;
    assert RowIsRight(base) by { AllRows(base); }
    FastPowIsPow(base, MaxDigits(base) - 1, 1);
    PowStep(base, MaxDigits(base) - 1);
  }

  lemma AllRows(base: nat)
    requires 2 <= base <= 36
    ensures RowIsRight(base)
  {
    hide RowIsRight;
    if base <= 7 { Rows2To7(base); }
    else if base <= 13 { Rows8To13(base); }
    else if base <= 19 { Rows14To19(base); }
    else if base <= 27 { Rows20To27(base); }
    else { Rows28To36(base); }
  }

  lemma Rows2To7(base: nat)
    requires 2 <= base <= 7
    ensures RowIsRight(base)
  {
    hide FastPow;
    Powers2To7();
  }

  lemma Rows8To13(base: nat)
    requires 8 <= base <= 13
    ensures RowIsRight(base)
  {
    hide FastPow;
    Powers8To13();
  }

  lemma Rows14To19(base: nat)
    requires 14 <= base <= 19
    ensures RowIsRight(base)
  {
    hide FastPow;
    Powers14To19();
  }

  lemma Rows20To27(base: nat)
    requires 20 <= base <= 27
    ensures RowIsRight(base)
  {
    hide FastPow;
    Powers20To27();
  }

  lemma Rows28To36(base: nat)
    requires 28 <= base <= 36
    ensures RowIsRight(base)
  {
    hide FastPow;
    Powers28To36();
  }

  // ----- the target types

  datatype Width = W8 | W16 | W32 | W64

  datatype IntType = IntType(width: Width, signed: bool) {
    /** 2^bits. */
    function Modulus(): (r: nat)
      ensures r > 1
    {
      match width
      case W8 => 0x100
      case W16 => 0x1_0000
      case W32 => 0x1_0000_0000
      case W64 => WORD
    }

    function Max(): nat { if signed then Modulus() / 2 - 1 else Modulus() - 1 }

    function Min(): int { if signed then -(Modulus() / 2) else 0 }

    /** T(x): wrap an integer into the type. */
    function Cast(x: int): int {
      var r := x % Modulus();
      if r > Max() then r - Modulus() else r
    }
  }

  /** std::numeric_limits of the eight types. */
  lemma LimitsAre()
    ensures (IntType(W8, true).Min(), IntType(W8, true).Max()) == (-128, 127)
    ensures (IntType(W16, true).Min(), IntType(W16, true).Max()) == (-32768, 32767)
    ensures (IntType(W32, true).Min(), IntType(W32, true).Max()) == (-2147483648, 2147483647)
    ensures (IntType(W64, true).Min(), IntType(W64, true).Max()) == (-9223372036854775808, 9223372036854775807)
    ensures (IntType(W8, false).Min(), IntType(W8, false).Max()) == (0, 255)
    ensures (IntType(W16, false).Min(), IntType(W16, false).Max()) == (0, 65535)
    ensures (IntType(W32, false).Min(), IntType(W32, false).Max()) == (0, 4294967295)
    ensures (IntType(W64, false).Min(), IntType(W64, false).Max()) == (0, 18446744073709551615)
  {
  }

  /** Casting keeps what is in range; and the workaround for negating an unsigned number gives its negation. */
  lemma CastInRange(t: IntType, x: int)
    requires t.Min() <= x <= t.Max()
    ensures t.Cast(x) == x
  {
    DivModUnique(x, t.Modulus(), if x < 0 then -1 else 0, if x < 0 then x + t.Modulus() else x);
  }

  lemma CastNegation(t: IntType, i: u64)
    requires t.signed && 0 < i <= t.Max() + 1
    ensures t.Cast(0 - t.Max() - t.Cast((i - t.Max()) % WORD)) == 0 - i
  {
    var d := i - t.Max();
    var r := d % WORD;
    assert r == if d < 0 then d + WORD else d by {
      DivModUnique(d, WORD, if d < 0 then -1 else 0, if d < 0 then d + WORD else d);
    }
    assert t.Cast(r) == d by {
      if d >= 0 {
        CastInRange(t, d);
      } else {
        WordMultiple(t);
        var m := t.Modulus();
        DivModUnique(r, m, WORD / m - 1, d + m);
      }
    }
    CastInRange(t, 0 - i);
  }

  lemma WordMultiple(t: IntType)
    ensures WORD == (WORD / t.Modulus()) * t.Modulus() && WORD / t.Modulus() >= 1
  {
  }

  // ----- what should be parsed

  datatype IntResult = NotANumber | OutOfRange(end: nat) | Number(value: int, end: nat)

  /** The sign, and the run of digits after it. */
  function DigitsStart(s: seq<byte>): (a: nat)
    requires s != []
    ensures a <= 1 <= |s|
  {
    if s[0] == MINUS then 1 else 0
  }

  function IntDigits(s: seq<byte>, base: nat): seq<byte>
    requires s != []
  {
    s[DigitsStart(s)..BaseRunEnd(s, DigitsStart(s), base)]
  }

  /** The number written, and whether the type can hold it. */
  function IntSpec(t: IntType, s: seq<byte>, base: nat): IntResult
    requires s != []
  {
    var negative := s[0] == MINUS;
    if negative && !t.signed then NotANumber else
    var digits := IntDigits(s, base);
    if digits == [] then NotANumber else
    var v := BaseValue(digits, base);
    var x := if negative then 0 - v else v;
    var end := BaseRunEnd(s, DigitsStart(s), base);
    if t.Min() <= x <= t.Max() then Number(x, end) else OutOfRange(end)
  }

  /** The largest magnitude that the last check lets through. */
  function Limit(t: IntType, s: seq<byte>): nat
    requires s != []
  {
    t.Max() + if s[0] == MINUS then 1 else 0
  }

  /** A magnitude that does not fit, but whose low 64 bits pass the checks for a number with as many digits. */
  predicate Slips(t: IntType, negative: bool, v: nat, base: nat)
    requires 2 <= base <= 36
  {
    WORD <= v < Pow(base, MaxDigits(base)) && MinSafe(base) <= v % WORD <= t.Max() + if negative then 1 else 0
  }

  /** A number as long as the longest 64-bit ones that does not fit, but whose low 64 bits look as if it did. */
  predicate Fooled(t: IntType, s: seq<byte>, base: nat)
    requires s != [] && 2 <= base <= 36
  {
    (s[0] == MINUS ==> t.signed) && Slips(t, s[0] == MINUS, BaseValue(IntDigits(s, base), base), base)
  }

  lemma LimitBelowWord(t: IntType, s: seq<byte>)
    requires s != [] && (s[0] == MINUS ==> t.signed)
    ensures Limit(t, s) < WORD
    ensures t.Min() == if t.signed then 0 - t.Max() - 1 else 0
  {
  }

  /** What the algorithm answers. */
  function IntParse(t: IntType, s: seq<byte>, base: nat): IntResult
    requires s != [] && 2 <= base <= 36
  {
    if Fooled(t, s, base) then
      var i := BaseValue(IntDigits(s, base), base) % WORD;
      Number(if s[0] == MINUS then 0 - i else i, BaseRunEnd(s, DigitsStart(s), base))
    else IntSpec(t, s, base)
  }

  /** The answer is the number written, or an error if that is absent or out of range, unless the checks are fooled. */
  lemma RightUnlessFooled(t: IntType, s: seq<byte>, base: nat)
    requires s != [] && 2 <= base <= 36
    ensures IntParse(t, s, base) == IntSpec(t, s, base) <==> !Fooled(t, s, base)
  {
    hide BaseValue, BaseRunEnd, Pow, MaxDigits, MinSafe, IntType.Modulus;
    if Fooled(t, s, base) {
      LimitBelowWord(t, s);
      BaseValueEmpty(base);
    }
  }

  // ----- the text in terms of its characters

  /** The answer for a numeral of n characters: sign, range, and the one fault of the overflow check. */
  function Verdict(t: IntType, negative: bool, v: nat, n: nat, base: nat): IntResult
    requires 2 <= base <= 36
  {
    var x := if negative then 0 - v else v;
    if negative && !t.signed then NotANumber
    else if t.Min() <= x <= t.Max() then Number(x, n)
    else if Slips(t, negative, v, base) then Number(if negative then 0 - v % WORD else v % WORD, n)
    else OutOfRange(n)
  }

  lemma NumeralParts(s: seq<byte>, n: nat, negative: bool, v: nat, base: nat)
    requires 2 <= base <= 36 && s != [] && Begins(s, n, negative, v, base)
    ensures (s[0] == MINUS) == negative && BaseRunEnd(s, DigitsStart(s), base) == n
    ensures IntDigits(s, base) != [] && BaseValue(IntDigits(s, base), base) == v
  {
    hide BaseValue, BaseRunEnd, ChToDigit, Writes, Continues;
    var a := if negative then 1 else 0;
    var digits := s[..n][a..];
    assert digits == s[a..n];
    if !negative { assert s[..n][0..] == s[..n]; }
    WritesValue(digits, v, base);
    if n < |s| { ContinuesRun(s[n], base); }
    BaseRunEndUnique(s, a, n, base);
    assert ChToDigit(digits[0]) < base;
    MinusIsNoDigit();
    assert digits[0] == s[a];
  }

  lemma MinusIsNoDigit()
    ensures ChToDigit(MINUS) == 255
  {
  }

  lemma NumeralIsParsed(t: IntType, s: seq<byte>, n: nat, negative: bool, v: nat, base: nat)
    requires 2 <= base <= 36 && s != [] && Begins(s, n, negative, v, base)
    ensures IntParse(t, s, base) == Verdict(t, negative, v, n, base)
  {
    hide BaseValue, BaseRunEnd, ChToDigit, Begins, Pow, MaxDigits, MinSafe, IntType.Modulus;
    NumeralParts(s, n, negative, v, base);
    LimitBelowModulus(t);
  }

  lemma LimitBelowModulus(t: IntType)
    ensures t.Max() < WORD && t.Min() > 0 - WORD
  {
  }

  /** Where no numeral begins there is no digit. */
  lemma NoNumeral(t: IntType, s: seq<byte>, base: nat)
    requires 2 <= base <= 36 && s != [] && forall n: nat, negative, v: nat :: !Begins(s, n, negative, v, base)
    ensures IntParse(t, s, base) == NotANumber
  {
    hide BaseValue, BaseRunEnd, ChToDigit, Writes, Continues, Pow, MaxDigits, MinSafe, IntType.Modulus;
    BaseValueEmpty(base);
    var (a, digits) := (DigitsStart(s), IntDigits(s, base));
    var n := BaseRunEnd(s, a, base);
    if digits != [] {
      RunIsDigits(s, a, base);
      WritesValue(digits, BaseValue(digits, base), base);
      if n < |s| { ContinuesRun(s[n], base); }
      assert s[..n][a..] == digits;
      if a == 0 { assert s[..n] == digits; }
      assert !Begins(s, n, s[0] == MINUS, BaseValue(digits, base), base);
    }
  }

  // ----- the algorithm

  /** The digit loop. */
  method ParseBaseDigits(s: seq<byte>, start: nat, base: nat) returns (p: nat, i: u64)
    requires start <= |s| && 2 <= base <= 36
    ensures p == BaseRunEnd(s, start, base) && BaseDigits(s[start..p], base) && i == BaseValue(s[start..p], base) % WORD
  {
    hide BaseValue, BaseRunEnd;
    p, i := start, 0;
    assert s[start..p] == [];
    BaseValueEmpty(base);
    if base == 10 {
      p, i := LoopParseIfEightDigits(s, p, i);
      BaseTen(s[start..p]);
      TenWord(s[start..p]);
    }
    while p != |s|
      invariant start <= p <= |s| && BaseDigits(s[start..p], base) && i == BaseValue(s[start..p], base) % WORD
      decreases |s| - p
    {
      var digit := ChToDigit(s[p]);
      if digit >= base { break; }
      assert s[start..p + 1] == s[start..p] + [s[p]];
      BaseValueSnoc(s[start..p], s[p], base);
      WrapStep(BaseValue(s[start..p], base), base, digit);
      i := (base * i + digit) % WORD;
      p := p + 1;
    }
    BaseRunEndUnique(s, start, p, base);
  }

  lemma TenWord(s: seq<byte>)
    requires AllDigits(s)
    ensures Accumulate(0, s) == BaseValue(s, 10) % WORD
  {
    hide Accumulate, DigitsValue, BaseValue, Pow;
    BaseTen(s);
    AccumulateValue(0, s);
    assert 0 * Pow(10, |s|) == 0;
  }

  lemma WrapStep(v: nat, base: nat, digit: nat)
    ensures (base * (v % WORD) + digit) % WORD == (base * v + digit) % WORD
  {
    var k, r := v / WORD, base * (v % WORD) + digit;
    assert base * v == base * (v % WORD) + (base * k) * WORD by {
      MulDistributes(k * WORD, v % WORD, base);
      MulAssoc(base, k, WORD);
    }
    DivModUnique(base * v + digit, WORD, base * k + r / WORD, r % WORD);
  }

  /** The checks after the digit loop. */
  predicate Accepted(t: IntType, s: seq<byte>, base: nat, count: nat, i: u64)
    requires s != [] && 2 <= base <= 36
  {
    count <= MaxDigits(base) && !(count == MaxDigits(base) && i < MinSafe(base)) && i <= Limit(t, s)
  }

  /** parse_int_string: what the text says, unless its number slips through the overflow check. In terms of the
      characters: a text that begins with a numeral, of whatever spelling, gives the verdict on that numeral, and any
      other text is no number. */
  method ParseIntString(t: IntType, s: seq<byte>, base: nat) returns (r: IntResult)
    requires s != [] && 2 <= base <= 36
    ensures r == IntParse(t, s, base)
    ensures r == IntSpec(t, s, base) <==> !Fooled(t, s, base)
    ensures forall n: nat, negative, v: nat | Begins(s, n, negative, v, base) :: r == Verdict(t, negative, v, n, base)
    ensures (forall n: nat, negative, v: nat :: !Begins(s, n, negative, v, base)) ==> r == NotANumber
  {
    hide BaseValue, BaseRunEnd, BaseDigits, MaxDigits, MinSafe, IntType.Modulus, IntType.Cast, IntParse, IntSpec,
      Fooled, Begins, Verdict;
    RightUnlessFooled(t, s, base);
    forall n: nat, negative, v: nat | Begins(s, n, negative, v, base)
      ensures IntParse(t, s, base) == Verdict(t, negative, v, n, base)
    {
      NumeralIsParsed(t, s, n, negative, v, base);
    }
    if forall n: nat, negative, v: nat :: !Begins(s, n, negative, v, base) {
      NoNumeral(t, s, base);
    }
    var p := 0;
    var negative := s[p] == MINUS;
    if !t.signed && negative {
      NoSign(t, s, base);
      return NotANumber;
    }
    if negative {
      p := p + 1;
    }
    var startNum := p;
    while p != |s| && s[p] == ZERO
      invariant startNum <= p <= |s| && AllZeros(s[startNum..p])
      decreases |s| - p
    {
      assert s[startNum..p + 1] == s[startNum..p] + [s[p]];
      p := p + 1;
    }
    var hasLeadingZeros := p > startNum;
    var startDigits := p;
    var i;
    p, i := ParseBaseDigits(s, p, base);
    DigitsAre(s, base, startDigits, p);
    var digitCount := p - startDigits;
    if digitCount == 0 {
      ZeroParse(t, s, base);
      if hasLeadingZeros { return Number(0, p); }
      return NotANumber;
    }
    ChecksDecide(t, s, base, s[startDigits..p], i);
    var maxDigits := MaxDigits(base);
    if digitCount > maxDigits { return OutOfRange(p); }
    if digitCount == maxDigits && i < MinSafe(base) { return OutOfRange(p); }
    if t != IntType(W64, false) {
      if i > t.Max() + (if negative then 1 else 0) { return OutOfRange(p); }
    }
    WordFits(i);
    if negative {
      CastNegation(t, i);
      return Number(t.Cast(0 - t.Max() - t.Cast((i - t.Max()) % WORD)), p);
    } else {
      CastInRange(t, i);
      return Number(t.Cast(i), p);
    }
  }

  lemma WordFits(i: u64)
    ensures i <= IntType(W64, false).Max()
  {
  }

  lemma NoSign(t: IntType, s: seq<byte>, base: nat)
    requires s != [] && 2 <= base <= 36 && s[0] == MINUS && !t.signed
    ensures IntParse(t, s, base) == NotANumber
  {
    hide MaxDigits, MinSafe, Pow, BaseValue, BaseRunEnd;
  }

  /** The run of digits is the leading zeros, which have no value, and the rest. */
  lemma DigitsAre(s: seq<byte>, base: nat, startDigits: nat, p: nat)
    requires s != [] && 2 <= base <= 36 && DigitsStart(s) <= startDigits <= p <= |s|
    requires AllZeros(s[DigitsStart(s)..startDigits]) && (startDigits < |s| ==> s[startDigits] != ZERO)
    requires p == BaseRunEnd(s, startDigits, base) && BaseDigits(s[startDigits..p], base)
    ensures BaseRunEnd(s, DigitsStart(s), base) == p && BaseDigits(IntDigits(s, base), base)
    ensures BaseValue(IntDigits(s, base), base) == BaseValue(s[startDigits..p], base)
    ensures p == startDigits ==> (IntDigits(s, base) == [] <==> startDigits == DigitsStart(s))
    ensures p == startDigits ==> BaseValue(IntDigits(s, base), base) == 0
    ensures p > startDigits ==> IntDigits(s, base) != []
  {
    hide BaseValue, BaseRunEnd, Pow;
    var a := DigitsStart(s);
    var zeros, rest := s[a..startDigits], s[startDigits..p];
    assert s[a..p] == zeros + rest;
    BaseRunEndUnique(s, a, p, base);
    BaseZeros(zeros, base);
    BaseValueAppend(zeros, rest, base);
    assert 0 * Pow(base, |rest|) == 0;
    BaseValueEmpty(base);
    assert p == startDigits ==> rest == [];
  }

  lemma ZeroParse(t: IntType, s: seq<byte>, base: nat)
    requires s != [] && 2 <= base <= 36 && (s[0] == MINUS ==> t.signed) && BaseValue(IntDigits(s, base), base) == 0
    ensures IntParse(t, s, base) ==
      if IntDigits(s, base) == [] then NotANumber else Number(0, BaseRunEnd(s, DigitsStart(s), base))
  {
    hide BaseValue, BaseRunEnd, Pow, MaxDigits, MinSafe;
  }

  /** The digit count, the smallest number of that length and the type's limit together decide as IntParse says. */
  lemma ChecksDecide(t: IntType, s: seq<byte>, base: nat, digits: seq<byte>, i: u64)
    requires s != [] && 2 <= base <= 36 && (s[0] == MINUS ==> t.signed)
    requires BaseDigits(digits, base) && digits != [] && digits[0] != ZERO && IntDigits(s, base) != []
    requires BaseValue(digits, base) == BaseValue(IntDigits(s, base), base) && i == BaseValue(digits, base) % WORD
    ensures
      var end := BaseRunEnd(s, DigitsStart(s), base);
      IntParse(t, s, base) ==
        if Accepted(t, s, base, |digits|, i) then Number(if s[0] == MINUS then 0 - i else i, end) else OutOfRange(end)
    ensures Accepted(t, s, base, |digits|, i) ==> i > 0
  {
    hide BaseValue, BaseRunEnd, Pow, MaxDigits, MinSafe, IntType.Modulus, IntDigits;
    var v, count, max := BaseValue(digits, base), |digits|, MaxDigits(base);
    BaseLeadingDigit(digits, base);
    TablesAreRight(base);
    LimitBelowWord(t, s);
    if count < max {
      PowMonotone(base, count, max - 1);
      DivModUnique(v, WORD, 0, v);
    } else if count == max {
      if v < WORD { DivModUnique(v, WORD, 0, v); }
    } else {
      PowMonotone(base, max, count - 1);
    }
  }

  // ----- when the answer is right

  /** Types of at most 32 bits are always right: the wrapped number is too large for them. */
  lemma NarrowIsRight(t: IntType, s: seq<byte>, base: nat)
    requires s != [] && 2 <= base <= 36 && t.width != W64
    ensures IntParse(t, s, base) == IntSpec(t, s, base)
  {
    hide BaseValue, BaseRunEnd, Pow, MaxDigits, MinSafe;
    TablesAreRight(base);
  }

  /** So are signed 64-bit numbers in base 10, and all types in base 2, 4 and 16. */
  lemma DecimalInt64IsRight(t: IntType, s: seq<byte>)
    requires s != [] && t == IntType(W64, true)
    ensures IntParse(t, s, 10) == IntSpec(t, s, 10)
  {
    hide BaseValue, BaseRunEnd, Pow;
  }

  lemma PowerOfTwoIsRight(t: IntType, s: seq<byte>, base: nat)
    requires s != [] && base in {2, 4, 16}
    ensures IntParse(t, s, base) == IntSpec(t, s, base)
  {
    hide BaseValue, BaseRunEnd, Pow, FastPow;
    TablesAreRight(base);
    AllRows(base);
    PowStep(base, MaxDigits(base) - 1);
  }

  /** Whatever the type can hold is parsed exactly. */
  lemma InRangeIsRight(t: IntType, s: seq<byte>, base: nat)
    requires s != [] && 2 <= base <= 36 && IntSpec(t, s, base).Number?
    ensures IntParse(t, s, base) == IntSpec(t, s, base)
  {
    hide BaseValue, BaseRunEnd, Pow, MaxDigits, MinSafe, IntType.Modulus;
    LimitBelowWord(t, s);
  }

  /** 28446744073709551616, which is 2^64 + 10^19. */
  const WRAPPED_HIGH: seq<byte> := [0x32, 0x38, 0x34, 0x34, 0x36, 0x37, 0x34, 0x34]
  const WRAPPED_MIDDLE: seq<byte> := [0x30, 0x37, 0x33, 0x37, 0x30, 0x39, 0x35, 0x35]
  const WRAPPED_LOW: seq<byte> := [0x31, 0x36, 0x31, 0x36]
  const WRAPPED: seq<byte> := WRAPPED_HIGH + (WRAPPED_MIDDLE + WRAPPED_LOW)

  lemma WrappedValue()
    ensures AllDigits(WRAPPED) && |WRAPPED| == 20 && DigitsValue(WRAPPED) == WORD + 10000000000000000000
  {
    hide Pow, DigitsValue;
    DigitsValueOf8(WRAPPED_HIGH);
    DigitsValueOf8(WRAPPED_MIDDLE);
    DigitsValueOf4(WRAPPED_LOW);
    DigitsValueAppend(WRAPPED_MIDDLE, WRAPPED_LOW);
    DigitsValueAppend(WRAPPED_HIGH, WRAPPED_MIDDLE + WRAPPED_LOW);
    TenPowers();
  }

  /** But for unsigned 64-bit numbers some out-of-range ones pass: 2^64 + 10^19 is read as 10^19. */
  lemma WrappedDecimal()
    ensures WRAPPED != []
    ensures IntSpec(IntType(W64, false), WRAPPED, 10) == OutOfRange(20)
    ensures IntParse(IntType(W64, false), WRAPPED, 10) == Number(10000000000000000000, 20)
  {
    WrappedValue();
    TenPowers();
    assert WRAPPED[0] == 0x32;
    hide BaseValue, BaseRunEnd, Pow, DigitsValue, WRAPPED;
    WrappedParse(WRAPPED);
  }

  lemma WrappedParse(s: seq<byte>)
    requires AllDigits(s) && |s| == 20 && DigitsValue(s) == WORD + 10000000000000000000 && s[0] != MINUS
    ensures IntSpec(IntType(W64, false), s, 10) == OutOfRange(20)
    ensures IntParse(IntType(W64, false), s, 10) == Number(10000000000000000000, 20)
  {
    hide BaseValue, BaseRunEnd, Pow, DigitsValue;
    TenPowers();
    assert s[0..20] == s;
    BaseTen(s);
    BaseRunEndUnique(s, 0, 20, 10);
  }

  lemma TenPowers()
    ensures Pow(10, 4) == 10000 && Pow(10, 12) == 1000000000000 && Pow(10, 20) == 100000000000000000000
  {
    TenToTheFourth();
    hide Pow;
    PowDoubles(10, 4, 10000);
    PowAdd(10, 8, 4);
    PowAdd(10, 16, 4);
    PowDoubles(10, 8, 100000000);
  }

  // ----- printing and parsing

  function DigitChar(d: nat): byte
    requires d < 36
  {
    if d < 10 then 0x30 + d else 0x61 + (d - 10)
  }

  /** A number written in a base, with lower-case letters. */
  function Printed(n: nat, base: nat): (s: seq<byte>)
    requires 2 <= base <= 36
    ensures s != []
    decreases n
  {
    if n < base then [DigitChar(n)] else
      DivModDefinition(n, base);
      Quotient(n, base);
      Printed(n / base, base) + [DigitChar(n % base)]
  }

  lemma Quotient(n: nat, base: nat)
    requires 2 <= base <= n
    ensures 0 <= n / base < n
  {
    DivModDefinition(n, base);
    MulOrder(2, base, n / base);
  }

  lemma DigitCharIs(d: nat)
    requires d < 36
    ensures ChToDigit(DigitChar(d)) == d && DigitChar(d) != MINUS
  {
  }

  lemma PrintedIs(n: nat, base: nat)
    requires 2 <= base <= 36
    ensures n < base ==> Printed(n, base) == [DigitChar(n)]
    ensures n >= base ==> n / base >= 0 && Printed(n, base) == Printed(n / base, base) + [DigitChar(n % base)]
  {
    DivModDefinition(n, base);
  }

  lemma OneDigit(c: byte, base: nat)
    requires ChToDigit(c) < base
    ensures BaseDigits([c], base)
  {
  }

  lemma PrintedSnoc(s: seq<byte>, r: nat, base: nat)
    requires BaseDigits(s, base) && s != [] && s[0] != MINUS && r < base <= 36
    ensures
      var t := s + [DigitChar(r)];
      BaseDigits(t, base) && BaseValue(t, base) == base * BaseValue(s, base) + r && t[0] != MINUS
  {
    hide BaseValue;
    DigitCharIs(r);
    BaseValueSnoc(s, DigitChar(r), base);
  }

  lemma {:induction false} PrintedValue(n: nat, base: nat)
    requires 2 <= base <= 36
    ensures BaseDigits(Printed(n, base), base) && BaseValue(Printed(n, base), base) == n
    ensures Printed(n, base)[0] != MINUS
    decreases n
  {
    hide BaseValue, BaseDigits, ChToDigit, DigitChar, Printed;
    BaseValueEmpty(base);
    PrintedIs(n, base);
    if n < base {
      DigitCharIs(n);
      BaseValueSnoc([], DigitChar(n), base);
      assert [] + [DigitChar(n)] == [DigitChar(n)];
      OneDigit(DigitChar(n), base);
    } else {
      DivModDefinition(n, base);
      Quotient(n, base);
      var q, r := n / base, n % base;
      PrintedValue(q, base);
      DigitCharIs(r);
      PrintedSnoc(Printed(q, base), r, base);
    }
  }

  function PrintedInt(x: int, base: nat): (s: seq<byte>)
    requires 2 <= base <= 36
    ensures s != []
  {
    if x < 0 then [MINUS] + Printed(-x, base) else Printed(x, base)
  }

  /** Every value of every type, printed in any base, is read back, and all of the text is consumed. */
  lemma PrintedIsParsed(t: IntType, x: int, base: nat)
    requires t.Min() <= x <= t.Max() && 2 <= base <= 36
    ensures IntParse(t, PrintedInt(x, base), base) == Number(x, |PrintedInt(x, base)|)
  {
    hide BaseValue, BaseRunEnd, Printed, IntParse, BaseDigits, IntType.Modulus;
    var s := PrintedInt(x, base);
    var a := if x < 0 then 1 else 0;
    PrintedValue(if x < 0 then -x else x, base);
    assert s[a..|s|] == Printed(if x < 0 then -x else x, base);
    assert DigitsStart(s) == a;
    BaseRunEndUnique(s, a, |s|, base);
    InRangeIsRight(t, s, base);
  }
}
