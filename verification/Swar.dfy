/** Eight digits at a time: the word-parallel digit test and conversion, and the loop that uses them. */
module Swar {
  import opened Arith
  import opened Digits

  const ASCII_ZEROS: u64 := 0x3030303030303030
  const ABOVE_NINES: u64 := 0x4646464646464646

  /** read8_to_u64: bytes into a word, the first one lowest. */
  function LittleEndian(s: seq<byte>): nat {
    if s == [] then 0 else s[0] + 256 * LittleEndian(s[1..])
  }

  /** x & 0x80...80 == 0 on the low n bytes. */
  predicate TopBitsClear(x: nat, n: nat) {
    n == 0 || (x % 256 < 128 && TopBitsClear(x / 256, n - 1))
  }

  /** is_made_of_eight_digits_fast: no byte of val + 0x46...46 or of val - 0x30...30 has its top bit set. */
  predicate IsMadeOfEightDigitsFast(val: u64) {
    TopBitsClear((val + ABOVE_NINES) % WORD, 8) && TopBitsClear((val - ASCII_ZEROS) % WORD, 8)
  }

  /** x & 0x000000FF000000FF. */
  function EveryFourthByte(x: nat): nat {
    x % 0x100 + (x / 0x1_0000_0000) % 0x100 * 0x1_0000_0000
  }

  /** parse_eight_digits_unrolled: pairs of digits, then pairs of pairs, by two multiplications. */
  function ParseEightDigitsUnrolled(val: u64): u64 {
    FromPairs(Pairs((val - ASCII_ZEROS) % WORD))
  }

  function FromPairs(pairs: u64): u64 {
    Products(EveryFourthByte(pairs), EveryFourthByte(pairs / 0x1_0000))
  }

  function Products(x: nat, y: nat): u64 {
    (x * 0x000F_4240_0000_0064 % WORD + y * 0x0000_2710_0000_0001 % WORD) % WORD / 0x1_0000_0000
  }

  function Pairs(digits: u64): u64 {
    (digits * 10 + digits / 0x100) % WORD
  }

  // ----- the test

  /** The byte c repeated n times. */
  function Repeat(c: byte, n: nat): nat {
    if n == 0 then 0 else c + 256 * Repeat(c, n - 1)
  }

  lemma ModLowByte(x: int, y: int, m: nat)
    requires 0 <= x < 256 && m > 0
    ensures (x + 256 * y) % (256 * m) == x + 256 * (y % m)
  {
    DivModDefinition(y, m);
    MulAssoc(y / m, m, 256);
    DivModUnique(x + 256 * y, 256 * m, y / m, x + 256 * (y % m));
  }

  /** x, wrapped to n bytes, has no byte with its top bit set. */
  predicate Clear(x: int, n: nat) {
    TopBitsClear(x % Pow(256, n), n)
  }

  /** The two words of the test, n bytes wide. */
  predicate PassesTest(x: nat, n: nat) {
    Clear(x + Repeat(0x46, n), n) && Clear(x - Repeat(0x30, n), n)
  }

  lemma ClearStep(x: int, y: int, n: nat)
    requires 0 <= x < 256
    ensures Clear(x + 256 * y, n + 1) <==> x < 128 && Clear(y, n)
  {
    hide Pow, TopBitsClear;
    PowStep(256, n);
    ModLowByte(x, y, Pow(256, n));
    DivModDefinition(y, Pow(256, n));
    LowByteClear(x, y % Pow(256, n), n);
  }

  /** A carry or borrow out of the lowest byte leaves its own top bit as it is. */
  lemma ClearCarry(x: int, y: int, n: nat)
    requires -256 <= x < 512
    ensures Clear(x + 256 * y, n + 1) ==> x % 256 < 128
  {
    hide Pow, TopBitsClear;
    ClearStep(x % 256, y + x / 256, n);
  }

  /** On the lowest byte the test is the digit test: a byte that is no digit sets a top bit in one of the two words,
      whatever is above it, and a digit passes on neither a carry nor a borrow. */
  lemma LowByteTest(b: byte, y: nat, n: nat)
    ensures PassesTest(b + 256 * y, n + 1) <==> IsDigit(b) && PassesTest(y, n)
  {
    hide Clear, Repeat;
    var up, down: int := y + Repeat(0x46, n), y - Repeat(0x30, n);
    RepeatStep(0x46, n);
    RepeatStep(0x30, n);
    assert b + 256 * y + Repeat(0x46, n + 1) == (b + 0x46) + 256 * up;
    assert b + 256 * y - Repeat(0x30, n + 1) == (b - 0x30) + 256 * down;
    ClearCarry(b + 0x46, up, n);
    ClearCarry(b - 0x30, down, n);
    if IsDigit(b) {
      ClearStep(b + 0x46, up, n);
      ClearStep(b - 0x30, down, n);
    }
  }

  lemma RepeatStep(c: byte, n: nat)
    ensures Repeat(c, n + 1) == c + 256 * Repeat(c, n)
  {
  }

  lemma LowByteClear(x: nat, z: nat, n: nat)
    requires x < 256
    ensures TopBitsClear(x + 256 * z, n + 1) <==> x < 128 && TopBitsClear(z, n)
  {
    DivModUnique(x + 256 * z, 256, z, x);
  }

  lemma {:induction false} TestIsExact(s: seq<byte>)
    ensures PassesTest(LittleEndian(s), |s|) <==> AllDigits(s)
  {
    if s != [] {
      hide PassesTest;
      TestIsExact(s[1..]);
      LowByteTest(s[0], LittleEndian(s[1..]), |s| - 1);
      assert s == [s[0]] + s[1..];
    }
  }

  lemma EightBytes()
    ensures Pow(256, 8) == WORD && Repeat(0x46, 8) == ABOVE_NINES && Repeat(0x30, 8) == ASCII_ZEROS
  {
    assert Pow(256, 2) == 0x1_0000;
    PowDoubles(256, 2, 0x1_0000);
    PowDoubles(256, 4, 0x1_0000_0000);
    assert Repeat(0x46, 4) == 0x46464646 && Repeat(0x30, 4) == 0x30303030;
  }

  /** The fast test accepts exactly eight ASCII digits. */
  lemma FastTestIsExact(s: seq<byte>)
    requires |s| == 8
    ensures 0 <= LittleEndian(s) < WORD
    ensures IsMadeOfEightDigitsFast(LittleEndian(s)) <==> AllDigits(s)
  {
    hide Pow, LittleEndian, TopBitsClear, Repeat;
    LittleEndianBound(s);
    EightBytes();
    TestIsExact(s);
  }

  lemma {:induction false} LittleEndianBound(s: seq<byte>)
    ensures LittleEndian(s) < Pow(256, |s|)
  {
    if s != [] {
      LittleEndianBound(s[1..]);
    }
  }

  // ----- the conversion

  function Word4(a: int, b: int, c: int, d: int): int {
    a + 0x100 * b + 0x1_0000 * c + 0x100_0000 * d
  }

  function Decimal4(a: int, b: int, c: int, d: int): int {
    1000 * a + 100 * b + 10 * c + d
  }

  lemma LittleEndianOf4(s: seq<byte>)
    requires |s| == 4
    ensures LittleEndian(s) == Word4(s[0], s[1], s[2], s[3])
  {
    LittleEndianAt(s, 0);
    LittleEndianAt(s, 1);
    LittleEndianAt(s, 2);
    LittleEndianAt(s, 3);
  }

  lemma LittleEndianAt(s: seq<byte>, k: nat)
    requires k < |s|
    ensures LittleEndian(s[k..]) == s[k] + 256 * LittleEndian(s[k + 1..])
    ensures s[0..] == s && LittleEndian(s[|s|..]) == 0
  {
    assert s[k..][1..] == s[k + 1..];
  }

  lemma LittleEndianOf8(s: seq<byte>)
    requires |s| == 8
    ensures LittleEndian(s) == Word4(s[0], s[1], s[2], s[3]) + 0x1_0000_0000 * Word4(s[4], s[5], s[6], s[7])
  {
    hide LittleEndian;
    LittleEndianOf4(s[4..]);
    LittleEndianAt(s, 0);
    LittleEndianAt(s, 1);
    LittleEndianAt(s, 2);
    LittleEndianAt(s, 3);
  }

  lemma DigitsValueOf4(s: seq<byte>)
    requires |s| == 4 && AllDigits(s)
    ensures DigitsValue(s) == Decimal4(s[0] - ZERO, s[1] - ZERO, s[2] - ZERO, s[3] - ZERO)
  {
    hide DigitsValue;
    DigitsValueEmpty();
    DigitsValueSnoc(s[..0], s[0]);
    DigitsValueSnoc(s[..1], s[1]);
    DigitsValueSnoc(s[..2], s[2]);
    DigitsValueSnoc(s[..3], s[3]);
    assert s[..0] == [] && s[..0] + [s[0]] == s[..1] && s[..1] + [s[1]] == s[..2] && s[..2] + [s[2]] == s[..3]
        && s[..3] + [s[3]] == s;
  }

  lemma DigitsValueOf8(s: seq<byte>)
    requires |s| == 8 && AllDigits(s)
    ensures DigitsValue(s) == 10000 * Decimal4(s[0] - ZERO, s[1] - ZERO, s[2] - ZERO, s[3] - ZERO)
      + Decimal4(s[4] - ZERO, s[5] - ZERO, s[6] - ZERO, s[7] - ZERO)
  {
    hide DigitsValue, Pow, Decimal4;
    assert s == s[..4] + s[4..];
    DigitsValueAppend(s[..4], s[4..]);
    TenToTheFourth();
    DigitsValueOf4(s[..4]);
    DigitsValueOf4(s[4..]);
  }

  lemma TenToTheFourth()
    ensures Pow(10, 4) == 10000
  {
    assert Pow(10, 2) == 100;
    PowDoubles(10, 2, 100);
  }

  /** The multiply-and-shift conversion gives the decimal value of eight digits. */
  lemma ParseEightIsExact(s: seq<byte>)
    requires |s| == 8 && AllDigits(s)
    ensures 0 <= LittleEndian(s) < WORD && ParseEightDigitsUnrolled(LittleEndian(s)) == DigitsValue(s)
  {
    hide DigitsValue, LittleEndian, Pow;
    LittleEndianBound(s);
    EightBytes();
    LittleEndianOf8(s);
    DigitsValueOf8(s);
    assert forall i :: 0 <= i < 8 ==> IsDigit(s[i]);
    EightDigitWord(LittleEndian(s), s[0] - ZERO, s[1] - ZERO, s[2] - ZERO, s[3] - ZERO,
      s[4] - ZERO, s[5] - ZERO, s[6] - ZERO, s[7] - ZERO);
  }

  lemma EightDigitWord(val: u64, d0: int, d1: int, d2: int, d3: int, d4: int, d5: int, d6: int, d7: int)
    requires 0 <= d0 <= 9 && 0 <= d1 <= 9 && 0 <= d2 <= 9 && 0 <= d3 <= 9
    requires 0 <= d4 <= 9 && 0 <= d5 <= 9 && 0 <= d6 <= 9 && 0 <= d7 <= 9
    requires val == ASCII_ZEROS + Word4(d0, d1, d2, d3) + 0x1_0000_0000 * Word4(d4, d5, d6, d7)
    ensures ParseEightDigitsUnrolled(val) == 10000 * Decimal4(d0, d1, d2, d3) + Decimal4(d4, d5, d6, d7)
  {
    hide Pairs, FromPairs;
    var digits := Word4(d0, d1, d2, d3) + 0x1_0000_0000 * Word4(d4, d5, d6, d7);
    DigitsWord(val, digits);
    DigitPairs(digits, d0, d1, d2, d3, d4, d5, d6, d7);
    PairsValue(Pairs(digits), 10 * d0 + d1, 10 * d1 + d2, 10 * d2 + d3, 10 * d3 + d4,
      10 * d4 + d5, 10 * d5 + d6, 10 * d6 + d7, 10 * d7);
  }

  lemma PairsValue(pairs: u64, e0: int, e1: int, e2: int, e3: int, e4: int, e5: int, e6: int, e7: int)
    requires 0 <= e0 <= 99 && 0 <= e1 <= 99 && 0 <= e2 <= 99 && 0 <= e3 <= 99
    requires 0 <= e4 <= 99 && 0 <= e5 <= 99 && 0 <= e6 <= 99 && 0 <= e7 <= 99
    requires pairs == Word4(e0, e1, e2, e3) + 0x1_0000_0000 * Word4(e4, e5, e6, e7)
    ensures FromPairs(pairs) == 1000000 * e0 + 10000 * e2 + 100 * e4 + e6
  {
    hide EveryFourthByte, Products, Word4;
    PairBytes(pairs, e0, e1, e2, e3, e4, e5, e6, e7);
    PairProducts(e0, e2, e4, e6);
  }

  lemma DigitsWord(val: u64, digits: nat)
    requires val == ASCII_ZEROS + digits
    ensures (val - ASCII_ZEROS) % WORD == digits
  {
    DivModUnique(digits, WORD, 0, digits);
  }

  /** Ten times the word plus the word shifted down by a byte: two-digit numbers, one to a byte, without carries. */
  lemma DigitPairs(digits: u64, d0: int, d1: int, d2: int, d3: int, d4: int, d5: int, d6: int, d7: int)
    requires 0 <= d0 <= 9 && 0 <= d1 <= 9 && 0 <= d2 <= 9 && 0 <= d3 <= 9
    requires 0 <= d4 <= 9 && 0 <= d5 <= 9 && 0 <= d6 <= 9 && 0 <= d7 <= 9
    requires digits == Word4(d0, d1, d2, d3) + 0x1_0000_0000 * Word4(d4, d5, d6, d7)
    ensures Pairs(digits) == Word4(10 * d0 + d1, 10 * d1 + d2, 10 * d2 + d3, 10 * d3 + d4)
      + 0x1_0000_0000 * Word4(10 * d4 + d5, 10 * d5 + d6, 10 * d6 + d7, 10 * d7)
  {
    hide Pairs;
    PairsAre(digits, Word4(d1, d2, d3, d4) + 0x1_0000_0000 * Word4(d5, d6, d7, 0), d0);
  }

  lemma PairsAre(digits: u64, rest: nat, low: nat)
    requires digits == rest * 0x100 + low && low < 0x100 && digits * 10 + rest < WORD
    ensures Pairs(digits) == digits * 10 + rest
  {
    DivModUnique(digits, 0x100, rest, low);
    DivModUnique(digits * 10 + rest, WORD, 0, digits * 10 + rest);
  }

  /** Eight two-digit numbers, one to a byte: masking picks every second pair. */
  lemma PairBytes(pairs: nat, e0: int, e1: int, e2: int, e3: int, e4: int, e5: int, e6: int, e7: int)
    requires 0 <= e0 <= 99 && 0 <= e1 <= 99 && 0 <= e2 <= 99 && 0 <= e3 <= 99
    requires 0 <= e4 <= 99 && 0 <= e5 <= 99 && 0 <= e6 <= 99 && 0 <= e7 <= 99
    requires pairs == Word4(e0, e1, e2, e3) + 0x1_0000_0000 * Word4(e4, e5, e6, e7)
    ensures EveryFourthByte(pairs) == e0 + 0x1_0000_0000 * e4
    ensures EveryFourthByte(pairs / 0x1_0000) == e2 + 0x1_0000_0000 * e6
  {
    assert pairs / 0x1_0000 == Word4(e2, e3, e4, e5) + 0x1_0000_0000 * (e6 + 0x100 * e7);
    FourthBytes(pairs, e0, e1, e2, e3, e4, e5 + 0x100 * e6 + 0x1_0000 * e7);
    FourthBytes(pairs / 0x1_0000, e2, e3, e4, e5, e6, e7);
  }

  lemma FourthBytes(x: nat, a: int, b: int, c: int, d: int, e: int, rest: int)
    requires 0 <= a <= 99 && 0 <= b <= 99 && 0 <= c <= 99 && 0 <= d <= 99 && 0 <= e <= 99 && rest >= 0
    requires x == Word4(a, b, c, d) + 0x1_0000_0000 * (e + 0x100 * rest)
    ensures EveryFourthByte(x) == a + 0x1_0000_0000 * e
  {
    DivModUnique(x, 0x100, b + 0x100 * c + 0x1_0000 * d + 0x100_0000 * (e + 0x100 * rest), a);
    DivModUnique(x, 0x1_0000_0000, e + 0x100 * rest, Word4(a, b, c, d));
    DivModUnique(e + 0x100 * rest, 0x100, rest, e);
  }

  lemma PairProducts(e0: int, e2: int, e4: int, e6: int)
    requires 0 <= e0 <= 99 && 0 <= e2 <= 99 && 0 <= e4 <= 99 && 0 <= e6 <= 99
    ensures Products(e0 + 0x1_0000_0000 * e4, e2 + 0x1_0000_0000 * e6) == 1000000 * e0 + 10000 * e2 + 100 * e4 + e6
  {
    var a := (e0 + 0x1_0000_0000 * e4) * 0x000F_4240_0000_0064 % WORD;
    var b := (e2 + 0x1_0000_0000 * e6) * 0x0000_2710_0000_0001 % WORD;
    var a1, b1 := 1000000 * e0 + 100 * e4, 10000 * e2 + e6;
    DivModUnique((e0 + 0x1_0000_0000 * e4) * 0x000F_4240_0000_0064, WORD, 1000000 * e4, 100 * e0 + 0x1_0000_0000 * a1);
    DivModUnique((e2 + 0x1_0000_0000 * e6) * 0x0000_2710_0000_0001, WORD, 10000 * e6, e2 + 0x1_0000_0000 * b1);
    DivModUnique(a + b, WORD, 0, a + b);
    DivModUnique(a + b, 0x1_0000_0000, a1 + b1, 100 * e0 + e2);
  }

  // ----- the loops

  /** loop_parse_if_eight_digits: take digits eight at a time while eight more are there. */
  method LoopParseIfEightDigits(s: seq<byte>, start: nat, acc: u64) returns (p: nat, i: u64)
    requires start <= |s|
    ensures start <= p <= |s| && AllDigits(s[start..p]) && i == Accumulate(acc, s[start..p])
  {
    hide LittleEndian, IsMadeOfEightDigitsFast, ParseEightDigitsUnrolled, Accumulate;
    p, i := start, acc;
    assert s[start..p] == [];
    DigitsValueEmpty();
    while |s| - p >= 8 && IsMadeOfEightDigitsFast(Read8(s, p))
      invariant start <= p <= |s| && AllDigits(s[start..p]) && i == Accumulate(acc, s[start..p])
    {
      var word := s[p..p + 8];
      FastTestIsExact(word);
      ParseEightIsExact(word);
      EightAtOnce(i, word);
      AccumulateAppend(acc, s[start..p], word);
      assert s[start..p + 8] == s[start..p] + word;
      i := (i * 100000000 + ParseEightDigitsUnrolled(Read8(s, p))) % WORD;
      p := p + 8;
    }
  }

  /** read8_to_u64 at a position of the buffer. */
  function Read8(s: seq<byte>, p: nat): u64
    requires p + 8 <= |s|
  {
    FastTestIsExact(s[p..p + 8]);
    LittleEndian(s[p..p + 8])
  }

  lemma EightAtOnce(i: u64, s: seq<byte>)
    requires |s| == 8 && AllDigits(s)
    ensures Accumulate(i, s) == (i * 100000000 + DigitsValue(s)) % WORD
  {
    hide Accumulate, DigitsValue, Pow;
    TenToTheFourth();
    PowDoubles(10, 4, 10000);
    AccumulateValue(i, s);
  }

  /** The digit loop: eight digits at a time, then single ones. It stops where a plain loop does, with the same sum. */
  method ParseDigitRun(s: seq<byte>, start: nat, acc: u64) returns (p: nat, i: u64)
    requires start <= |s|
    ensures p == RunEnd(s, start) && i == Accumulate(acc, s[start..p])
  {
    hide Accumulate;
    p, i := LoopParseIfEightDigits(s, start, acc);
    while p != |s| && IsDigit(s[p])
      invariant start <= p <= |s| && AllDigits(s[start..p]) && i == Accumulate(acc, s[start..p])
      decreases |s| - p
    {
      AccumulateSnoc(acc, s[start..p], s[p]);
      assert s[start..p + 1] == s[start..p] + [s[p]];
      i := (i * 10 + (s[p] - ZERO)) % WORD;
      p := p + 1;
    }
    RunEndUnique(s, start, p);
  }
}
