/** The significant digits of a literal as a big integer, with one sticky digit for those that do not fit. */
module ParseMantissa {
  import opened Arith
  import opened LimbValue
  import opened LimbOps
  import opened BigInt
  import opened Digits
  import opened Swar

  const STEP: nat := 19
  const EIGHT_ZEROS: seq<byte> := [0x30, 0x30, 0x30, 0x30, 0x30, 0x30, 0x30, 0x30]
  const POWERS_OF_TEN: seq<u64> := [
    1, 10, 100, 1000, 10000, 100000, 1000000, 10000000, 100000000, 1000000000, 10000000000, 100000000000,
    1000000000000, 10000000000000, 100000000000000, 1000000000000000, 10000000000000000, 100000000000000000,
    1000000000000000000, 10000000000000000000]

  lemma {:induction false} PowersOfTenTable(e: nat)
    requires e <= STEP
    ensures |POWERS_OF_TEN| == STEP + 1 && POWERS_OF_TEN[e] == Pow(10, e)
  {
    if e > 0 {
      PowersOfTenTable(e - 1);
    }
  }

  // ----- what is computed

  function StripZeros(s: seq<byte>): (r: seq<byte>)
    ensures |r| <= |s| && r == s[|s| - |r|..] && AllZeros(s[..|s| - |r|]) && (r != [] ==> r[0] != ZERO)
  {
    if s != [] && s[0] == ZERO then
      var r := StripZeros(s[1..]);
      assert s[..|s| - |r|] == [s[0]] + s[1..][..|s| - 1 - |r|];
      assert s[1..][|s| - 1 - |r|..] == s[|s| - |r|..];
      r
    else
      s
  }

  /** The significant digits of a literal: leading zeros dropped, the decimal point ignored. */
  function Significant(integer: seq<byte>, fraction: seq<byte>): seq<byte> {
    StripZeros(integer + fraction)
  }

  /** The digits kept of a significand, and the number they make with the sticky digit. */
  function KeptDigits(s: seq<byte>, maxDigits: nat): nat {
    if |s| <= maxDigits then |s| else if AllZeros(s[maxDigits..]) then maxDigits else maxDigits + 1
  }

  function KeptValue(s: seq<byte>, maxDigits: nat): nat
    requires AllDigits(s)
  {
    if |s| <= maxDigits then DigitsValue(s)
    else if AllZeros(s[maxDigits..]) then DigitsValue(s[..maxDigits])
    else 10 * DigitsValue(s[..maxDigits]) + 1
  }

  // ----- the loops

  /** skip_zeros: eight zeros at a time, then one at a time. */
  method SkipZeros(s: seq<byte>, start: nat) returns (p: nat)
    requires start <= |s|
    ensures start <= p <= |s| && AllZeros(s[start..p]) && (p < |s| ==> s[p] != ZERO)
  {
    p := start;
    while |s| - p >= 8 && s[p..p + 8] == EIGHT_ZEROS
      invariant start <= p <= |s| && AllZeros(s[start..p])
    {
      assert s[start..p + 8] == s[start..p] + s[p..p + 8];
      p := p + 8;
    }
    while p != |s| && s[p] == ZERO
      invariant start <= p <= |s| && AllZeros(s[start..p])
      decreases |s| - p
    {
      assert s[start..p + 1] == s[start..p] + [s[p]];
      p := p + 1;
    }
  }

  /** is_truncated: whether any digit from `start` on is not zero. */
  method IsTruncated(s: seq<byte>, start: nat) returns (truncated: bool)
    requires start <= |s|
    ensures truncated <==> !AllZeros(s[start..])
  {
    var p := start;
    while |s| - p >= 8
      invariant start <= p <= |s| && AllZeros(s[start..p])
    {
      if s[p..p + 8] != EIGHT_ZEROS {
        NonZeroByte(s, start, p);
        return true;
      }
      assert s[start..p + 8] == s[start..p] + s[p..p + 8];
      p := p + 8;
    }
    while p != |s|
      invariant start <= p <= |s| && AllZeros(s[start..p])
      decreases |s| - p
    {
      if s[p] != ZERO {
        assert s[start..][p - start] == s[p];
        return true;
      }
      assert s[start..p + 1] == s[start..p] + [s[p]];
      p := p + 1;
    }
    assert s[start..p] == s[start..];
    return false;
  }

  lemma NonZeroByte(s: seq<byte>, start: nat, p: nat)
    requires start <= p && p + 8 <= |s| && s[p..p + 8] != EIGHT_ZEROS
    ensures !AllZeros(s[start..])
  {
    var word := s[p..p + 8];
    var i :| 0 <= i < 8 && word[i] != EIGHT_ZEROS[i];
    assert s[start..][p - start + i] == word[i];
  }

  /** add_native: big * power + value. It ignores both result codes; nothing is lost as long as the sum fits. */
  method AddNative(big: StackVec, power: u64, value: u64)
    requires big.Valid() && Normalized(big.Limbs()) && power > 0
    requires big.Number() * power + value < Limit()
    modifies big`length, big.data
    ensures big.Valid() && Normalized(big.Limbs())
    ensures big.Number() == old(big.Number()) * power + value
  {
    hide Value, Pow, Limit, ShiftLimbs;
    ghost var n := big.Number();
    var _ := big.SmallMul(power);
    ShiftLimbsZero(0);
    var _ := big.SmallAddFrom(value, 0);
  }

  /** Up to 19 digits into one word, eight at a time while possible. */
  method TakeWord(s: seq<byte>, from: nat, room: nat) returns (p: nat, value: u64)
    requires AllDigits(s) && from <= |s|
    ensures from <= p <= |s| && value == Accumulate(0, s[from..p])
    ensures p - from <= STEP && p - from <= room && (p - from == STEP || p == |s| || p - from == room)
  {
    hide LittleEndian, ParseEightDigitsUnrolled, Accumulate;
    p, value := from, 0;
    assert s[from..p] == [];
    DigitsValueEmpty();
    var counter := 0;
    while |s| - p >= 8 && STEP - counter >= 8 && room - counter >= 8
      invariant from <= p <= |s| && counter == p - from <= STEP && counter <= room
      invariant value == Accumulate(0, s[from..p])
      decreases |s| - p
    {
      TakeEight(s, from, p);
      value := (value * 100000000 + ParseEightDigitsUnrolled(Read8(s, p))) % WORD;
      p, counter := p + 8, counter + 8;
    }
    while counter < STEP && p != |s| && counter < room
      invariant from <= p <= |s| && counter == p - from <= STEP && counter <= room
      invariant value == Accumulate(0, s[from..p])
      decreases |s| - p
    {
      assert s[from..p + 1] == s[from..p] + [s[p]];
      AccumulateSnoc(0, s[from..p], s[p]);
      value := (value * 10 + (s[p] - ZERO)) % WORD;
      p, counter := p + 1, counter + 1;
    }
  }

  /** n followed by the digits of s from start to p. */
  ghost function Continued(n: nat, s: seq<byte>, start: nat, p: nat): nat
    requires AllDigits(s) && start <= p <= |s|
  {
    n * Pow(10, p - start) + DigitsValue(s[start..p])
  }

  lemma ContinuedStart(n: nat, s: seq<byte>, start: nat)
    requires AllDigits(s) && start <= |s|
    ensures Continued(n, s, start, start) == n
  {
    assert s[start..start] == [];
  }

  /** The loop over one part of the literal: digits into a word, then the word into the big integer, until the digits
      or the room for them run out. */
  method TakeDigits(big: StackVec, s: seq<byte>, start: nat, taken: nat, maxDigits: nat) returns (p: nat, digits: nat)
    requires big.Valid() && Normalized(big.Limbs())
    requires AllDigits(s) && start <= |s| && taken < maxDigits <= 769
    requires big.Number() < Pow(10, taken)
    modifies big`length, big.data
    ensures big.Valid() && Normalized(big.Limbs())
    ensures start <= p <= |s| && digits == taken + (p - start) <= maxDigits && (p == |s| || digits == maxDigits)
    ensures big.Number() == Continued(old(big.Number()), s, start, p) < Pow(10, digits)
  {
    hide Value, Pow, Limit, Continued, Accumulate, DigitsValue;
    ghost var n := big.Number();
    p, digits := start, taken;
    ContinuedStart(n, s, start);
    while p != |s| && digits < maxDigits
      invariant big.Valid() && Normalized(big.Limbs())
      invariant start <= p <= |s| && digits == taken + (p - start) <= maxDigits
      invariant big.Number() == Continued(n, s, start, p) < Pow(10, digits)
      decreases |s| - p
    {
      var q, value := TakeWord(s, p, maxDigits - digits);
      NativeStep(n, s, start, p, q, digits + (q - p));
      AddNative(big, POWERS_OF_TEN[q - p], value);
      p, digits := q, digits + (q - p);
    }
  }

  lemma TakeEight(s: seq<byte>, from: nat, p: nat)
    requires AllDigits(s) && from <= p && p + 8 <= |s|
    ensures Accumulate(0, s[from..p + 8]) ==
      (Accumulate(0, s[from..p]) * 100000000 + ParseEightDigitsUnrolled(Read8(s, p))) % WORD
  {
    hide Accumulate, LittleEndian, ParseEightDigitsUnrolled;
    var word := s[p..p + 8];
    ParseEightIsExact(word);
    EightAtOnce(Accumulate(0, s[from..p]), word);
    AccumulateAppend(0, s[from..p], word);
    assert s[from..p + 8] == s[from..p] + word;
  }

  /** One word of up to 19 digits, taken from `from` to p, continues the number taken from `start` to `from`. */
  lemma NativeStep(n: nat, s: seq<byte>, start: nat, from: nat, p: nat, digits: nat)
    requires AllDigits(s) && start <= from <= p <= |s| && p - from <= STEP && p - from <= digits <= 770
    requires Continued(n, s, start, from) < Pow(10, digits - (p - from))
    ensures |POWERS_OF_TEN| == STEP + 1 && POWERS_OF_TEN[p - from] > 0
    ensures
      Continued(n, s, start, from) * POWERS_OF_TEN[p - from] + Accumulate(0, s[from..p]) == Continued(n, s, start, p)
    ensures Continued(n, s, start, p) < Pow(10, digits) < Limit()
  {
    hide Pow, DigitsValue, Accumulate, Limit;
    var k := p - from;
    PowersOfTenTable(k);
    DigitsValueBound(s[from..p]);
    NineteenDigits(k);
    AccumulateExact(s[from..p]);
    assert s[start..p] == s[start..from] + s[from..p];
    DigitsValueAppend(s[start..from], s[from..p]);
    PowAdd(10, from - start, k);
    PowAdd(10, digits - k, k);
    NativeArithmetic(n, Pow(10, from - start), DigitsValue(s[start..from]), Pow(10, k), DigitsValue(s[from..p]),
      Pow(10, digits - k));
    PowMonotone(10, digits, 770);
    TenTo770();
  }

  lemma NineteenDigits(k: nat)
    requires k <= STEP
    ensures Pow(10, k) <= WORD
  {
    hide Pow;
    PowersOfTenTable(STEP);
    PowMonotone(10, k, STEP);
  }

  lemma NativeArithmetic(n: nat, a: nat, v: nat, b: nat, w: nat, bound: nat)
    requires n * a + v < bound && w < b
    ensures (n * a + v) * b + w == n * (a * b) + (v * b + w) < bound * b
  {
    MulDistributes(n * a, v, b);
    MulAssoc(n, a, b);
    MulOrder(n * a + v + 1, bound, b);
    MulDistributes(n * a + v, 1, b);
  }

  /** round_up_bigint: append a 1, so that what was dropped still counts as something. */
  method RoundUpBigint(big: StackVec, count: nat) returns (digits: nat)
    requires big.Valid() && Normalized(big.Limbs()) && count <= 769 && big.Number() < Pow(10, count)
    modifies big`length, big.data
    ensures big.Valid() && Normalized(big.Limbs())
    ensures digits == count + 1 && big.Number() == 10 * old(big.Number()) + 1 < Pow(10, digits)
  {
    hide Value, Pow, Limit;
    PowStep(10, count);
    PowMonotone(10, count + 1, 770);
    TenTo770();
    AddNative(big, 10, 1);
    digits := count + 1;
  }

  /** parse_mantissa on the integer and fraction digits of a literal. */
  method Parse(big: StackVec, integer: seq<byte>, fraction: seq<byte>, maxDigits: nat) returns (digits: nat)
    requires big.Valid() && big.Limbs() == []
    requires AllDigits(integer) && AllDigits(fraction) && 0 < maxDigits <= 769
    modifies big`length, big.data
    ensures big.Valid() && Normalized(big.Limbs())
    ensures AllDigits(Significant(integer, fraction))
    ensures digits == KeptDigits(Significant(integer, fraction), maxDigits)
    ensures big.Number() == KeptValue(Significant(integer, fraction), maxDigits) < Pow(10, digits)
  {
    hide Value, Pow, Limit, DigitsValue, StripZeros, Significant, Continued, KeptDigits, KeptValue, AllZeros;
    EmptyNumber();
    DigitsValueEmpty();
    var p0 := SkipZeros(integer, 0);
    assert integer[0..p0] == integer[..p0];
    var p;
    p, digits := TakeDigits(big, integer, p0, 0, maxDigits);
    if digits == maxDigits {
      SignificantIs(integer, fraction, p0, 0);
      KeptFromInteger(integer, fraction, p0, p, maxDigits);
      var truncated := IsTruncated(integer, p);
      var more := IsTruncated(fraction, 0);
      if truncated || more {
        digits := RoundUpBigint(big, digits);
      }
      return;
    }
    var q0 := 0;
    if digits == 0 {
      q0 := SkipZeros(fraction, 0);
      assert fraction[0..q0] == fraction[..q0];
    }
    SignificantIs(integer, fraction, p0, q0);
    var q;
    q, digits := TakeDigits(big, fraction, q0, digits, maxDigits);
    KeptFromBoth(integer, fraction, p0, q0, q, maxDigits);
    if digits == maxDigits {
      var truncated := IsTruncated(fraction, q);
      if truncated {
        digits := RoundUpBigint(big, digits);
      }
    }
  }

  /** Where the significant digits start, when the zeros in front of them have been skipped. */
  lemma SignificantIs(integer: seq<byte>, fraction: seq<byte>, p0: nat, q0: nat)
    requires p0 <= |integer| && q0 <= |fraction| && AllDigits(integer) && AllDigits(fraction)
    requires AllZeros(integer[..p0]) && AllZeros(fraction[..q0])
    requires if p0 < |integer| then integer[p0] != ZERO && q0 == 0 else q0 < |fraction| ==> fraction[q0] != ZERO
    ensures AllDigits(Significant(integer, fraction))
    ensures Significant(integer, fraction) == integer[p0..] + fraction[q0..]
  {
    var s := integer + fraction;
    assert s[..p0 + q0] == integer[..p0] + fraction[..q0];
    assert s[p0 + q0..] == integer[p0..] + fraction[q0..];
    StripZerosUnique(s, p0 + q0);
  }

  /** The kept digits when the significand is cut after maxDigits of them. */
  lemma KeptCut(s: seq<byte>, kept: seq<byte>, rest: seq<byte>)
    requires AllDigits(s) && s == kept + rest
    ensures AllDigits(kept)
    ensures KeptDigits(s, |kept|) == if AllZeros(rest) then |kept| else |kept| + 1
    ensures KeptValue(s, |kept|) == if AllZeros(rest) then DigitsValue(kept) else 10 * DigitsValue(kept) + 1
  {
    hide DigitsValue;
    assert s[..|kept|] == kept && s[|kept|..] == rest;
    assert AllDigits(kept);
    if rest == [] {
      assert s == kept;
    }
  }

  lemma KeptFromInteger(integer: seq<byte>, fraction: seq<byte>, p0: nat, p: nat, maxDigits: nat)
    requires AllDigits(integer) && p0 <= p <= |integer| && p - p0 == maxDigits > 0
    requires AllDigits(Significant(integer, fraction)) && Significant(integer, fraction) == integer[p0..] + fraction
    ensures
      var s, more := Significant(integer, fraction), !(AllZeros(integer[p..]) && AllZeros(fraction[0..]));
      var n := Continued(0, integer, p0, p);
      && KeptDigits(s, maxDigits) == (if more then maxDigits + 1 else maxDigits)
      && KeptValue(s, maxDigits) == (if more then 10 * n + 1 else n)
  {
    hide DigitsValue, Significant, KeptDigits, KeptValue;
    var s, kept, rest := Significant(integer, fraction), integer[p0..p], integer[p..] + fraction;
    assert s == kept + rest;
    assert AllZeros(rest) <==> AllZeros(integer[p..]) && AllZeros(fraction[0..]) by {
      AllZerosAppend(integer[p..], fraction);
      assert fraction[0..] == fraction;
    }
    KeptCut(s, kept, rest);
    assert 0 * Pow(10, p - p0) == 0;
  }

  lemma AllZerosAppend(s: seq<byte>, t: seq<byte>)
    ensures AllZeros(s + t) <==> AllZeros(s) && AllZeros(t)
  {
    if AllZeros(s + t) {
      assert forall i :: 0 <= i < |s| ==> s[i] == (s + t)[i];
      assert forall i :: 0 <= i < |t| ==> t[i] == (s + t)[|s| + i];
    }
  }

  lemma KeptFromBoth(integer: seq<byte>, fraction: seq<byte>, p0: nat, q0: nat, q: nat, maxDigits: nat)
    requires AllDigits(integer) && AllDigits(fraction) && p0 <= |integer| && q0 <= q <= |fraction|
    requires AllDigits(Significant(integer, fraction))
    requires Significant(integer, fraction) == integer[p0..] + fraction[q0..]
    ensures
      var s, digits := Significant(integer, fraction), |integer| - p0 + (q - q0);
      var n := Continued(Continued(0, integer, p0, |integer|), fraction, q0, q);
      && (q == |fraction| && digits <= maxDigits ==> KeptDigits(s, maxDigits) == digits && KeptValue(s, maxDigits) == n)
      && (digits == maxDigits && !AllZeros(fraction[q..]) ==>
        KeptDigits(s, maxDigits) == maxDigits + 1 && KeptValue(s, maxDigits) == 10 * n + 1)
      && (digits == maxDigits && AllZeros(fraction[q..]) ==>
        KeptDigits(s, maxDigits) == maxDigits && KeptValue(s, maxDigits) == n)
  {
    hide DigitsValue, Significant, Pow, AllZeros;
    var s, kept, rest := Significant(integer, fraction), integer[p0..] + fraction[q0..q], fraction[q..];
    assert s == kept + rest;
    assert integer[p0..|integer|] == integer[p0..];
    assert 0 * Pow(10, |integer| - p0) == 0;
    DigitsValueAppend(integer[p0..], fraction[q0..q]);
    KeptCut(s, kept, rest);
    if q == |fraction| {
      assert s == kept;
    }
  }

  lemma EmptyNumber()
    ensures Value([]) == 0
  {
  }

  lemma StripZerosUnique(s: seq<byte>, k: nat)
    requires k <= |s| && AllZeros(s[..k]) && (k < |s| ==> s[k] != ZERO)
    ensures StripZeros(s) == s[k..]
  {
    if k > 0 {
      assert s[0] == s[..k][0];
      assert s[1..][..k - 1] == s[..k][1..];
      StripZerosUnique(s[1..], k - 1);
      assert s[1..][k - 1..] == s[k..];
    }
  }
}
