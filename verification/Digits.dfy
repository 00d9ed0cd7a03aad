/** Runs of decimal digits: the numbers they denote, and the accumulator of the scanning loops, wrapped to 64 bits. */
module Digits {
  import opened Arith

  type byte = x: int | 0 <= x < 256

  const ZERO: byte := 0x30

  predicate IsDigit(c: byte) {
    0x30 <= c <= 0x39
  }

  predicate AllDigits(s: seq<byte>) {
    forall i :: 0 <= i < |s| ==> IsDigit(s[i])
  }

  predicate AllZeros(s: seq<byte>) {
    forall i :: 0 <= i < |s| ==> s[i] == ZERO
  }

  /** The number written by a sequence of decimal digits, most significant first. */
  function DigitsValue(s: seq<byte>): nat
    requires AllDigits(s)
  {
    if s == [] then 0 else 10 * DigitsValue(s[..|s| - 1]) + (s[|s| - 1] - ZERO)
  }

  /** Where the run of digits that starts at p ends. */
  function RunEnd(s: seq<byte>, p: nat): (q: nat)
    requires p <= |s|
    ensures p <= q <= |s| && AllDigits(s[p..q]) && (q < |s| ==> !IsDigit(s[q]))
    decreases |s| - p
  {
    if p == |s| || !IsDigit(s[p]) then p else
      var q := RunEnd(s, p + 1);
      assert s[p..q] == [s[p]] + s[p + 1..q];
      q
  }

  lemma RunEndUnique(s: seq<byte>, p: nat, q: nat)
    requires p <= q <= |s| && AllDigits(s[p..q]) && (q < |s| ==> !IsDigit(s[q]))
    ensures q == RunEnd(s, p)
    decreases q - p
  {
    if p < q {
      assert s[p] == s[p..q][0] && s[p..q][1..] == s[p + 1..q];
      RunEndUnique(s, p + 1, q);
    }
  }

  /** i = 10 * i + digit over a run of digits, in 64-bit arithmetic. */
  function Accumulate(i: u64, s: seq<byte>): u64
    requires AllDigits(s)
  {
    if s == [] then i else (10 * Accumulate(i, s[..|s| - 1]) + (s[|s| - 1] - ZERO)) % WORD
  }

  lemma DigitsValueSnoc(s: seq<byte>, c: byte)
    requires AllDigits(s) && IsDigit(c)
    ensures AllDigits(s + [c]) && DigitsValue(s + [c]) == 10 * DigitsValue(s) + (c - ZERO)
  {
    assert (s + [c])[..|s|] == s;
  }

  lemma DigitsValueEmpty()
    ensures DigitsValue([]) == 0 && Pow(10, 0) == 1
    ensures forall i: u64 :: Accumulate(i, []) == i
  {
  }

  lemma {:induction false} DigitsValueAppend(s: seq<byte>, t: seq<byte>)
    requires AllDigits(s) && AllDigits(t)
    ensures AllDigits(s + t)
    ensures DigitsValue(s + t) == DigitsValue(s) * Pow(10, |t|) + DigitsValue(t)
  {
    hide Pow, DigitsValue;
    DigitsValueEmpty();
    if t == [] {
      assert s + t == s;
    } else {
      var n := |t| - 1;
      DigitsValueAppend(s, t[..n]);
      DigitsValueSnoc(t[..n], t[n]);
      DigitsValueSnoc(s + t[..n], t[n]);
      assert t[..n] + [t[n]] == t && (s + t[..n]) + [t[n]] == s + t;
      PowStep(10, n);
      MulAssoc(DigitsValue(s), 10, Pow(10, n));
    }
  }

  lemma {:induction false} DigitsValueBound(s: seq<byte>)
    requires AllDigits(s)
    ensures DigitsValue(s) < Pow(10, |s|)
  {
    if s != [] {
      DigitsValueBound(s[..|s| - 1]);
    }
  }

  /** Leading zeros do not count. */
  lemma LeadingZerosValue(s: seq<byte>, t: seq<byte>)
    requires AllZeros(s) && AllDigits(t)
    ensures AllDigits(s) && AllDigits(s + t) && DigitsValue(s + t) == DigitsValue(t) && DigitsValue(s) == 0
  {
    ZerosValue(s);
    DigitsValueAppend(s, t);
  }

  lemma {:induction false} ZerosValue(s: seq<byte>)
    requires AllZeros(s)
    ensures AllDigits(s) && DigitsValue(s) == 0
  {
    if s != [] {
      ZerosValue(s[..|s| - 1]);
    }
  }

  /** A run of digits denotes zero only if all of them are zeros. */
  lemma {:induction false} ZeroValueIsZeros(s: seq<byte>)
    requires AllDigits(s)
    ensures DigitsValue(s) == 0 <==> AllZeros(s)
  {
    if s != [] {
      var n := |s| - 1;
      ZeroValueIsZeros(s[..n]);
      assert s == s[..n] + [s[n]];
      if DigitsValue(s) == 0 {
        forall i | 0 <= i < |s| ensures s[i] == ZERO {
          if i < n { assert s[i] == s[..n][i]; }
        }
      }
    }
  }

  /** A number without a leading zero has its length's magnitude. */
  lemma LeadingDigit(s: seq<byte>)
    requires AllDigits(s) && s != [] && s[0] != ZERO
    ensures Pow(10, |s| - 1) <= DigitsValue(s) < Pow(10, |s|)
  {
    hide Pow, DigitsValue;
    var head, tail := s[..1], s[1..];
    assert s == head + tail;
    DigitsValueAppend(head, tail);
    assert DigitsValue(head) == s[0] - ZERO by {
      assert head == [] + [s[0]];
      DigitsValueEmpty();
      DigitsValueSnoc([], s[0]);
    }
    DigitsValueBound(s);
    MulOrder(1, DigitsValue(head), Pow(10, |tail|));
  }

  lemma AccumulateSnoc(i: u64, s: seq<byte>, c: byte)
    requires AllDigits(s) && IsDigit(c)
    ensures AllDigits(s + [c]) && Accumulate(i, s + [c]) == (10 * Accumulate(i, s) + (c - ZERO)) % WORD
  {
    assert (s + [c])[..|s|] == s;
  }

  lemma {:induction false} AccumulateAppend(i: u64, s: seq<byte>, t: seq<byte>)
    requires AllDigits(s) && AllDigits(t)
    ensures AllDigits(s + t) && Accumulate(i, s + t) == Accumulate(Accumulate(i, s), t)
  {
    if t == [] {
      assert s + t == s;
    } else {
      var n := |t| - 1;
      AccumulateAppend(i, s, t[..n]);
      assert (s + t)[..|s| + n] == s + t[..n];
      assert (s + t)[|s| + n] == t[n];
    }
  }

  /** The accumulator is the number itself, reduced modulo 2^64. */
  lemma {:induction false} AccumulateValue(i: u64, s: seq<byte>)
    requires AllDigits(s)
    ensures Accumulate(i, s) == (i * Pow(10, |s|) + DigitsValue(s)) % WORD
  {
    hide Pow, DigitsValue, Accumulate;
    DigitsValueEmpty();
    if s != [] {
      var n := |s| - 1;
      AccumulateValue(i, s[..n]);
      assert s[..n] + [s[n]] == s;
      AccumulateSnoc(i, s[..n], s[n]);
      DigitsValueSnoc(s[..n], s[n]);
      PowStep(10, n);
      AccumulateStep(i, Pow(10, n), DigitsValue(s[..n]), s[n] - ZERO);
    }
  }

  lemma AccumulateStep(i: nat, p: nat, v: nat, d: nat)
    ensures (10 * ((i * p + v) % WORD) + d) % WORD == (i * (10 * p) + (10 * v + d)) % WORD
  {
    var n := i * p + v;
    assert 10 * n + d == i * (10 * p) + (10 * v + d) by { MulAssoc(10, i, p); }
    ModStep(n, d);
  }

  lemma ModStep(x: nat, d: nat)
    ensures (10 * (x % WORD) + d) % WORD == (10 * x + d) % WORD
  {
    var k, r := x / WORD, 10 * (x % WORD) + d;
    DivModUnique(10 * x + d, WORD, 10 * k + r / WORD, r % WORD);
  }

  /** As long as the number fits in 64 bits, nothing wraps. */
  lemma AccumulateExact(s: seq<byte>)
    requires AllDigits(s) && DigitsValue(s) < WORD
    ensures Accumulate(0, s) == DigitsValue(s)
  {
    hide Pow, DigitsValue, Accumulate;
    AccumulateValue(0, s);
    assert 0 * Pow(10, |s|) == 0;
    DivModUnique(DigitsValue(s), WORD, 0, DigitsValue(s));
  }
}
