/** The number that a little-endian sequence of 64-bit limbs stands for, and the word operations it is built from. */
module LimbValue {
  import opened Arith

  const HALF: nat := 0x1_0000_0000

  function Value(s: seq<u64>): nat {
    if s == [] then 0 else s[0] + WORD * Value(s[1..])
  }

  /** No most-significant zero limb: what every bigint operation assumes of its operands. */
  predicate Normalized(s: seq<u64>) {
    s == [] || s[|s| - 1] != 0
  }

  /** n limbs, all equal to `value`. */
  function Fill(n: nat, value: u64): (s: seq<u64>)
    ensures |s| == n && forall i :: 0 <= i < n ==> s[i] == value
  {
    seq(n, _ => value)
  }

  function Zeros(n: nat): seq<u64> { Fill(n, 0) }

  // ----- word arithmetic

  /** scalar_add: the sum wrapped to 64 bits, and whether it wrapped. */
  function ScalarAdd(x: u64, y: u64): (r: (u64, bool)) {
    var z := (x + y) % WORD;
    (z, z < x)
  }

  /** emulu: a product of two 32-bit words, computed in 64 bits. */
  function EmulU(x: nat, y: nat): u64 {
    (x * y) % WORD
  }

  /** umul128_generic: the 128-bit product as (low, high), from four 32-bit multiplications. */
  function UMul128(ab: u64, cd: u64): (r: (u64, u64)) {
    var (a, b, c, d) := (ab / HALF, ab % HALF, cd / HALF, cd % HALF);
    Combine(EmulU(a, d), EmulU(b, c), EmulU(b, d), EmulU(a, c))
  }

  function Combine(ad: u64, bc: u64, bd: u64, ac: u64): (r: (u64, u64)) {
    var adbc := (ad + bc) % WORD;
    var adbcCarry := if adbc < ad then 1 else 0;
    var lo := (bd + adbc * HALF % WORD) % WORD;
    (lo, (ac + adbc / HALF + adbcCarry * HALF + (if lo < bd then 1 else 0)) % WORD)
  }

  lemma UMul128Exact(ab: u64, cd: u64)
    ensures UMul128(ab, cd).1 * WORD + UMul128(ab, cd).0 == ab * cd
    ensures UMul128(ab, cd).1 <= WORD - 2
  {
    hide Combine, EmulU;
    var (a, b, c, d) := (ab / HALF, ab % HALF, cd / HALF, cd % HALF);
    EmulUExact(a, d); EmulUExact(b, c); EmulUExact(b, d); EmulUExact(a, c);
    CombineExact(EmulU(a, d), EmulU(b, c), EmulU(b, d), EmulU(a, c));
    HalvesProduct(ab, cd, a, b, c, d);
  }

  lemma CombineExact(ad: u64, bc: u64, bd: u64, ac: u64)
    requires ad <= (HALF - 1) * (HALF - 1) && bc <= (HALF - 1) * (HALF - 1)
    requires bd <= (HALF - 1) * (HALF - 1) && ac <= (HALF - 1) * (HALF - 1)
    ensures
      var (lo, hi) := Combine(ad, bc, bd, ac);
      hi * WORD + lo == ac * WORD + (ad + bc) * HALF + bd && hi <= WORD - 2
  {
    var adbc := (ad + bc) % WORD;
    var adbcCarry := if adbc < ad then 1 else 0;
    assert adbc == ad + bc - adbcCarry * WORD;
    DivModUnique(adbc * HALF, WORD, adbc / HALF, adbc % HALF * HALF);
    var lo := (bd + adbc % HALF * HALF) % WORD;
    var loCarry := if lo < bd then 1 else 0;
    assert lo == bd + adbc % HALF * HALF - loCarry * WORD;
    var hi := ac + adbc / HALF + adbcCarry * HALF + loCarry;
    assert hi * WORD + lo == ac * WORD + (ad + bc) * HALF + bd;
    assert 0 <= hi <= WORD - 2;
  }

  lemma HalvesProduct(ab: int, cd: int, a: int, b: int, c: int, d: int)
    requires ab == a * HALF + b && cd == c * HALF + d
    ensures ab * cd == (a * c) * WORD + (a * d + b * c) * HALF + b * d
  {
    MulDistributes(a * HALF, b, c * HALF + d);
    MulDistributes(c * HALF, d, a * HALF);
    MulDistributes(c * HALF, d, b);
    MulInterchange(a, HALF, c, HALF);
    MulAssoc(b, c, HALF);
  }

  lemma EmulUExact(x: int, y: int)
    requires 0 <= x < HALF && 0 <= y < HALF
    ensures EmulU(x, y) == x * y <= (HALF - 1) * (HALF - 1)
  {
    MulOrder(x, HALF - 1, y);
    MulOrder(y, HALF - 1, HALF - 1);
    MulOrder(0, x, y);
  }

  /** scalar_mul: x * y + carry as (low word, new carry), through the portable 64x64 multiplication. */
  function ScalarMul(x: u64, y: u64, carry: u64): (r: (u64, u64)) {
    var (low, high) := UMul128(x, y);
    var (z, overflow) := ScalarAdd(low, carry);
    (z, (high + if overflow then 1 else 0) % WORD)
  }

  lemma ScalarMulExact(x: u64, y: u64, carry: u64)
    ensures ScalarMul(x, y, carry).1 * WORD + ScalarMul(x, y, carry).0 == x * y + carry
  {
    hide UMul128;
    UMul128Exact(x, y);
  }

  /** One step of leading_zeroes_generic: if any bit at or above `bits` is set, drop the lower ones. */
  function HalveStep(n: nat, bits: nat, last: nat): (r: (nat, nat))
    ensures r.1 <= last + bits
  {
    if n >= Pow(2, bits) then (n / Pow(2, bits), last + bits) else (n, last)
  }

  /** n is x without its low `last` bits, and has at most `bits` bits. */
  ghost predicate TopBits(x: nat, n: nat, last: nat, bits: nat) {
    0 < n < Pow(2, bits) && n * Pow(2, last) <= x < (n + 1) * Pow(2, last)
  }

  lemma HalveStepKeeps(x: nat, n: nat, bits: nat, last: nat)
    requires TopBits(x, n, last, 2 * bits)
    ensures TopBits(x, HalveStep(n, bits, last).0, HalveStep(n, bits, last).1, bits)
  {
    hide Pow;
    var p, q := Pow(2, bits), Pow(2, last);
    if n >= p {
      var m := n / p;
      DivModDefinition(n, p);
      PowAdd(2, bits, bits);
      PowAdd(2, bits, last);
      assert 0 < m < p by {
        if m <= 0 { MulOrder(m, 0, p); }
        if m >= p { MulOrder(p, m, p); }
      }
      MulAssoc(m, p, q);
      MulAssoc(m + 1, p, q);
      MulDistributes(m, 1, p);
      MulOrder(m * p, n, q);
      MulOrder(n + 1, (m + 1) * p, q);
    }
  }

  /** The unrolled binary search of leading_zeroes_generic, `bits` = 32, 16, 8, 4, 2, 1 in turn. */
  function TopBit(n: nat, bits: nat, last: nat): (top: nat)
    ensures bits > 0 ==> top < last + 2 * bits
    ensures bits == 0 ==> top == last
    decreases bits
  {
    if bits == 0 then last else
      var (m, l) := HalveStep(n, bits, last);
      TopBit(m, bits / 2, l)
  }

  lemma {:induction false} TopBitCorrect(x: nat, n: nat, e: nat, last: nat)
    requires TopBits(x, n, last, Pow(2, e + 1))
    ensures Pow(2, TopBit(n, Pow(2, e), last)) <= x < Pow(2, TopBit(n, Pow(2, e), last) + 1)
  {
    var bits := Pow(2, e);
    HalveStepKeeps(x, n, bits, last);
    var (m, l) := HalveStep(n, bits, last);
    if e == 0 {
      assert Pow(2, 1) == 2;
      assert TopBit(m, 0, l) == l;
      assert m == 1;
    } else {
      assert bits / 2 == Pow(2, e - 1);
      TopBitCorrect(x, m, e - 1, l);
    }
  }

  function LeadingZeroes(n: u64): (lz: nat)
    requires n > 0
    ensures lz < 64
  {
    63 - TopBit(n, 32, 0)
  }

  lemma LeadingZeroesCorrect(n: u64)
    requires n > 0
    ensures Pow(2, 63 - LeadingZeroes(n)) <= n < Pow(2, 64 - LeadingZeroes(n))
  {
    hide TopBit, HalveStep;
    WordIsPow2();
    assert Pow(2, 3) == 8;
    assert Pow(2, 5) == 32 && Pow(2, 6) == 64 by { PowAdd(2, 3, 2); PowAdd(2, 3, 3); }
    assert Pow(2, 0) == 1;
    TopBitCorrect(n, n, 5, 0);
  }

  // ----- values of sequences

  lemma {:induction false} ValueAppend(s: seq<u64>, t: seq<u64>)
    ensures Value(s + t) == Value(s) + Pow(WORD, |s|) * Value(t)
  {
    if s == [] {
      assert s + t == t;
    } else {
      assert (s + t)[1..] == s[1..] + t;
      ValueAppend(s[1..], t);
      MulAssoc(WORD, Pow(WORD, |s| - 1), Value(t));
    }
  }

  lemma ValueSingle(d: u64)
    ensures Value([d]) == d
  {
    assert [d][1..] == [];
  }

  lemma ValuePush(s: seq<u64>, d: u64)
    ensures Value(s + [d]) == Value(s) + d * Pow(WORD, |s|)
  {
    hide *;
    ValueAppend(s, [d]);
    ValueSingle(d);
  }

  lemma ValueSnoc(s: seq<u64>, k: nat)
    requires k < |s|
    ensures Value(s[..k + 1]) == Value(s[..k]) + s[k] * Pow(WORD, k)
  {
    hide *;
    assert s[..k + 1] == s[..k] + [s[k]];
    ValuePush(s[..k], s[k]);
  }

  lemma {:induction false} ValueBound(s: seq<u64>)
    ensures Value(s) < Pow(WORD, |s|)
  {
    if s != [] {
      ValueBound(s[1..]);
    }
  }

  lemma {:induction false} ValueUpdate(s: seq<u64>, k: nat, d: u64)
    requires k < |s|
    ensures Value(s[k := d]) == Value(s) + (d - s[k]) * Pow(WORD, k)
  {
    if k == 0 {
      assert s[0 := d][1..] == s[1..];
    } else {
      assert s[k := d][1..] == s[1..][k - 1 := d];
      ValueUpdate(s[1..], k - 1, d);
      assert WORD * ((d - s[k]) * Pow(WORD, k - 1)) == (d - s[k]) * Pow(WORD, k);
    }
  }

  lemma {:induction false} ValueZeros(n: nat)
    ensures Value(Zeros(n)) == 0
  {
    if n > 0 {
      assert Zeros(n)[1..] == Zeros(n - 1);
      ValueZeros(n - 1);
    }
  }

  lemma ValuePadded(s: seq<u64>, n: nat)
    ensures Value(s + Zeros(n)) == Value(s)
  {
    hide Value, Pow, Zeros;
    ValueAppend(s, Zeros(n));
    ValueZeros(n);
  }

  lemma NormalizedLower(s: seq<u64>)
    requires Normalized(s) && s != []
    ensures Value(s) >= Pow(WORD, |s| - 1) > 0
  {
    var n := |s| - 1;
    ValueSnoc(s, n);
    assert s[..n + 1] == s;
    MulOrder(1, s[n], Pow(WORD, n));
  }

  lemma {:induction false} ZeroValue(s: seq<u64>)
    ensures Value(s) == 0 <==> forall i :: 0 <= i < |s| ==> s[i] == 0
  {
    if s != [] {
      ZeroValue(s[1..]);
      if Value(s) == 0 {
        forall i | 0 <= i < |s| ensures s[i] == 0 {
          if i > 0 { assert s[i] == s[1..][i - 1]; }
        }
      }
    }
  }

  /** Equal above index k and larger at k: larger as a number. */
  lemma ValueOrder(s: seq<u64>, t: seq<u64>, k: nat)
    requires |s| == |t| && k < |s| && s[k + 1..] == t[k + 1..] && s[k] > t[k]
    ensures Value(s) > Value(t)
  {
    hide *;
    var p := Pow(WORD, k);
    assert s == s[..k + 1] + s[k + 1..] && t == t[..k + 1] + t[k + 1..];
    ValueAppend(s[..k + 1], s[k + 1..]);
    ValueAppend(t[..k + 1], t[k + 1..]);
    ValueSnoc(s, k);
    ValueSnoc(t, k);
    ValueBound(t[..k]);
    MulOrder(t[k] + 1, s[k], p);
    MulDistributes(t[k], 1, p);
  }
}
