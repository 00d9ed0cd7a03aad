/** What the loops of the big integer compute, limb by limb, and the numbers those limbs stand for. */
module LimbOps {
  import opened Arith
  import opened LimbValue

  /** bigint_limbs: 4000 bits in whole 64-bit limbs. */
  const BIGINT_LIMBS: nat := 62

  /** The first number that does not fit. */
  function Limit(): nat {
    Pow(WORD, BIGINT_LIMBS)
  }

  lemma LimitIs()
    ensures Limit() == Pow(2, 3968)
  {
    hide Pow;
    WordIsPow2();
    PowOfPow(2, 64, 62);
  }

  /** v shifted up by k limbs. */
  function ShiftLimbs(v: nat, k: nat): nat {
    v * Pow(WORD, k)
  }

  lemma ZerosLength(k: nat)
    ensures |Zeros(k)| == k
  {
  }

  lemma ShiftedUp(s: seq<u64>, k: nat)
    ensures Value(Zeros(k) + s) == ShiftLimbs(Value(s), k)
  {
    hide Value, Pow, Zeros;
    ValueAppend(Zeros(k), s);
    ValueZeros(k);
    assert |Zeros(k)| == k by { ZerosLength(k); }
  }

  lemma ShiftLimbsGrows(v: nat, k: nat)
    ensures v <= ShiftLimbs(v, k)
  {
    hide Pow;
    MulOrder(1, Pow(WORD, k), v);
  }

  lemma ShiftLimbsZero(k: nat)
    ensures ShiftLimbs(0, k) == 0
    ensures forall v: nat :: ShiftLimbs(v, 0) == v
  {
  }

  /** n times the number in the first k limbs of y. */
  ghost function PartialProduct(n: nat, y: seq<u64>, k: nat): nat
    requires k <= |y|
  {
    n * Value(y[..k])
  }

  /** The limbs of s * y, and the carry out of the top one. */
  ghost function MulLimbs(s: seq<u64>, y: u64): (r: (seq<u64>, u64))
    ensures |r.0| == |s|
  {
    if s == [] then ([], 0) else
      var (t, carry) := MulLimbs(s[..|s| - 1], y);
      var (z, c) := ScalarMul(s[|s| - 1], y, carry);
      (t + [z], c)
  }

  lemma MulLimbsSnoc(s: seq<u64>, k: nat, y: u64)
    requires k < |s|
    ensures
      var (t, carry) := MulLimbs(s[..k], y);
      var (z, c) := ScalarMul(s[k], y, carry);
      MulLimbs(s[..k + 1], y) == (t + [z], c)
  {
    hide ScalarMul;
    assert s[..k + 1][..k] == s[..k];
  }

  lemma {:induction false} MulLimbsValue(s: seq<u64>, y: u64)
    ensures var (t, carry) := MulLimbs(s, y);
      Value(t) + carry * Pow(WORD, |s|) == Value(s) * y
  {
    if s != [] {
      hide ScalarMul, Pow, Value;
      var n := |s| - 1;
      MulLimbsValue(s[..n], y);
      var (t, carry) := MulLimbs(s[..n], y);
      var (z, c) := ScalarMul(s[n], y, carry);
      ValueSnoc(s, n);
      assert s[..n + 1] == s && (t + [z])[..n] == t && (t + [z])[..n + 1] == t + [z];
      ValueSnoc(t + [z], n);
      ScalarMulExact(s[n], y, carry);
      MulStep(Value(t), carry, Pow(WORD, n), Value(s[..n]), s[n], y, z, c);
    }
  }

  lemma MulLimbsNormalized(s: seq<u64>, y: u64)
    requires Normalized(s) && y > 0
    ensures MulLimbs(s, y).1 == 0 ==> Normalized(MulLimbs(s, y).0)
  {
    hide ScalarMul;
    if s != [] {
      var carry := MulLimbs(s[..|s| - 1], y).1;
      var (z, c) := ScalarMul(s[|s| - 1], y, carry);
      ScalarMulExact(s[|s| - 1], y, carry);
      MulPositive(s[|s| - 1], y);
    }
  }

  lemma MulLimbsProduct(s: seq<u64>, y: u64)
    requires |s| <= BIGINT_LIMBS
    ensures
      var (t, carry) := MulLimbs(s, y);
      var r := WithCarry(t, carry);
      && (|r| <= BIGINT_LIMBS <==> Value(s) * y < Limit())
      && Value(r) == Value(s) * y
      && (y > 0 && Normalized(s) ==> Normalized(r))
  {
    hide MulLimbs, Value, Pow, Limit;
    var (t, carry) := MulLimbs(s, y);
    MulLimbsValue(s, y);
    if y > 0 && Normalized(s) { MulLimbsNormalized(s, y); }
    CarryOut(t, carry);
  }

  /** s + y * WORD^i with the carry run up to the top, and the carry out of it. */
  ghost function AddLimbs(s: seq<u64>, y: u64, i: nat): (r: (seq<u64>, u64))
    requires i <= |s|
    ensures |r.0| == |s|
    decreases |s| - i
  {
    if y == 0 || i == |s| then (s, y) else
      var (z, overflow) := ScalarAdd(s[i], y);
      AddLimbs(s[i := z], if overflow then 1 else 0, i + 1)
  }

  lemma {:induction false} AddLimbsValue(s: seq<u64>, y: u64, i: nat)
    requires i <= |s|
    ensures var (t, carry) := AddLimbs(s, y, i);
      Value(t) + carry * Pow(WORD, |s|) == Value(s) + ShiftLimbs(y, i)
    decreases |s| - i
  {
    if y != 0 && i < |s| {
      var (z, overflow) := ScalarAdd(s[i], y);
      AddLimbsValue(s[i := z], if overflow then 1 else 0, i + 1);
      ValueUpdate(s, i, z);
      AddStep(Value(s), s[i], y, z, overflow, Pow(WORD, i));
    }
  }

  lemma {:induction false} AddLimbsNormalized(s: seq<u64>, y: u64, i: nat)
    requires i <= |s| && Normalized(s)
    ensures AddLimbs(s, y, i).1 == 0 ==> Normalized(AddLimbs(s, y, i).0)
    decreases |s| - i
  {
    if y != 0 && i < |s| {
      var (z, overflow) := ScalarAdd(s[i], y);
      if !overflow || i + 1 < |s| {
        AddLimbsNormalized(s[i := z], if overflow then 1 else 0, i + 1);
      }
    }
  }

  lemma AddLimbsSum(s: seq<u64>, y: u64, i: nat)
    requires i <= |s| <= BIGINT_LIMBS
    ensures
      var (t, carry) := AddLimbs(s, y, i);
      var r := WithCarry(t, carry);
      && (|r| <= BIGINT_LIMBS <==> Value(s) + ShiftLimbs(y, i) < Limit())
      && Value(r) == Value(s) + ShiftLimbs(y, i)
      && (Normalized(s) ==> Normalized(r))
  {
    hide AddLimbs, Value, Pow, Limit;
    var (t, carry) := AddLimbs(s, y, i);
    AddLimbsValue(s, y, i);
    if Normalized(s) { AddLimbsNormalized(s, y, i); }
    CarryOut(t, carry);
  }

  /** s with the first n limbs of y added from limb `start` on, and the carry out of the last of them. */
  ghost function AddSpan(s: seq<u64>, y: seq<u64>, start: nat, n: nat): (r: (seq<u64>, bool))
    requires n <= |y| && start + |y| <= |s|
    ensures |r.0| == |s|
  {
    if n == 0 then (s, false) else
      var (t, carry) := AddSpan(s, y, start, n - 1);
      var (x1, c1) := ScalarAdd(t[start + n - 1], y[n - 1]);
      var (x2, c2) := if carry then ScalarAdd(x1, 1) else (x1, false);
      (t[start + n - 1 := x2], c1 || c2)
  }

  function Bit(b: bool): nat { if b then 1 else 0 }

  /** (t, carry) is s with y added from limb `start` on. */
  ghost predicate IsSum(t: seq<u64>, carry: bool, s: seq<u64>, y: seq<u64>, start: nat) {
    Value(t) + ShiftLimbs(Bit(carry), start + |y|) == Value(s) + ShiftLimbs(Value(y), start)
  }

  lemma {:induction false} AddSpanValue(s: seq<u64>, y: seq<u64>, start: nat, n: nat)
    requires n <= |y| && start + |y| <= |s|
    ensures IsSum(AddSpan(s, y, start, n).0, AddSpan(s, y, start, n).1, s, y[..n], start)
  {
    if n > 0 {
      hide Value, Pow, IsSum, ScalarAdd;
      AddSpanValue(s, y, start, n - 1);
      var (t, carry) := AddSpan(s, y, start, n - 1);
      AddSpanStep(s, t, carry, y[..n - 1], y[n - 1], start);
      assert y[..n] == y[..n - 1] + [y[n - 1]];
    }
  }

  lemma AddSpanStep(s: seq<u64>, t: seq<u64>, carry: bool, y: seq<u64>, d: u64, start: nat)
    requires start + |y| < |t| && IsSum(t, carry, s, y, start)
    ensures
      var k := start + |y|;
      var (x1, c1) := ScalarAdd(t[k], d);
      var (x2, c2) := if carry then ScalarAdd(x1, 1) else (x1, false);
      IsSum(t[k := x2], c1 || c2, s, y + [d], start)
  {
    hide Value, Pow;
    var k := start + |y|;
    var (x1, c1) := ScalarAdd(t[k], d);
    var (x2, c2) := if carry then ScalarAdd(x1, 1) else (x1, false);
    var delta: int := x2 as int - t[k] as int;
    assert delta == d + Bit(carry) - Bit(c1 || c2) * WORD;
    ValueUpdate(t, k, x2);
    ValuePush(y, d);
    PowAdd(WORD, start, |y|);
    PowStep(WORD, k);
    AddSpanStepArithmetic(Value(t), Value(s), delta, d, Bit(carry), Bit(c1 || c2), Pow(WORD, k), Value(y),
      Pow(WORD, start), Pow(WORD, |y|));
  }

  lemma AddSpanStepArithmetic(v: int, v0: int, delta: int, d: int, c: int, c': int, p: int, w: int, q: int, r: int)
    requires v + c * p == v0 + w * q
    requires delta == d + c - c' * WORD && p == q * r
    ensures v + delta * p + c' * (WORD * p) == v0 + (w + d * r) * q
  {
    MulAssoc(c', WORD, p);
    MulDistributes(d + c, c' * WORD, p);
    MulDistributes(d, c, p);
    MulDistributes(w, d * r, q);
    MulAssoc(d, r, q);
    MulAssoc(d, q, r);
  }

  lemma PartialProductEnds(n: nat, y: seq<u64>)
    ensures PartialProduct(n, y, |y|) == n * Value(y)
    ensures y != [] ==> PartialProduct(n, y, 1) == n * y[0] <= n * Value(y)
  {
    hide Value, Pow;
    assert y[..|y|] == y;
    if y != [] {
      assert y[..1] == [y[0]];
      ValueSingle(y[0]);
      PrefixBelow(y, 1);
      MulOrder(y[0], Value(y), n);
    }
  }

  /** One limb's share of a product n * y; neither it nor the limbs up to it exceed the whole. */
  lemma PartialProductStep(n: nat, y: seq<u64>, k: nat)
    requires k < |y|
    ensures PartialProduct(n, y, k + 1) == PartialProduct(n, y, k) + ShiftLimbs(n * y[k], k)
    ensures n * y[k] <= ShiftLimbs(n * y[k], k)
    ensures PartialProduct(n, y, k + 1) <= n * Value(y)
    ensures y[k] == 0 ==> PartialProduct(n, y, k + 1) == PartialProduct(n, y, k)
  {
    hide Value, Pow;
    ValueSnoc(y, k);
    PrefixBelow(y, k + 1);
    PartialProductArithmetic(n, Value(y[..k]), y[k], Pow(WORD, k), Value(y[..k + 1]), Value(y));
  }

  lemma PartialProductArithmetic(n: nat, v: nat, d: nat, p: nat, w: nat, total: nat)
    requires w == v + d * p && p > 0 && w <= total
    ensures n * w == n * v + (n * d) * p
    ensures n * w <= n * total
    ensures n * d <= (n * d) * p <= n * w
  {
    MulDistributes(v, d * p, n);
    MulAssoc(n, d, p);
    MulOrder(w, total, n);
    MulOrder(1, p, n * d);
    MulOrder(0, v, n);
  }

  lemma PrefixBelow(y: seq<u64>, k: nat)
    requires k <= |y|
    ensures Value(y[..k]) <= Value(y)
  {
    hide *;
    assert y == y[..k] + y[k..];
    ValueAppend(y[..k], y[k..]);
    MulOrder(0, Value(y[k..]), Pow(WORD, k));
  }

  /** Normalized limbs that do not fit after a shift by k limbs are a number that does not fit. */
  lemma ShiftedLength(t: seq<u64>, k: nat)
    requires Normalized(t) && t != []
    ensures |t| + k > BIGINT_LIMBS ==> ShiftLimbs(Value(t), k) >= Limit()
  {
    hide Value, Pow;
    if |t| + k > BIGINT_LIMBS {
      var p, q := Pow(WORD, |t| - 1), Pow(WORD, k);
      assert p <= Value(t) by { NormalizedLower(t); }
      assert p * q >= Limit() by {
        PowAdd(WORD, |t| - 1, k);
        PowMonotone(WORD, BIGINT_LIMBS, |t| - 1 + k);
      }
      MulOrder(p, Value(t), q);
    }
  }

  /** A non-zero carry out of `t` becomes one more limb. */
  ghost function WithCarry(t: seq<u64>, carry: u64): seq<u64> {
    if carry == 0 then t else t + [carry]
  }

  lemma CarryOut(t: seq<u64>, carry: u64)
    requires |t| <= BIGINT_LIMBS
    ensures Value(WithCarry(t, carry)) == Value(t) + carry * Pow(WORD, |t|)
    ensures |WithCarry(t, carry)| <= BIGINT_LIMBS <==> Value(WithCarry(t, carry)) < Limit()
  {
    hide Value, Pow, Limit;
    if carry != 0 {
      ValuePush(t, carry);
    }
    CarryRoom(t, carry);
  }

  lemma CarryRoom(t: seq<u64>, carry: u64)
    requires |t| <= BIGINT_LIMBS
    ensures |WithCarry(t, carry)| <= BIGINT_LIMBS <==> Value(WithCarry(t, carry)) < Limit()
  {
    hide Value, Pow;
    if |WithCarry(t, carry)| <= BIGINT_LIMBS {
      FitsInLimbs(WithCarry(t, carry));
    } else {
      NormalizedLower(t + [carry]);
    }
  }

  lemma FitsInLimbs(t: seq<u64>)
    requires |t| <= BIGINT_LIMBS
    ensures Value(t) < Limit()
  {
    hide Value, Pow;
    ValueBound(t);
    PowMonotone(WORD, |t|, BIGINT_LIMBS);
  }

  lemma MulStep(v: int, carry: int, p: int, prefix: int, x: int, y: int, z: int, c: int)
    requires v + carry * p == prefix * y
    requires c * WORD + z == x * y + carry
    ensures v + z * p + c * (WORD * p) == (prefix + x * p) * y
  {
    calc {
      v + z * p + c * (WORD * p);
      { MulAssoc(c, WORD, p); MulDistributes(c * WORD, z, p); }
      v + (x * y + carry) * p;
      { MulDistributes(x * y, carry, p); }
      prefix * y + (x * y) * p;
      { MulAssoc(x, y, p); MulAssoc(x, p, y); }
      prefix * y + (x * p) * y;
      { MulDistributes(prefix, x * p, y); }
      (prefix + x * p) * y;
    }
  }

  lemma AddStep(v: int, x: u64, carry: u64, z: u64, overflow: bool, p: int)
    requires (z, overflow) == ScalarAdd(x, carry)
    ensures v + (z - x) * p + (if overflow then 1 else 0) * (WORD * p) == v + carry * p
  {
    var c := if overflow then 1 else 0;
    assert z == x + carry - c * WORD;
    MulAssoc(c, WORD, p);
    MulDistributes(z - x, c * WORD, p);
  }

  // ----- powers of five

  const LARGE_STEP: nat := 135
  const LARGE_POWER_OF_5: seq<u64> := [
    1414648277510068013, 9180637584431281687, 4539964771860779200, 10482974169319127550, 198276706040285095]
  const SMALL_STEP: nat := 27
  const MAX_NATIVE: u64 := 7450580596923828125
  const SMALL_POWER_OF_5: seq<u64> := [
    1, 5, 25, 125, 625, 3125, 15625, 78125, 390625, 1953125, 9765625, 48828125, 244140625, 1220703125,
    6103515625, 30517578125, 152587890625, 762939453125, 3814697265625, 19073486328125, 95367431640625,
    476837158203125, 2384185791015625, 11920928955078125, 59604644775390625, 298023223876953125,
    1490116119384765625, 7450580596923828125]

  lemma {:induction false} SmallPowers(e: nat)
    requires e <= SMALL_STEP
    ensures |SMALL_POWER_OF_5| == SMALL_STEP + 1
    ensures SMALL_POWER_OF_5[e] == Pow(5, e)
  {
    if e > 0 {
      SmallPowers(e - 1);
    }
  }

  lemma MaxNativePower()
    ensures MAX_NATIVE == Pow(5, SMALL_STEP)
  {
    SmallPowers(SMALL_STEP);
  }

  lemma LargePower()
    ensures Value(LARGE_POWER_OF_5) == Pow(5, LARGE_STEP)
  {
    hide Pow;
    MaxNativePower();
    PowDoubles(5, 27, 7450580596923828125);
    PowDoubles(5, 54, 55511151231257827021181583404541015625);
    PowAdd(5, 108, 27);
    var t := LARGE_POWER_OF_5;
    assert Value(t) == t[0] + WORD * Value(t[1..]);
    assert t[1..][1..] == t[2..] && t[2..][1..] == t[3..] && t[3..][1..] == t[4..] && t[4..] == [t[4]];
    ValueSingle(t[4]);
  }

  /** n times b^e. */
  function Scaled(n: nat, b: nat, e: nat): nat {
    n * Pow(b, e)
  }

  /** Taking k of the e factors first changes nothing; and no factor makes the number smaller. */
  lemma ScaledStep(n: nat, b: nat, e: nat, k: nat)
    requires k <= e && b > 0
    ensures Scaled(n * Pow(b, k), b, e - k) == Scaled(n, b, e)
    ensures n * Pow(b, k) <= Scaled(n, b, e)
  {
    hide Pow;
    PowAdd(b, k, e - k);
    MulAssoc(n, Pow(b, k), Pow(b, e - k));
    MulOrder(1, Pow(b, e - k), n * Pow(b, k));
  }

  /** Multiplying by 5^e and then by 2^e is multiplying by 10^e, and the first step never exceeds the whole. */
  lemma ScaledTen(n: nat, e: nat)
    ensures Scaled(Scaled(n, 5, e), 2, e) == Scaled(n, 10, e)
    ensures Scaled(n, 5, e) <= Scaled(n, 10, e)
  {
    hide Pow;
    PowProduct(5, 2, e);
    MulAssoc(n, Pow(5, e), Pow(2, e));
    MulOrder(1, Pow(2, e), n * Pow(5, e));
  }

  lemma ScaledSign(n: nat, b: nat, e: nat)
    requires b > 0
    ensures Scaled(n, b, e) == 0 <==> n == 0
  {
    hide Pow;
    MulOrder(1, Pow(b, e), n);
    if n > 0 { MulPositive(n, Pow(b, e)); }
  }

  lemma ScaledZero(n: nat, b: nat)
    ensures Scaled(n, b, 0) == n
  {
  }

  // ----- shifts

  /** A shift by n is a shift by n % 64 bits followed by one of n / 64 limbs. */
  lemma ShlSplit(m: nat, n: nat)
    ensures ShiftLimbs(Scaled(m, 2, n % 64), n / 64) == Scaled(m, 2, n)
    ensures Scaled(m, 2, n % 64) <= Scaled(m, 2, n)
    ensures n % 64 == 0 ==> Scaled(m, 2, n % 64) == m
  {
    assert Pow(2, 0) == 1;
    hide Pow;
    ShiftedByLimbs(n % 64, n / 64);
    MulAssoc(m, Pow(2, n % 64), Pow(WORD, n / 64));
    PowMonotone(2, n % 64, n);
    MulOrder(Pow(2, n % 64), Pow(2, n), m);
  }

  /** A product with a nonzero word has no limbs only if the number has none. */
  lemma EmptyProduct(z: seq<u64>, y: u64)
    requires Normalized(z) && y > 0 && Value(z) * y == Value([])
    ensures z == []
  {
    NormalizedZero(z);
    if Value(z) > 0 { MulPositive(Value(z), y); }
  }

  lemma NormalizedZero(s: seq<u64>)
    requires Normalized(s)
    ensures Value(s) == 0 <==> s == []
  {
    if s != [] { NormalizedLower(s); }
  }

  /** Of two normalized numbers, the one with more limbs is larger. */
  lemma LongerIsLarger(s: seq<u64>, t: seq<u64>)
    requires Normalized(s) && |s| > |t|
    ensures Value(s) > Value(t)
  {
    hide Value, Pow;
    NormalizedLower(s);
    ValueBound(t);
    PowMonotone(WORD, |t|, |s| - 1);
  }

  /** (x << n) | (prev >> (64 - n)): the low n bits of the shifted word are zero, so `|` is `+`. */
  function ShlOr(x: u64, prev: u64, n: nat): u64
    requires 0 < n < 64
  {
    ShlOrFits(x, prev, n);
    (x * Pow(2, n)) % WORD + prev / Pow(2, 64 - n)
  }

  lemma ShlOrFits(x: u64, prev: u64, n: nat)
    requires 0 < n < 64
    ensures (x * Pow(2, n)) % WORD == x * Pow(2, n) - (x / Pow(2, 64 - n)) * WORD
    ensures (x * Pow(2, n)) % WORD == (x % Pow(2, 64 - n)) * Pow(2, n)
    ensures 0 <= prev / Pow(2, 64 - n) < Pow(2, n)
    ensures (x * Pow(2, n)) % WORD + prev / Pow(2, 64 - n) < WORD
  {
    hide Pow;
    var p, q := Pow(2, n), Pow(2, 64 - n);
    assert p * q == WORD by { PowAdd(2, n, 64 - n); WordIsPow2(); }
    DivModDefinition(x, q);
    DivModDefinition(prev, q);
    MulDistributes((x / q) * q, x % q, p);
    MulAssoc(x / q, q, p);
    MulOrder(x % q + 1, q, p);
    MulDistributes(x % q, 1, p);
    DivModUnique(x * p, WORD, x / q, (x % q) * p);
    if prev / q >= p {
      MulOrder(p, prev / q, q);
    }
  }

  function Last(s: seq<u64>): u64 {
    if s == [] then 0 else s[|s| - 1]
  }

  /** prev >> (64 - n): the bits that a left shift by n moves out of a word. */
  function ShlCarry(prev: u64, n: nat): u64
    requires 0 < n < 64
  {
    ShlOrFits(0, prev, n);
    DivModDefinition(prev, Pow(2, 64 - n));
    MulOrder(1, Pow(2, 64 - n), prev / Pow(2, 64 - n));
    prev / Pow(2, 64 - n)
  }

  /** The limbs of s shifted left by n bits; what is shifted out of the top limb is ShlCarry(Last(s), n). */
  ghost function ShlBitsLimbs(s: seq<u64>, n: nat): (r: seq<u64>)
    requires 0 < n < 64
    ensures |r| == |s|
  {
    if s == [] then [] else
      var t := s[..|s| - 1];
      ShlBitsLimbs(t, n) + [ShlOr(s[|s| - 1], Last(t), n)]
  }

  lemma ShlBitsSnoc(s: seq<u64>, k: nat, n: nat)
    requires k < |s| && 0 < n < 64
    ensures ShlBitsLimbs(s[..k + 1], n) == ShlBitsLimbs(s[..k], n) + [ShlOr(s[k], Last(s[..k]), n)]
  {
    hide ShlOr;
    assert s[..k + 1][..k] == s[..k];
  }

  lemma {:induction false} ShlBitsValue(s: seq<u64>, n: nat)
    requires 0 < n < 64
    ensures Value(ShlBitsLimbs(s, n)) + ShlCarry(Last(s), n) * Pow(WORD, |s|) == Value(s) * Pow(2, n)
  {
    if s == [] {
      assert ShlCarry(0, n) == 0;
    } else {
      hide Value, Pow, ShlCarry, ShlOr;
      var k := |s| - 1;
      var prev := Last(s[..k]);
      ShlBitsValue(s[..k], n);
      assert s[..k + 1] == s;
      ValueSnoc(s, k);
      ValuePush(ShlBitsLimbs(s[..k], n), ShlOr(s[k], prev, n));
      ShlOrExact(s[k], prev, n);
      PowStep(WORD, k);
      ShlBitsArithmetic(Value(ShlBitsLimbs(s[..k], n)), ShlCarry(prev, n), s[k], ShlCarry(s[k], n),
        ShlOr(s[k], prev, n), Pow(2, n), Pow(WORD, k), Value(s[..k]));
    }
  }

  lemma ShlOrExact(x: u64, prev: u64, n: nat)
    requires 0 < n < 64
    ensures ShlOr(x, prev, n) == x * Pow(2, n) - ShlCarry(x, n) * WORD + ShlCarry(prev, n)
  {
    hide Pow;
    ShlOrFits(x, prev, n);
  }

  lemma ShlBitsArithmetic(v: int, carry: int, x: int, c: int, z: int, p: int, w: int, n: int)
    requires v + carry * w == n * p && z == x * p - c * WORD + carry
    ensures v + z * w + c * (WORD * w) == (n + x * w) * p
  {
    MulAssoc(c, WORD, w);
    MulDistributes(x * p - c * WORD, carry, w);
    MulDistributes(x * p, c * WORD, w);
    MulDistributes(n, x * w, p);
    MulAssoc(x, p, w);
    MulAssoc(x, w, p);
  }

  /** The shift as a number: it fits in the limbs exactly when the shifted limbs with their carry do. */
  lemma ShlBitsProduct(s: seq<u64>, n: nat)
    requires 0 < n < 64 && |s| <= BIGINT_LIMBS
    ensures
      var r := WithCarry(ShlBitsLimbs(s, n), ShlCarry(Last(s), n));
      && (|r| <= BIGINT_LIMBS <==> Scaled(Value(s), 2, n) < Limit())
      && Value(r) == Scaled(Value(s), 2, n)
      && (Normalized(s) ==> Normalized(r))
  {
    hide Value, Pow, Limit, ShlCarry, ShlOr;
    ShlBitsValue(s, n);
    CarryOut(ShlBitsLimbs(s, n), ShlCarry(Last(s), n));
    if Normalized(s) && s != [] && ShlCarry(Last(s), n) == 0 {
      var x := s[|s| - 1];
      ShlOrExact(x, Last(s[..|s| - 1]), n);
      MulPositive(x, Pow(2, n));
    }
  }

  // ----- the most significant 64 bits

  /** uint64_hi64 of one word. */
  function Hi64Of1(r0: u64): (r: (u64, bool))
    requires r0 != 0
  {
    ((r0 * Pow(2, LeadingZeroes(r0))) % WORD, false)
  }

  /** uint64_hi64 of two words: the top 64 bits, and whether any bit of r1 was left out. */
  function Hi64Of2(r0: u64, r1: u64): (r: (u64, bool))
    requires r0 != 0
  {
    var shl := LeadingZeroes(r0);
    if shl == 0 then (r0, r1 != 0)
    else (ShlOr(r0, r1, shl), (r1 * Pow(2, shl)) % WORD != 0)
  }

  lemma Hi64Of2Exact(r0: u64, r1: u64)
    requires r0 != 0
    ensures
      var x, q := r0 * WORD + r1, Pow(2, 64 - LeadingZeroes(r0));
      Hi64Of2(r0, r1) == (x / q, x % q != 0)
  {
    hide Pow, LeadingZeroes;
    var shl := LeadingZeroes(r0);
    LeadingZeroesCorrect(r0);
    var p, q := Pow(2, shl), Pow(2, 64 - shl);
    assert p * q == WORD by { PowAdd(2, shl, 64 - shl); WordIsPow2(); }
    var x := r0 * WORD + r1;
    DivModDefinition(r1, q);
    MulAssoc(r0, p, q);
    MulDistributes(r0 * p, r1 / q, q);
    if shl == 0 {
      assert q == WORD by { WordIsPow2(); }
      DivModUnique(x, q, r0, r1);
    } else {
      ShlOrFits(r0, r1, shl);
      ShlOrFits(r1, 0, shl);
      assert r0 / q == 0 by { DivModUnique(r0, q, 0, r0); }
      DivModUnique(x, q, r0 * p + r1 / q, r1 % q);
      assert r1 % q != 0 <==> (r1 * p) % WORD != 0 by {
        if r1 % q != 0 { MulPositive(r1 % q, p); }
      }
    }
  }

  /** The number of significant bits. */
  function BitLength(s: seq<u64>): int
    requires Normalized(s)
  {
    64 * |s| - (if s == [] then 0 else LeadingZeroes(s[|s| - 1]))
  }

  /** hi is v / unit, and truncated says whether that division leaves a remainder. */
  ghost predicate TopPart(v: nat, unit: nat, hi: nat, truncated: bool) {
    hi * unit <= v < (hi + 1) * unit && (truncated <==> v != hi * unit)
  }

  /** The top 64 bits of v, whose bit length is bl, left-aligned; and whether any lower bit is set. */
  ghost predicate IsHi64(v: nat, bl: int, hi: u64, truncated: bool) {
    if bl >= 64 then TopPart(v, Pow(2, bl - 64), hi, truncated)
    else bl >= 0 && hi == v * Pow(2, 64 - bl) && !truncated
  }

  lemma BitLengthCorrect(s: seq<u64>)
    requires Normalized(s) && s != []
    ensures BitLength(s) > 0 && Pow(2, BitLength(s) - 1) <= Value(s) < Pow(2, BitLength(s))
  {
    hide Pow, Value, LeadingZeroes;
    var k := |s| - 1;
    var x, lz := s[k], LeadingZeroes(s[k]);
    LeadingZeroesCorrect(x);
    ValueSnoc(s, k);
    assert s[..k + 1] == s;
    ValueBound(s[..k]);
    ShiftedByLimbs(63 - lz, k);
    ShiftedByLimbs(64 - lz, k);
    TopLimbBounds(x, Value(s[..k]), Pow(WORD, k), Pow(2, 63 - lz), Pow(2, 64 - lz));
    assert BitLength(s) == 64 - lz + 64 * k;
  }

  lemma ShiftedByLimbs(e: nat, k: nat)
    ensures Pow(2, e) * Pow(WORD, k) == Pow(2, e + 64 * k)
  {
    hide Pow;
    WordPower(k);
    PowAdd(2, e, 64 * k);
  }

  lemma TopLimbBounds(x: nat, low: nat, w: nat, a: nat, b: nat)
    requires a <= x < b && low < w
    ensures a * w <= low + x * w < b * w
  {
    MulOrder(a, x, w);
    MulOrder(x + 1, b, w);
    MulDistributes(x, 1, w);
  }

  lemma WordPower(k: nat)
    ensures Pow(WORD, k) == Pow(2, 64 * k)
  {
    hide Pow;
    WordIsPow2();
    PowOfPow(2, 64, k);
  }

  lemma Hi64Empty()
    ensures IsHi64(Value([]), BitLength([]), 0, false)
  {
  }

  lemma Hi64Of1Exact(r0: u64)
    requires r0 != 0
    ensures Hi64Of1(r0) == (r0 * Pow(2, LeadingZeroes(r0)), false)
    ensures Hi64Of1(r0).0 >= 0x8000_0000_0000_0000
  {
    hide Pow, LeadingZeroes;
    LeadingZeroesCorrect(r0);
    TopBitSet(r0, LeadingZeroes(r0));
    var hi := r0 * Pow(2, LeadingZeroes(r0));
    DivModUnique(hi, WORD, 0, hi);
  }

  lemma Hi64OfWord(v: nat, lz: nat, hi: u64)
    requires lz < 64 && hi == v * Pow(2, lz)
    ensures IsHi64(v, 64 - lz, hi, false)
  {
    if lz == 0 {
      assert Pow(2, 0) == 1;
      assert hi == v;
      assert TopPart(v, 1, v, false);
    }
  }

  lemma Hi64Single(r0: u64)
    requires r0 != 0
    ensures IsHi64(r0, BitLength([r0]), Hi64Of1(r0).0, Hi64Of1(r0).1)
    ensures Hi64Of1(r0).0 >= 0x8000_0000_0000_0000
  {
    hide Pow, LeadingZeroes, Hi64Of1, IsHi64;
    Hi64Of1Exact(r0);
    Hi64OfWord(r0, LeadingZeroes(r0), Hi64Of1(r0).0);
    assert BitLength([r0]) == 64 - LeadingZeroes(r0);
  }

  lemma TopBitSet(x: nat, lz: nat)
    requires lz < 64 && Pow(2, 63 - lz) <= x < Pow(2, 64 - lz)
    ensures 0x8000_0000_0000_0000 <= x * Pow(2, lz) < WORD
  {
    hide Pow;
    PowAdd(2, 63 - lz, lz);
    PowAdd(2, 64 - lz, lz);
    assert Pow(2, 63) == 0x8000_0000_0000_0000 by { WordIsPow2(); PowStep(2, 63); }
    WordIsPow2();
    MulOrder(Pow(2, 63 - lz), x, Pow(2, lz));
    MulOrder(x, Pow(2, 64 - lz), Pow(2, lz));
  }

  ghost predicate AnyNonZero(s: seq<u64>, n: nat)
    requires n <= |s|
  {
    exists i :: 0 <= i < n && s[i] != 0
  }

  lemma AnyNonZeroValue(s: seq<u64>, n: nat)
    requires n <= |s|
    ensures AnyNonZero(s, n) <==> Value(s[..n]) != 0
  {
    hide Value;
    ZeroValue(s[..n]);
    assert forall i :: 0 <= i < n ==> s[..n][i] == s[i];
  }

  /** With two limbs or more, the top two decide hi64 and whether they lose bits; the others can only be lost. */
  lemma Hi64Correct(s: seq<u64>, hi: u64, truncated: bool)
    requires Normalized(s) && |s| >= 2
    requires hi == Hi64Of2(s[|s| - 1], s[|s| - 2]).0
    requires truncated <==> Hi64Of2(s[|s| - 1], s[|s| - 2]).1 || AnyNonZero(s, |s| - 2)
    ensures IsHi64(Value(s), BitLength(s), hi, truncated) && hi >= 0x8000_0000_0000_0000
  {
    hide Pow, Value, LeadingZeroes, Hi64Of2, AnyNonZero, TopPart;
    var k := |s| - 2;
    var r0, r1 := s[k + 1], s[k];
    Hi64Of2Exact(r0, r1);
    Hi64TopBit(r0, r1, LeadingZeroes(r0));
    AnyNonZeroValue(s, k);
    TopTwoLimbs(s);
    DivideTwice(r0 * WORD + r1, Pow(WORD, k), Value(s[..k]), Pow(2, 64 - LeadingZeroes(r0)));
    ShiftedByLimbs(64 - LeadingZeroes(r0), k);
    assert BitLength(s) - 64 == 64 - LeadingZeroes(r0) + 64 * k;
  }

  lemma TopTwoLimbs(s: seq<u64>)
    requires |s| >= 2
    ensures Value(s) == (s[|s| - 1] * WORD + s[|s| - 2]) * Pow(WORD, |s| - 2) + Value(s[..|s| - 2])
    ensures Value(s[..|s| - 2]) < Pow(WORD, |s| - 2)
  {
    hide Pow, Value;
    var k := |s| - 2;
    ValueSnoc(s, k + 1);
    ValueSnoc(s, k);
    ValueBound(s[..k]);
    assert s[..k + 2] == s;
    PowStep(WORD, k);
    MulAssoc(s[k + 1], WORD, Pow(WORD, k));
    MulDistributes(s[k + 1] * WORD, s[k], Pow(WORD, k));
  }

  lemma Hi64TopBit(r0: u64, r1: u64, lz: nat)
    requires r0 != 0 && lz == LeadingZeroes(r0)
    ensures (r0 * WORD + r1) / Pow(2, 64 - lz) >= 0x8000_0000_0000_0000
  {
    hide Pow, LeadingZeroes;
    LeadingZeroesCorrect(r0);
    TopBitSet(r0, lz);
    assert Pow(2, lz) * Pow(2, 64 - lz) == WORD by { PowAdd(2, lz, 64 - lz); WordIsPow2(); }
    QuotientAtLeast(r0, r1, Pow(2, lz), Pow(2, 64 - lz));
  }

  lemma QuotientAtLeast(r0: nat, r1: nat, p: nat, q: nat)
    requires q > 0 && p * q == WORD
    ensures (r0 * WORD + r1) / q >= r0 * p
  {
    var x := r0 * WORD + r1;
    MulAssoc(r0, p, q);
    DivModDefinition(x, q);
    MulDistributes(x / q, 1, q);
    MulOrder(x / q + 1, r0 * p, q);
  }

  /** Dividing x*w + rest by q*w is dividing x by q, and loses something if x % q or rest is not zero. */
  lemma DivideTwice(x: nat, w: nat, rest: nat, q: nat)
    requires q > 0 && rest < w
    ensures TopPart(x * w + rest, q * w, x / q, x % q != 0 || rest != 0)
  {
    var d, m := x / q, x % q;
    DivModDefinition(x, q);
    MulDistributes(d * q, m, w);
    MulAssoc(d, q, w);
    MulOrder(m + 1, q, w);
    MulDistributes(m, 1, w);
    MulDistributes(d, 1, q * w);
    if m != 0 { MulPositive(m, w); }
  }

  // ----- bounds on powers

  /** 5^3 < 2^7. */
  lemma PowersOfFiveBound(k: nat)
    ensures Pow(5, 3 * k) <= Pow(2, 7 * k)
  {
    assert Pow(5, 1) == 5 && Pow(5, 3) == 125;
    assert Pow(2, 1) == 2 && Pow(2, 3) == 8 && Pow(2, 5) == 32 && Pow(2, 7) == 128;
    hide Pow;
    PowOfPow(5, 3, k);
    PowOfPow(2, 7, k);
    PowBaseMonotone(125, 128, k);
  }

  lemma LimitIsPow2()
    ensures Limit() == Pow(2, 3968)
  {
    hide Pow;
    WordPower(BIGINT_LIMBS);
  }

  /** b * 5^k with b <= 2^j and k <= 3 * i fits below 2^(j + 7 * i). */
  lemma ScaledFiveBound(b: nat, j: nat, k: nat, i: nat)
    requires b <= Pow(2, j) && k <= 3 * i
    ensures b * Pow(5, k) <= Pow(2, j + 7 * i)
  {
    hide Pow;
    PowersOfFiveBound(i);
    PowMonotone(5, k, 3 * i);
    PowAdd(2, j, 7 * i);
    MulOrder(b, Pow(2, j), Pow(5, k));
    MulOrder(Pow(5, k), Pow(2, 7 * i), Pow(2, j));
  }

  lemma TenTo770()
    ensures Pow(10, 770) <= Pow(2, 2569) < Limit()
  {
    hide Pow, Limit;
    PowProduct(5, 2, 770);
    ScaledFiveBound(Pow(2, 770), 770, 770, 257);
    LimitIsPow2();
    PowStrict(2, 2569, 3968);
  }
}
