/** The fixed-capacity big integer of the decimal slow path: stackvec<62> with the bigint operations on it. */
module BigInt {
  import opened Arith
  import opened LimbValue
  import opened LimbOps

  class StackVec {
    const data: array<u64>
    var length: nat

    ghost predicate Valid()
      reads this, data
    {
      data.Length == BIGINT_LIMBS && length <= BIGINT_LIMBS
    }

    ghost function Limbs(): (s: seq<u64>)
      reads this, data
      requires Valid()
      ensures |s| == length
    {
      data[..length]
    }

    ghost function Number(): nat
      reads this, data
      requires Valid()
    {
      Value(Limbs())
    }

    constructor ()
      ensures Valid() && fresh(data) && Limbs() == []
    {
      data := new u64[BIGINT_LIMBS];
      length := 0;
    }

    /** bigint(uint64_t): one limb, or none for zero. */
    constructor FromWord(value: u64)
      ensures Valid() && fresh(data) && Number() == value && Normalized(Limbs())
    {
      data := new u64[BIGINT_LIMBS];
      length := 0;
      new;
      var _ := TryPush(value);
      assert Limbs() == [value];
      ValueSingle(value);
      Normalize();
    }

    method TryPush(value: u64) returns (ok: bool)
      requires Valid()
      modifies this`length, data
      ensures Valid()
      ensures ok <==> old(length) < BIGINT_LIMBS
      ensures Limbs() == if ok then old(Limbs()) + [value] else old(Limbs())
    {
      ok := length < BIGINT_LIMBS;
      if ok {
        data[length] := value;
        length := length + 1;
      }
    }

    method TryExtend(s: seq<u64>) returns (ok: bool)
      requires Valid()
      modifies this`length, data
      ensures Valid()
      ensures ok <==> old(length) + |s| <= BIGINT_LIMBS
      ensures Limbs() == if ok then old(Limbs()) + s else old(Limbs())
    {
      ok := length + |s| <= BIGINT_LIMBS;
      if ok {
        forall i | 0 <= i < |s| { data[length + i] := s[i]; }
        length := length + |s|;
        assert Limbs() == old(Limbs()) + s;
      }
    }

    method TryResize(n: nat, value: u64) returns (ok: bool)
      requires Valid()
      modifies this`length, data
      ensures Valid()
      ensures ok <==> n <= BIGINT_LIMBS
      ensures Limbs() ==
        if !ok then old(Limbs())
        else if n <= old(length) then old(Limbs())[..n]
        else old(Limbs()) + Fill(n - old(length), value)
    {
      ok := n <= BIGINT_LIMBS;
      if ok {
        forall i | length <= i < n { data[i] := value; }
        length := n;
        if n > old(length) {
          assert Limbs() == old(Limbs()) + Fill(n - old(length), value);
        } else {
          assert Limbs() == old(Limbs())[..n];
        }
      }
    }

    method Normalize()
      requires Valid()
      modifies this`length
      ensures Valid() && Normalized(Limbs())
      ensures Number() == old(Number())
    {
      while length > 0 && data[length - 1] == 0
        invariant Valid()
        invariant Number() == old(Number())
      {
        ValueSnoc(Limbs(), length - 1);
        assert Limbs()[..length] == Limbs();
        assert data[..length - 1] == Limbs()[..length - 1];
        length := length - 1;
      }
    }

    /** Multiply by one word. Fails exactly when the product does not fit. */
    method SmallMul(y: u64) returns (ok: bool)
      requires Valid()
      modifies this`length, data
      ensures Valid()
      ensures ok <==> old(Number()) * y < Limit()
      ensures ok ==> Number() == old(Number()) * y
      ensures ok && y > 0 && Normalized(old(Limbs())) ==> Normalized(Limbs())
    {
      hide Value, Pow, Limit, ScalarMul;
      ghost var s := Limbs();
      var carry: u64 := 0;
      var index := 0;
      while index < length
        invariant 0 <= index <= length == |s| && Valid()
        invariant data[index..length] == s[index..]
        invariant (data[..index], carry) == MulLimbs(s[..index], y)
      {
        ghost var before := data[..index];
        assert data[index] == s[index];
        var (z, c) := ScalarMul(data[index], y, carry);
        MulLimbsSnoc(s, index, y);
        data[index], carry := z, c;
        index := index + 1;
        assert data[..index] == before + [z];
      }
      assert s[..index] == s && data[..length] == Limbs();
      MulLimbsProduct(s, y);
      ok := true;
      if carry != 0 {
        ok := TryPush(carry);
      }
      assert ok ==> Limbs() == WithCarry(MulLimbs(s, y).0, carry);
      assert ok ==> Number() == Value(s) * y;
    }

    /** Add `y` at limb `start`, or at the first free one if that is lower, letting the carry run. Fails exactly when
        the sum does not fit. */
    method SmallAddFrom(y: u64, start: nat) returns (ok: bool)
      requires Valid()
      modifies this`length, data
      ensures Valid()
      ensures ok <==> old(Number()) + ShiftLimbs(y, Min(start, old(length))) < Limit()
      ensures ok ==> Number() == old(Number()) + ShiftLimbs(y, Min(start, old(length)))
      ensures ok && Normalized(old(Limbs())) ==> Normalized(Limbs())
    {
      hide Value, Pow, Limit, ScalarAdd, ShiftLimbs;
      ghost var s := Limbs();
      ghost var first := Min(start, length);
      var index := start;
      var carry := y;
      while carry != 0 && index < length
        invariant first <= index && length == |s| && Valid() && (start <= |s| ==> index <= length)
        invariant AddLimbs(Limbs(), carry, Min(index, length)) == AddLimbs(s, y, first)
        decreases length - index
      {
        ghost var t := Limbs();
        var (z, overflow) := ScalarAdd(data[index], carry);
        data[index] := z;
        carry := if overflow then 1 else 0;
        assert Limbs() == t[index := z];
        index := index + 1;
      }
      AddLimbsSum(s, y, first);
      ok := true;
      if carry != 0 {
        ok := TryPush(carry);
      }
    }

    /** Add the number `y` shifted up by `start` limbs. */
    method LargeAddFrom(y: seq<u64>, start: nat) returns (ok: bool)
      requires Valid()
      modifies this`length, data
      ensures Valid()
      ensures ok <==> |y| + start <= BIGINT_LIMBS && old(Number()) + ShiftLimbs(Value(y), start) < Limit()
      ensures ok ==> Number() == old(Number()) + ShiftLimbs(Value(y), start)
    {
      hide Value, Pow, Limit, ScalarAdd, ShiftLimbs;
      if length < start || |y| > length - start {
        ok := TryResize(|y| + start, 0);
        if !ok { return; }
        ValuePadded(old(Limbs()), length - old(length));
      }
      ghost var s := Limbs();
      assert Value(s) == old(Number());
      var carry := false;
      var index := 0;
      while index < |y|
        invariant 0 <= index <= |y| && |y| + start <= length == |s| && Valid()
        invariant (Limbs(), carry) == AddSpan(s, y, start, index)
      {
        ghost var t := Limbs();
        var xi, yi := data[index + start], y[index];
        var (x1, c1) := ScalarAdd(xi, yi);
        var (x2, c2) := if carry then ScalarAdd(x1, 1) else (x1, false);
        data[index + start] := x2;
        carry := c1 || c2;
        index := index + 1;
        assert Limbs() == t[start + index - 1 := x2];
      }
      assert y[..index] == y;
      AddSpanValue(s, y, start, |y|);
      if carry {
        ok := SmallAddFrom(1, |y| + start);
      } else {
        ok := true;
        ShiftLimbsZero(|y| + start);
        FitsInLimbs(Limbs());
      }
    }

    /** Add the limbs z times one word, shifted up by index limbs. */
    method AddMultiple(z: seq<u64>, yi: u64, index: nat) returns (ok: bool)
      requires Valid() && |z| <= BIGINT_LIMBS && yi > 0
      modifies this`length, data
      ensures Valid()
      ensures ok ==> Number() == old(Number()) + ShiftLimbs(Value(z) * yi, index)
      ensures Normalized(z) && (z != [] || index <= BIGINT_LIMBS) ==>
        (ok <==> old(Number()) + ShiftLimbs(Value(z) * yi, index) < Limit())
    {
      hide Value, Pow, Limit, ShiftLimbs;
      ShiftLimbsGrows(Value(z) * yi, index);
      // The limbs are copied to a buffer of their own.
      var zi := new StackVec();
      ok := zi.TryExtend(z);
      assert zi.Limbs() == z;
      ok := zi.SmallMul(yi);
      if !ok { return; }
      var zis: seq<u64> := zi.data[..zi.length];
      assert zis == zi.Limbs();
      if Normalized(zis) && zis != [] { ShiftedLength(zis, index); }
      if Normalized(z) && zis == [] { EmptyProduct(z, yi); }
      ok := LargeAddFrom(zis, index);
    }

    /** Grade-school multiplication. On a normalized operand it fails exactly when the product does not fit. */
    method LongMul(y: seq<u64>) returns (ok: bool)
      requires Valid()
      modifies this`length, data
      ensures Valid()
      ensures y == [] ==> ok && Number() == old(Number())
      ensures y != [] && Normalized(old(Limbs())) && (|y| <= BIGINT_LIMBS || old(length) > 0) ==>
        (ok <==> old(Number()) * Value(y) < Limit())
      ensures ok && y != [] ==> Number() == old(Number()) * Value(y)
      ensures ok ==> Normalized(Limbs())
    {
      hide Value, Pow, Limit, ShiftLimbs, PartialProduct;
      var z: seq<u64> := data[..length];
      ghost var n := Value(z);
      assert z == old(Limbs());
      PartialProductEnds(n, y);
      if |y| != 0 {
        ok := SmallMul(y[0]);
        if !ok { return; }
        var index := 1;
        while index < |y|
          invariant 1 <= index <= |y| && Valid()
          invariant Number() == PartialProduct(n, y, index)
        {
          var yi := y[index];
          PartialProductStep(n, y, index);
          if yi != 0 {
            ok := AddMultiple(z, yi, index);
            if !ok { return; }
          }
          index := index + 1;
        }
      }
      FitsInLimbs(Limbs());
      Normalize();
      ok := true;
    }

    /** The same, in one pass for a single limb. */
    method LargeMul(y: seq<u64>) returns (ok: bool)
      requires Valid()
      modifies this`length, data
      ensures Valid()
      ensures y == [] ==> ok && Number() == old(Number())
      ensures y != [] && Normalized(old(Limbs())) && (|y| <= BIGINT_LIMBS || old(length) > 0) ==>
        (ok <==> old(Number()) * Value(y) < Limit())
      ensures ok && y != [] ==> Number() == old(Number()) * Value(y)
      ensures ok && Normalized(old(Limbs())) && y != [0] ==> Normalized(Limbs())
    {
      hide Value, Pow, Limit;
      if |y| == 1 {
        assert y == [y[0]];
        ValueSingle(y[0]);
        ok := SmallMul(y[0]);
      } else {
        ok := LongMul(y);
      }
    }

    /** Multiply by 5^exp: in steps of 5^135, then of 5^27, then the rest. */
    method Pow5(exp: nat) returns (ok: bool)
      requires Valid() && Normalized(Limbs())
      modifies this`length, data
      ensures Valid()
      ensures ok <==> Scaled(old(Number()), 5, exp) < Limit()
      ensures ok ==> Number() == Scaled(old(Number()), 5, exp) && Normalized(Limbs())
    {
      hide Value, Pow, Limit, Scaled;
      ghost var n := Number();
      var rest := exp;
      LargePower();
      MaxNativePower();
      while rest >= LARGE_STEP
        invariant 0 <= rest <= exp && Valid() && Normalized(Limbs())
        invariant Scaled(Number(), 5, rest) == Scaled(n, 5, exp)
      {
        ScaledStep(Number(), 5, rest, LARGE_STEP);
        ok := LargeMul(LARGE_POWER_OF_5);
        if !ok { return; }
        rest := rest - LARGE_STEP;
      }
      while rest >= SMALL_STEP
        invariant 0 <= rest <= exp && Valid() && Normalized(Limbs())
        invariant Scaled(Number(), 5, rest) == Scaled(n, 5, exp)
      {
        ScaledStep(Number(), 5, rest, SMALL_STEP);
        ok := SmallMul(MAX_NATIVE);
        if !ok { return; }
        rest := rest - SMALL_STEP;
      }
      ScaledStep(Number(), 5, rest, rest);
      ScaledZero(Number(), 5);
      if rest != 0 {
        SmallPowers(rest);
        ScaledZero(Number() * Pow(5, rest), 5);
        ok := SmallMul(SMALL_POWER_OF_5[rest]);
        if !ok { return; }
      }
      ok := true;
      FitsInLimbs(Limbs());
    }

    /** Shift left by 0 < n < 64 bits. */
    method ShlBits(n: nat) returns (ok: bool)
      requires Valid() && 0 < n < 64
      modifies this`length, data
      ensures Valid()
      ensures ok <==> Scaled(old(Number()), 2, n) < Limit()
      ensures ok ==> Number() == Scaled(old(Number()), 2, n)
      ensures ok && Normalized(old(Limbs())) ==> Normalized(Limbs())
    {
      hide Value, Pow, Limit, Scaled, ShlOr, ShlCarry;
      ghost var s := Limbs();
      var prev: u64 := 0;
      var index := 0;
      while index < length
        invariant 0 <= index <= length == |s| && Valid()
        invariant data[index..length] == s[index..]
        invariant data[..index] == ShlBitsLimbs(s[..index], n) && prev == Last(s[..index])
      {
        ghost var before := data[..index];
        var xi := data[index];
        assert xi == s[index];
        ShlBitsSnoc(s, index, n);
        data[index] := ShlOr(xi, prev, n);
        prev := xi;
        index := index + 1;
        assert data[..index] == before + [ShlOr(xi, Last(s[..index - 1]), n)];
      }
      assert s[..index] == s && data[..length] == Limbs();
      ShlBitsProduct(s, n);
      var carry := ShlCarry(prev, n);
      ok := true;
      if carry != 0 {
        ok := TryPush(carry);
      }
      assert ok ==> Limbs() == WithCarry(ShlBitsLimbs(s, n), carry);
    }

    /** Move the limbs up by n places. */
    method ShlLimbs(n: nat) returns (ok: bool)
      requires Valid() && n > 0
      modifies this`length, data
      ensures Valid()
      ensures ok <==> n + old(length) <= BIGINT_LIMBS
      ensures Limbs() == if ok && old(length) > 0 then Zeros(n) + old(Limbs()) else old(Limbs())
    {
      ok := n + length <= BIGINT_LIMBS;
      if ok && length != 0 {
        ghost var s := Limbs();
        forall i | 0 <= i < length { data[n + i] := data[i]; }
        assert data[n..n + length] == s;
        forall i | 0 <= i < n { data[i] := 0; }
        assert data[..n] == Zeros(n);
        assert data[n..n + length] == s;
        length := n + length;
        assert Limbs() == data[..n] + data[n..length];
      }
    }

    /** Multiply by 2^n. On a normalized non-zero number it fails exactly when the product does not fit. */
    method Shl(n: nat) returns (ok: bool)
      requires Valid() && Normalized(Limbs())
      modifies this`length, data
      ensures Valid()
      ensures old(length) > 0 ==> (ok <==> Scaled(old(Number()), 2, n) < Limit())
      ensures old(length) == 0 ==> (ok <==> n / 64 <= BIGINT_LIMBS)
      ensures ok ==> Number() == Scaled(old(Number()), 2, n) && Normalized(Limbs())
    {
      hide Value, Pow, Limit, Scaled, ShiftLimbs;
      var rem, div := n % 64, n / 64;
      ghost var m := Number();
      ShlSplit(m, n);
      ScaledSign(m, 2, n);
      ScaledSign(m, 2, rem);
      NormalizedZero(Limbs());
      FitsInLimbs(Limbs());
      if rem != 0 {
        ok := ShlBits(rem);
        if !ok { return; }
      }
      ghost var s := Limbs();
      assert Value(s) == Scaled(m, 2, rem);
      NormalizedZero(s);
      ShiftLimbsZero(div);
      ok := true;
      if div != 0 {
        if s != [] { ShiftedLength(s, div); }
        ShiftedUp(s, div);
        ok := ShlLimbs(div);
        if !ok { return; }
      }
      FitsInLimbs(Limbs());
    }

    /** Multiply by 10^exp: by 5^exp, then by 2^exp. */
    method Pow10(exp: nat) returns (ok: bool)
      requires Valid() && Normalized(Limbs())
      modifies this`length, data
      ensures Valid()
      ensures old(length) > 0 ==> (ok <==> Scaled(old(Number()), 10, exp) < Limit())
      ensures old(length) == 0 ==> (ok <==> exp / 64 <= BIGINT_LIMBS)
      ensures ok ==> Number() == Scaled(old(Number()), 10, exp) && Normalized(Limbs())
      ensures ok && old(length) > 0 ==> length > 0
    {
      hide Value, Pow, Limit, Scaled;
      ghost var n := Number();
      NormalizedZero(Limbs());
      ScaledTen(n, exp);
      ScaledSign(n, 5, exp);
      ScaledSign(n, 10, exp);
      FitsInLimbs(Limbs());
      ok := Pow5(exp);
      if !ok { return; }
      NormalizedZero(Limbs());
      ok := Shl(exp);
      if ok { NormalizedZero(Limbs()); }
    }

    /** The sign of the difference of two normalized numbers. */
    method Compare(other: StackVec) returns (ord: int)
      requires Valid() && other.Valid() && Normalized(Limbs()) && Normalized(other.Limbs())
      ensures ord > 0 <==> Number() > other.Number()
      ensures ord < 0 <==> Number() < other.Number()
    {
      hide Value;
      ghost var s, t := Limbs(), other.Limbs();
      if length > other.length {
        LongerIsLarger(s, t);
        return 1;
      } else if length < other.length {
        LongerIsLarger(t, s);
        return -1;
      }
      var index := length;
      while index > 0
        invariant 0 <= index <= length == other.length
        invariant s[index..] == t[index..]
      {
        var xi, yi := data[index - 1], other.data[index - 1];
        assert xi == s[index - 1] && yi == t[index - 1];
        if xi > yi {
          ValueOrder(s, t, index - 1);
          return 1;
        } else if xi < yi {
          ValueOrder(t, s, index - 1);
          return -1;
        }
        assert s[index - 1..] == [xi] + s[index..] && t[index - 1..] == [yi] + t[index..];
        index := index - 1;
      }
      assert s == s[0..] && t == t[0..];
      return 0;
    }

    /** The top 64 bits, left-aligned, and whether any lower bit is set. */
    method Hi64() returns (hi: u64, truncated: bool)
      requires Valid() && Normalized(Limbs())
      ensures IsHi64(Number(), BitLength(Limbs()), hi, truncated)
      ensures length > 0 ==> hi >= 0x8000_0000_0000_0000
      ensures length == 0 ==> hi == 0
    {
      hide Value, Pow, IsHi64, BitLength, Hi64Of1, Hi64Of2, AnyNonZero;
      ghost var s := Limbs();
      if length == 0 {
        assert s == [];
        Hi64Empty();
        return 0, false;
      }
      if length == 1 {
        assert s == [data[0]];
        ValueSingle(data[0]);
        Hi64Single(data[0]);
        var r := Hi64Of1(data[0]);
        return r.0, r.1;
      }
      var r := Hi64Of2(data[length - 1], data[length - 2]);
      var lower := NonZero(2);
      hi, truncated := r.0, r.1 || lower;
      Hi64Correct(s, hi, truncated);
    }

    /** Whether any limb at or below the index-th from the top is non-zero. */
    method NonZero(start: nat) returns (found: bool)
      requires Valid()
      ensures start <= length ==> (found <==> AnyNonZero(Limbs(), length - start))
      ensures start > length ==> !found
    {
      var index := start;
      while index < length
        invariant start <= index && (start <= length ==> index <= length)
        invariant forall i :: 0 <= i && length - index <= i < length - start ==> Limbs()[i] == 0
      {
        if data[length - index - 1] != 0 {
          assert Limbs()[length - index - 1] != 0;
          return true;
        }
        index := index + 1;
      }
      return false;
    }
  }
}
