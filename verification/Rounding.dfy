/** Rounding an extended-precision value to a float: round, round_nearest_tie_even and round_down. */
module Rounding {
  import opened Arith
  import opened FloatFormat

  /** adjusted_mantissa: mantissa * 2^(power2 - Bias) before rounding, the two fields of a float after it. */
  class AdjustedMantissa {
    var mantissa: u64
    var power2: int

    constructor (mantissa: u64, power2: int)
      ensures this.mantissa == mantissa && this.power2 == power2
    {
      this.mantissa, this.power2 := mantissa, power2;
    }

    /** to_float: the exponent field is or-ed in above the mantissa bits, which may already hold the hidden bit. */
    function Bits(f: Format): (c: int)
      reads this
    {
      ToBits(f, mantissa, power2)
    }
  }

  function ToBits(f: Format, mantissa: nat, power2: int): int {
    var h := f.Hidden();
    if mantissa < h then power2 * h + mantissa
    else (if power2 % 2 == 1 then power2 else power2 + 1) * h + mantissa % h
  }

  /** The shape of a finished float: a value that has just become normal may keep its hidden bit. */
  predicate Finished(f: Format, mantissa: nat, power2: int) {
    && 0 <= power2 <= f.InfinitePower()
    && (mantissa < f.Hidden() || (mantissa == f.Hidden() && power2 == 1))
  }

  /** The range test of from_chars looks at the fields, but means the bit pattern. */
  lemma FinishedBits(f: Format, mantissa: nat, power2: int)
    requires Finished(f, mantissa, power2)
    ensures ToBits(f, mantissa, power2) == 0 <==> mantissa == 0 && power2 == 0
    ensures ToBits(f, mantissa, power2) <= f.Infinity() ==>
      (power2 == f.InfinitePower() <==> ToBits(f, mantissa, power2) == f.Infinity())
  {
    hide Pow, Format.Hidden;
    var h := f.Hidden();
    MulOrder(1, power2, h);
    MulOrder(power2 + 1, f.InfinitePower(), h);
    MulOrder(2, f.InfinitePower(), h);
    MulDistributes(power2, 1, h);
    if mantissa == h {
      DivModUnique(mantissa, h, 1, 0);
    }
  }

  /** Infinity has only one pair of fields. */
  lemma InfinityUnique(f: Format, mantissa: nat, power2: int)
    requires Finished(f, mantissa, power2) && ToBits(f, mantissa, power2) == f.Infinity()
    ensures mantissa == 0 && power2 == f.InfinitePower()
  {
    FinishedBits(f, mantissa, power2);
    hide Pow, Format.Hidden;
  }

  /** The two callbacks that the rounding takes: cut off, or ask `cb` (is odd, is halfway, is above) about going up. */
  datatype Mode = Down | TieEven(cb: (bool, bool, bool) -> bool)

  /** The shift that brings a normalized 64-bit mantissa to the width of the format. */
  function MantissaShift(f: Format): (s: nat)
    ensures 1 < s < 64
  {
    63 - f.MantissaBits()
  }

  predicate IsSubnormal(f: Format, power2: int) {
    -power2 >= MantissaShift(f)
  }

  function RoundingShift(f: Format, power2: int): (s: nat)
    ensures 1 < s <= 64
  {
    if IsSubnormal(f, power2) then Min(1 - power2, 64) else MantissaShift(f)
  }

  /** x >> shift and the bits it drops. */
  function Shr(x: nat, shift: nat): nat {
    DivModDefinition(x, Pow(2, shift));
    x / Pow(2, shift)
  }

  function LowBits(x: nat, shift: nat): nat {
    DivModDefinition(x, Pow(2, shift));
    x % Pow(2, shift)
  }

  /** The bit just below a shift: half of what the shift drops (and 0 when it drops nothing). */
  function Halfway(shift: nat): nat {
    if shift == 0 then 0 else Pow(2, shift - 1)
  }

  /** The bit pattern of an extended value with its surplus bits cut off; past infinity if the exponent is. */
  function FloorCode(f: Format, mantissa: u64, power2: int): int {
    var m := Shr(mantissa, RoundingShift(f, power2));
    if IsSubnormal(f, power2) then m else (power2 + MantissaShift(f) - 1) * f.Hidden() + m
  }

  /** The callback's answer for a value about to lose its low `shift` bits. */
  predicate Answer(x: nat, shift: nat, cb: (bool, bool, bool) -> bool) {
    cb(Shr(x, shift) % 2 == 1, LowBits(x, shift) == Halfway(shift), LowBits(x, shift) > Halfway(shift))
  }

  predicate GoesUp(f: Format, mantissa: u64, power2: int, mode: Mode) {
    mode.TieEven? && Answer(mantissa, RoundingShift(f, power2), mode.cb)
  }

  /** The float that `round` must produce. */
  function RoundedCode(f: Format, mantissa: u64, power2: int, up: bool): int {
    Min(FloorCode(f, mantissa, power2) + (if up then 1 else 0), f.Infinity())
  }

  /** x & ~bit, for a power of two `bit`. */
  function ClearBit(x: u64, bit: nat): u64
    requires bit > 0
  {
    if (x / bit) % 2 == 1 && x >= bit then x - bit else x
  }

  lemma ClearTopBit(x: u64, bit: nat)
    requires 0 < bit <= x < 2 * bit
    ensures ClearBit(x, bit) == x - bit
  {
    DivModUnique(x, bit, 1, x - bit);
  }

  method RoundDown(am: AdjustedMantissa, shift: nat)
    requires shift <= 64
    modifies am
    ensures am.mantissa == Shr(old(am.mantissa), shift)
    ensures am.power2 == old(am.power2) + shift
  {
    ShiftRight(am.mantissa, shift);
    if shift == 64 {
      am.mantissa := 0;
    } else {
      am.mantissa := Shr(am.mantissa, shift);
    }
    am.power2 := am.power2 + shift;
  }

  method RoundNearestTieEven(am: AdjustedMantissa, shift: nat, cb: (bool, bool, bool) -> bool)
    requires shift <= 64
    modifies am
    ensures am.mantissa == (Shr(old(am.mantissa), shift) + if Answer(old(am.mantissa), shift, cb) then 1 else 0) % WORD
    ensures am.power2 == old(am.power2) + shift
  {
    ShiftRight(am.mantissa, shift);
    var truncatedBits := if shift == 64 then am.mantissa else LowBits(am.mantissa, shift);
    var halfway := if shift == 0 then 0 else Pow(2, shift - 1);
    var isAbove := truncatedBits > halfway;
    var isHalfway := truncatedBits == halfway;
    if shift == 64 {
      am.mantissa := 0;
    } else {
      am.mantissa := Shr(am.mantissa, shift);
    }
    am.power2 := am.power2 + shift;
    var isOdd := am.mantissa % 2 == 1;
    am.mantissa := (am.mantissa + if cb(isOdd, isHalfway, isAbove) then 1 else 0) % WORD;
  }

  lemma ShiftRight(x: u64, shift: nat)
    requires shift <= 64
    ensures 0 <= Shr(x, shift) <= x
    ensures shift == 64 ==> Shr(x, shift) == 0 && LowBits(x, shift) == x
  {
    hide Pow;
    var p := Pow(2, shift);
    WordIsPow2();
    DivModDefinition(x, p);
    MulOrder(1, p, x / p);
    if shift == 64 {
      DivModUnique(x, p, 0, x);
    }
  }

  /** Round an extended value with its top bit set to the format. */
  method Round(f: Format, am: AdjustedMantissa, mode: Mode)
    requires am.mantissa >= TOP_BIT
    modifies am
    ensures am.Bits(f) == RoundedCode(f, old(am.mantissa), old(am.power2),
      GoesUp(f, old(am.mantissa), old(am.power2), mode))
    ensures Finished(f, am.mantissa, am.power2)
  {
    hide Pow, Format.Hidden, ToBits, RoundedCode, Answer, Shr, LowBits, Halfway, ClearBit;
    ghost var x, e, up := am.mantissa, am.power2, GoesUp(f, am.mantissa, am.power2, mode);
    var h := f.Hidden();
    var mantissaShift := 63 - f.MantissaBits();
    FloorMantissa(f, x, e);
    if -am.power2 >= mantissaShift {
      var shift := -am.power2 + 1;
      if mode.Down? { RoundDown(am, Min(shift, 64)); } else { RoundNearestTieEven(am, Min(shift, 64), mode.cb); }
      am.power2 := if am.mantissa < h then 0 else 1;
      SubnormalBits(f, x, e, up, am.mantissa, am.power2);
      return;
    }
    if mode.Down? { RoundDown(am, mantissaShift); } else { RoundNearestTieEven(am, mantissaShift, mode.cb); }
    ghost var m := am.mantissa;
    if am.mantissa >= 2 * h {
      am.mantissa := h;
      am.power2 := am.power2 + 1;
    }
    ClearTopBit(am.mantissa, h);
    am.mantissa := ClearBit(am.mantissa, h);
    if am.power2 >= f.InfinitePower() {
      am.power2 := f.InfinitePower();
      am.mantissa := 0;
    }
    NormalBits(f, x, e, up, m, am.mantissa, am.power2);
  }

  /** How many mantissa bits the shift leaves: all of them, with the top one set, or fewer for a subnormal. */
  lemma FloorMantissa(f: Format, x: u64, e: int)
    requires x >= TOP_BIT
    ensures
      var m := Shr(x, RoundingShift(f, e));
      0 <= m && (if IsSubnormal(f, e) then m < f.Hidden() else f.Hidden() <= m < 2 * f.Hidden())
    ensures 2 * f.Hidden() < WORD / 2
  {
    hide Pow;
    var s, h := RoundingShift(f, e), f.Hidden();
    var p := Pow(2, s);
    WordIsPow2();
    var b := f.MantissaBits();
    assert 2 * h == Pow(2, b + 1) by { PowStep(2, b); }
    assert h * Pow(2, 63 - b) == TOP_BIT && 2 * h * Pow(2, 63 - b) == WORD by {
      PowAdd(2, b, 63 - b);
      PowAdd(2, b + 1, 63 - b);
      PowStep(2, 63);
    }
    assert 2 * h < WORD / 2 by {
      PowStep(2, 63);
      PowStrict(2, b + 1, 63);
    }
    DivModDefinition(x, p);
    var m := x / p;
    if IsSubnormal(f, e) {
      assert h * p >= WORD by {
        PowAdd(2, b, s);
        PowMonotone(2, 64, b + s);
      }
      if m >= h { MulOrder(h, m, p); }
    } else {
      if m >= 2 * h { MulOrder(2 * h, m, p); }
      if m < h {
        MulOrder(m + 1, h, p);
        MulDistributes(m, 1, p);
      }
    }
  }

  lemma SubnormalBits(f: Format, x: u64, e: int, up: bool, mantissa: nat, power2: int)
    requires x >= TOP_BIT && IsSubnormal(f, e)
    requires mantissa == Shr(x, RoundingShift(f, e)) + if up then 1 else 0
    requires power2 == if mantissa < f.Hidden() then 0 else 1
    ensures ToBits(f, mantissa, power2) == RoundedCode(f, x, e, up) && Finished(f, mantissa, power2)
  {
    hide Pow, Format.Hidden, Shr;
    FloorMantissa(f, x, e);
    MulOrder(1, f.InfinitePower(), f.Hidden());
    if mantissa == f.Hidden() {
      DivModUnique(mantissa, mantissa, 1, 0);
    }
  }

  lemma NormalBits(f: Format, x: u64, e: int, up: bool, m: nat, mantissa: nat, power2: int)
    requires x >= TOP_BIT && !IsSubnormal(f, e)
    requires m == Shr(x, RoundingShift(f, e)) + if up then 1 else 0
    requires Packs(f, m, e + MantissaShift(f), mantissa, power2)
    ensures ToBits(f, mantissa, power2) == RoundedCode(f, x, e, up) && Finished(f, mantissa, power2)
  {
    hide Pow, Format.Hidden, Shr, ToBits, Packs;
    FloorMantissa(f, x, e);
    PackedBits(f, m, e + MantissaShift(f), mantissa, power2);
  }

  /** The last steps of rounding: undo a carry out of the mantissa m, drop the hidden bit, go to infinity if need be. */
  ghost predicate Packs(f: Format, m: nat, e: int, mantissa: nat, power2: int) {
    var h := f.Hidden();
    var (m1, e1) := if m >= 2 * h then (h, e + 1) else (m, e);
    if e1 >= f.InfinitePower() then mantissa == 0 && power2 == f.InfinitePower()
    else mantissa == m1 - h && power2 == e1
  }

  lemma PackedBits(f: Format, m: nat, e: int, mantissa: nat, power2: int)
    requires e >= 1 && f.Hidden() <= m <= 2 * f.Hidden() && Packs(f, m, e, mantissa, power2)
    ensures ToBits(f, mantissa, power2) == Min((e - 1) * f.Hidden() + m, f.Infinity())
    ensures mantissa < f.Hidden() && 0 <= power2 <= f.InfinitePower()
  {
    hide Pow, Format.Hidden;
    var h := f.Hidden();
    var e1 := if m >= 2 * h then e + 1 else e;
    MulDistributes(e, 1, h);
    assert (e - 1) * h + m == e1 * h + (if m >= 2 * h then 0 else m - h);
    if e1 >= f.InfinitePower() {
      MulOrder(f.InfinitePower(), e1, h);
    } else {
      MulOrder(e1 + 1, f.InfinitePower(), h);
      MulDistributes(e1, 1, h);
    }
  }
}
