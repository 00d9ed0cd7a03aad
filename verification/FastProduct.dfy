/** The product that the fast algorithm computes, for every exponent: its kept bits are those of the exact product, and
    it shows a tie exactly where there is one. */
module FastProduct {
  import opened Arith
  import opened LimbValue
  import opened FloatFormat
  import opened Rounding
  import opened PowersOfFive
  import opened PowerTable

  /** compute_product_approximation: w times the table's approximation of 5^q, as (low, high). */
  function ProductApproximation(precision: nat, q: int, w: u64): (u64, u64)
    requires SMALLEST_POWER <= q <= LARGEST_POWER && precision < 64
  {
    var (low, high) := UMul128(w, PowerOfFive128(q).high);
    var precisionMask := Pow(2, 64 - precision) - 1;
    if LowBits(high, 64 - precision) != precisionMask then (low, high) else
      var second := UMul128(w, PowerOfFive128(q).low).1;
      var low1 := (low + second) % WORD;
      (low1, if second > low1 then (high + 1) % WORD else high)
  }

  // ----- the two ways in which the product comes about

  /** Only the first word counted, and the bits below the precision are not all ones. */
  ghost predicate FirstWordOnly(k: nat, w: u64, row: Row, low: u64, high: u64) {
    high * WORD + low == w * row.high && LowBits(high, k) != Pow(2, k) - 1
  }

  /** Both counted: these are the top 128 bits of the 192. */
  ghost predicate BothWords(w: u64, row: Row, low: u64, high: u64) {
    (high * WORD + low) * WORD <= w * row.Whole() < (high * WORD + low + 1) * WORD
  }

  lemma ProductIs(precision: nat, q: int, w: u64, row: Row)
    requires SMALLEST_POWER <= q <= LARGEST_POWER && precision < 64 && row == PowerOfFive128(q)
    ensures
      var (low, high) := ProductApproximation(precision, q, w);
      FirstWordOnly(64 - precision, w, row, low, high) || BothWords(w, row, low, high)
  {
    hide Pow, LowBits, UMul128, IsRow, PowerOfFive128;
    UMul128Exact(w, row.high);
    UMul128Exact(w, row.low);
    var (low, high) := UMul128(w, row.high);
    var (rest, second) := UMul128(w, row.low);
    WordsAdded(w, row.high, row.low, low, high, second, rest);
  }

  lemma WordsAdded(w: u64, h: u64, l: u64, low: u64, high: u64, second: u64, rest: u64)
    requires high * WORD + low == w * h && high <= WORD - 2 && second * WORD + rest == w * l
    ensures
      var low1 := (low + second) % WORD;
      var high1 := if second > low1 then (high + 1) % WORD else high;
      (high1 * WORD + low1) * WORD <= w * (h * WORD + l) < (high1 * WORD + low1 + 1) * WORD
  {
    CarryAdded(low, high, second);
    MulDistributes(h * WORD, l, w);
    MulAssoc(w, h, WORD);
    MulDistributes(high * WORD + low, second, WORD);
  }

  lemma CarryAdded(low: u64, high: u64, second: u64)
    requires high <= WORD - 2
    ensures
      var low1 := (low + second) % WORD;
      (if second > low1 then (high + 1) % WORD else high) * WORD + low1 == high * WORD + low + second
  {
  }

  /** Either way the bits above a shift of at least k are those of the whole product. */
  lemma KeptBits(k: nat, w: u64, row: Row, low: u64, high: u64, s: nat)
    requires k <= s && (FirstWordOnly(k, w, row, low, high) || BothWords(w, row, low, high))
    ensures
      var m := Shr(high, s);
      m * Pow(2, 128 + s) <= w * row.Whole() < (m + 1) * Pow(2, 128 + s)
  {
    hide Pow, LowBits, Shr;
    ProductSpread(k, w, row, low, high);
    NoCarry(k, high, s, high + if FirstWordOnly(k, w, row, low, high) then 2 else 1);
    WordIsPow2();
    PowDoubles(2, 64, WORD);
    PowAdd(2, s, 128);
    var (m, p) := (Shr(high, s), Pow(2, s));
    MulAssoc(m, p, WORD * WORD);
    MulAssoc(m + 1, p, WORD * WORD);
    MulOrder(m * p, high, WORD * WORD);
    MulOrder(high + 1, (m + 1) * p, WORD * WORD);
    MulOrder(high + 2, (m + 1) * p, WORD * WORD);
  }

  lemma ProductSpread(k: nat, w: u64, row: Row, low: u64, high: u64)
    requires FirstWordOnly(k, w, row, low, high) || BothWords(w, row, low, high)
    ensures high * (WORD * WORD) <= w * row.Whole()
    ensures FirstWordOnly(k, w, row, low, high) ==> w * row.Whole() < (high + 2) * (WORD * WORD)
    ensures !FirstWordOnly(k, w, row, low, high) ==> w * row.Whole() < (high + 1) * (WORD * WORD)
  {
    hide Pow, LowBits;
    MulDistributes(row.high * WORD, row.low, w);
    MulAssoc(w, row.high, WORD);
    MulOrder(0, w, row.low);
    MulOrder(w, WORD, row.low);
  }

  /** Adding one, when the low k bits are not all ones, does not reach the bits above. */
  lemma NoCarry(k: nat, high: nat, s: nat, next: nat)
    requires k <= s && (next == high + 1 || (next == high + 2 && LowBits(high, k) != Pow(2, k) - 1))
    ensures Shr(high, s) * Pow(2, s) <= high && next <= (Shr(high, s) + 1) * Pow(2, s)
  {
    hide Pow;
    DivModDefinition(high, Pow(2, s));
    DivModDefinition(high, Pow(2, k));
    var (m, p, h, c) := (Shr(high, s), Pow(2, s), Shr(high, k), Pow(2, k));
    MulDistributes(m, 1, p);
    if next == high + 2 {
      PowAdd(2, s - k, k);
      var a := Pow(2, s - k);
      MulDistributes(h, 1, c);
      MulAssoc(m + 1, a, c);
      MulOrder(h, (m + 1) * a, c);
      MulOrder(h + 1, (m + 1) * a, c);
    }
  }

  // ----- the exact product

  /** w * 5^q, in the row's units, lies in [m, m+1) * 2^n. */
  ghost predicate Keeps(q: int, w: nat, m: nat, n: nat) {
    (m * Pow(2, n)) * Bottom(q) <= w * Top(q) < ((m + 1) * Pow(2, n)) * Bottom(q)
  }

  ghost predicate Tied(q: int, w: nat, m: nat, n: nat) {
    w * Top(q) == (m * Pow(2, n)) * Bottom(q)
  }

  lemma SpanIsPow2()
    ensures SPAN == Pow(2, 137) && TIE_SPAN == Pow(2, 73)
  {
    assert Pow(2, 9) == 512;
    hide Pow;
    WordIsPow2();
    PowAdd(2, 64, 9);
    PowDoubles(2, 64, WORD);
    PowAdd(2, 128, 9);
  }

  /** The bits of the exact product above 2^n are those of the product with the row. */
  lemma KeptExactly(q: int, row: Row, w: nat, m: nat, n: nat)
    requires IsRow(q, row) && SMALLEST_POWER <= q <= LARGEST_POWER && 0 < w < WORD && n >= 137
    requires m * Pow(2, n) <= w * row.Whole() < (m + 1) * Pow(2, n)
    ensures Keeps(q, w, m, n)
  {
    hide Pow, Top, Bottom, KeepsAway, Keeps, IsCutOff, IsNextUp, NoFalseTie;
    if q < FIRST_ROUNDED_UP || q > EXACT_POWERS {
      KeptByCut(q, row.Whole(), w, m, n);
    } else if q < 0 {
      KeptByNextUp(q, row.Whole(), w, m, n);
    } else {
      KeptByExact(q, row.Whole(), w, m, n);
    }
  }

  lemma KeptByExact(q: int, t: nat, w: nat, m: nat, n: nat)
    requires t * Bottom(q) == Top(q) && m * Pow(2, n) <= w * t < (m + 1) * Pow(2, n)
    ensures Keeps(q, w, m, n)
  {
    hide Pow, Top, Bottom;
    MulAssoc(w, t, Bottom(q));
    MulOrder(m * Pow(2, n), w * t, Bottom(q));
    MulOrder(w * t, (m + 1) * Pow(2, n), Bottom(q));
  }

  lemma KeptByCut(q: int, t: nat, w: nat, m: nat, n: nat)
    requires IsCutOff(q, t) && KeepsAway(t) && 0 < w < WORD && n >= 137
    requires m * Pow(2, n) <= w * t < (m + 1) * Pow(2, n)
    ensures Keeps(q, w, m, n)
  {
    hide Pow, Top, Bottom;
    var b := Bottom(q);
    NotQuiteNext(t, w, m, n);
    MulAssoc(w, t, b);
    MulAssoc(w, t + 1, b);
    MulDistributes(t, 1, w);
    MulOrder(t * b, Top(q), w);
    MulOrder(Top(q), (t + 1) * b, w);
    MulOrder(m * Pow(2, n), w * t, b);
    MulOrder(w * t + w, (m + 1) * Pow(2, n), b);
  }

  lemma NotQuiteNext(t: nat, w: nat, m: nat, n: nat)
    requires KeepsAway(t) && 0 < w < WORD && n >= 137 && w * t < (m + 1) * Pow(2, n)
    ensures w * t + WORD <= (m + 1) * Pow(2, n)
  {
    hide Pow;
    SpanIsPow2();
    PowAdd(2, n - 137, 137);
    var c := (m + 1) * Pow(2, n - 137);
    MulAssoc(m + 1, Pow(2, n - 137), SPAN);
    assert FarBelow(w, t, c);
  }

  lemma MultiplesOrder(x: int, y: int)
    requires x * (WORD * WORD) < (y + 1) * (WORD * WORD)
    ensures x <= y
  {
  }

  /** Left of 5^0, and up to 5^-27, the terms are multiples of 2^128, and the row is off by less than 2^64 / w. */
  lemma NextUpTerms(q: int, t: nat, w: nat, m: nat, n: nat) returns (x: nat, y: nat)
    requires FIRST_ROUNDED_UP <= q < 0 && IsNextUp(q, t) && 0 < w < WORD && n >= 137
    ensures w * Top(q) == x * (WORD * WORD) && (m * Pow(2, n)) * Bottom(q) == y * (WORD * WORD)
    ensures w * Top(q) < (w * t) * Bottom(q) < w * Top(q) + w * Bottom(q)
    ensures WORD * Bottom(q) <= WORD * TOP_BIT
  {
    hide Pow, Top, Bottom, Log5;
    var b := Bottom(q);
    Log5Small(q);
    BottomAtMostZero(q);
    WordIsPow2();
    PowDoubles(2, 64, WORD);
    PowAdd(2, -1 - Log5(q), 128);
    PowAdd(2, n - 128, 128);
    x, y := w * Pow(2, -1 - Log5(q)), (m * Pow(2, n - 128)) * b;
    MulAssoc(w, Pow(2, -1 - Log5(q)), WORD * WORD);
    MulAssoc(m, Pow(2, n - 128), WORD * WORD);
    MulAssoc(m * Pow(2, n - 128), WORD * WORD, b);
    MulAssoc(m * Pow(2, n - 128), b, WORD * WORD);
    MulAssoc(w, t, b);
    MulDistributes(t, 1, b);
    MulOrder(Top(q), t * b, w);
    MulOrder(t * b, Top(q) + b, w);
    MulDistributes(Top(q), b, w);
    PowMonotone(5, -q, 27);
    FiveTo27();
    MulOrder(b, TOP_BIT, WORD);
  }

  lemma Log5Small(q: int)
    requires q < 0
    ensures Log5(q) <= -1
  {
  }

  lemma FiveTo27()
    ensures Pow(5, 27) == 7450580596923828125
  {
    PowerOf5Is(27);
  }

  lemma KeptByNextUp(q: int, t: nat, w: nat, m: nat, n: nat)
    requires FIRST_ROUNDED_UP <= q < 0 && IsNextUp(q, t) && 0 < w < WORD && n >= 137
    requires m * Pow(2, n) <= w * t < (m + 1) * Pow(2, n)
    ensures Keeps(q, w, m, n)
  {
    hide Pow, Top, Bottom, IsNextUp;
    var b := Bottom(q);
    var x, y := NextUpTerms(q, t, w, m, n);
    MulOrder(m * Pow(2, n), w * t, b);
    MulOrder(w * t, (m + 1) * Pow(2, n), b);
    MulOrder(w, WORD, b);
    MulDistributes(x, 1, WORD * WORD);
    MultiplesOrder(y, x);
    MulOrder(y, x, WORD * WORD);
  }

  // ----- where ties can be

  lemma {:induction false} PowerOfFiveOdd(p: nat)
    ensures Pow(5, p) % 2 == 1
  {
    if p > 0 {
      PowerOfFiveOdd(p - 1);
    }
  }

  /** Below 5^-27 there are none: the power of five would divide a word. */
  lemma NoTieFarDown(q: int, w: nat, m: nat, n: nat)
    requires q < FIRST_ROUNDED_UP && 0 < w < WORD
    ensures !Tied(q, w, m, n)
  {
    hide Pow, Top, Bottom, Log5;
    if Tied(q, w, m, n) {
      BottomAtMostZero(q);
      PowerOfFiveOdd(-q);
      var b := OddDivides(Pow(5, -q), m * Pow(2, n), w, 127 - Log5(q));
      PowMonotone(5, 28, -q);
      PowerOf5Is(28);
      MulOrder(1, b, Pow(5, -q));
    }
  }

  lemma OddIsNoMultiple(x: nat, d: nat)
    requires (x * Pow(2, d)) % 2 == 1
    ensures d == 0
  {
    hide Pow;
    if d > 0 {
      PowStep(2, d - 1);
      EvenProduct(x, Pow(2, d));
    }
  }

  lemma OddProduct(a: int, b: int)
    requires a % 2 == 1 && b % 2 == 1
    ensures (a * b) % 2 == 1
  {
    EvenProduct(a, b - 1);
    var even := a * (b - 1);
    assert a * b == even + a by { MulDistributes(b - 1, 1, a); }
  }

  /** A tie left of 5^0 needs a word that holds the kept bits times the power of five. */
  lemma TieNeedsRoom(q: int, w: nat, m: nat, n: nat)
    requires q < 0 && m % 2 == 1 && Tied(q, w, m, n)
    ensures m * Pow(5, -q) <= w
  {
    hide Pow, Top, Bottom, Log5;
    BottomAtMostZero(q);
    PowerOfFiveOdd(-q);
    OddProduct(m, Pow(5, -q));
    var (a, five) := (127 - Log5(q), Pow(5, -q));
    if a >= n {
      PowAdd(2, a - n, n);
      MulAssoc(w, Pow(2, a - n), Pow(2, n));
      MulAssoc(m, Pow(2, n), five);
      MulAssoc(m, five, Pow(2, n));
      MulOrder(w * Pow(2, a - n), m * five, Pow(2, n));
      OddIsNoMultiple(w, a - n);
      PowZeros();
    } else {
      PowAdd(2, n - a, a);
      MulAssoc(m, Pow(2, n - a), Pow(2, a));
      MulAssoc(m * Pow(2, n - a), Pow(2, a), five);
      MulAssoc(m * Pow(2, n - a), five, Pow(2, a));
      MulOrder(w, (m * Pow(2, n - a)) * five, Pow(2, a));
      MulOrder(1, Pow(2, n - a), m);
      MulOrder(m, m * Pow(2, n - a), five);
    }
  }

  /** Right of 5^0, one needs kept bits that the power of five divides. */
  lemma TieIsMultiple(q: int, w: nat, m: nat, n: nat)
    requires q >= 0 && m > 0 && Tied(q, w, m, n)
    ensures Pow(5, q) <= m
  {
    hide Pow, Top, Bottom, Log5;
    Log5Sign(q);
    PowerOfFiveOdd(q);
    TopBottomRight(q);
    var five := Pow(5, q);
    PowAdd(2, n, Log5(q));
    MulAssoc(m, Pow(2, n), Pow(2, Log5(q)));
    MulAssoc(w, Pow(2, 127), five);
    var b := OddDivides(five, w * Pow(2, 127), m, n + Log5(q));
    MulOrder(1, b, five);
  }

  lemma TopBottomRight(q: int)
    requires q >= 0
    ensures Log5(q) >= 0 && Top(q) == Pow(5, q) * Pow(2, 127) && Bottom(q) == Pow(2, Log5(q))
  {
    hide Pow;
    Log5Sign(q);
  }

  /** Ties whose kept bits are odd occur only for the exponents that round to even. */
  lemma TieInRange(f: Format, q: int, w: nat, m: nat, n: nat)
    requires 0 < w < WORD && m % 2 == 1 && 2 * f.Hidden() <= m < 4 * f.Hidden() && Tied(q, w, m, n)
    ensures f.MinExponentRoundToEven() <= q <= f.MaxExponentRoundToEven()
  {
    hide Pow, Top, Bottom, Tied, Format.Hidden;
    HiddenIs(f);
    if q >= 0 {
      TieIsMultiple(q, w, m, n);
      FivesOutOfRange(f);
      if q > f.MaxExponentRoundToEven() { PowMonotone(5, f.MaxExponentRoundToEven() + 1, q); }
    } else {
      TieNeedsRoom(q, w, m, n);
      FivesOutOfRange(f);
      var k := 1 - f.MinExponentRoundToEven();
      if q < f.MinExponentRoundToEven() {
        PowMonotone(5, k, -q);
        MulOrder(2 * f.Hidden(), m, Pow(5, k));
        MulOrder(Pow(5, k), Pow(5, -q), m);
      }
    }
  }

  lemma HiddenIs(f: Format)
    ensures f.Hidden() == if f.Double? then 0x10_0000_0000_0000 else 0x80_0000
  {
    assert Pow(2, 3) == 8;
    hide Pow;
    PowerOf2Is(52);
    PowerOf2Is(23);
  }

  lemma FivesOutOfRange(f: Format)
    ensures Pow(5, f.MaxExponentRoundToEven() + 1) >= 4 * f.Hidden()
    ensures 2 * f.Hidden() * Pow(5, 1 - f.MinExponentRoundToEven()) >= WORD
  {
    hide Pow, Format.Hidden;
    HiddenIs(f);
    PowerOf5Is(24);
    PowerOf5Is(11);
    PowerOf5Is(5);
    PowerOf5Is(18);
  }

  // ----- how a tie shows in the product

  /** What compute_float looks at: nothing below the kept bits of the high word, and next to nothing in the low one. */
  predicate ShowsTie(low: u64, high: u64, m: nat, s: nat) {
    low <= 1 && high == m * Pow(2, s)
  }

  lemma TieShows(k: nat, q: int, row: Row, w: u64, low: u64, high: u64, s: nat)
    requires IsRow(q, row) && FIRST_ROUNDED_UP <= q <= 27 && w > 0 && k <= s && s >= 9
    requires FirstWordOnly(k, w, row, low, high) || BothWords(w, row, low, high)
    ensures ShowsTie(low, high, Shr(high, s), s) <==> Tied(q, w, Shr(high, s), 128 + s)
  {
    hide Pow, Top, Bottom, FirstWordOnly, BothWords, Shr, Tied, ShowsTie, IsNextUp, KeepsAway, NoFalseTie, Keeps;
    var m := Shr(high, s);
    var n: nat := 128 + s;
    KeptBits(k, w, row, low, high, s);
    if q >= 0 {
      WholeTieShows(k, q, row, w, low, high, m, s);
    } else {
      KeptByNextUp(q, row.Whole(), w, m, n);
      if ShowsTie(low, high, m, s) {
        ShownIsTied(k, q, row, w, low, high, m, s);
      }
      if Tied(q, w, m, n) {
        TiedIsShown(k, q, row, w, low, high, s);
      }
    }
  }

  lemma WideUnit(m: nat, s: nat)
    ensures m * Pow(2, 128 + s) == ((m * Pow(2, s)) * WORD) * WORD
  {
    hide Pow;
    WordIsPow2();
    PowDoubles(2, 64, WORD);
    PowAdd(2, s, 128);
    MulAssoc(m, Pow(2, s), WORD * WORD);
  }

  lemma WholeTieShows(k: nat, q: int, row: Row, w: u64, low: u64, high: u64, m: nat, s: nat)
    requires row.Whole() * Bottom(q) == Top(q) && row.high % 2 == 0 && row.low == 0
    requires FirstWordOnly(k, w, row, low, high) || BothWords(w, row, low, high)
    ensures ShowsTie(low, high, m, s) <==> Tied(q, w, m, 128 + s)
  {
    hide Pow, Top, Bottom, LowBits;
    var (product, x) := (high * WORD + low, m * Pow(2, s));
    WideUnit(m, s);
    MulAssoc(w, row.high, WORD);
    assert product == w * row.high;
    EvenProduct(w, row.high);
    MulAssoc(w, row.Whole(), Bottom(q));
    MulOrder(product * WORD, (x * WORD) * WORD, Bottom(q));
    MulOrder((x * WORD) * WORD, product * WORD, Bottom(q));
    assert product == x * WORD <==> low == 0 && high == x;
  }

  lemma ShownIsTied(k: nat, q: int, row: Row, w: u64, low: u64, high: u64, m: nat, s: nat)
    requires IsRow(q, row) && FIRST_ROUNDED_UP <= q < 0 && w > 0 && s >= 9
    requires FirstWordOnly(k, w, row, low, high) || BothWords(w, row, low, high)
    requires Keeps(q, w, m, 128 + s) && ShowsTie(low, high, m, s)
    ensures Tied(q, w, m, 128 + s)
  {
    hide Pow, Top, Bottom, LowBits, IsNextUp;
    NotFirstWord(k, q, row, w, low, high, m, s);
    var b := Bottom(q);
    var x, y := NextUpTerms(q, row.Whole(), w, m, 128 + s);
    WideUnit(m, s);
    MulOrder(w * row.Whole(), m * Pow(2, 128 + s) + 2 * WORD, b);
    MulDistributes(m * Pow(2, 128 + s), 2 * WORD, b);
    MulAssoc(2, WORD, b);
    MulDistributes(y, 1, WORD * WORD);
    MultiplesOrder(x, y);
    MultiplesOrder(y, x);
  }

  lemma NotFirstWord(k: nat, q: int, row: Row, w: u64, low: u64, high: u64, m: nat, s: nat)
    requires NoFalseTie(row.high) && w > 0 && s >= 9 && ShowsTie(low, high, m, s)
    ensures !FirstWordOnly(k, w, row, low, high)
  {
    hide Pow, LowBits;
    SpanIsPow2();
    WordIsPow2();
    PowAdd(2, s - 9, 9);
    PowAdd(2, 64, 9);
    NineBits();
    MulAssoc(m, Pow(2, s - 9), 512);
    MulAssoc(m * Pow(2, s - 9), 512, WORD);
    assert !LooksTied(w, row.high, m * Pow(2, s - 9));
  }

  lemma TiedIsShown(k: nat, q: int, row: Row, w: u64, low: u64, high: u64, s: nat)
    requires IsRow(q, row) && FIRST_ROUNDED_UP <= q < 0 && w > 0 && s >= 9
    requires FirstWordOnly(k, w, row, low, high) || BothWords(w, row, low, high)
    requires Tied(q, w, Shr(high, s), 128 + s)
    ensures ShowsTie(low, high, Shr(high, s), s)
  {
    hide Pow, Top, Bottom, LowBits, IsNextUp, Shr;
    var (m, b) := (Shr(high, s), Bottom(q));
    var x := m * Pow(2, s);
    var _, _ := NextUpTerms(q, row.Whole(), w, m, 128 + s);
    WideUnit(m, s);
    MulDistributes((x * WORD) * WORD, w, b);
    MulOrder((x * WORD) * WORD, w * row.Whole(), b);
    MulOrder(w * row.Whole(), (x * WORD) * WORD + w, b);
    NoCarry(0, high, s, high + 1);
    MulDistributes(row.high * WORD, row.low, w);
    MulAssoc(w, row.high, WORD);
    MulOrder(1, row.low, w);
  }
}
