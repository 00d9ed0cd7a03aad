/** Powers, the 64-bit word, and the few facts about division that the other modules share. */
module Arith {
  const WORD: nat := 0x1_0000_0000_0000_0000

  const TOP_BIT: nat := 0x8000_0000_0000_0000

  type u64 = x: int | 0 <= x < 0x1_0000_0000_0000_0000

  function Pow(b: nat, e: nat): (r: nat)
    ensures b > 0 ==> r > 0
  {
    if e == 0 then 1 else b * Pow(b, e - 1)
  }

  function Min(a: int, b: int): int { if a < b then a else b }

  function Max(a: int, b: int): int { if a < b then b else a }

  lemma PowStep(b: nat, e: nat)
    ensures Pow(b, e + 1) == b * Pow(b, e)
  {
  }

  lemma MulPositive(a: int, b: int)
    requires a > 0 && b > 0
    ensures a * b > 0
  {
  }

  lemma MulAssoc(a: int, b: int, c: int)
    ensures (a * b) * c == a * (b * c)
  {
  }

  lemma MulInterchange(a: int, b: int, x: int, y: int)
    ensures (a * b) * (x * y) == (a * x) * (b * y)
  {
    MulAssoc(a, b, x * y);
    MulAssoc(b, x, y);
    MulAssoc(x, b, y);
    MulAssoc(a, x, b * y);
  }

  lemma MulDistributes(a: int, b: int, c: int)
    ensures (a + b) * c == a * c + b * c
    ensures (a - b) * c == a * c - b * c
  {
  }

  /** Multiplication by a non-negative factor keeps the order; by a positive one, the strict order too. */
  lemma MulOrder(a: int, b: int, c: int)
    requires c >= 0
    ensures a <= b ==> a * c <= b * c
    ensures c > 0 && a < b ==> a * c < b * c
    ensures c > 0 && a * c <= b * c ==> a <= b
    ensures c > 0 && a * c < b * c ==> a < b
    ensures c > 0 && a * c == b * c ==> a == b
  {
    MulDistributes(b, a, c);
    if c > 0 && a < b {
      MulPositive(b - a, c);
    } else if c > 0 && b < a {
      MulDistributes(a, b, c);
      MulPositive(a - b, c);
    }
  }

  lemma {:induction false} PowAdd(b: nat, i: nat, j: nat)
    ensures Pow(b, i + j) == Pow(b, i) * Pow(b, j)
  {
    if i > 0 {
      PowAdd(b, i - 1, j);
      MulAssoc(b, Pow(b, i - 1), Pow(b, j));
    }
  }

  lemma PowDoubles(b: nat, i: nat, p: nat)
    requires Pow(b, i) == p
    ensures Pow(b, 2 * i) == p * p
  {
    hide *;
    PowAdd(b, i, i);
  }

  lemma PowSub(b: nat, i: nat, j: nat)
    requires j <= i
    ensures Pow(b, i) == Pow(b, i - j) * Pow(b, j)
  {
    PowAdd(b, i - j, j);
  }

  lemma {:induction false} PowMonotone(b: nat, i: nat, j: nat)
    requires b > 0 && i <= j
    ensures Pow(b, i) <= Pow(b, j)
  {
    PowSub(b, j, i);
    MulOrder(1, Pow(b, j - i), Pow(b, i));
  }

  lemma {:induction false} PowStrict(b: nat, i: nat, j: nat)
    requires b > 1 && i < j
    ensures Pow(b, i) < Pow(b, j)
  {
    PowMonotone(b, i, j - 1);
    MulOrder(1, b, Pow(b, j - 1));
  }

  lemma {:induction false} PowProduct(a: nat, b: nat, e: nat)
    ensures Pow(a * b, e) == Pow(a, e) * Pow(b, e)
  {
    if e > 0 {
      PowProduct(a, b, e - 1);
      MulInterchange(a, b, Pow(a, e - 1), Pow(b, e - 1));
    }
  }

  lemma {:induction false} PowOfPow(b: nat, i: nat, j: nat)
    ensures Pow(Pow(b, i), j) == Pow(b, i * j)
  {
    if j > 0 {
      PowOfPow(b, i, j - 1);
      assert i * j == i + i * (j - 1);
      PowAdd(b, i, i * (j - 1));
    }
  }

  lemma {:induction false} PowBaseMonotone(a: nat, b: nat, e: nat)
    requires a <= b
    ensures Pow(a, e) <= Pow(b, e)
  {
    if e > 0 {
      PowBaseMonotone(a, b, e - 1);
      MulOrder(Pow(a, e - 1), Pow(b, e - 1), a);
      MulOrder(a, b, Pow(b, e - 1));
    }
  }

  lemma EvenProduct(a: int, b: int)
    requires b % 2 == 0
    ensures (a * b) % 2 == 0
  {
    var k := b / 2;
    MulAssoc(a, k, 2);
  }

  /** A quotient and remainder are determined by their defining equation. */
  lemma DivModUnique(n: int, d: int, q: int, r: int)
    requires d > 0 && n == q * d + r && 0 <= r < d
    ensures n / d == q && n % d == r
  {
    var q', r' := n / d, n % d;
    assert n == q' * d + r';
    MulDistributes(q, q', d);
    if q < q' {
      MulOrder(q + 1, q', d);
    } else if q' < q {
      MulOrder(q' + 1, q, d);
    }
  }

  lemma DivModDefinition(n: int, d: int)
    requires d > 0
    ensures n == (n / d) * d + n % d && 0 <= n % d < d
    ensures n >= 0 ==> n / d >= 0
  {
    if n >= 0 && n / d < 0 {
      MulOrder(n / d, -1, d);
    }
  }

  lemma WordIsPow2()
    ensures WORD == Pow(2, 64)
  {
    assert Pow(2, 4) == 16;
    PowDoubles(2, 4, 16);
    PowDoubles(2, 8, 0x100);
    PowDoubles(2, 16, 0x1_0000);
    PowDoubles(2, 32, 0x1_0000_0000);
  }
}
