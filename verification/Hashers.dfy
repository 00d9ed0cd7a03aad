/** The hashers that come with the hash map, and the keys whose raw hash is a sentinel. */
module Hashers {
  import Wrappers
  import opened Arith
  import opened ProbeTable
  import opened HashRuns
  import opened HashSentinels
  import StringHash

  // ----- integers

  /** An integral key of at most 64 bits, signed or not. */
  type key64 = x: int | -0x8000_0000_0000_0000 <= x < WORD

  /** Integral keys: x + 2, in 64 bits. */
  function IntegralHash(x: key64): u64 {
    (x + 2) % WORD
  }

  lemma IntegralSentinels(x: key64)
    ensures IntegralHash(x) <= KILLED <==> x == -2 || x == -1 || x == WORD - 2 || x == WORD - 1
  {
    DivModUnique(x + 2, WORD, if x + 2 < 0 then -1 else if x + 2 < WORD then 0 else 1,
      if x + 2 < 0 then x + 2 + WORD else if x + 2 < WORD then x + 2 else x + 2 - WORD);
  }

  /** Integers have the same hash exactly if they are the same modulo 2^64. */
  lemma IntegersScatter(x: key64, y: key64)
    ensures IntegralHash(x) == IntegralHash(y) <==> (x - y) % WORD == 0
  {
    DivModDefinition(x + 2, WORD);
    DivModDefinition(y + 2, WORD);
    DivModDefinition(x - y, WORD);
  }

  function IntegralEnv<V>(default: V): Env<key64, V> {
    Env((x: key64) => IntegralHash(x), 0, default)
  }

  /** Keys -1 and -2 are lost when the table grows. */
  lemma MinusOneIsLost<V>(default: V, value: V, key: key64)
    requires key == -1 || key == -2
    ensures
      var env := IntegralEnv(default);
      && WellFormed(Cleared<key64, V>(), env.default)
      && Run(Cleared<key64, V>(), env, ThreeSteps(key, value)).1 == [Inserted(true), Done, Found(Wrappers.None)]
  {
    IntegralSentinels(key);
    KeyLost(IntegralEnv(default), key, value);
  }

  /** Over integers every run answers as the finite map does if and only if the keys do not include -1 or -2 (for
      unsigned keys, the two largest). */
  lemma IntegersAgree<V(!new)>(default: V, keys: iset<key64>)
    ensures (forall ops :: OverKeys(ops, keys) ==> Agrees(IntegralEnv(default), ops)) <==>
      -1 !in keys && -2 !in keys && WORD - 1 !in keys && WORD - 2 !in keys
  {
    hide Agrees, IntegralHash;
    var env := IntegralEnv(default);
    AgreesIffNoSentinel(env, keys);
    forall k: key64 ensures env.hash(k) <= KILLED <==> k == -2 || k == -1 || k == WORD - 2 || k == WORD - 1 {
      IntegralSentinels(k);
    }
  }

  // ----- pointers

  const GOLDEN: nat := 0x9E37_79B9_7F4A_7C15
  /** GOLDEN * INVERSE is 1 modulo 2^64. */
  const INVERSE: nat := 0xF1DE_83E1_9937_733D

  /** Pointers: shifted right by four bits, times the golden ratio. */
  function PointerHash(p: u64): u64 {
    ((p / 16) * GOLDEN) % WORD
  }

  lemma GoldenInverse()
    ensures GOLDEN * INVERSE == 1 + (GOLDEN * INVERSE / WORD) * WORD
  {
  }

  /** Multiplying by the inverse gives the shifted address back. */
  lemma Unscrambled(p: u64)
    ensures (PointerHash(p) * INVERSE) % WORD == p / 16
  {
    var x, k := p / 16, ((p / 16) * GOLDEN) / WORD;
    var r := PointerHash(p);
    DivModDefinition(x * GOLDEN, WORD);
    GoldenInverse();
    UnscrambledArithmetic(x, r, k, GOLDEN * INVERSE / WORD);
  }

  lemma UnscrambledArithmetic(x: nat, r: nat, k: nat, j: nat)
    requires x * GOLDEN == k * WORD + r && GOLDEN * INVERSE == 1 + j * WORD && r < WORD && x < WORD
    ensures (r * INVERSE) % WORD == x
  {
    assert x * (GOLDEN * INVERSE) == x + (x * j) * WORD by {
      MulDistributes(1, j * WORD, x);
      MulAssoc(x, j, WORD);
    }
    assert (k * WORD + r) * INVERSE == (k * INVERSE) * WORD + r * INVERSE by {
      MulDistributes(k * WORD, r, INVERSE);
      MulAssoc(k, WORD, INVERSE);
      MulAssoc(k, INVERSE, WORD);
    }
    MulAssoc(x, GOLDEN, INVERSE);
    MulDistributes(x * j, k * INVERSE, WORD);
    DivModUnique(r * INVERSE, WORD, x * j - k * INVERSE, x);
  }

  /** Only the null pointer's hash, and that of the fifteen addresses after it, is a sentinel. */
  lemma PointerSentinels(p: u64)
    ensures PointerHash(p) <= KILLED <==> p < 16
  {
    hide PointerHash;
    Unscrambled(p);
    NullHash(p);
  }

  lemma NullHash(p: u64)
    ensures p < 16 ==> PointerHash(p) == 0
  {
  }

  /** Addresses that differ in more than their low four bits have different hashes; the first is the golden ratio. */
  lemma PointersScatter(p: u64, q: u64)
    ensures PointerHash(p) == PointerHash(q) <==> p / 16 == q / 16
    ensures PointerHash(16) == 0x9E37_79B9_7F4A_7C15
  {
    assert p / 16 == q / 16 ==> PointerHash(p) == PointerHash(q);
    assert PointerHash(16) == GOLDEN;
    hide PointerHash;
    Unscrambled(p);
    Unscrambled(q);
  }

  /** Over pointers every run answers as the finite map does if and only if no key is null. */
  lemma PointersAgree<V(!new)>(default: V, keys: iset<u64>)
    ensures (forall ops :: OverKeys(ops, keys) ==> Agrees(Env((p: u64) => PointerHash(p), 0, default), ops)) <==>
      (forall p :: p in keys ==> p >= 16)
  {
    hide Agrees, PointerHash;
    var env := Env((p: u64) => PointerHash(p), 0, default);
    AgreesIffNoSentinel(env, keys);
    forall p: u64 ensures env.hash(p) <= KILLED <==> p < 16 {
      PointerSentinels(p);
    }
  }

  // ----- strings

  /** The hash of a string's characters and their terminator. */
  function StringKeyHash(s: seq<bv8>): u64 {
    StringHash.Remapped(StringHash.Fnv(StringHash.FNV_OFFSET_BASIS, StringHash.Text(s + [0]))) as int
  }

  method HashString(s: seq<bv8>) returns (h: u64)
    ensures h == StringKeyHash(s) > KILLED
  {
    hide StringHash.Fnv, StringHash.Text, StringHash.Remapped;
    StringsHaveNoSentinel(s);
    var r := StringHash.HashBlockz64(Wrappers.Some(s + [0]));
    h := r as int;
  }

  lemma StringsHaveNoSentinel(s: seq<bv8>)
    ensures StringKeyHash(s) > KILLED
  {
  }

  /** The keys of the empty string, "a" and "ab". */
  lemma StringKeys()
    ensures StringKeyHash([]) == 0xCBF2_9CE4_8422_2325
    ensures StringKeyHash([0x61]) == 0xAF63_DC4C_8601_EC8C
    ensures StringKeyHash([0x61, 0x62]) == 0xAF81_DC4C_8634_E68C
  {
    hide StringHash.Fnv;
    StringHash.PublishedValues();
    TextOf([]);
    TextOf([0x61]);
    TextOf([0x61, 0x62]);
  }

  lemma {:induction false} TextOf(s: seq<bv8>)
    requires 0 !in s
    ensures StringHash.Text(s + [0]) == s
  {
    if s != [] {
      TextOf(s[1..]);
      assert (s + [0])[1..] == s[1..] + [0];
    }
  }

  /** Over strings every run answers as the finite map does. */
  lemma StringsAgree<V>(default: V, ops: seq<Op<seq<bv8>, V>>)
    ensures Agrees(Env((s: seq<bv8>) => StringKeyHash(s), [], default), ops)
  {
    hide Agrees, StringKeyHash;
    var env := Env((s: seq<bv8>) => StringKeyHash(s), [], default);
    forall s: seq<bv8> ensures env.hash(s) > KILLED {
      StringsHaveNoSentinel(s);
    }
    NoSentinelAgrees(env, ops);
  }
}
