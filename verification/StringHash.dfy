/** hash_blockz64: the FNV hash of a null-terminated string, two bytes at a time. */
module StringHash {
  import opened Wrappers

  const FNV_OFFSET_BASIS: bv64 := 14695981039346656037
  const HASH_REMAP: bv64 := 1099511628211
  const HASH_KILLED: bv64 := 1

  /** The characters before the terminator. */
  function Text(block: seq<bv8>): (t: seq<bv8>)
    ensures |t| <= |block| && t == block[..|t|] && 0 !in t
    ensures 0 in block ==> |t| < |block| && block[|t|] == 0
  {
    if block == [] || block[0] == 0 then [] else
      var t := Text(block[1..]);
      assert block[..|t| + 1] == [block[0]] + block[1..][..|t|];
      [block[0]] + t
  }

  function Pair(low: bv8, high: bv8): bv64 {
    (low as bv64) | ((high as bv64) << 8)
  }

  /** Multiplication by the FNV prime. */
  function TimesPrime(x: bv64): bv64 {
    x * 1099511628211
  }

  function Mix(h: bv64, v: bv64): bv64 {
    TimesPrime(h ^ v)
  }

  /** The hash of a string: pairs of characters, and a last one alone. */
  function Fnv(h: bv64, t: seq<bv8>): bv64
    decreases |t|
  {
    if t == [] then h
    else if |t| == 1 then Mix(h, t[0] as bv64)
    else Fnv(Mix(h, Pair(t[0], t[1])), t[2..])
  }

  function Remapped(h: bv64): (r: bv64)
    ensures r > HASH_KILLED && (h > HASH_KILLED ==> r == h)
  {
    if h <= HASH_KILLED then HASH_REMAP else h
  }

  lemma PairIsOne(low: bv8, high: bv8)
    ensures Pair(low, high) < 0x100 <==> high == 0
    ensures high == 0 ==> Pair(low, high) == low as bv64
  {
  }

  lemma TextFrom(block: seq<bv8>, p: nat)
    requires p < |block|
    ensures block[p] == 0 ==> Text(block[p..]) == []
    ensures block[p] != 0 ==> Text(block[p..]) == [block[p]] + Text(block[p + 1..])
  {
    assert block[p..][1..] == block[p + 1..];
  }

  /** What one turn of the loop does. */
  lemma Turn(h: bv64, block: seq<bv8>, p: nat)
    requires p < |block| && 0 in block[p..]
    ensures block[p] == 0 ==> Fnv(h, Text(block[p..])) == h
    ensures block[p] != 0 ==> p + 1 < |block|
    ensures block[p] != 0 && Pair(block[p], block[p + 1]) < 0x100 ==>
      Fnv(h, Text(block[p..])) == Mix(h, Pair(block[p], block[p + 1]))
    ensures block[p] != 0 && Pair(block[p], block[p + 1]) >= 0x100 ==>
      && p + 2 < |block| && 0 in block[p + 2..]
      && Fnv(h, Text(block[p..])) == Fnv(Mix(h, Pair(block[p], block[p + 1])), Text(block[p + 2..]))
  {
    hide Mix, Pair;
    TextFrom(block, p);
    if block[p] != 0 {
      assert block[p..] == [block[p]] + block[p + 1..];
      TextFrom(block, p + 1);
      PairIsOne(block[p], block[p + 1]);
      if block[p + 1] != 0 {
        assert block[p + 1..] == [block[p + 1]] + block[p + 2..];
        TwoMore(h, block[p], block[p + 1], Text(block[p + 2..]));
      }
    }
  }

  lemma TwoMore(h: bv64, a: bv8, b: bv8, t: seq<bv8>)
    ensures Fnv(h, [a] + ([b] + t)) == Fnv(Mix(h, Pair(a, b)), t)
  {
    hide Mix, Pair;
    assert ([a] + ([b] + t))[2..] == t;
  }

  /** The hash is a function of the string alone, not of what follows its terminator, and never a sentinel. There may
      be no string at all. */
  method HashBlockz64(input: Option<seq<bv8>>) returns (r: bv64)
    requires input.Some? ==> 0 in input.value
    ensures r > HASH_KILLED
    ensures input.None? ==> r == FNV_OFFSET_BASIS
    ensures input.Some? ==> r == Remapped(Fnv(FNV_OFFSET_BASIS, Text(input.value)))
  {
    hide Mix, Pair, Fnv, Text;
    if input.None? { return FNV_OFFSET_BASIS; }
    var block := input.value;
    var h, p := FNV_OFFSET_BASIS, 0;
    assert block[0..] == block;
    while true
      invariant p < |block| && 0 in block[p..]
      invariant Fnv(h, Text(block[p..])) == Fnv(FNV_OFFSET_BASIS, Text(block))
      decreases |block| - p
    {
      Turn(h, block, p);
      if block[p] == 0 { break; }
      var v := Pair(block[p], block[p + 1]);
      h := Mix(h, v);
      if v < 0x100 { return Remapped(h); }
      p := p + 2;
    }
    r := Remapped(h);
  }

  // ----- what the hash tells apart

  /** The prime has an inverse modulo 2^64. */
  function Undone(x: bv64): bv64 {
    x * 0xCE96_5057_AFF6_957B
  }

  lemma PrimeInverse(x: bv64)
    ensures (x * 1099511628211) * 0xCE96_5057_AFF6_957B == x
  {
  }

  lemma TimesInverse(x: bv64)
    ensures Undone(TimesPrime(x)) == x
  {
    var y := x * 1099511628211;
    assert TimesPrime(x) == y;
    hide TimesPrime;
    assert Undone(y) == x by { PrimeInverse(x); }
  }

  /** So a turn of the loop loses nothing. */
  lemma MixUndone(h: bv64, v: bv64)
    ensures Undone(Mix(h, v)) == h ^ v
  {
    hide Undone, TimesPrime;
    TimesInverse(h ^ v);
  }

  lemma XorDiffers(h: bv64, h': bv64, v: bv64, v': bv64)
    ensures h != h' ==> h ^ v != h' ^ v
    ensures v != v' ==> h ^ v != h ^ v'
  {
  }

  /** Two different states stay different over the same characters; two different pairs make one state different. */
  lemma MixDiffers(h: bv64, h': bv64, v: bv64, v': bv64)
    ensures h != h' ==> Mix(h, v) != Mix(h', v)
    ensures v != v' ==> Mix(h, v) != Mix(h, v')
  {
    hide Mix, Undone;
    MixUndone(h, v);
    MixUndone(h', v);
    MixUndone(h, v');
    XorDiffers(h, h', v, v');
  }

  lemma {:induction false} StatesStayApart(h: bv64, h': bv64, t: seq<bv8>)
    requires h != h'
    ensures Fnv(h, t) != Fnv(h', t)
    decreases |t|
  {
    hide Mix, Pair;
    if |t| == 1 {
      MixDiffers(h, h', t[0] as bv64, t[0] as bv64);
    } else if |t| > 1 {
      var v := Pair(t[0], t[1]);
      MixDiffers(h, h', v, v);
      StatesStayApart(Mix(h, v), Mix(h', v), t[2..]);
    }
  }

  lemma PairDiffers(a: bv8, b: bv8, c: bv8, d: bv8)
    ensures a != c || b != d ==> Pair(a, b) != Pair(c, d)
    ensures a != c ==> (a as bv64) != (c as bv64)
  {
  }

  /** Two texts of equal length that differ in one of their pairs only have different hashes. */
  lemma {:induction false} OnePairTellsApart(h: bv64, t: seq<bv8>, u: seq<bv8>, p: nat)
    requires |t| == |u| && p % 2 == 0 && p < |t| && t[p..][..Two(|t| - p)] != u[p..][..Two(|t| - p)]
    requires t[..p] == u[..p] && t[p + Two(|t| - p)..] == u[p + Two(|t| - p)..]
    ensures Fnv(h, t) != Fnv(h, u)
    decreases |t|
  {
    hide Mix, Pair;
    if p == 0 {
      FirstPair(h, t, u);
    } else {
      assert t[..p][0] == u[..p][0] && t[..p][1] == u[..p][1];
      var (t', u') := (t[2..], u[2..]);
      assert t'[..p - 2] == t[..p][2..] && u'[..p - 2] == u[..p][2..];
      assert t'[p - 2..] == t[p..] && u'[p - 2..] == u[p..];
      OnePairTellsApart(Mix(h, Pair(t[0], t[1])), t', u', p - 2);
    }
  }

  function Two(n: int): nat
    requires n > 0
  {
    if n == 1 then 1 else 2
  }

  lemma FirstPair(h: bv64, t: seq<bv8>, u: seq<bv8>)
    requires |t| == |u| > 0 && t[..Two(|t|)] != u[..Two(|t|)] && t[Two(|t|)..] == u[Two(|t|)..]
    ensures Fnv(h, t) != Fnv(h, u)
  {
    hide Mix, Pair;
    if |t| == 1 {
      PairDiffers(t[0], 0, u[0], 0);
      MixDiffers(h, h, t[0] as bv64, u[0] as bv64);
    } else {
      PairDiffers(t[0], t[1], u[0], u[1]);
      MixDiffers(h, h, Pair(t[0], t[1]), Pair(u[0], u[1]));
      StatesStayApart(Mix(h, Pair(t[0], t[1])), Mix(h, Pair(u[0], u[1])), t[2..]);
    }
  }

  /** The hashes of the empty string, of "a", "ab" and "abc"; and what replaces a sentinel. */
  lemma PublishedValues()
    ensures FNV_OFFSET_BASIS == 0xCBF2_9CE4_8422_2325
    ensures Fnv(FNV_OFFSET_BASIS, []) == 0xCBF2_9CE4_8422_2325
    ensures Fnv(FNV_OFFSET_BASIS, [0x61]) == 0xAF63_DC4C_8601_EC8C
    ensures Fnv(FNV_OFFSET_BASIS, [0x61, 0x62]) == 0xAF81_DC4C_8634_E68C
    ensures Fnv(FNV_OFFSET_BASIS, [0x61, 0x62, 0x63]) == 0x6E90_4508_0BE4_681D
    ensures Remapped(0) == Remapped(1) == 1099511628211
  {
  }
}
