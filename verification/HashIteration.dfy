/** Iterating over a hash map: every live entry once, also while entries are erased behind the iterator. */
module HashIteration {
  import opened Wrappers
  import opened Arith
  import opened ProbeTable
  import opened MapRefinement
  import opened HashRuns

  /** The first live slot from i on; the capacity if there is none. */
  function NextLive(h: seq<u64>, i: nat): (j: nat)
    requires i <= |h|
    ensures i <= j <= |h| && (j < |h| ==> h[j] > KILLED)
    ensures forall e :: i <= e < j ==> h[e] <= KILLED
    decreases |h| - i
  {
    if i == |h| || h[i] > KILLED then i else NextLive(h, i + 1)
  }

  /** The slots that a loop from slot i to the end visits. */
  function Visits(h: seq<u64>, i: nat): seq<nat>
    requires i <= |h|
    decreases |h| - i
  {
    var j := NextLive(h, i);
    if j == |h| then [] else [j] + Visits(h, j + 1)
  }

  /** They are the live slots, in order. */
  lemma {:induction false} VisitsLive(h: seq<u64>, i: nat)
    requires i <= |h|
    ensures forall j :: j in Visits(h, i) <==> i <= j < |h| && h[j] > KILLED
    ensures forall a, b :: 0 <= a < b < |Visits(h, i)| ==> Visits(h, i)[a] < Visits(h, i)[b]
    decreases |h| - i
  {
    var j := NextLive(h, i);
    if j < |h| {
      VisitsLive(h, j + 1);
      var rest := Visits(h, j + 1);
      assert forall b :: 0 <= b < |rest| ==> rest[b] in rest;
    }
  }

  lemma {:induction false} NoneLive(h: seq<u64>, i: nat, j: nat)
    requires i <= j <= |h| && forall e :: i <= e < j ==> h[e] <= KILLED
    ensures LiveCount(h, j) == LiveCount(h, i)
    decreases j - i
  {
    if i < j {
      LiveCountStep(h, i);
      NoneLive(h, i + 1, j);
    }
  }

  lemma {:induction false} VisitsCount(h: seq<u64>, i: nat)
    requires i <= |h|
    ensures |Visits(h, i)| == LiveCount(h, |h|) - LiveCount(h, i)
    decreases |h| - i
  {
    var j := NextLive(h, i);
    NoneLive(h, i, j);
    if j < |h| {
      LiveCountStep(h, j);
      VisitsCount(h, j + 1);
    }
  }

  /** The a-th slot visited holds the key. */
  ghost predicate VisitsKey<K, V>(t: Table<K, V>, v: seq<nat>, a: int, key: K)
    requires t.Aligned()
  {
    0 <= a < |v| && t.Live(v[a]) && t.keys[v[a]] == key
  }

  /** begin and ++ reach each entry of the map exactly once, size() times in all. */
  lemma IterationVisitsAll<K, V>(t: Table<K, V>, env: Env<K, V>, m: map<K, V>, v: seq<nat>)
    requires Refines(t, env, m) && v == Visits(t.hashes, 0)
    ensures t.Aligned() && |v| == t.size == |m|
    ensures forall a :: 0 <= a < |v| ==> t.Live(v[a]) && t.keys[v[a]] in m && t.values[v[a]] == m[t.keys[v[a]]]
    ensures forall k :: k in m ==> exists a :: VisitsKey(t, v, a, k)
    ensures forall a, b, k :: VisitsKey(t, v, a, k) && VisitsKey(t, v, b, k) ==> a == b
  {
    RefinesAligned(t, env, m);
    AllLive(t, env.default);
    VisitsLive(t.hashes, 0);
    VisitsCount(t.hashes, 0);
    LiveCountZero(t.hashes);
    hide Visits, WellFormed, LiveCount;
    forall a | 0 <= a < |v| ensures t.Live(v[a]) {
      assert v[a] in v;
    }
    forall k | k in m ensures exists a :: VisitsKey(t, v, a, k) {
      assert HasKey(t, k);
      var s: nat :| t.Live(s) && t.keys[s] == k;
      assert s in v;
      var a :| 0 <= a < |v| && v[a] == s;
      assert VisitsKey(t, v, a, k);
    }
    forall a, b, k | VisitsKey(t, v, a, k) && VisitsKey(t, v, b, k) ensures a == b {
      assert v[a] == v[b];
      assert !(a < b) && !(b < a);
    }
  }

  lemma LiveCountZero(h: seq<u64>)
    ensures LiveCount(h, 0) == 0
  {
  }

  // ----- erasing while iterating

  /** A loop from slot i on that erases the entries that satisfy p, and steps over the others. */
  ghost function Sweep<K, V>(t: Table<K, V>, env: Env<K, V>, p: (K, V) -> bool, i: nat): (t': Table<K, V>)
    requires t.Aligned() && i <= t.Cap()
    ensures t'.Aligned() && t'.Cap() == t.Cap()
    decreases t.Cap() - i
  {
    var j := NextLive(t.hashes, i);
    if j == t.Cap() then t
    else if p(t.keys[j], t.values[j]) then Sweep(EraseAt(t, env.keyDefault, env.default, j), env, p, j + 1)
    else Sweep(t, env, p, j + 1)
  }

  function Without<K, V>(m: map<K, V>, p: (K, V) -> bool): map<K, V> {
    map k | k in m && !p(k, m[k]) :: m[k]
  }

  /** The slots before i hold nothing that satisfies p. */
  ghost predicate SweptTo<K, V>(t: Table<K, V>, p: (K, V) -> bool, i: nat)
    requires t.Aligned()
  {
    forall j: nat :: j < i && t.Live(j) ==> !p(t.keys[j], t.values[j])
  }

  /** What is left is the map without the entries that satisfy p; each one erased has become a tombstone. */
  lemma {:induction false} SweepRefines<K, V>(t: Table<K, V>, env: Env<K, V>, p: (K, V) -> bool, i: nat, m: map<K, V>)
    requires Refines(t, env, m) && t.Aligned() && i <= t.Cap() && SweptTo(t, p, i)
    ensures
      var t' := Sweep(t, env, p, i);
      Refines(t', env, Without(m, p)) && t'.size + t'.tombstones == t.size + t.tombstones
    decreases t.Cap() - i
  {
    hide WellFormed, Chained, Represents, UniqueKeys, Without, SweptTo;
    var j := NextLive(t.hashes, i);
    if j == t.Cap() {
      SweptFurther(t, p, i, j);
      NothingLeft(t, p, m);
    } else if p(t.keys[j], t.values[j]) {
      var t' := EraseAt(t, env.keyDefault, env.default, j);
      EraseValid(t, env.keyDefault, env.default, env.hash, j);
      EraseRepresents(t, env.keyDefault, env.default, j, m);
      EntryOf(t, j, m);
      WithoutErased(m, p, t.keys[j]);
      SweptErased(t, env, p, i, j);
      SweepRefines(t', env, p, j + 1, m - {t.keys[j]});
    } else {
      SweptFurther(t, p, i, j + 1);
      SweepRefines(t, env, p, j + 1, m);
    }
  }

  lemma EntryOf<K, V>(t: Table<K, V>, j: nat, m: map<K, V>)
    requires t.Aligned() && t.Live(j) && Represents(t, m)
    ensures t.keys[j] in m && m[t.keys[j]] == t.values[j]
  {
  }

  lemma WithoutErased<K, V>(m: map<K, V>, p: (K, V) -> bool, key: K)
    requires key in m && p(key, m[key])
    ensures Without(m - {key}, p) == Without(m, p)
  {
  }

  lemma SweptFurther<K, V>(t: Table<K, V>, p: (K, V) -> bool, i: nat, j: nat)
    requires t.Aligned() && SweptTo(t, p, i)
    requires forall s: nat :: i <= s < j && t.Live(s) ==> !p(t.keys[s], t.values[s])
    ensures SweptTo(t, p, j)
  {
  }

  lemma SweptErased<K, V>(t: Table<K, V>, env: Env<K, V>, p: (K, V) -> bool, i: nat, j: nat)
    requires t.Aligned() && t.Live(j) && SweptTo(t, p, i) && forall s: nat :: i <= s < j ==> !t.Live(s)
    ensures
      var t' := EraseAt(t, env.keyDefault, env.default, j);
      t'.Aligned() && SweptTo(t', p, j + 1)
  {
    var t' := EraseAt(t, env.keyDefault, env.default, j);
    forall s: nat | s < j + 1 && t'.Live(s) ensures !p(t'.keys[s], t'.values[s]) {
      assert s != j && t.Live(s);
    }
  }

  lemma NothingLeft<K, V>(t: Table<K, V>, p: (K, V) -> bool, m: map<K, V>)
    requires t.Aligned() && SweptTo(t, p, t.Cap()) && Represents(t, m)
    ensures Without(m, p) == m
  {
    forall k | k in m ensures !p(k, m[k]) {
      assert HasKey(t, k);
      var j: nat :| t.Live(j) && t.keys[j] == k;
    }
  }

  /** Erasing the entry it points to does not change what a loop still visits: each original entry is seen once. */
  lemma EraseKeepsVisits<K, V>(t: Table<K, V>, env: Env<K, V>, j: nat)
    requires t.Aligned() && t.Live(j)
    ensures
      var t' := EraseAt(t, env.keyDefault, env.default, j);
      && Visits(t'.hashes, j + 1) == Visits(t.hashes, j + 1)
      && forall s :: j < s < t.Cap() ==>
        t'.hashes[s] == t.hashes[s] && t'.keys[s] == t.keys[s] && t'.values[s] == t.values[s]
  {
    SameVisits(t.hashes, t.hashes[j := KILLED], j + 1);
  }

  lemma {:induction false} SameVisits(h: seq<u64>, h': seq<u64>, i: nat)
    requires |h| == |h'| && i <= |h| && forall s :: i <= s < |h| ==> h'[s] == h[s]
    ensures Visits(h, i) == Visits(h', i) && NextLive(h, i) == NextLive(h', i)
    decreases |h| - i
  {
    if i < |h| {
      SameVisits(h, h', i + 1);
    }
  }
}
