/** The table as a finite map: what each operation does to the map that the live slots denote. */
module MapRefinement {
  import opened Wrappers
  import opened Arith
  import opened ProbeTable

  /** The first i probed slots are all in use. */
  ghost predicate PathClear(h: seq<u64>, start: nat, i: nat) {
    i <= |h| && forall e: nat :: e < i ==> h[Slot(|h|, start, e)] != EMPTY
  }

  /** Probing from `start` gets to s before it gets to an EMPTY slot. */
  ghost predicate Reachable(h: seq<u64>, start: nat, s: nat) {
    exists i: nat :: i < |h| && Slot(|h|, start, i) == s && PathClear(h, start, i)
  }

  /** Every live slot stores its key's hash, and is reachable from it. */
  ghost predicate Chained<K, V>(t: Table<K, V>, hash: K -> u64)
    requires t.Aligned()
  {
    forall j: nat :: t.Live(j) ==> InChain(t, hash, j)
  }

  ghost predicate InChain<K, V>(t: Table<K, V>, hash: K -> u64, j: nat)
    requires t.Aligned() && t.Live(j)
  {
    t.hashes[j] == ToHashKey(hash(t.keys[j])) && Reachable(t.hashes, Start(t.Cap(), t.hashes[j]), j)
  }

  ghost predicate UniqueKeys<K, V>(t: Table<K, V>)
    requires t.Aligned()
  {
    forall i, j :: t.Live(i) && t.Live(j) && t.keys[i] == t.keys[j] ==> i == j
  }

  ghost predicate HasKey<K, V>(t: Table<K, V>, key: K)
    requires t.Aligned()
  {
    exists j :: t.Live(j) && t.keys[j] == key
  }

  ghost predicate Valid<K, V>(t: Table<K, V>, default: V, hash: K -> u64) {
    WellFormed(t, default) && Chained(t, hash) && UniqueKeys(t)
  }

  /** The live slots are the entries of m, each in one slot. */
  ghost predicate Represents<K, V>(t: Table<K, V>, m: map<K, V>)
    requires t.Aligned()
  {
    && (forall j :: t.Live(j) ==> t.keys[j] in m && t.values[j] == m[t.keys[j]])
    && (forall k :: k in m ==> HasKey(t, k))
    && UniqueKeys(t) && |m| == t.size
  }

  /** A table stands for only one map. */
  lemma RepresentsOne<K, V>(t: Table<K, V>, m: map<K, V>, m': map<K, V>)
    requires t.Aligned() && Represents(t, m) && Represents(t, m')
    ensures m == m'
  {
    assert forall k :: k in m ==> HasKey(t, k) && k in m' && m[k] == m'[k];
    assert forall k :: k in m' ==> HasKey(t, k) && k in m;
  }

  // ----- find_index

  /** For a key whose raw hash is not a sentinel, find_index finds the key's slot exactly if it has one. */
  lemma FindCorrect<K, V>(t: Table<K, V>, default: V, hash: K -> u64, key: K)
    requires Valid(t, default, hash) && hash(key) > KILLED
    ensures
      var r := Find(t, default, key, hash(key));
      && (r.Some? <==> HasKey(t, key))
      && (r.Some? ==> t.Live(r.value) && t.keys[r.value] == key)
  {
    if t.Cap() > 0 {
      ProbeEnds(t, default, Start(t.Cap(), hash(key)));
      StopFindsKey(t, hash, key);
    }
  }

  lemma StopFindsKey<K, V>(t: Table<K, V>, hash: K -> u64, key: K)
    requires t.Aligned() && t.Cap() > 0 && Chained(t, hash) && hash(key) > KILLED
    requires EmptyAhead(t.hashes, Start(t.Cap(), hash(key)), 0)
    ensures
      var start := Start(t.Cap(), hash(key));
      var s := Slot(t.Cap(), start, StopAt(t, key, hash(key), start, 0));
      t.hashes[s] == EMPTY <==> !HasKey(t, key)
  {
    var start := Start(t.Cap(), hash(key));
    var j := StopAt(t, key, hash(key), start, 0);
    var s := Slot(t.Cap(), start, j);
    if t.hashes[s] != EMPTY {
      assert t.Live(s) && t.keys[s] == key;
    }
    forall l: nat | t.Live(l) && t.keys[l] == key ensures t.hashes[s] != EMPTY {
      StopsNoLater(t, hash, key, l);
    }
  }

  /** A live slot with the key is no further along the probe than the place where it stops. */
  lemma StopsNoLater<K, V>(t: Table<K, V>, hash: K -> u64, key: K, l: nat)
    requires t.Aligned() && t.Cap() > 0 && Chained(t, hash) && hash(key) > KILLED && t.Live(l) && t.keys[l] == key
    requires EmptyAhead(t.hashes, Start(t.Cap(), hash(key)), 0)
    ensures
      var start := Start(t.Cap(), hash(key));
      t.hashes[Slot(t.Cap(), start, StopAt(t, key, hash(key), start, 0))] != EMPTY
  {
    var start := Start(t.Cap(), hash(key));
    assert InChain(t, hash, l);
    var i: nat :| i < t.Cap() && Slot(t.Cap(), start, i) == l && PathClear(t.hashes, start, i);
    assert Stops(t, key, hash(key), l);
    assert StopAt(t, key, hash(key), start, 0) <= i;
  }

  // ----- reserve_slot

  lemma ReachableStays(h: seq<u64>, h': seq<u64>, start: nat, s: nat)
    requires |h| == |h'| && Reachable(h, start, s)
    requires forall j :: 0 <= j < |h| && h[j] != EMPTY ==> h'[j] != EMPTY
    ensures Reachable(h', start, s)
  {
    var i: nat :| i < |h| && Slot(|h|, start, i) == s && PathClear(h, start, i);
    assert PathClear(h', start, i);
  }

  lemma ChainedStays<K, V>(t: Table<K, V>, t': Table<K, V>, hash: K -> u64)
    requires t.Aligned() && t'.Aligned() && t.Cap() == t'.Cap() && Chained(t, hash)
    requires forall j :: 0 <= j < t.Cap() && t.hashes[j] != EMPTY ==> t'.hashes[j] != EMPTY
    ensures forall j: nat :: t'.Live(j) && t.Live(j) && t'.hashes[j] == t.hashes[j] && t'.keys[j] == t.keys[j] ==>
      InChain(t', hash, j)
  {
    forall j: nat | t'.Live(j) && t.Live(j) && t'.hashes[j] == t.hashes[j] && t'.keys[j] == t.keys[j]
      ensures InChain(t', hash, j)
    {
      assert InChain(t, hash, j);
      ReachableStays(t.hashes, t'.hashes, Start(t.Cap(), t.hashes[j]), j);
    }
  }

  /** The probe of an insertion: an absent key gets a slot of its own, and no other slot changes. */
  lemma PutKeyValid<K, V>(t: Table<K, V>, default: V, hash: K -> u64, key: K)
    requires Valid(t, default, hash) && HasRoom(t) && hash(key) > KILLED
    ensures
      var r := PutKey(t, default, key, hash(key));
      && r.table.Aligned() && Valid(r.table, default, hash)
      && r.table.Live(r.index) && r.table.keys[r.index] == key
      && (r.inserted <==> !HasKey(t, key))
      && (r.inserted ==> r.table.values[r.index] == default)
  {
    var r := PutKey(t, default, key, hash(key));
    var start := Start(t.Cap(), hash(key));
    ProbeEnds(t, default, start);
    StopFindsKey(t, hash, key);
    PutKeyWellFormed(t, default, key, hash(key));
    if r.inserted {
      NewSlotReachable(t, default, key, hash(key));
      ChainedStays(t, r.table, hash);
      assert Chained(r.table, hash);
      assert UniqueKeys(r.table);
    }
  }

  lemma NewSlotReachable<K, V>(t: Table<K, V>, default: V, key: K, raw: u64)
    requires WellFormed(t, default) && t.Cap() > 0 && raw > KILLED && PutKey(t, default, key, raw).inserted
    ensures
      var r := PutKey(t, default, key, raw);
      Reachable(r.table.hashes, Start(t.Cap(), raw), r.index)
  {
    var r := PutKey(t, default, key, raw);
    var start := Start(t.Cap(), raw);
    ProbeEnds(t, default, start);
    var j := StopAt(t, key, raw, start, 0);
    var f := FirstKilled(t.hashes, start, 0, j);
    forall e: nat | e < f ensures r.table.hashes[Slot(t.Cap(), start, e)] != EMPTY {
      assert !Stops(t, key, raw, Slot(t.Cap(), start, e));
    }
    assert PathClear(r.table.hashes, start, f);
  }

  /** insert, operator[] and try_emplace: the new entry's value is written into the slot reserved. */
  function WriteValue<K, V>(t: Table<K, V>, s: nat, value: V): Table<K, V>
    requires t.Aligned() && s < t.Cap()
  {
    t.(values := t.values[s := value])
  }

  /** t' is t with one more entry, in slot s. */
  ghost predicate Adds<K, V>(t: Table<K, V>, t': Table<K, V>, s: nat, key: K, value: V)
    requires t.Aligned() && t'.Aligned()
  {
    && t.Cap() == t'.Cap() && !t.Live(s) && t'.Live(s) && t'.keys[s] == key && t'.values[s] == value
    && t'.size == t.size + 1
    && forall j :: 0 <= j < t.Cap() && j != s ==>
      t'.hashes[j] == t.hashes[j] && t'.keys[j] == t.keys[j] && t'.values[j] == t.values[j]
  }

  lemma AddRepresents<K, V>(t: Table<K, V>, t': Table<K, V>, s: nat, key: K, value: V, m: map<K, V>)
    requires t.Aligned() && t'.Aligned() && Represents(t, m) && Adds(t, t', s, key, value) && key !in m
    ensures Represents(t', m[key := value])
  {
    var m' := m[key := value];
    forall j | t'.Live(j) ensures t'.keys[j] in m' && t'.values[j] == m'[t'.keys[j]] {
      if j != s { assert t.Live(j); }
    }
    forall k | k in m' ensures HasKey(t', k) {
      if k == key {
        assert t'.Live(s) && t'.keys[s] == k;
      } else {
        assert HasKey(t, k);
        var j :| t.Live(j) && t.keys[j] == k;
        assert t'.Live(j) && t'.keys[j] == k;
      }
    }
    assert UniqueKeys(t');
  }

  lemma PutRepresents<K, V>(t: Table<K, V>, default: V, hash: K -> u64, key: K, value: V, m: map<K, V>)
    requires Valid(t, default, hash) && HasRoom(t) && hash(key) > KILLED && Represents(t, m)
    ensures
      var r := PutKey(t, default, key, hash(key));
      && r.table.Aligned() && r.index < r.table.Cap() && (r.inserted <==> key !in m)
      && (if r.inserted then Represents(WriteValue(r.table, r.index, value), m[key := value])
          else Represents(r.table, m) && r.table.values[r.index] == m[key])
  {
    PutKeyValid(t, default, hash, key);
    PutKeyWellFormed(t, default, key, hash(key));
    var r := PutKey(t, default, key, hash(key));
    assert HasKey(t, key) <==> key in m by {
      assert key in m ==> HasKey(t, key);
    }
    if r.inserted {
      hide Represents, WellFormed, Chained;
      AddRepresents(t, WriteValue(r.table, r.index, value), r.index, key, value, m);
    }
  }

  lemma WriteValid<K, V>(t: Table<K, V>, default: V, hash: K -> u64, s: nat, value: V)
    requires Valid(t, default, hash) && t.Live(s)
    ensures Valid(WriteValue(t, s, value), default, hash)
  {
    var t' := WriteValue(t, s, value);
    ChainedStays(t, t', hash);
    assert Chained(t', hash);
  }

  // ----- erase

  lemma EraseValid<K, V>(t: Table<K, V>, keyDefault: K, default: V, hash: K -> u64, s: nat)
    requires Valid(t, default, hash) && t.Live(s)
    ensures Valid(EraseAt(t, keyDefault, default, s), default, hash)
  {
    var t' := EraseAt(t, keyDefault, default, s);
    EraseWellFormed(t, keyDefault, default, s);
    ChainedStays(t, t', hash);
    hide WellFormed;
    assert Chained(t', hash);
  }

  lemma EraseRepresents<K, V>(t: Table<K, V>, keyDefault: K, default: V, s: nat, m: map<K, V>)
    requires t.Aligned() && t.Live(s) && Represents(t, m)
    ensures
      var t' := EraseAt(t, keyDefault, default, s);
      t'.Aligned() && t.keys[s] in m && Represents(t', m - {t.keys[s]})
  {
    var t' := EraseAt(t, keyDefault, default, s);
    var key := t.keys[s];
    CardinalityMinus(m, key);
    var m' := m - {key};
    forall j | t'.Live(j) ensures t'.keys[j] in m' && t'.values[j] == m'[t'.keys[j]] {
      assert t.Live(j) && j != s;
    }
    forall k | k in m' ensures HasKey(t', k) {
      assert HasKey(t, k);
      var j :| t.Live(j) && t.keys[j] == k;
      assert t'.Live(j) && t'.keys[j] == k;
    }
  }

  lemma CardinalityMinus<K, V>(m: map<K, V>, key: K)
    requires key in m
    ensures (m - {key}).Keys == m.Keys - {key} && |m - {key}| == |m| - 1
  {
    assert |(m - {key}).Keys| == |m - {key}|;
    assert |m.Keys| == |m|;
  }

  lemma ClearedRepresents<K, V>(default: V, hash: K -> u64)
    ensures Valid(Cleared<K, V>(), default, hash) && Represents(Cleared<K, V>(), map[])
  {
    ClearedWellFormed<K, V>(default);
  }

  // ----- rehash_into

  ghost predicate SameEntry<K, V>(t: Table<K, V>, j: nat, p: Table<K, V>, s: nat)
    requires t.Aligned() && p.Aligned() && t.Live(j) && p.Live(s)
  {
    t.hashes[j] == p.hashes[s] && t.keys[j] == p.keys[s] && t.values[j] == p.values[s]
  }

  ghost predicate Copied<K, V>(t: Table<K, V>, j: nat, p: Table<K, V>)
    requires t.Aligned() && p.Aligned() && t.Live(j)
  {
    exists s: nat :: p.Live(s) && SameEntry(t, j, p, s)
  }

  ghost predicate CameFrom<K, V>(t: Table<K, V>, i: nat, p: Table<K, V>, s: nat)
    requires t.Aligned() && p.Aligned() && p.Live(s)
  {
    exists j: nat :: j < i && t.Live(j) && SameEntry(t, j, p, s)
  }

  /** p holds exactly the live entries among the first i slots of t, each where its stored hash leads. */
  ghost predicate Copies<K, V>(t: Table<K, V>, i: nat, p: Table<K, V>)
    requires t.Aligned() && p.Aligned()
  {
    && (forall j: nat :: j < i && t.Live(j) ==> Copied(t, j, p))
    && (forall s: nat :: p.Live(s) ==> CameFrom(t, i, p, s))
    && (forall s: nat :: p.Live(s) ==> Reachable(p.hashes, Start(p.Cap(), p.hashes[s]), s))
  }

  lemma {:induction false} RehashCopies<K, V>(t: Table<K, V>, cap: nat, keyDefault: K, default: V, i: nat)
    requires t.Aligned() && i <= t.Cap() && LiveCount(t.hashes, t.Cap()) < cap && UniqueKeys(t)
    ensures
      var p := Rehashed(t, cap, keyDefault, default, i);
      p.Aligned() && Copies(t, i, p) && UniqueKeys(p)
  {
    hide Copies, UniqueKeys, Place, EmptyAhead, LiveCount;
    if i == 0 {
      EmptyCopies(t, cap, keyDefault, default);
    } else {
      RehashCopies(t, cap, keyDefault, default, i - 1);
      var p := Rehashed(t, cap, keyDefault, default, i - 1);
      if t.hashes[i - 1] > KILLED {
        SomeEmptyAhead(p.hashes, Start(cap, t.hashes[i - 1]));
        PlaceCopies(t, p, i - 1);
      } else {
        SkipCopies(t, p, i - 1);
      }
    }
  }

  lemma EmptyCopies<K, V>(t: Table<K, V>, cap: nat, keyDefault: K, default: V)
    requires t.Aligned()
    ensures Copies(t, 0, EmptyTable(cap, keyDefault, default)) && UniqueKeys(EmptyTable(cap, keyDefault, default))
  {
  }

  lemma SkipCopies<K, V>(t: Table<K, V>, p: Table<K, V>, i: nat)
    requires t.Aligned() && p.Aligned() && i < t.Cap() && !t.Live(i) && Copies(t, i, p)
    ensures Copies(t, i + 1, p)
  {
    forall s: nat | p.Live(s) ensures CameFrom(t, i + 1, p, s) {
      assert CameFrom(t, i, p, s);
    }
  }

  lemma PlaceCopies<K, V>(t: Table<K, V>, p: Table<K, V>, i: nat)
    requires t.Aligned() && UniqueKeys(t) && t.Live(i)
    requires p.Aligned() && p.Cap() > 0 && Copies(t, i, p) && UniqueKeys(p)
    requires EmptyAhead(p.hashes, Start(p.Cap(), t.hashes[i]), 0)
    ensures
      var p' := Place(p, t.hashes[i], t.keys[i], t.values[i]);
      p'.Aligned() && Copies(t, i + 1, p') && UniqueKeys(p')
  {
    var start := Start(p.Cap(), t.hashes[i]);
    var e := FirstEmpty(p.hashes, start, 0);
    var slot := Slot(p.Cap(), start, e);
    var p' := Place(p, t.hashes[i], t.keys[i], t.values[i]);
    forall j: nat | j < i + 1 && t.Live(j) ensures Copied(t, j, p') {
      if j == i {
        assert SameEntry(t, j, p', slot);
      } else {
        assert Copied(t, j, p);
        var s: nat :| p.Live(s) && SameEntry(t, j, p, s);
        assert p'.Live(s) && SameEntry(t, j, p', s);
      }
    }
    forall s: nat | p'.Live(s)
      ensures CameFrom(t, i + 1, p', s) && Reachable(p'.hashes, Start(p'.Cap(), p'.hashes[s]), s)
    {
      if s == slot {
        assert SameEntry(t, i, p', s);
        assert PathClear(p'.hashes, start, e);
      } else {
        assert p.Live(s) && CameFrom(t, i, p, s);
        var j: nat :| j < i && t.Live(j) && SameEntry(t, j, p, s);
        assert SameEntry(t, j, p', s);
        ReachableStays(p.hashes, p'.hashes, Start(p.Cap(), p.hashes[s]), s);
      }
    }
    hide Copies, FirstEmpty, EmptyAhead;
    PlaceUnique(t, p, i, p', slot);
  }

  lemma PlaceUnique<K, V>(t: Table<K, V>, p: Table<K, V>, i: nat, p': Table<K, V>, slot: nat)
    requires t.Aligned() && UniqueKeys(t) && t.Live(i) && p.Aligned() && Copies(t, i, p) && UniqueKeys(p)
    requires p'.Aligned() && p'.Cap() == p.Cap() && slot < p.Cap() && p'.keys[slot] == t.keys[i]
    requires forall s: nat | s < p.Cap() && s != slot :: p'.hashes[s] == p.hashes[s] && p'.keys[s] == p.keys[s]
    ensures UniqueKeys(p')
  {
    forall a, b | p'.Live(a) && p'.Live(b) && p'.keys[a] == p'.keys[b] ensures a == b {
      if a == slot && b != slot { NotYetThere(t, p, i, b); }
      if b == slot && a != slot { NotYetThere(t, p, i, a); }
    }
  }

  lemma NotYetThere<K, V>(t: Table<K, V>, p: Table<K, V>, i: nat, s: nat)
    requires t.Aligned() && UniqueKeys(t) && t.Live(i) && p.Aligned() && Copies(t, i, p) && p.Live(s)
    ensures p.keys[s] != t.keys[i]
  {
    assert CameFrom(t, i, p, s);
  }

  /** Rehashing moves the entries and changes nothing else. */
  lemma RehashRepresents<K, V>(t: Table<K, V>, cap: nat, keyDefault: K, default: V, hash: K -> u64, m: map<K, V>)
    requires Valid(t, default, hash) && IsCapacity(cap) && t.size < cap && 2 * t.size <= cap && Represents(t, m)
    ensures
      var p := RehashInto(t, cap, keyDefault, default);
      Valid(p, default, hash) && Represents(p, m)
  {
    AllLive(t, default);
    RehashCopies(t, cap, keyDefault, default, t.Cap());
    var p := RehashInto(t, cap, keyDefault, default);
    forall s: nat | p.Live(s)
      ensures p.keys[s] in m && p.values[s] == m[p.keys[s]] && InChain(p, hash, s)
    {
      assert CameFrom(t, t.Cap(), p, s);
      var j: nat :| j < t.Cap() && t.Live(j) && SameEntry(t, j, p, s);
      assert InChain(t, hash, j);
    }
    forall k | k in m ensures HasKey(p, k) {
      assert HasKey(t, k);
      var j: nat :| t.Live(j) && t.keys[j] == k;
      assert Copied(t, j, p);
      var s: nat :| p.Live(s) && SameEntry(t, j, p, s);
      assert p.keys[s] == k;
    }
  }

  lemma MakeRoomRepresents<K, V>(t: Table<K, V>, keyDefault: K, default: V, hash: K -> u64, m: map<K, V>)
    requires Valid(t, default, hash) && Represents(t, m)
    ensures
      var p := MakeRoom(t, keyDefault, default);
      Valid(p, default, hash) && Represents(p, m)
  {
    GrownIsCapacity(t.Cap());
    if MustGrow(t) || MustClean(t) {
      RehashRepresents(t, RoomCapacity(t), keyDefault, default, hash, m);
    }
  }

  lemma ReserveForRepresents<K, V>(t: Table<K, V>, keyDefault: K, default: V, hash: K -> u64, n: nat, m: map<K, V>)
    requires Valid(t, default, hash) && Represents(t, m)
    ensures
      var p := ReserveFor(t, keyDefault, default, n);
      Valid(p, default, hash) && Represents(p, m)
  {
    NeededIsCapacity(n, MIN_CAPACITY);
    if n > 0 && Needed(n, MIN_CAPACITY) > t.Cap() {
      RehashRepresents(t, Needed(n, MIN_CAPACITY), keyDefault, default, hash, m);
    }
  }
}
