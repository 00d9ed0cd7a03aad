/** Keys whose raw hash is a sentinel: find_index starts probing at the raw hash, rehash_into at the remapped one. */
module HashSentinels {
  import opened Wrappers
  import opened Arith
  import opened ProbeTable
  import opened MapRefinement
  import opened HashRuns

  /** Insert a key, make room for five, look the key up. */
  function ThreeSteps<K, V>(key: K, value: V): seq<Op<K, V>> {
    [Insert(key, value), Op.Reserve(5), Lookup(key)]
  }

  lemma RunOfThree<K, V>(t: Table<K, V>, env: Env<K, V>, a: Op<K, V>, b: Op<K, V>, c: Op<K, V>)
    requires WellFormed(t, env.default)
    ensures
      var t1 := Step(t, env, a).0;
      var t2 := Step(t1, env, b).0;
      Run(t, env, [a, b, c]).1 == [Step(t, env, a).1, Step(t1, env, b).1, Step(t2, env, c).1]
  {
    hide Step, WellFormed;
    var t1 := Step(t, env, a).0;
    var t2 := Step(t1, env, b).0;
    assert [a, b, c][1..] == [b, c] && [b, c][1..] == [c] && [c][1..] == [];
    assert Run(t2, env, [c]).1 == [Step(t2, env, c).1];
    assert Run(t1, env, [b, c]).1 == [Step(t1, env, b).1, Step(t2, env, c).1];
  }

  /** The table after the first insertion: eight slots, one of them live. */
  lemma FirstInsert<K, V>(env: Env<K, V>, key: K, value: V)
    requires env.hash(key) <= KILLED
    ensures WellFormed(Cleared<K, V>(), env.default)
    ensures
      var t := Step(Cleared<K, V>(), env, Insert(key, value)).0;
      && t.Aligned() && t.Cap() == 8 && t.size == 1 && t.tombstones == 0 && t.Live(env.hash(key))
      && t.hashes[env.hash(key)] == REMAP && t.keys[env.hash(key)] == key
      && forall j :: t.Live(j) ==> j == env.hash(key)
  {
    ClearedWellFormed<K, V>(env.default);
    var p := MakeRoom(Cleared<K, V>(), env.keyDefault, env.default);
    assert p == EmptyTable(8, env.keyDefault, env.default);
    var raw := env.hash(key);
    SlotZero(8, raw);
    ProbeEnds(p, env.default, raw);
    StopAtUnique(p, key, REMAP, raw, 0, 0);
  }

  /** Sixteen slots after the reserve: the entry has moved to slot 3, where its remapped hash leads. */
  lemma MovedToThree<K, V>(t: Table<K, V>, env: Env<K, V>, raw: nat)
    requires WellFormed(t, env.default) && t.Cap() == 8 && t.size == 1
    requires t.Live(raw) && t.hashes[raw] == REMAP && (forall j :: t.Live(j) ==> j == raw)
    ensures
      var p := ReserveFor(t, env.keyDefault, env.default, 5);
      p.Cap() == 16 && p.Aligned() && forall s: nat :: s < 16 && s != 3 ==> p.hashes[s] == EMPTY
  {
    var p := ReserveFor(t, env.keyDefault, env.default, 5);
    ReservedSixteen(t, env);
    hide WellFormed, ReserveFor, Reachable, Copies;
    forall s: nat | s < 16 && s != 3 ensures p.hashes[s] == EMPTY {
      NoTombstone(p.hashes, s);
      if p.Live(s) { LiveIsThree(t, raw, p, s); }
    }
  }

  /** The entry is reachable from slot 3; if it were not there, that slot would hold the entry as well. */
  lemma LiveIsThree<K, V>(t: Table<K, V>, raw: nat, p: Table<K, V>, s: nat)
    requires t.Aligned() && p.Aligned() && Copies(t, 8, p) && UniqueKeys(p) && multiset(p.hashes)[KILLED] == 0
    requires p.Cap() == 16 && p.Live(s)
    requires t.Live(raw) && t.hashes[raw] == REMAP && (forall j :: t.Live(j) ==> j == raw)
    ensures s == 3
  {
    hide Slot, Start, Copies;
    SlotZero(16, 3);
    StartOfRemap();
    OnlyOrigin(t, raw, p, s);
    var i: nat :| i < 16 && Slot(16, 3, i) == s && PathClear(p.hashes, 3, i);
    if i > 0 {
      assert p.hashes[Slot(16, 3, 0)] != EMPTY;
      NoTombstone(p.hashes, 3);
      OnlyOrigin(t, raw, p, 3);
    }
  }

  lemma ReservedSixteen<K, V>(t: Table<K, V>, env: Env<K, V>)
    requires WellFormed(t, env.default) && t.Cap() == 8 && t.size == 1 && UniqueKeys(t)
    ensures
      var p := ReserveFor(t, env.keyDefault, env.default, 5);
      && t.Aligned() && p.Aligned() && p.Cap() == 16 && multiset(p.hashes)[KILLED] == 0
      && Copies(t, 8, p) && UniqueKeys(p)
  {
    NeededFive();
    AllLive(t, env.default);
    RehashCopies(t, 16, env.keyDefault, env.default, 8);
  }

  /** Every live slot of the new table holds the one entry. */
  lemma OnlyOrigin<K, V>(t: Table<K, V>, raw: nat, p: Table<K, V>, s: nat)
    requires t.Aligned() && p.Aligned() && Copies(t, 8, p) && t.Live(raw) && (forall j :: t.Live(j) ==> j == raw)
    requires p.Live(s)
    ensures p.hashes[s] == t.hashes[raw] && p.keys[s] == t.keys[raw]
    ensures Reachable(p.hashes, Start(p.Cap(), p.hashes[s]), s)
  {
    assert CameFrom(t, 8, p, s);
  }

  lemma NoTombstone(h: seq<u64>, s: nat)
    requires multiset(h)[KILLED] == 0 && s < |h|
    ensures h[s] != KILLED
  {
  }

  lemma NeededFive()
    ensures Needed(5, MIN_CAPACITY) == 16 && IsCapacity(16)
  {
    assert Needed(5, 16) == 16;
    assert IsPowerOfTwo(1) && IsPowerOfTwo(2) && IsPowerOfTwo(4) && IsPowerOfTwo(8);
  }

  lemma StartOfRemap()
    ensures Start(16, REMAP) == 3
  {
    assert REMAP == 68719476763 * 16 + 3;
    DivModUnique(REMAP, 16, 68719476763, 3);
  }

  /** A key with a sentinel hash is not found any more. */
  lemma KeyLost<K, V>(env: Env<K, V>, key: K, value: V)
    requires env.hash(key) <= KILLED
    ensures WellFormed(Cleared<K, V>(), env.default)
    ensures Run(Cleared<K, V>(), env, ThreeSteps(key, value)).1 == [Inserted(true), Done, Found(None)]
  {
    var raw := env.hash(key);
    FirstInsert(env, key, value);
    var t := Step(Cleared<K, V>(), env, Insert(key, value)).0;
    MovedToThree(t, env, raw);
    RunOfThree(Cleared<K, V>(), env, Insert(key, value), Op.Reserve(5), Lookup(key));
    FirstIsNew(env, key, value);
    var p := ReserveFor(t, env.keyDefault, env.default, 5);
    NotFoundAt(p, env, key);
  }

  lemma FirstIsNew<K, V>(env: Env<K, V>, key: K, value: V)
    requires WellFormed(Cleared<K, V>(), env.default)
    ensures Step(Cleared<K, V>(), env, Insert(key, value)).1 == Inserted(true)
  {
    var p := MakeRoom(Cleared<K, V>(), env.keyDefault, env.default);
    assert p == EmptyTable(8, env.keyDefault, env.default);
  }

  lemma NotFoundAt<K, V>(p: Table<K, V>, env: Env<K, V>, key: K)
    requires WellFormed(p, env.default) && p.Cap() == 16 && env.hash(key) <= KILLED
    requires p.hashes[env.hash(key)] == EMPTY
    ensures Find(p, env.default, key, env.hash(key)) == None
  {
    var raw := env.hash(key);
    SlotZero(16, raw);
    ProbeEnds(p, env.default, raw);
    StopAtUnique(p, key, REMAP, raw, 0, 0);
  }

  /** So the precondition of the refinement is exact: this run finds its key if and only if the raw hash is no
      sentinel. */
  lemma FoundIffNoSentinel<K, V>(env: Env<K, V>, key: K, value: V)
    ensures WellFormed(Cleared<K, V>(), env.default)
    ensures
      var answers := Run(Cleared<K, V>(), env, ThreeSteps(key, value)).1;
      |answers| == 3 && (answers[2] == Found(Some(value)) <==> env.hash(key) > KILLED)
  {
    var ops := ThreeSteps(key, value);
    if env.hash(key) > KILLED {
      RunRefines(env, ops);
      MapRunOfThree(env, key, value);
    } else {
      KeyLost(env, key, value);
    }
  }

  lemma MapRunOfThree<K, V>(env: Env<K, V>, key: K, value: V)
    ensures MapRun(map[], env, ThreeSteps(key, value)).1 == [Inserted(true), Done, Found(Some(value))]
  {
    var m: map<K, V> := map[key := value];
    var ops := ThreeSteps<K, V>(key, value);
    assert ops[1..] == [Op.Reserve(5), Lookup(key)] && ops[1..][1..] == [Lookup(key)] && ops[1..][1..][1..] == [];
    assert MapRun(m, env, [Lookup(key)]).1 == [Found(Some(value))];
    assert MapRun(m, env, [Op.Reserve(5), Lookup(key)]).1 == [Done, Found(Some(value))];
  }

  // ----- all runs

  ghost predicate Agrees<K, V>(env: Env<K, V>, ops: seq<Op<K, V>>) {
    WellFormed(Cleared<K, V>(), env.default) && Run(Cleared(), env, ops).1 == MapRun(map[], env, ops).1
  }

  /** The operations use keys of the given kind only. */
  ghost predicate OverKeys<K, V>(ops: seq<Op<K, V>>, keys: iset<K>) {
    forall op :: op in ops && UsesKey(op) ==> op.key in keys
  }

  /** Every run over a set of keys answers as the finite map does if and only if none of them hashes to a sentinel. */
  lemma AgreesIffNoSentinel<K(!new), V(!new)>(env: Env<K, V>, keys: iset<K>)
    ensures (forall ops :: OverKeys(ops, keys) ==> Agrees(env, ops)) <==>
      (forall k :: k in keys ==> env.hash(k) > KILLED)
  {
    hide Agrees;
    if forall k :: k in keys ==> env.hash(k) > KILLED {
      forall ops | OverKeys(ops, keys) ensures Agrees(env, ops) {
        NoSentinelAgrees(env, ops);
      }
    }
    if forall ops :: OverKeys(ops, keys) ==> Agrees(env, ops) {
      forall k | k in keys ensures env.hash(k) > KILLED {
        AgreeingKey(env, k);
        assert OverKeys(ThreeSteps(k, env.default), keys);
      }
    }
  }

  lemma NoSentinelAgrees<K, V>(env: Env<K, V>, ops: seq<Op<K, V>>)
    requires forall op :: op in ops && UsesKey(op) ==> env.hash(op.key) > KILLED
    ensures Agrees(env, ops)
  {
    RunRefines(env, ops);
  }

  lemma AgreeingKey<K, V>(env: Env<K, V>, key: K)
    ensures Agrees(env, ThreeSteps(key, env.default)) ==> env.hash(key) > KILLED
  {
    FoundIffNoSentinel(env, key, env.default);
    MapRunOfThree(env, key, env.default);
  }
}
