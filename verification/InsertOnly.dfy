/** daslang_insert_only_hash_map: the same table without erasing, and slot for slot the same contents. */
module InsertOnly {
  import opened Wrappers
  import opened Arith
  import opened ProbeTable
  import opened MapRefinement
  import opened HashRuns
  import opened HashIteration
  import HashMap

  /** The fields of the insert-only map: there is no tombstone counter. */
  datatype Plain<K, V> = Plain(hashes: seq<u64>, keys: seq<K>, values: seq<V>, size: int) {
    /** The general map in the same state. */
    function Lift(): Table<K, V> { Table(hashes, keys, values, size, 0) }
  }

  function Nothing<K, V>(): Plain<K, V> { Plain([], [], [], 0) }

  ghost predicate Ok<K, V>(u: Plain<K, V>, env: Env<K, V>) {
    WellFormed(u.Lift(), env.default)
  }

  lemma OkAligned<K, V>(u: Plain<K, V>, env: Env<K, V>)
    requires Ok(u, env)
    ensures |u.keys| == |u.values| == |u.hashes| && u.Lift().Aligned()
  {
  }

  lemma NoneKilled<K, V>(u: Plain<K, V>, env: Env<K, V>)
    requires Ok(u, env)
    ensures multiset(u.hashes)[KILLED] == 0 && forall j :: 0 <= j < |u.hashes| ==> u.hashes[j] != KILLED
  {
  }

  // ----- the operations, as the insert-only map does them

  /** rehash_into: skips the EMPTY slots only. */
  ghost function PlainRehashed<K, V>(u: Plain<K, V>, cap: nat, env: Env<K, V>, i: nat): (p: Plain<K, V>)
    requires Ok(u, env) && i <= |u.hashes| && u.size < cap
    ensures LiveCount(u.hashes, |u.hashes|) == u.size
    ensures p.Lift() == Rehashed(u.Lift(), cap, env.keyDefault, env.default, i)
  {
    AllLive(u.Lift(), env.default);
    if i == 0 then
      var t := EmptyTable(cap, env.keyDefault, env.default);
      Plain(t.hashes, t.keys, t.values, 0)
    else
      var p := PlainRehashed(u, cap, env, i - 1);
      NoneKilled(u, env);
      HashMap.RehashedStep(u.Lift(), cap, env.keyDefault, env.default, i - 1);
      if u.hashes[i - 1] == EMPTY then p else
        var start := Start(cap, u.hashes[i - 1]);
        var j := Slot(cap, start, FirstEmpty(p.hashes, start, 0));
        Plain(p.hashes[j := u.hashes[i - 1]], p.keys[j := u.keys[i - 1]], p.values[j := u.values[i - 1]], p.size + 1)
  }

  ghost function PlainRehash<K, V>(u: Plain<K, V>, cap: nat, env: Env<K, V>): (p: Plain<K, V>)
    requires Ok(u, env) && IsCapacity(cap) && 2 * u.size <= cap && u.size < cap
    ensures p.Lift() == RehashInto(u.Lift(), cap, env.keyDefault, env.default) && Ok(p, env)
  {
    HashMap.RehashIs(u.Lift(), cap, env.keyDefault, env.default);
    PlainRehashed(u, cap, env, |u.hashes|)
  }

  /** reserve_slot grows, but never cleans. */
  ghost function PlainMakeRoom<K, V>(u: Plain<K, V>, env: Env<K, V>): (p: Plain<K, V>)
    requires Ok(u, env)
    ensures p.Lift() == MakeRoom(u.Lift(), env.keyDefault, env.default) && Ok(p, env) && HasRoom(p.Lift())
  {
    GrownIsCapacity(|u.hashes|);
    if u.size >= |u.hashes| / 2 then PlainRehash(u, GrownCapacity(|u.hashes|), env) else u
  }

  /** Its probe looks for the key or an EMPTY slot. */
  ghost function PlainPut<K, V>(p: Plain<K, V>, env: Env<K, V>, key: K): (r: (Plain<K, V>, nat, bool))
    requires Ok(p, env) && |p.hashes| > 0
    ensures Reserved(r.0.Lift(), r.1, r.2) == PutKey(p.Lift(), env.default, key, env.hash(key))
  {
    var raw := env.hash(key);
    var cap := |p.hashes|;
    var start := Start(cap, raw);
    HashMap.PutKeyIs(p.Lift(), env.default, key, raw);
    NoneKilled(p, env);
    var j := StopAt(p.Lift(), key, ToHashKey(raw), start, 0);
    NoTombstoneBefore(p.hashes, start, j);
    var s := Slot(cap, start, j);
    if p.hashes[s] != EMPTY then (p, s, false)
    else (Plain(p.hashes[s := ToHashKey(raw)], p.keys[s := key], p.values, p.size + 1), s, true)
  }

  ghost function PlainReserve<K, V>(u: Plain<K, V>, env: Env<K, V>, key: K): (r: (Plain<K, V>, nat, bool))
    requires Ok(u, env)
    ensures Reserved(r.0.Lift(), r.1, r.2) ==
      ProbeTable.Reserve(u.Lift(), env.keyDefault, env.default, key, env.hash(key))
    ensures Ok(r.0, env) && r.0.Lift().Live(r.1)
  {
    var p := PlainMakeRoom(u, env);
    PutKeyWellFormed(p.Lift(), env.default, key, env.hash(key));
    PlainPut(p, env, key)
  }

  lemma NoTombstoneBefore(h: seq<u64>, start: nat, j: nat)
    requires j <= |h| && forall s :: 0 <= s < |h| ==> h[s] != KILLED
    ensures FirstKilled(h, start, 0, j) == j
  {
  }

  ghost function PlainReserveFor<K, V>(u: Plain<K, V>, env: Env<K, V>, n: nat): (p: Plain<K, V>)
    requires Ok(u, env)
    ensures p.Lift() == ReserveFor(u.Lift(), env.keyDefault, env.default, n) && Ok(p, env)
  {
    NeededIsCapacity(n, MIN_CAPACITY);
    if n > 0 && Needed(n, MIN_CAPACITY) > |u.hashes| then PlainRehash(u, Needed(n, MIN_CAPACITY), env) else u
  }

  // ----- both maps run side by side

  ghost function PlainStep<K, V>(u: Plain<K, V>, env: Env<K, V>, op: Op<K, V>): (r: (Plain<K, V>, Answer<V>))
    requires Ok(u, env) && !op.Erase?
    ensures Ok(r.0, env)
  {
    if MayInsert(op) then
      var (p, s, inserted) := PlainReserve(u, env, op.key);
      var current := p.values[s];
      WriteOk(p.Lift(), env, s, Stored(op, inserted, current));
      (Plain(p.hashes, p.keys, p.values[s := Stored(op, inserted, current)], p.size), Replied(op, inserted, current))
    else match op
      case Lookup(key) =>
        FindIsLive(u.Lift(), env.default, key, env.hash(key));
        var s := Find(u.Lift(), env.default, key, env.hash(key));
        (u, Found(if s.None? then None else Some(u.values[s.value])))
      case Reserve(n) => (PlainReserveFor(u, env, n), Done)
      case Clear =>
        ClearedWellFormed<K, V>(env.default);
        (Nothing(), Done)
  }

  /** An insertion is the reservation of a slot and the writing of its value. */
  lemma InsertIs<K, V>(u: Plain<K, V>, env: Env<K, V>, op: Op<K, V>, p: Plain<K, V>, s: nat, inserted: bool)
    requires Ok(u, env) && MayInsert(op) && (p, s, inserted) == PlainReserve(u, env, op.key)
    ensures Ok(p, env) && |p.keys| == |p.values| == |p.hashes|
    ensures s < |p.values| && p.values[s := p.values[s]] == p.values
    ensures
      var value := Stored(op, inserted, p.values[s]);
      PlainStep(u, env, op) ==
        (Plain(p.hashes, p.keys, p.values[s := value], p.size), Replied(op, inserted, p.values[s]))
    ensures Ok(PlainStep(u, env, op).0, env)
  {
    hide PlainReserve, WellFormed;
    OkAligned(p, env);
    HashMap.KeepsValue(p.Lift(), s);
  }

  lemma WriteOk<K, V>(t: Table<K, V>, env: Env<K, V>, s: nat, value: V)
    requires WellFormed(t, env.default) && t.Live(s)
    ensures WellFormed(WriteValue(t, s, value), env.default)
  {
  }

  /** Each operation gives the same answer and leaves the same slots, whatever the hash function. */
  lemma SameStep<K, V>(u: Plain<K, V>, env: Env<K, V>, op: Op<K, V>)
    requires Ok(u, env) && !op.Erase?
    ensures
      var (u', a) := PlainStep(u, env, op);
      Step(u.Lift(), env, op) == (u'.Lift(), a)
  {
    hide WellFormed, PlainReserve, ProbeTable.Reserve, Find, ReserveFor, PlainReserveFor;
    if MayInsert(op) {
      var (p, s, inserted) := PlainReserve(u, env, op.key);
    }
  }

  ghost function PlainRun<K, V>(u: Plain<K, V>, env: Env<K, V>, ops: seq<Op<K, V>>): (r: (Plain<K, V>, seq<Answer<V>>))
    requires Ok(u, env) && forall op :: op in ops ==> !op.Erase?
    decreases |ops|
  {
    if ops == [] then (u, []) else
      assert ops[0] in ops;
      var (u', a) := PlainStep(u, env, ops[0]);
      var (u'', rest) := PlainRun(u', env, ops[1..]);
      (u'', [a] + rest)
  }

  lemma {:induction false} SameRunFrom<K, V>(u: Plain<K, V>, env: Env<K, V>, ops: seq<Op<K, V>>)
    requires Ok(u, env) && forall op :: op in ops ==> !op.Erase?
    ensures
      var (u', answers) := PlainRun(u, env, ops);
      Run(u.Lift(), env, ops) == (u'.Lift(), answers)
    decreases |ops|
  {
    hide WellFormed, Step, PlainStep;
    if ops != [] {
      assert ops[0] in ops;
      SameStep(u, env, ops[0]);
      SameRunFrom(PlainStep(u, env, ops[0]).0, env, ops[1..]);
    }
  }

  /** In every run without erase, the two maps hold the same hashes, keys, values and size, and answer alike. */
  lemma SameRun<K, V>(env: Env<K, V>, ops: seq<Op<K, V>>)
    requires forall op :: op in ops ==> !op.Erase?
    ensures Ok(Nothing<K, V>(), env) && WellFormed(Cleared<K, V>(), env.default)
    ensures
      var (u, answers) := PlainRun(Nothing(), env, ops);
      var (t, answers') := Run(Cleared(), env, ops);
      t.hashes == u.hashes && t.keys == u.keys && t.values == u.values && t.size == u.size && t.tombstones == 0
      && answers == answers'
  {
    ClearedWellFormed<K, V>(env.default);
    SameRunFrom(Nothing<K, V>(), env, ops);
  }

  /** So the insert-only map, too, answers as a finite map does. */
  lemma InsertOnlyRefines<K, V>(env: Env<K, V>, ops: seq<Op<K, V>>)
    requires forall op :: op in ops ==> !op.Erase? && GoodHash(env, op)
    ensures Ok(Nothing<K, V>(), env)
    ensures
      var (u, answers) := PlainRun(Nothing(), env, ops);
      var (m, expected) := MapRun(map[], env, ops);
      Refines(u.Lift(), env, m) && answers == expected
  {
    ClearedWellFormed<K, V>(env.default);
    SameRunFrom(Nothing<K, V>(), env, ops);
    RunRefines(env, ops);
  }

  // ----- the class

  class DaslangInsertOnlyHashMap<K(==), V> {
    var hashes: seq<u64>
    var keys: seq<K>
    var values: seq<V>
    var size: int
    const env: Env<K, V>

    function State(): Plain<K, V>
      reads this
    {
      Plain(hashes, keys, values, size)
    }

    ghost predicate Valid()
      reads this
    {
      Ok(State(), env)
    }

    constructor (env: Env<K, V>)
      ensures Valid() && State() == Nothing() && this.env == env
    {
      hashes, keys, values, size := [], [], [], 0;
      this.env := env;
      new;
      ClearedWellFormed<K, V>(env.default);
    }

    method RehashInto(newCap: nat)
      requires Valid() && IsCapacity(newCap) && size < newCap && 2 * size <= newCap
      modifies this
      ensures Valid() && State() == PlainRehash(old(State()), newCap, env)
    {
      hide WellFormed, IsPowerOfTwo, IsCapacity, PlainRehashed;
      var moved := MoveEntries(State(), newCap, env);
      hashes, keys, values := moved.hashes, moved.keys, moved.values;
      AllMoved(old(State()), newCap, env);
    }

    method Grow()
      requires Valid() && size >= |hashes| / 2
      modifies this
      ensures Valid() && State() == PlainMakeRoom(old(State()), env)
    {
      GrownIsCapacity(|hashes|);
      hide IsPowerOfTwo, WellFormed;
      var newCap := if |hashes| == 0 then MIN_CAPACITY else |hashes| * 2;
      RehashInto(newCap);
    }

    method ReserveSlot(key: K) returns (slot: nat, inserted: bool)
      requires Valid()
      modifies this
      ensures (State(), slot, inserted) == PlainReserve(old(State()), env, key)
    {
      hide WellFormed, PlainPut, EmptyAhead, StopAt, Slot, PlainRehash, GrownCapacity, IsCapacity;
      var rawHash := env.hash(key);
      if size >= |hashes| / 2 {
        Grow();
      }
      assert State() == PlainMakeRoom(old(State()), env);
      PlainPutIs(State(), env, key);
      slot := ProbeLoop(State().Lift(), key, rawHash);
      if hashes[slot] != EMPTY {
        return slot, false;
      }
      hashes := hashes[slot := ToHashKey(rawHash)];
      keys := keys[slot := key];
      size := size + 1;
      return slot, true;
    }

    method Insert(key: K, value: V) returns (slot: nat, inserted: bool)
      requires Valid()
      modifies this
      ensures Valid() && (State(), Inserted(inserted)) == PlainStep(old(State()), env, Op.Insert(key, value))
    {
      hide Ok, PlainReserve, PlainStep;
      slot, inserted := ReserveSlot(key);
      InsertIs(old(State()), env, Op.Insert(key, value), State(), slot, inserted);
      if inserted {
        values := values[slot := value];
      }
    }

    method TryEmplace(key: K, value: V) returns (slot: nat, inserted: bool)
      requires Valid()
      modifies this
      ensures Valid() && (State(), Inserted(inserted)) == PlainStep(old(State()), env, Op.TryEmplace(key, value))
    {
      hide Ok, PlainReserve, PlainStep;
      slot, inserted := ReserveSlot(key);
      InsertIs(old(State()), env, Op.TryEmplace(key, value), State(), slot, inserted);
      if inserted {
        values := values[slot := value];
      }
    }

    method Index(key: K) returns (slot: nat)
      requires Valid()
      modifies this
      ensures Valid() && slot < |values|
      ensures (State(), Got(values[slot])) == PlainStep(old(State()), env, Op.Index(key))
    {
      hide Ok, PlainReserve, PlainStep;
      var inserted;
      slot, inserted := ReserveSlot(key);
      InsertIs(old(State()), env, Op.Index(key), State(), slot, inserted);
    }

    method Assign(key: K, value: V)
      requires Valid()
      modifies this
      ensures Valid() && (State(), Done) == PlainStep(old(State()), env, Op.Assign(key, value))
    {
      hide Ok, PlainReserve, PlainStep;
      var slot, inserted := ReserveSlot(key);
      InsertIs(old(State()), env, Op.Assign(key, value), State(), slot, inserted);
      values := values[slot := value];
    }

    method FindIndex(key: K, rawHash: u64) returns (r: Option<nat>)
      requires Valid()
      ensures r == Find(State().Lift(), env.default, key, rawHash)
    {
      if |hashes| == 0 { return None; }
      HashMap.PutKeyIs(State().Lift(), env.default, key, rawHash);
      var slot := ProbeLoop(State().Lift(), key, rawHash);
      return if hashes[slot] == EMPTY then None else Some(slot);
    }

    method Lookup(key: K) returns (r: Option<V>)
      requires Valid()
      ensures (State(), Found(r)) == PlainStep(State(), env, Op.Lookup(key))
    {
      FindIsLive(State().Lift(), env.default, key, env.hash(key));
      var s := FindIndex(key, env.hash(key));
      r := if s.None? then None else Some(values[s.value]);
    }

    method Clear()
      requires Valid()
      modifies this
      ensures Valid() && (State(), Done) == PlainStep(old(State()), env, Op.Clear)
    {
      hashes, keys, values, size := [], [], [], 0;
      ClearedWellFormed<K, V>(env.default);
    }

    /** The iterators skip EMPTY slots only, which here are all that is not live. */
    method Begin() returns (it: nat)
      requires Valid()
      ensures it == NextLive(hashes, 0)
    {
      NoneKilled(State(), env);
      it := 0;
      while it < |hashes| && hashes[it] == EMPTY
        invariant 0 <= it <= NextLive(hashes, 0)
      {
        it := it + 1;
      }
    }

    method Next(it: nat) returns (next: nat)
      requires Valid() && it < |hashes|
      ensures next == NextLive(hashes, it + 1)
    {
      NoneKilled(State(), env);
      next := it + 1;
      while next < |hashes| && hashes[next] == EMPTY
        invariant it < next <= NextLive(hashes, it + 1)
        decreases |hashes| - next
      {
        next := next + 1;
      }
    }

    method Reserve(n: nat)
      requires Valid()
      modifies this
      ensures Valid() && (State(), Done) == PlainStep(old(State()), env, Op.Reserve(n))
    {
      if n == 0 { return; }
      NeededIsCapacity(n, MIN_CAPACITY);
      var needed := MIN_CAPACITY;
      while needed < n * 2
        invariant needed > 0 && Needed(n, needed) == Needed(n, MIN_CAPACITY)
        decreases n * 2 - needed
      {
        needed := needed * 2;
      }
      if needed > |hashes| {
        RehashInto(needed);
      }
    }
  }

  lemma AllMoved<K, V>(u: Plain<K, V>, cap: nat, env: Env<K, V>)
    requires Ok(u, env) && IsCapacity(cap) && 2 * u.size <= cap && u.size < cap
    ensures PlainRehash(u, cap, env) == PlainRehashed(u, cap, env, |u.hashes|)
    ensures PlainRehash(u, cap, env).size == u.size
  {
    HashMap.RehashIs(u.Lift(), cap, env.keyDefault, env.default);
  }

  method MoveEntries<K, V>(u: Plain<K, V>, newCap: nat, env: Env<K, V>) returns (p: Plain<K, V>)
    requires Ok(u, env) && u.size < newCap
    ensures p == PlainRehashed(u, newCap, env, |u.hashes|)
  {
    hide WellFormed, EmptyAhead, LiveCount, FirstEmpty, Slot, Rehashed, PlainRehashed;
    var t := EmptyTable(newCap, env.keyDefault, env.default);
    p := Plain(t.hashes, t.keys, t.values, 0);
    var i, n := 0, |u.hashes|;
    NoneMoved(u, newCap, env);
    while i < n
      invariant 0 <= i <= n && p == PlainRehashed(u, newCap, env, i)
    {
      var kh := u.hashes[i];
      OneMoved(u, newCap, env, i);
      if kh != EMPTY {
        var j := HashMap.FirstFree(p.hashes, Start(newCap, kh));
        p := Plain(p.hashes[j := kh], p.keys[j := u.keys[i]], p.values[j := u.values[i]], p.size + 1);
      }
      i := i + 1;
    }
  }

  lemma NoneMoved<K, V>(u: Plain<K, V>, cap: nat, env: Env<K, V>)
    requires Ok(u, env) && u.size < cap
    ensures
      var t := EmptyTable<K, V>(cap, env.keyDefault, env.default);
      PlainRehashed(u, cap, env, 0) == Plain(t.hashes, t.keys, t.values, 0)
  {
  }

  /** What one turn of the loop adds. */
  lemma OneMoved<K, V>(u: Plain<K, V>, cap: nat, env: Env<K, V>, i: nat)
    requires Ok(u, env) && i < |u.hashes| && u.size < cap
    ensures |u.keys| == |u.values| == |u.hashes|
    ensures
      var (p, kh) := (PlainRehashed(u, cap, env, i), u.hashes[i]);
      && |p.hashes| == |p.keys| == |p.values| == cap
      && (kh == EMPTY ==> PlainRehashed(u, cap, env, i + 1) == p)
      && (kh != EMPTY ==>
        && EmptyAhead(p.hashes, Start(cap, kh), 0)
        && var j := Slot(cap, Start(cap, kh), FirstEmpty(p.hashes, Start(cap, kh), 0));
           PlainRehashed(u, cap, env, i + 1) ==
             Plain(p.hashes[j := kh], p.keys[j := u.keys[i]], p.values[j := u.values[i]], p.size + 1))
  {
    hide WellFormed, EmptyAhead, LiveCount, FirstEmpty, Slot, Rehashed;
    StartOfMove(u, cap, env, i);
  }

  lemma StartOfMove<K, V>(u: Plain<K, V>, cap: nat, env: Env<K, V>, i: nat)
    requires Ok(u, env) && i < |u.hashes| && u.size < cap
    ensures |u.keys| == |u.values| == |u.hashes|
    ensures
      var p := PlainRehashed(u, cap, env, i);
      && |p.hashes| == |p.keys| == |p.values| == cap
      && (u.hashes[i] != EMPTY ==> EmptyAhead(p.hashes, Start(cap, u.hashes[i]), 0))
  {
    var p := PlainRehashed(u, cap, env, i);
    NoneKilled(u, env);
    HashMap.RehashedStep(u.Lift(), cap, env.keyDefault, env.default, i);
  }

  lemma PlainPutIs<K, V>(p: Plain<K, V>, env: Env<K, V>, key: K)
    requires Ok(p, env) && |p.hashes| > 0
    ensures p.Lift().Aligned() && EmptyAhead(p.hashes, Start(|p.hashes|, env.hash(key)), 0)
    ensures
      var start := Start(|p.hashes|, env.hash(key));
      var s := Slot(|p.hashes|, start, StopAt(p.Lift(), key, ToHashKey(env.hash(key)), start, 0));
      PlainPut(p, env, key) ==
        if p.hashes[s] != EMPTY then (p, s, false)
        else (Plain(p.hashes[s := ToHashKey(env.hash(key))], p.keys[s := key], p.values, p.size + 1), s, true)
  {
    HashMap.PutKeyIs(p.Lift(), env.default, key, env.hash(key));
  }

  /** The probe without tombstones: to the key's slot, or to the first EMPTY one. */
  method ProbeLoop<K(==), V>(t: Table<K, V>, key: K, rawHash: u64) returns (index: nat)
    requires t.Aligned() && t.Cap() > 0 && EmptyAhead(t.hashes, Start(t.Cap(), rawHash), 0)
    ensures
      var start := Start(t.Cap(), rawHash);
      index == Slot(t.Cap(), start, StopAt(t, key, ToHashKey(rawHash), start, 0))
  {
    var cap := t.Cap();
    index := Start(cap, rawHash);
    var hashKey := ToHashKey(rawHash);
    ghost var start, i := index, 0;
    SlotZero(cap, start);
    hide EmptyAhead, StopAt, Slot;
    while true
      invariant 0 <= i <= StopAt(t, key, hashKey, start, 0) && index == Slot(cap, start, i)
      decreases cap - i
    {
      var kh := t.hashes[index];
      if kh == EMPTY {
        return;
      } else if kh == hashKey && t.keys[index] == key {
        return;
      }
      SlotNext(cap, start, i);
      index := NextSlot(cap, index);
      i := i + 1;
    }
  }
}
