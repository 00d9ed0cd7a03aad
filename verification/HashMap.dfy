/** daslang_hash_map: the class, each method tied to the operation on tables that it performs. */
module HashMap {
  import opened Wrappers
  import opened Arith
  import opened ProbeTable
  import opened HashRuns
  import opened MapRefinement
  import opened HashIteration

  class DaslangHashMap<K(==), V> {
    var hashes: seq<u64>
    var keys: seq<K>
    var values: seq<V>
    var size: int
    var tombstones: int
    /** The slots that all calls of rehash_into have scanned. */
    ghost var scanned: nat
    const env: Env<K, V>

    function State(): Table<K, V>
      reads this
    {
      Table(hashes, keys, values, size, tombstones)
    }

    ghost predicate Ok()
      reads this
    {
      WellFormed(State(), env.default)
    }

    constructor (env: Env<K, V>)
      ensures Ok() && State() == Cleared() && this.env == env && scanned == 0
    {
      hashes, keys, values, size, tombstones := [], [], [], 0, 0;
      this.env, scanned := env, 0;
      new;
      ClearedWellFormed<K, V>(env.default);
    }

    method FindIndex(key: K, rawHash: u64) returns (r: Option<nat>)
      requires Ok()
      ensures r == Find(State(), env.default, key, rawHash)
    {
      var cap := |hashes|;
      if cap == 0 { return None; }
      var index := Start(cap, rawHash);
      var hashKey := ToHashKey(rawHash);
      ghost var start, i := index, 0;
      ProbeEnds(State(), env.default, start);
      SlotZero(cap, start);
      while true
        invariant 0 <= i <= StopAt(State(), key, hashKey, start, 0) && index == Slot(cap, start, i)
        decreases cap - i
      {
        var kh := hashes[index];
        if kh == EMPTY {
          return None;
        } else if kh == hashKey && keys[index] == key {
          return Some(index);
        }
        SlotNext(cap, start, i);
        index := NextSlot(cap, index);
        i := i + 1;
      }
    }

    method RehashInto(newCap: nat)
      requires Ok() && IsCapacity(newCap) && size < newCap && 2 * size <= newCap
      modifies this
      ensures State() == ProbeTable.RehashInto(old(State()), newCap, env.keyDefault, env.default) && Ok()
      ensures scanned == old(scanned) + |old(hashes)|
    {
      RehashIs(State(), newCap, env.keyDefault, env.default);
      hide WellFormed, Rehashed, IsPowerOfTwo, IsCapacity, ProbeTable.RehashInto, LiveCount;
      ghost var turns;
      var moved;
      moved, turns := MoveEntries(State(), newCap, env);
      scanned := scanned + turns;
      hashes, keys, values := moved.hashes, moved.keys, moved.values;
      tombstones := 0;
    }

    method Grow()
      requires Ok() && MustGrow(State())
      modifies this
      ensures Ok() && State() == MakeRoom(old(State()), env.keyDefault, env.default)
      ensures scanned == old(scanned) + |old(hashes)|
    {
      GrownIsCapacity(|hashes|);
      hide IsPowerOfTwo;
      var newCap := if |hashes| == 0 then MIN_CAPACITY else |hashes| * 2;
      RehashInto(newCap);
    }

    method RehashSameCapacity()
      requires Ok() && MustClean(State())
      modifies this
      ensures Ok() && State() == MakeRoom(old(State()), env.keyDefault, env.default)
      ensures scanned == old(scanned) + |old(hashes)|
    {
      RehashInto(|hashes|);
    }

    method ReserveSlot(key: K, rawHash: u64) returns (slot: nat, inserted: bool)
      requires Ok()
      modifies this
      ensures Ok() && Reserved(State(), slot, inserted) ==
        ProbeTable.Reserve(old(State()), env.keyDefault, env.default, key, rawHash)
      ensures State().Live(slot)
      ensures scanned == old(scanned) + old(if MustGrow(State()) || MustClean(State()) then |hashes| else 0)
    {
      if size >= |hashes| / 2 {
        Grow();
      } else if (|hashes| - size) / 2 < tombstones {
        RehashSameCapacity();
      }
      assert State() == MakeRoom(old(State()), env.keyDefault, env.default);
      PutKeyWellFormed(State(), env.default, key, rawHash);
      slot, inserted := Probe(key, rawHash);
    }

    method Probe(key: K, rawHash: u64) returns (slot: nat, inserted: bool)
      requires Ok() && |hashes| > 0
      modifies this
      ensures Reserved(State(), slot, inserted) == PutKey(old(State()), env.default, key, rawHash)
      ensures scanned == old(scanned)
    {
      PutKeyIs(State(), env.default, key, rawHash);
      var insertI;
      slot, insertI := ProbeLoop(State(), key, rawHash);
      if hashes[slot] != EMPTY {
        return slot, false;
      }
      if insertI.Some? {
        slot := insertI.value;
        tombstones := tombstones - 1;
      }
      hashes := hashes[slot := ToHashKey(rawHash)];
      keys := keys[slot := key];
      size := size + 1;
      return slot, true;
    }

    method EraseIndex(key: K, rawHash: u64) returns (erased: bool)
      requires Ok()
      modifies this
      ensures Ok()
      ensures
        var r := Find(old(State()), env.default, key, rawHash);
        && (erased <==> r.Some?)
        && (r.Some? ==> old(State()).Live(r.value)
                        && State() == EraseAt(old(State()), env.keyDefault, env.default, r.value))
        && (r.None? ==> State() == old(State()))
      ensures scanned == old(scanned)
    {
      var r := FindIndex(key, rawHash);
      if r.None? { return false; }
      FindIsLive(State(), env.default, key, rawHash);
      KillSlot(r.value);
      return true;
    }

    method KillSlot(slot: nat)
      requires Ok() && State().Live(slot)
      modifies this
      ensures Ok() && State() == EraseAt(old(State()), env.keyDefault, env.default, slot)
      ensures scanned == old(scanned)
    {
      EraseWellFormed(State(), env.keyDefault, env.default, slot);
      hashes := hashes[slot := KILLED];
      keys := keys[slot := env.keyDefault];
      values := values[slot := env.default];
      size := size - 1;
      tombstones := tombstones + 1;
    }

    // ----- the public operations

    method Insert(key: K, value: V) returns (slot: nat, inserted: bool)
      requires Ok()
      modifies this
      ensures Ok() && (State(), Inserted(inserted)) == Step(old(State()), env, Op.Insert(key, value))
      ensures State().Live(slot) && keys[slot] == key
      ensures scanned == old(scanned) + Cost(old(State()), Op.Insert(key, value))
    {
      hide PutKey, MakeRoom, IsPowerOfTwo, Find, ReserveFor;
      KeyReserved(State(), env, key);
      slot, inserted := ReserveSlot(key, env.hash(key));
      if inserted {
        values := values[slot := value];
      }
      KeepsValue(State(), slot);
    }

    method TryEmplace(key: K, value: V) returns (slot: nat, inserted: bool)
      requires Ok()
      modifies this
      ensures Ok() && (State(), Inserted(inserted)) == Step(old(State()), env, Op.TryEmplace(key, value))
      ensures State().Live(slot) && keys[slot] == key
      ensures scanned == old(scanned) + Cost(old(State()), Op.TryEmplace(key, value))
    {
      hide PutKey, MakeRoom, IsPowerOfTwo, Find, ReserveFor;
      KeyReserved(State(), env, key);
      slot, inserted := ReserveSlot(key, env.hash(key));
      if inserted {
        values := values[slot := value];
      }
      KeepsValue(State(), slot);
    }

    /** operator[]; the reference returned is a slot of `values`. */
    method Index(key: K) returns (slot: nat)
      requires Ok()
      modifies this
      ensures Ok() && State().Live(slot) && keys[slot] == key
      ensures (State(), Got(values[slot])) == Step(old(State()), env, Op.Index(key))
      ensures scanned == old(scanned) + Cost(old(State()), Op.Index(key))
    {
      KeyReserved(State(), env, key);
      var inserted;
      slot, inserted := ReserveSlot(key, env.hash(key));
      KeepsValue(State(), slot);
    }

    /** m[key] = value. */
    method Assign(key: K, value: V)
      requires Ok()
      modifies this
      ensures Ok() && (State(), Done) == Step(old(State()), env, Op.Assign(key, value))
      ensures scanned == old(scanned) + Cost(old(State()), Op.Assign(key, value))
    {
      hide PutKey, MakeRoom, IsPowerOfTwo, Find, ReserveFor;
      var slot, inserted := ReserveSlot(key, env.hash(key));
      values := values[slot := value];
    }

    method Erase(key: K) returns (erased: bool)
      requires Ok()
      modifies this
      ensures Ok() && (State(), Erased(erased)) == Step(old(State()), env, Op.Erase(key))
      ensures scanned == old(scanned) + Cost(old(State()), Op.Erase(key))
    {
      FindIsLive(State(), env.default, key, env.hash(key));
      erased := EraseIndex(key, env.hash(key));
    }

    /** find and at: the slot, or the end. */
    method Lookup(key: K) returns (r: Option<V>)
      requires Ok()
      ensures (State(), Found(r)) == Step(State(), env, Op.Lookup(key))
    {
      FindIsLive(State(), env.default, key, env.hash(key));
      var s := FindIndex(key, env.hash(key));
      r := if s.None? then None else Some(values[s.value]);
    }

    method Reserve(n: nat)
      requires Ok()
      modifies this
      ensures Ok() && (State(), Done) == Step(old(State()), env, Op.Reserve(n))
      ensures scanned == old(scanned) + Cost(old(State()), Op.Reserve(n))
    {
      if n == 0 { return; }
      NeededIsCapacity(n, MIN_CAPACITY);
      var needed := MIN_CAPACITY;
      while needed < n * 2
        invariant needed > 0 && Needed(n, needed) == Needed(n, MIN_CAPACITY)
        decreases n * 2 - needed
      {
        needed := needed * 2;
      }
      if needed > |hashes| {
        RehashInto(needed);
      }
    }

    method Clear()
      modifies this
      ensures Ok() && (old(WellFormed(State(), env.default)) ==>
        (State(), Done) == Step(old(State()), env, Op.Clear))
      ensures State() == Cleared()
      ensures scanned == old(scanned)
    {
      hashes, keys, values, size, tombstones := [], [], [], 0, 0;
      ClearedWellFormed<K, V>(env.default);
    }

    // ----- iterators are slot numbers; the end is the capacity

    method Begin() returns (it: nat)
      ensures it == NextLive(hashes, 0)
    {
      it := 0;
      while it < |hashes|
        invariant 0 <= it <= NextLive(hashes, 0)
      {
        if hashes[it] > KILLED { return; }
        it := it + 1;
      }
    }

    method Next(it: nat) returns (next: nat)
      requires it < |hashes|
      ensures next == NextLive(hashes, it + 1)
    {
      var cap := |hashes|;
      next := it + 1;
      while next < cap && hashes[next] <= KILLED
        invariant it < next <= NextLive(hashes, it + 1)
        decreases cap - next
      {
        next := next + 1;
      }
    }

    method EraseIterator(it: nat) returns (next: nat)
      requires Ok() && State().Live(it)
      modifies this
      ensures Ok() && State() == EraseAt(old(State()), env.keyDefault, env.default, it)
      ensures |hashes| == |old(hashes)| && next == NextLive(hashes, it + 1)
      ensures scanned == old(scanned)
    {
      KillSlot(it);
      next := Next(it);
    }
  }

  /** The loop of rehash_into: the live entries, moved one by one into a new table. */
  method MoveEntries<K, V>(t: Table<K, V>, newCap: nat, env: Env<K, V>)
      returns (p: Table<K, V>, ghost turns: nat)
    requires t.Aligned() && LiveCount(t.hashes, t.Cap()) < newCap
    ensures p == Rehashed(t, newCap, env.keyDefault, env.default, t.Cap()) && turns == t.Cap()
  {
    hide EmptyAhead, LiveCount, Place, FirstEmpty, Slot;
    p, turns := EmptyTable(newCap, env.keyDefault, env.default), 0;
    var i, n := 0, |t.hashes|;
    while i < n
      invariant 0 <= i <= n && turns == i && p == Rehashed(t, newCap, env.keyDefault, env.default, i)
    {
      var kh := t.hashes[i];
      RehashedStep(t, newCap, env.keyDefault, env.default, i);
      if kh > KILLED {
        var j := FirstFree(p.hashes, Start(newCap, kh));
        PlaceAt(p, kh, t.keys[i], t.values[i], j);
        p := Table(p.hashes[j := kh], p.keys[j := t.keys[i]], p.values[j := t.values[i]], p.size + 1, p.tombstones);
      }
      turns := turns + 1;
      i := i + 1;
    }
  }

  lemma PlaceAt<K, V>(p: Table<K, V>, kh: u64, key: K, value: V, j: nat)
    requires p.Aligned() && p.Cap() > 0 && EmptyAhead(p.hashes, Start(p.Cap(), kh), 0)
    requires j == Slot(p.Cap(), Start(p.Cap(), kh), FirstEmpty(p.hashes, Start(p.Cap(), kh), 0))
    ensures Place(p, kh, key, value) ==
      Table(p.hashes[j := kh], p.keys[j := key], p.values[j := value], p.size + 1, p.tombstones)
  {
  }

  /** The loop of reserve_slot: where it ends, and the first tombstone it passed. */
  method ProbeLoop<K(==), V>(t: Table<K, V>, key: K, rawHash: u64) returns (index: nat, insertI: Option<nat>)
    requires t.Aligned() && t.Cap() > 0 && EmptyAhead(t.hashes, Start(t.Cap(), rawHash), 0)
    ensures
      var start := Start(t.Cap(), rawHash);
      var j := StopAt(t, key, ToHashKey(rawHash), start, 0);
      && index == Slot(t.Cap(), start, j)
      && (t.hashes[index] == EMPTY ==>
        var f := FirstKilled(t.hashes, start, 0, j);
        insertI == if f < j then Some(Slot(t.Cap(), start, f)) else None)
  {
    var cap := t.Cap();
    index := Start(cap, rawHash);
    insertI := None;
    var hashKey := ToHashKey(rawHash);
    ghost var start, i := index, 0;
    SlotZero(cap, start);
    ghost var stop := StopAt(t, key, hashKey, start, 0);
    hide FirstKilled, EmptyAhead, StopAt, Slot;
    while true
      invariant 0 <= i <= stop && index == Slot(cap, start, i)
      invariant
        var f := FirstKilled(t.hashes, start, 0, i);
        insertI == if f < i then Some(Slot(cap, start, f)) else None
      decreases cap - i
    {
      var kh := t.hashes[index];
      if kh == EMPTY {
        return;
      } else if kh == KILLED {
        if insertI.None? { insertI := Some(index); }
      } else if kh == hashKey && t.keys[index] == key {
        return;
      }
      FirstKilledStep(t.hashes, start, 0, i);
      SlotNext(cap, start, i);
      index := NextSlot(cap, index);
      i := i + 1;
    }
  }

  /** The inner loop of rehash_into. */
  method FirstFree(h: seq<u64>, start: nat) returns (j: nat)
    requires start < |h| && EmptyAhead(h, start, 0)
    ensures j == Slot(|h|, start, FirstEmpty(h, start, 0))
  {
    j := start;
    ghost var i := 0;
    SlotZero(|h|, start);
    while h[j] != EMPTY
      invariant 0 <= i <= FirstEmpty(h, start, 0) && j == Slot(|h|, start, i)
      decreases |h| - i
    {
      SlotNext(|h|, start, i);
      j := NextSlot(|h|, j);
      i := i + 1;
    }
  }

  /** Where the loop of rehash_into starts, and what it leaves. */
  lemma RehashIs<K, V>(t: Table<K, V>, cap: nat, keyDefault: K, default: V)
    requires WellFormed(t, default) && IsCapacity(cap) && 2 * t.size <= cap && t.size < cap
    ensures LiveCount(t.hashes, t.Cap()) < cap
    ensures Rehashed(t, cap, keyDefault, default, 0) == EmptyTable(cap, keyDefault, default)
    ensures ProbeTable.RehashInto(t, cap, keyDefault, default) == Rehashed(t, cap, keyDefault, default, t.Cap())
    ensures WellFormed(ProbeTable.RehashInto(t, cap, keyDefault, default), default)
  {
    AllLive(t, default);
  }

  lemma RehashedStep<K, V>(t: Table<K, V>, cap: nat, keyDefault: K, default: V, i: nat)
    requires t.Aligned() && i < t.Cap() && LiveCount(t.hashes, t.Cap()) < cap
    ensures
      var p, p' := Rehashed(t, cap, keyDefault, default, i), Rehashed(t, cap, keyDefault, default, i + 1);
      && (t.hashes[i] <= KILLED ==> p' == p)
      && (t.hashes[i] > KILLED ==> EmptyAhead(p.hashes, Start(cap, t.hashes[i]), 0)
                                   && p' == Place(p, t.hashes[i], t.keys[i], t.values[i]))
  {
    hide Place, EmptyAhead;
    var p := Rehashed(t, cap, keyDefault, default, i);
    SomeEmptyAhead(p.hashes, Start(cap, t.hashes[i]));
  }

  lemma PutKeyIs<K, V>(t: Table<K, V>, default: V, key: K, raw: u64)
    requires WellFormed(t, default) && t.Cap() > 0
    ensures EmptyAhead(t.hashes, Start(t.Cap(), raw), 0)
    ensures
      var start := Start(t.Cap(), raw);
      var j := StopAt(t, key, ToHashKey(raw), start, 0);
      var f := FirstKilled(t.hashes, start, 0, j);
      var slot := Slot(t.Cap(), start, f);
      PutKey(t, default, key, raw) ==
        if t.hashes[Slot(t.Cap(), start, j)] != EMPTY then Reserved(t, Slot(t.Cap(), start, j), false)
        else Reserved(Table(t.hashes[slot := ToHashKey(raw)], t.keys[slot := key], t.values, t.size + 1,
                            if f < j then t.tombstones - 1 else t.tombstones), slot, true)
  {
    ProbeEnds(t, default, Start(t.Cap(), raw));
  }

  lemma FirstKilledStep(h: seq<u64>, start: nat, i: nat, n: nat)
    requires i <= n < |h|
    ensures
      var f := FirstKilled(h, start, i, n);
      FirstKilled(h, start, i, n + 1) ==
        if f < n then f else if h[Slot(|h|, start, n)] == KILLED then n else n + 1
    decreases n - i
  {
    if i < n && h[Slot(|h|, start, i)] != KILLED {
      FirstKilledStep(h, start, i + 1, n);
    }
  }

  lemma KeyReserved<K, V>(t: Table<K, V>, env: Env<K, V>, key: K)
    requires WellFormed(t, env.default)
    ensures
      var r := ProbeTable.Reserve(t, env.keyDefault, env.default, key, env.hash(key));
      r.table.Aligned() && r.table.Live(r.index) && r.table.keys[r.index] == key
  {
    hide WellFormed, PutKey;
    PutKeyWellFormed(MakeRoom(t, env.keyDefault, env.default), env.default, key, env.hash(key));
    ReserveWellFormed(t, env, key);
  }

  lemma KeepsValue<K, V>(t: Table<K, V>, s: nat)
    requires t.Aligned() && s < t.Cap()
    ensures WriteValue(t, s, t.values[s]) == t
  {
    assert t.values[s := t.values[s]] == t.values;
  }

  // ----- loops over a map

  /** The slots visited already, and those still to come. */
  ghost function Seen(visited: seq<nat>, h: seq<u64>, it: nat): seq<nat>
    requires it <= |h|
  {
    visited + Visits(h, it)
  }

  lemma VisitStep(visited: seq<nat>, h: seq<u64>, h': seq<u64>, it: nat)
    requires it < |h| == |h'| && h[it] > KILLED && Visits(h', NextLive(h', it + 1)) == Visits(h, it + 1)
    ensures Seen(visited + [it], h', NextLive(h', it + 1)) == Seen(visited, h, it)
  {
    VisitsFirst(h, it);
    hide Visits, NextLive;
    MoveOne(visited, it, Visits(h, it + 1));
  }

  lemma VisitsFirst(h: seq<u64>, it: nat)
    requires it < |h| && h[it] > KILLED
    ensures Visits(h, it) == [it] + Visits(h, it + 1)
  {
    assert NextLive(h, it) == it;
  }

  lemma MoveOne(a: seq<nat>, x: nat, b: seq<nat>)
    ensures a + ([x] + b) == (a + [x]) + b
  {
  }

  lemma VisitsBeginAndEnd(h: seq<u64>, visited: seq<nat>)
    ensures Seen([], h, NextLive(h, 0)) == Visits(h, 0)
    ensures Seen(visited, h, |h|) == visited
  {
    VisitsNext(h, 0);
  }

  /** for (it = begin(); it != end(); ++it): the slots visited. */
  method VisitAll<K, V>(m: DaslangHashMap<K, V>) returns (visited: seq<nat>)
    ensures visited == Visits(m.hashes, 0)
  {
    hide Visits, NextLive, Seen;
    visited := [];
    VisitsBeginAndEnd(m.hashes, []);
    VisitsNext(m.hashes, 0);
    var it := m.Begin();
    while it != |m.hashes|
      invariant it <= |m.hashes| && it == NextLive(m.hashes, it)
      invariant Seen(visited, m.hashes, it) == Visits(m.hashes, 0)
      decreases |m.hashes| - it
    {
      VisitsNext(m.hashes, it + 1);
      VisitStep(visited, m.hashes, m.hashes, it);
      visited := visited + [it];
      it := m.Next(it);
    }
    VisitsBeginAndEnd(m.hashes, visited);
  }

  lemma OkAligned<K, V>(m: DaslangHashMap<K, V>)
    requires m.Ok()
    ensures m.State().Aligned() && m.State().hashes == m.hashes
  {
  }

  /** A loop may as well start at the next live slot, and there decide. */
  lemma SweepNext<K, V>(t: Table<K, V>, env: Env<K, V>, p: (K, V) -> bool, i: nat)
    requires t.Aligned() && i <= t.Cap()
    ensures Sweep(t, env, p, i) == Sweep(t, env, p, NextLive(t.hashes, i))
  {
    VisitsNext(t.hashes, i);
  }

  lemma VisitsNext(h: seq<u64>, i: nat)
    requires i <= |h|
    ensures Visits(h, i) == Visits(h, NextLive(h, i)) && NextLive(h, NextLive(h, i)) == NextLive(h, i)
  {
    NextLiveTwice(h, i);
  }

  lemma {:induction false} NextLiveTwice(h: seq<u64>, i: nat)
    requires i <= |h|
    ensures NextLive(h, NextLive(h, i)) == NextLive(h, i)
    decreases |h| - i
  {
    if i < |h| && h[i] <= KILLED {
      NextLiveTwice(h, i + 1);
    }
  }

  /** What one turn of the erasing loop does. */
  lemma SweepStep<K, V>(t: Table<K, V>, env: Env<K, V>, p: (K, V) -> bool, it: nat)
    requires t.Aligned() && t.Live(it)
    ensures
      var t' := if p(t.keys[it], t.values[it]) then EraseAt(t, env.keyDefault, env.default, it) else t;
      && t'.Aligned() && t'.Cap() == t.Cap()
      && Sweep(t, env, p, it) == Sweep(t', env, p, NextLive(t'.hashes, it + 1))
      && Visits(t'.hashes, NextLive(t'.hashes, it + 1)) == Visits(t.hashes, it + 1)
      && NextLive(t'.hashes, NextLive(t'.hashes, it + 1)) == NextLive(t'.hashes, it + 1)
  {
    var t' := if p(t.keys[it], t.values[it]) then EraseAt(t, env.keyDefault, env.default, it) else t;
    SweepHere(t, env, p, it);
    EraseKeepsVisits(t, env, it);
    hide Sweep, Visits, NextLive;
    SweepNext(t', env, p, it + 1);
    VisitsNext(t'.hashes, it + 1);
  }

  lemma SweepHere<K, V>(t: Table<K, V>, env: Env<K, V>, p: (K, V) -> bool, it: nat)
    requires t.Aligned() && t.Live(it)
    ensures
      Sweep(t, env, p, it) ==
        Sweep(if p(t.keys[it], t.values[it]) then EraseAt(t, env.keyDefault, env.default, it) else t, env, p, it + 1)
  {
    assert NextLive(t.hashes, it) == it;
  }

  lemma SweepEnd<K, V>(t: Table<K, V>, env: Env<K, V>, p: (K, V) -> bool)
    requires t.Aligned()
    ensures Sweep(t, env, p, t.Cap()) == t && Visits(t.hashes, t.Cap()) == []
  {
  }

  /** The same loop, but it = erase(it) for the entries that satisfy p: it still visits every original entry. */
  method EraseIf<K, V>(m: DaslangHashMap<K, V>, p: (K, V) -> bool) returns (visited: seq<nat>)
    requires m.Ok()
    modifies m
    ensures m.Ok() && m.State() == Sweep(old(m.State()), m.env, p, 0)
    ensures visited == Visits(old(m.hashes), 0)
  {
    visited := [];
    hide WellFormed, EraseAt, Visits, NextLive, Sweep, Seen;
    OkAligned(m);
    SweepNext(m.State(), m.env, p, 0);
    VisitsNext(m.hashes, 0);
    VisitsBeginAndEnd(m.hashes, []);
    ghost var all, swept := Visits(m.hashes, 0), Sweep(m.State(), m.env, p, 0);
    var it := m.Begin();
    while it != |m.hashes|
      invariant m.Ok() && m.State().Aligned() && |m.hashes| == |old(m.hashes)|
      invariant it <= |m.hashes| && it == NextLive(m.hashes, it)
      invariant Sweep(m.State(), m.env, p, it) == swept
      invariant Seen(visited, m.hashes, it) == all
      decreases |m.hashes| - it
    {
      SweepStep(m.State(), m.env, p, it);
      ghost var before, h := visited, m.hashes;
      visited := visited + [it];
      if p(m.keys[it], m.values[it]) {
        it := m.EraseIterator(it);
        OkAligned(m);
      } else {
        it := m.Next(it);
      }
      VisitStep(before, h, m.hashes, visited[|before|]);
    }
    SweepEnd(m.State(), m.env, p);
    VisitsBeginAndEnd(m.hashes, visited);
  }

  // ----- runs

  /** One operation of a run. */
  method Perform<K(==), V>(m: DaslangHashMap<K, V>, op: Op<K, V>) returns (answer: Answer<V>)
    requires m.Ok()
    modifies m
    ensures m.Ok() && (m.State(), answer) == Step(old(m.State()), m.env, op)
    ensures m.scanned == old(m.scanned) + Cost(old(m.State()), op)
  {
    hide WellFormed, Step, Cost;
    CostIs(m.State(), op);
    match op
    case Insert(key, value) =>
      var _, inserted := m.Insert(key, value);
      answer := Inserted(inserted);
    case TryEmplace(key, value) =>
      var _, inserted := m.TryEmplace(key, value);
      answer := Inserted(inserted);
    case Index(key) =>
      var slot := m.Index(key);
      OkAligned(m);
      answer := Got(m.values[slot]);
    case Assign(key, value) =>
      m.Assign(key, value);
      answer := Done;
    case Erase(key) =>
      var erased := m.Erase(key);
      answer := Erased(erased);
    case Lookup(key) =>
      var found := m.Lookup(key);
      answer := Found(found);
    case Reserve(n) =>
      m.Reserve(n);
      answer := Done;
    case Clear =>
      m.Clear();
      answer := Done;
  }

  lemma CostIs<K, V>(t: Table<K, V>, op: Op<K, V>)
    ensures op.Lookup? || op.Clear? ==> Cost(t, op) == 0
  {
  }

  /** A whole run on a new map. Its answers are a finite map's if no key hashes to a sentinel; and unless it reserves,
      its rehashes scan at most four slots for each operation. */
  method PerformAll<K(==), V>(env: Env<K, V>, ops: seq<Op<K, V>>)
    returns (m: DaslangHashMap<K, V>, answers: seq<Answer<V>>)
    ensures fresh(m) && m.env == env && m.Ok() && WellFormed(Cleared<K, V>(), env.default)
    ensures (m.State(), answers) == Run(Cleared(), env, ops) && m.scanned == RunCost(Cleared(), env, ops)
    ensures (forall op :: op in ops ==> GoodHash(env, op)) ==>
      Refines(m.State(), env, MapRun(map[], env, ops).0) && answers == MapRun(map[], env, ops).1
    ensures (forall op :: op in ops ==> !op.Reserve?) ==> m.scanned <= 4 * |ops| && |m.hashes| <= Max(8, 4 * |ops|)
  {
    ClearedWellFormed<K, V>(env.default);
    m := new DaslangHashMap(env);
    answers := [];
    ghost var t := m.State();
    RunBegins(t, env, ops);
    hide WellFormed, Run, RunCost, RunFrom, Step, Cost;
    for i := 0 to |ops|
      invariant fresh(m) && m.env == env && m.Ok()
      invariant RunFrom(t, env, ops, i, m.State(), answers, m.scanned)
    {
      ghost var before, cost := m.State(), m.scanned;
      var answer := Perform(m, ops[i]);
      RunStep(t, env, ops, i, before, answers, cost);
      answers := answers + [answer];
    }
    RunEnd(t, env, ops, m.State(), answers, m.scanned);
    if forall op :: op in ops ==> GoodHash(env, op) { RunRefines(env, ops); }
    if forall op :: op in ops ==> !op.Reserve? {
      RehashIsAmortized(env, ops);
      SpaceIsLinear(env, ops);
    }
  }

  /** The first i operations are done, and what is left of the run starts from here. */
  ghost predicate RunFrom<K, V>(t: Table<K, V>, env: Env<K, V>, ops: seq<Op<K, V>>, i: nat, now: Table<K, V>,
      answers: seq<Answer<V>>, cost: nat)
    requires WellFormed(t, env.default) && WellFormed(now, env.default) && i <= |ops|
  {
    && Run(t, env, ops) == (Run(now, env, ops[i..]).0, answers + Run(now, env, ops[i..]).1)
    && RunCost(t, env, ops) == cost + RunCost(now, env, ops[i..])
  }

  lemma RunBegins<K, V>(t: Table<K, V>, env: Env<K, V>, ops: seq<Op<K, V>>)
    requires WellFormed(t, env.default)
    ensures RunFrom(t, env, ops, 0, t, [], 0)
  {
    hide WellFormed, Run, RunCost;
    assert ops[0..] == ops;
    var answers := Run(t, env, ops).1;
    assert [] + answers == answers;
  }

  lemma RunStep<K, V>(t: Table<K, V>, env: Env<K, V>, ops: seq<Op<K, V>>, i: nat, now: Table<K, V>,
      answers: seq<Answer<V>>, cost: nat)
    requires WellFormed(t, env.default) && WellFormed(now, env.default) && i < |ops|
    requires RunFrom(t, env, ops, i, now, answers, cost)
    ensures
      var (next, answer) := Step(now, env, ops[i]);
      RunFrom(t, env, ops, i + 1, next, answers + [answer], cost + Cost(now, ops[i]))
  {
    hide WellFormed, Step, Cost;
    assert ops[i..][1..] == ops[i + 1..];
    var (next, answer) := Step(now, env, ops[i]);
    var rest := Run(next, env, ops[i + 1..]).1;
    assert answers + ([answer] + rest) == answers + [answer] + rest;
  }

  lemma RunEnd<K, V>(t: Table<K, V>, env: Env<K, V>, ops: seq<Op<K, V>>, now: Table<K, V>, answers: seq<Answer<V>>,
      cost: nat)
    requires WellFormed(t, env.default) && WellFormed(now, env.default)
    requires RunFrom(t, env, ops, |ops|, now, answers, cost)
    ensures Run(t, env, ops) == (now, answers) && RunCost(t, env, ops) == cost
  {
    hide WellFormed, Step, Cost;
    assert ops[|ops|..] == [];
    assert answers + [] == answers;
  }
}
