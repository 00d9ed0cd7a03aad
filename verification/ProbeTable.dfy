/** An open-addressing table with linear probing and tombstones: three parallel sequences and two counters.
    Capacities are powers of two, so that `hash & (capacity - 1)` is `hash % capacity`. */
module ProbeTable {
  import opened Wrappers
  import opened Arith

  const EMPTY: u64 := 0
  const KILLED: u64 := 1
  const REMAP: u64 := 1099511628211
  const MIN_CAPACITY: nat := 8

  /** to_hash_key: the two sentinels are never stored for a key. */
  function ToHashKey(h: u64): (r: u64)
    ensures r > KILLED
    ensures h > KILLED <==> r == h
  {
    if h <= KILLED then REMAP else h
  }

  datatype Table<K, V> = Table(hashes: seq<u64>, keys: seq<K>, values: seq<V>, size: int, tombstones: int) {
    function Cap(): nat { |hashes| }

    predicate Live(j: int) { 0 <= j < |hashes| && hashes[j] > KILLED }

    predicate Aligned() { |keys| == |hashes| && |values| == |hashes| }
  }

  // ----- probing

  /** The slot after i steps of next_probe_slot. */
  function Slot(cap: nat, start: nat, i: nat): (s: nat)
    requires cap > 0
    ensures s < cap
  {
    DivModDefinition(start + i, cap);
    (start + i) % cap
  }

  function NextSlot(cap: nat, s: nat): nat
    requires cap > 0
  {
    Slot(cap, s, 1)
  }

  lemma SlotNext(cap: nat, start: nat, i: nat)
    requires cap > 0
    ensures NextSlot(cap, Slot(cap, start, i)) == Slot(cap, start, i + 1)
  {
    var q, r := (start + i) / cap, (start + i) % cap;
    DivModDefinition(start + i, cap);
    if r + 1 < cap {
      DivModUnique(start + i + 1, cap, q, r + 1);
      DivModUnique(r + 1, cap, 0, r + 1);
    } else {
      MulDistributes(q, 1, cap);
      DivModUnique(start + i + 1, cap, q + 1, 0);
      DivModUnique(r + 1, cap, 1, 0);
    }
  }

  lemma SlotZero(cap: nat, start: nat)
    requires start < cap
    ensures Slot(cap, start, 0) == start
  {
    DivModUnique(start, cap, 0, start);
  }

  /** Every slot is on every probe sequence. */
  lemma SlotReached(cap: nat, start: nat, s: nat) returns (i: nat)
    requires start < cap && s < cap
    ensures i < cap && Slot(cap, start, i) == s
  {
    if s >= start {
      i := s - start;
      DivModUnique(start + i, cap, 0, s);
    } else {
      i := s - start + cap;
      DivModUnique(start + i, cap, 1, s);
    }
  }

  ghost predicate EmptyAhead(h: seq<u64>, start: nat, i: nat) {
    exists e: nat :: i <= e < |h| && h[Slot(|h|, start, e)] == EMPTY
  }

  lemma SomeEmptyAhead(h: seq<u64>, start: nat)
    requires EMPTY in h && start < |h|
    ensures EmptyAhead(h, start, 0)
  {
    var s :| 0 <= s < |h| && h[s] == EMPTY;
    var e := SlotReached(|h|, start, s);
  }

  /** Where the loops of find_index and reserve_slot end: an EMPTY slot or the key's own. */
  predicate Stops<K(==), V>(t: Table<K, V>, key: K, hashKey: u64, s: nat)
    requires t.Aligned() && s < t.Cap()
  {
    t.hashes[s] == EMPTY || (t.hashes[s] == hashKey && t.keys[s] == key)
  }

  function StopAt<K(==), V>(t: Table<K, V>, key: K, hashKey: u64, start: nat, i: nat): (j: nat)
    requires t.Aligned() && EmptyAhead(t.hashes, start, i)
    ensures i <= j < t.Cap() && Stops(t, key, hashKey, Slot(t.Cap(), start, j))
    ensures forall e: nat :: i <= e < j ==> !Stops(t, key, hashKey, Slot(t.Cap(), start, e))
    decreases t.Cap() - i
  {
    if Stops(t, key, hashKey, Slot(t.Cap(), start, i)) then i else StopAt(t, key, hashKey, start, i + 1)
  }

  lemma StopAtUnique<K, V>(t: Table<K, V>, key: K, hashKey: u64, start: nat, i: nat, j: nat)
    requires t.Aligned() && i <= j < t.Cap() && Stops(t, key, hashKey, Slot(t.Cap(), start, j))
    requires forall e: nat :: i <= e < j ==> !Stops(t, key, hashKey, Slot(t.Cap(), start, e))
    requires EmptyAhead(t.hashes, start, i)
    ensures StopAt(t, key, hashKey, start, i) == j
  {
  }

  /** The first EMPTY slot, for the loop of rehash_into. */
  function FirstEmpty(h: seq<u64>, start: nat, i: nat): (j: nat)
    requires EmptyAhead(h, start, i)
    ensures i <= j < |h| && h[Slot(|h|, start, j)] == EMPTY
    ensures forall e: nat :: i <= e < j ==> h[Slot(|h|, start, e)] != EMPTY
    decreases |h| - i
  {
    if h[Slot(|h|, start, i)] == EMPTY then i else FirstEmpty(h, start, i + 1)
  }

  /** The first tombstone in the steps from i to n; n if there is none. */
  function FirstKilled(h: seq<u64>, start: nat, i: nat, n: nat): (f: nat)
    requires i <= n <= |h|
    ensures i <= f <= n && (f < n ==> h[Slot(|h|, start, f)] == KILLED)
    ensures forall e: nat :: i <= e < f ==> h[Slot(|h|, start, e)] != KILLED
    decreases n - i
  {
    if i == n || h[Slot(|h|, start, i)] == KILLED then i else FirstKilled(h, start, i + 1, n)
  }

  // ----- the load invariant

  predicate IsPowerOfTwo(n: nat) {
    n == 1 || (n > 0 && n % 2 == 0 && IsPowerOfTwo(n / 2))
  }

  lemma PowerOfTwoDoubles(n: nat)
    requires IsPowerOfTwo(n)
    ensures IsPowerOfTwo(2 * n)
  {
  }

  lemma PowerOfTwoIsMultiple(n: nat)
    requires IsPowerOfTwo(n) && n >= MIN_CAPACITY
    ensures n % 8 == 0
  {
    assert n % 2 == 0 && IsPowerOfTwo(n / 2);
    assert (n / 2) % 2 == 0 && IsPowerOfTwo(n / 4) by { assert n / 2 / 2 == n / 4; }
    assert (n / 4) % 2 == 0;
  }

  predicate IsCapacity(n: nat) {
    n == 0 || (n >= MIN_CAPACITY && IsPowerOfTwo(n))
  }

  /** The counters count, the table is at most half full and with its tombstones at most three quarters full, and what
      is not live holds the default value. */
  ghost predicate WellFormed<K, V>(t: Table<K, V>, default: V) {
    && t.Aligned() && IsCapacity(t.Cap())
    && t.size >= 0 && t.tombstones == multiset(t.hashes)[KILLED]
    && t.size + t.tombstones == t.Cap() - multiset(t.hashes)[EMPTY]
    && 2 * t.size <= t.Cap() && 4 * (t.size + t.tombstones) <= 3 * t.Cap()
    && DefaultsOutside(t, default)
  }

  ghost predicate DefaultsOutside<K, V>(t: Table<K, V>, default: V)
    requires t.Aligned()
  {
    forall j :: 0 <= j < t.Cap() && !t.Live(j) ==> t.values[j] == default
  }

  /** So every probe loop ends. */
  lemma ProbeEnds<K, V>(t: Table<K, V>, default: V, start: nat)
    requires WellFormed(t, default) && start < t.Cap()
    ensures EmptyAhead(t.hashes, start, 0)
  {
    assert multiset(t.hashes)[EMPTY] > 0;
    SomeEmptyAhead(t.hashes, start);
  }

  /** The slot where probing for a raw hash starts. */
  function Start(cap: nat, raw: u64): (s: nat)
    requires cap > 0
    ensures s < cap
  {
    Slot(cap, raw, 0)
  }

  // ----- find_index

  ghost function Find<K, V>(t: Table<K, V>, default: V, key: K, raw: u64): Option<nat>
    requires WellFormed(t, default)
  {
    if t.Cap() == 0 then None else
      ProbeEnds(t, default, Start(t.Cap(), raw));
      var s := Slot(t.Cap(), Start(t.Cap(), raw), StopAt(t, key, ToHashKey(raw), Start(t.Cap(), raw), 0));
      if t.hashes[s] == EMPTY then None else Some(s)
  }

  lemma FindIsLive<K, V>(t: Table<K, V>, default: V, key: K, raw: u64)
    requires WellFormed(t, default)
    ensures
      var r := Find(t, default, key, raw);
      r.Some? ==> t.Live(r.value)
  {
    if t.Cap() > 0 {
      ProbeEnds(t, default, Start(t.Cap(), raw));
    }
  }

  // ----- rehash_into

  function EmptyTable<K, V>(cap: nat, keyDefault: K, default: V): Table<K, V> {
    Table(seq(cap, _ => EMPTY), seq(cap, _ => keyDefault), seq(cap, _ => default), 0, 0)
  }

  lemma {:induction false} EmptyCount(n: nat)
    ensures multiset(seq(n, _ => EMPTY))[EMPTY] == n && multiset(seq(n, _ => EMPTY))[KILLED] == 0
  {
    if n > 0 {
      EmptyCount(n - 1);
      assert seq(n, _ => EMPTY) == seq(n - 1, _ => EMPTY) + [EMPTY];
    }
  }

  /** How many of the first i slots are live. */
  ghost function LiveCount(h: seq<u64>, i: nat): int
    requires i <= |h|
  {
    i - multiset(h[..i])[EMPTY] - multiset(h[..i])[KILLED]
  }

  lemma LiveCountStep(h: seq<u64>, i: nat)
    requires i < |h|
    ensures LiveCount(h, i + 1) == LiveCount(h, i) + if h[i] > KILLED then 1 else 0
    ensures LiveCount(h, 0) == 0
  {
    assert h[..i + 1] == h[..i] + [h[i]];
  }

  lemma {:induction false} LiveCountGrows(h: seq<u64>, i: nat, j: nat)
    requires i <= j <= |h|
    ensures LiveCount(h, i) <= LiveCount(h, j)
    decreases j - i
  {
    if i < j {
      LiveCountStep(h, i);
      LiveCountGrows(h, i + 1, j);
    }
  }

  /** Put an entry into the first EMPTY slot from its hash on. */
  function Place<K, V>(p: Table<K, V>, kh: u64, key: K, value: V): Table<K, V>
    requires p.Aligned() && p.Cap() > 0 && EmptyAhead(p.hashes, Start(p.Cap(), kh), 0)
  {
    var j := Slot(p.Cap(), Start(p.Cap(), kh), FirstEmpty(p.hashes, Start(p.Cap(), kh), 0));
    Table(p.hashes[j := kh], p.keys[j := key], p.values[j := value], p.size + 1, p.tombstones)
  }

  lemma PlaceCounts<K, V>(p: Table<K, V>, kh: u64, key: K, value: V)
    requires p.Aligned() && p.Cap() > 0 && EmptyAhead(p.hashes, Start(p.Cap(), kh), 0) && kh > KILLED
    ensures
      var p' := Place(p, kh, key, value);
      && p'.Aligned() && p'.Cap() == p.Cap()
      && multiset(p'.hashes)[EMPTY] == multiset(p.hashes)[EMPTY] - 1
      && multiset(p'.hashes)[KILLED] == multiset(p.hashes)[KILLED]
  {
  }

  /** The new table after the first i slots of the old one. */
  ghost function Rehashed<K, V>(t: Table<K, V>, cap: nat, keyDefault: K, default: V, i: nat): (p: Table<K, V>)
    requires t.Aligned() && i <= t.Cap() && LiveCount(t.hashes, t.Cap()) < cap
    ensures p.Aligned() && p.Cap() == cap && p.tombstones == 0 && p.size == LiveCount(t.hashes, i)
    ensures multiset(p.hashes)[KILLED] == 0 && multiset(p.hashes)[EMPTY] == cap - p.size > 0
  {
    LiveCountGrows(t.hashes, i, t.Cap());
    if i == 0 then
      EmptyCount(cap);
      EmptyTable(cap, keyDefault, default)
    else
      var p := Rehashed(t, cap, keyDefault, default, i - 1);
      LiveCountStep(t.hashes, i - 1);
      if t.hashes[i - 1] <= KILLED then p else
        SomeEmptyAhead(p.hashes, Start(cap, t.hashes[i - 1]));
        PlaceCounts(p, t.hashes[i - 1], t.keys[i - 1], t.values[i - 1]);
        Place(p, t.hashes[i - 1], t.keys[i - 1], t.values[i - 1])
  }

  lemma {:induction false} RehashedDefaults<K, V>(t: Table<K, V>, cap: nat, keyDefault: K, default: V, i: nat)
    requires t.Aligned() && i <= t.Cap() && LiveCount(t.hashes, t.Cap()) < cap
    ensures DefaultsOutside(Rehashed(t, cap, keyDefault, default, i), default)
  {
    hide DefaultsOutside, Place, EmptyAhead, LiveCount;
    if i == 0 {
      EmptyDefaults(cap, keyDefault, default);
    } else {
      RehashedDefaults(t, cap, keyDefault, default, i - 1);
      var p := Rehashed(t, cap, keyDefault, default, i - 1);
      if t.hashes[i - 1] > KILLED {
        SomeEmptyAhead(p.hashes, Start(cap, t.hashes[i - 1]));
        PlaceDefaults(p, t.hashes[i - 1], t.keys[i - 1], t.values[i - 1], default);
      }
    }
  }

  lemma EmptyDefaults<K, V>(cap: nat, keyDefault: K, default: V)
    ensures DefaultsOutside(EmptyTable(cap, keyDefault, default), default)
  {
  }

  lemma PlaceDefaults<K, V>(p: Table<K, V>, kh: u64, key: K, value: V, default: V)
    requires p.Aligned() && p.Cap() > 0 && EmptyAhead(p.hashes, Start(p.Cap(), kh), 0) && kh > KILLED
    requires DefaultsOutside(p, default)
    ensures var p' := Place(p, kh, key, value); p'.Aligned() && DefaultsOutside(p', default)
  {
    var p' := Place(p, kh, key, value);
    forall j | 0 <= j < p'.Cap() && !p'.Live(j) ensures p'.values[j] == default {
      assert !p.Live(j);
    }
  }

  lemma AllLive<K, V>(t: Table<K, V>, default: V)
    requires WellFormed(t, default)
    ensures LiveCount(t.hashes, t.Cap()) == t.size
  {
    assert t.hashes[..t.Cap()] == t.hashes;
  }

  ghost function RehashInto<K, V>(t: Table<K, V>, cap: nat, keyDefault: K, default: V): (p: Table<K, V>)
    requires WellFormed(t, default) && IsCapacity(cap) && t.size < cap
    ensures p.Aligned() && p.Cap() == cap && p.size == t.size && p.tombstones == 0
    ensures 2 * t.size <= cap ==> WellFormed(p, default)
  {
    AllLive(t, default);
    RehashedDefaults(t, cap, keyDefault, default, t.Cap());
    Rehashed(t, cap, keyDefault, default, t.Cap())
  }

  // ----- reserve_slot

  function GrownCapacity(cap: nat): nat {
    if cap == 0 then MIN_CAPACITY else 2 * cap
  }

  /** When an insertion must rehash first, and into how many slots. */
  predicate MustGrow<K, V>(t: Table<K, V>) { t.size >= t.Cap() / 2 }

  predicate MustClean<K, V>(t: Table<K, V>) { !MustGrow(t) && (t.Cap() - t.size) / 2 < t.tombstones }

  function RoomCapacity<K, V>(t: Table<K, V>): nat {
    if MustGrow(t) then GrownCapacity(t.Cap()) else t.Cap()
  }

  /** After the rehash, if any, one more entry can be added. */
  ghost predicate HasRoom<K, V>(t: Table<K, V>) {
    t.Cap() > 0 && 2 * (t.size + 1) <= t.Cap() && 4 * (t.size + 1 + t.tombstones) <= 3 * t.Cap()
  }

  lemma GrownIsCapacity(cap: nat)
    requires IsCapacity(cap)
    ensures IsCapacity(GrownCapacity(cap))
    ensures cap % 8 == 0
  {
    if cap > 0 {
      PowerOfTwoDoubles(cap);
      PowerOfTwoIsMultiple(cap);
    }
  }

  ghost function MakeRoom<K, V>(t: Table<K, V>, keyDefault: K, default: V): (p: Table<K, V>)
    requires WellFormed(t, default)
    ensures WellFormed(p, default) && HasRoom(p) && p.size == t.size
    ensures p.Cap() == RoomCapacity(t) && p.tombstones == if MustGrow(t) || MustClean(t) then 0 else t.tombstones
  {
    hide IsPowerOfTwo, DefaultsOutside, Rehashed;
    GrownIsCapacity(t.Cap());
    RoomFor(t.Cap(), t.size, t.tombstones);
    if MustGrow(t) || MustClean(t) then RehashInto(t, RoomCapacity(t), keyDefault, default) else t
  }

  /** In the numbers alone: the grown table has room, the cleaned one has, and so has one that needs neither. */
  lemma RoomFor(cap: nat, size: int, tombstones: int)
    requires cap % 8 == 0 && 0 <= 2 * size <= cap && 0 <= tombstones
    ensures size < GrownCapacity(cap) && 2 * (size + 1) <= GrownCapacity(cap)
    ensures 4 * (size + 1) <= 3 * GrownCapacity(cap)
    ensures size < cap / 2 ==> 0 < cap && 2 * (size + 1) <= cap && 4 * (size + 1) <= 3 * cap
    ensures size < cap / 2 && tombstones <= (cap - size) / 2 ==> 4 * (size + 1 + tombstones) <= 3 * cap
  {
    var k := cap / 8;
    assert cap == 8 * k && cap / 2 == 4 * k;
    if size < cap / 2 && tombstones <= (cap - size) / 2 {
      assert 2 * tombstones <= cap - size;
      assert size == 4 * k - 1 ==> tombstones <= 2 * k;
    }
  }

  datatype Reserved<K, V> = Reserved(table: Table<K, V>, index: nat, inserted: bool)

  /** The probe of reserve_slot: the key's own slot, or else the first tombstone on the way, or else the EMPTY slot. */
  ghost function PutKey<K, V>(t: Table<K, V>, default: V, key: K, raw: u64): Reserved<K, V>
    requires WellFormed(t, default) && t.Cap() > 0
  {
    var start := Start(t.Cap(), raw);
    ProbeEnds(t, default, start);
    var j := StopAt(t, key, ToHashKey(raw), start, 0);
    var s := Slot(t.Cap(), start, j);
    if t.hashes[s] != EMPTY then Reserved(t, s, false) else
      var f := FirstKilled(t.hashes, start, 0, j);
      var slot := Slot(t.Cap(), start, f);
      Reserved(Table(t.hashes[slot := ToHashKey(raw)], t.keys[slot := key], t.values, t.size + 1,
                     if f < j then t.tombstones - 1 else t.tombstones), slot, true)
  }

  /** A new key takes the first free slot on its path, tombstone or EMPTY. */
  lemma TakesFirstFree<K, V>(t: Table<K, V>, default: V, key: K, raw: u64) returns (d: nat)
    requires WellFormed(t, default) && t.Cap() > 0 && PutKey(t, default, key, raw).inserted
    ensures d < t.Cap() && PutKey(t, default, key, raw).index == Slot(t.Cap(), Start(t.Cap(), raw), d)
    ensures !t.Live(Slot(t.Cap(), Start(t.Cap(), raw), d))
    ensures forall e: nat | e < d :: t.Live(Slot(t.Cap(), Start(t.Cap(), raw), e))
  {
    var start := Start(t.Cap(), raw);
    ProbeEnds(t, default, start);
    d := FirstKilled(t.hashes, start, 0, StopAt(t, key, ToHashKey(raw), start, 0));
  }

  ghost function Reserve<K, V>(t: Table<K, V>, keyDefault: K, default: V, key: K, raw: u64): (r: Reserved<K, V>)
    requires WellFormed(t, default)
  {
    PutKey(MakeRoom(t, keyDefault, default), default, key, raw)
  }

  /** The table stays well-formed, and the slot returned holds the key's hash. */
  lemma PutKeyWellFormed<K, V>(t: Table<K, V>, default: V, key: K, raw: u64)
    requires WellFormed(t, default) && HasRoom(t)
    ensures
      var r := PutKey(t, default, key, raw);
      && WellFormed(r.table, default) && r.table.Cap() == t.Cap() && r.table.Live(r.index)
      && r.table.hashes[r.index] == ToHashKey(raw) && r.table.keys[r.index] == key
      && (r.inserted ==> !t.Live(r.index) && r.table.values[r.index] == default && r.table.size == t.size + 1)
      && (!r.inserted ==> r.table == t)
  {
  }

  // ----- erase, clear, reserve

  function EraseAt<K, V>(t: Table<K, V>, keyDefault: K, default: V, s: nat): Table<K, V>
    requires t.Aligned() && t.Live(s)
  {
    Table(t.hashes[s := KILLED], t.keys[s := keyDefault], t.values[s := default], t.size - 1, t.tombstones + 1)
  }

  lemma EraseWellFormed<K, V>(t: Table<K, V>, keyDefault: K, default: V, s: nat)
    requires WellFormed(t, default) && t.Live(s)
    ensures WellFormed(EraseAt(t, keyDefault, default, s), default)
  {
    EraseSize(t, default, s);
  }

  lemma EraseSize<K, V>(t: Table<K, V>, default: V, s: nat)
    requires WellFormed(t, default) && t.Live(s)
    ensures t.size >= 1
  {
    AllLive(t, default);
    LiveCountStep(t.hashes, s);
    LiveCountGrows(t.hashes, 0, s);
    LiveCountGrows(t.hashes, s + 1, t.Cap());
  }

  function Cleared<K, V>(): Table<K, V> {
    Table([], [], [], 0, 0)
  }

  lemma ClearedWellFormed<K, V>(default: V)
    ensures WellFormed(Cleared<K, V>(), default)
  {
  }

  function Needed(n: nat, c: nat): (r: nat)
    requires c > 0
    ensures r >= c && r >= 2 * n && (r == c || r < 4 * n)
    decreases 2 * n - c
  {
    if c < 2 * n then Needed(n, 2 * c) else c
  }

  lemma {:induction false} NeededIsCapacity(n: nat, c: nat)
    requires IsCapacity(c) && c > 0
    ensures IsCapacity(Needed(n, c))
    decreases 2 * n - c
  {
    if c < 2 * n {
      PowerOfTwoDoubles(c);
      NeededIsCapacity(n, 2 * c);
    }
  }

  ghost function ReserveFor<K, V>(t: Table<K, V>, keyDefault: K, default: V, n: nat): (p: Table<K, V>)
    requires WellFormed(t, default)
    ensures WellFormed(p, default) && p.size == t.size && p.Cap() >= t.Cap() && p.Cap() >= 2 * n
    ensures p.Cap() == t.Cap() || p.Cap() == 8 || p.Cap() < 4 * n
  {
    NeededIsCapacity(n, MIN_CAPACITY);
    if n > 0 && Needed(n, MIN_CAPACITY) > t.Cap()
    then RehashInto(t, Needed(n, MIN_CAPACITY), keyDefault, default)
    else t
  }
}
