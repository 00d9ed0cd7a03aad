/** Whole runs of a hash map: refinement to a finite map, the load invariant, and the cost of rehashing. */
module HashRuns {
  import opened Wrappers
  import opened Arith
  import opened ProbeTable
  import opened MapRefinement

  /** `Assign` is m[key] = value; `Index` reads m[key]. */
  datatype Op<K, V> =
    | Insert(key: K, value: V)
    | TryEmplace(key: K, value: V)
    | Index(key: K)
    | Assign(key: K, value: V)
    | Erase(key: K)
    | Lookup(key: K)
    | Reserve(n: nat)
    | Clear

  datatype Answer<V> = Done | Inserted(inserted: bool) | Got(value: V) | Erased(erased: bool) | Found(found: Option<V>)

  /** The hasher, and the values that K{} and V{} give. */
  datatype Env<!K, V> = Env(hash: K -> u64, keyDefault: K, default: V)

  predicate UsesKey<K, V>(op: Op<K, V>) {
    op.Insert? || op.TryEmplace? || op.Index? || op.Assign? || op.Erase? || op.Lookup?
  }

  predicate MayInsert<K, V>(op: Op<K, V>) {
    op.Insert? || op.TryEmplace? || op.Index? || op.Assign?
  }

  // ----- one step of the table

  /** What is written into the slot that reserve_slot returns. */
  function Stored<K, V>(op: Op<K, V>, inserted: bool, current: V): V
    requires MayInsert(op)
  {
    match op
    case Insert(_, value) => if inserted then value else current
    case TryEmplace(_, value) => if inserted then value else current
    case Index(_) => current
    case Assign(_, value) => value
  }

  function Replied<K, V>(op: Op<K, V>, inserted: bool, current: V): Answer<V>
    requires MayInsert(op)
  {
    match op
    case Insert(_, _) => Inserted(inserted)
    case TryEmplace(_, _) => Inserted(inserted)
    case Index(_) => Got(current)
    case Assign(_, _) => Done
  }

  lemma ReserveWellFormed<K, V>(t: Table<K, V>, env: Env<K, V>, key: K)
    requires WellFormed(t, env.default)
    ensures
      var r := ProbeTable.Reserve(t, env.keyDefault, env.default, key, env.hash(key));
      WellFormed(r.table, env.default) && r.table.Live(r.index)
  {
    hide WellFormed, PutKey;
    PutKeyWellFormed(MakeRoom(t, env.keyDefault, env.default), env.default, key, env.hash(key));
  }

  /** Whatever the hash function, every operation keeps the load invariant, so every probe of every run ends. */
  ghost function Step<K, V>(t: Table<K, V>, env: Env<K, V>, op: Op<K, V>): (r: (Table<K, V>, Answer<V>))
    requires WellFormed(t, env.default)
    ensures WellFormed(r.0, env.default)
  {
    if MayInsert(op) then
      ReserveWellFormed(t, env, op.key);
      var r := ProbeTable.Reserve(t, env.keyDefault, env.default, op.key, env.hash(op.key));
      var current := r.table.values[r.index];
      (WriteValue(r.table, r.index, Stored(op, r.inserted, current)), Replied(op, r.inserted, current))
    else match op
      case Erase(key) =>
        FindIsLive(t, env.default, key, env.hash(key));
        var s := Find(t, env.default, key, env.hash(key));
        if s.None? then (t, Erased(false)) else
          EraseWellFormed(t, env.keyDefault, env.default, s.value);
          (EraseAt(t, env.keyDefault, env.default, s.value), Erased(true))
      case Lookup(key) =>
        FindIsLive(t, env.default, key, env.hash(key));
        var s := Find(t, env.default, key, env.hash(key));
        (t, Found(if s.None? then None else Some(t.values[s.value])))
      case Reserve(n) => (ReserveFor(t, env.keyDefault, env.default, n), Done)
      case Clear => (Cleared(), Done)
  }

  // ----- one step of the finite map

  /** What the operations mean: insert and try_emplace keep the entry of a present key, m[key] enters the default for an
      absent one, and assigning to m[key] replaces what is there. */
  function MapStep<K, V>(m: map<K, V>, env: Env<K, V>, op: Op<K, V>): (map<K, V>, Answer<V>) {
    match op
    case Insert(key, value) => if key in m then (m, Inserted(false)) else (m[key := value], Inserted(true))
    case TryEmplace(key, value) => if key in m then (m, Inserted(false)) else (m[key := value], Inserted(true))
    case Index(key) => if key in m then (m, Got(m[key])) else (m[key := env.default], Got(env.default))
    case Assign(key, value) => (m[key := value], Done)
    case Erase(key) => (m - {key}, Erased(key in m))
    case Lookup(key) => (m, Found(if key in m then Some(m[key]) else None))
    case Reserve(_) => (m, Done)
    case Clear => (map[], Done)
  }

  ghost predicate GoodHash<K, V>(env: Env<K, V>, op: Op<K, V>) {
    UsesKey(op) ==> env.hash(op.key) > KILLED
  }

  /** The table is in order and stands for m. */
  ghost predicate Refines<K, V>(t: Table<K, V>, env: Env<K, V>, m: map<K, V>) {
    Valid(t, env.default, env.hash) && Represents(t, m)
  }

  lemma InsertRefines<K, V>(t: Table<K, V>, env: Env<K, V>, op: Op<K, V>, m: map<K, V>)
    requires Refines(t, env, m) && MayInsert(op) && env.hash(op.key) > KILLED
    ensures
      var (t', a) := Step(t, env, op);
      var (m', b) := MapStep(m, env, op);
      Refines(t', env, m') && a == b
  {
    hide WellFormed, Chained, PutKey, Represents, UniqueKeys;
    var key := op.key;
    var p := MakeRoom(t, env.keyDefault, env.default);
    MakeRoomRepresents(t, env.keyDefault, env.default, env.hash, m);
    PutKeyValid(p, env.default, env.hash, key);
    var r := PutKey(p, env.default, key, env.hash(key));
    var current := r.table.values[r.index];
    var value := Stored(op, r.inserted, current);
    PutRepresents(p, env.default, env.hash, key, value, m);
    WriteValid(r.table, env.default, env.hash, r.index, value);
    if !r.inserted {
      RewriteRepresents(r.table, r.index, value, m);
      KeptEntry(m, key);
    }
  }

  lemma KeptEntry<K, V>(m: map<K, V>, key: K)
    requires key in m
    ensures m[key := m[key]] == m
  {
  }

  /** Writing to the slot of a key that is there changes that key's value only. */
  lemma RewriteRepresents<K, V>(t: Table<K, V>, s: nat, value: V, m: map<K, V>)
    requires t.Aligned() && t.Live(s) && Represents(t, m)
    ensures Represents(WriteValue(t, s, value), m[t.keys[s] := value])
  {
    var t', m' := WriteValue(t, s, value), m[t.keys[s] := value];
    SameCardinality(m, t.keys[s], value);
    forall k | k in m' ensures HasKey(t', k) {
      assert HasKey(t, k);
      var j :| t.Live(j) && t.keys[j] == k;
      assert t'.Live(j) && t'.keys[j] == k;
    }
    assert forall j :: t'.Live(j) ==> t.Live(j);
    assert UniqueKeys(t');
  }

  lemma SameCardinality<K, V>(m: map<K, V>, key: K, value: V)
    requires key in m
    ensures m[key := value].Keys == m.Keys && |m[key := value]| == |m|
  {
    assert m[key := value].Keys == m.Keys;
    assert |m[key := value].Keys| == |m[key := value]| && |m.Keys| == |m|;
  }

  lemma FindRepresents<K, V>(t: Table<K, V>, env: Env<K, V>, key: K, m: map<K, V>)
    requires Refines(t, env, m) && env.hash(key) > KILLED
    ensures
      var s := Find(t, env.default, key, env.hash(key));
      (s.Some? <==> key in m) && (s.Some? ==> t.Live(s.value) && t.keys[s.value] == key && t.values[s.value] == m[key])
  {
    FindCorrect(t, env.default, env.hash, key);
    assert key in m ==> HasKey(t, key);
  }

  lemma RefinesAligned<K, V>(t: Table<K, V>, env: Env<K, V>, m: map<K, V>)
    requires Refines(t, env, m)
    ensures WellFormed(t, env.default) && t.Aligned()
  {
  }

  /** Every operation does to the table what it does to the map, with the same answer. */
  lemma StepRefines<K, V>(t: Table<K, V>, env: Env<K, V>, op: Op<K, V>, m: map<K, V>)
    requires Refines(t, env, m) && GoodHash(env, op)
    ensures
      var (t', a) := Step(t, env, op);
      var (m', b) := MapStep(m, env, op);
      Refines(t', env, m') && a == b
  {
    hide WellFormed, Chained, Find, Represents, UniqueKeys;
    if MayInsert(op) {
      InsertRefines(t, env, op, m);
    } else {
      match op
      case Erase(key) =>
        RefinesAligned(t, env, m);
        FindRepresents(t, env, key, m);
        var s := Find(t, env.default, key, env.hash(key));
        if s.Some? {
          EraseValid(t, env.keyDefault, env.default, env.hash, s.value);
          EraseRepresents(t, env.keyDefault, env.default, s.value, m);
        } else {
          assert m - {key} == m;
        }
      case Lookup(key) => FindRepresents(t, env, key, m);
      case Reserve(n) => ReserveForRepresents(t, env.keyDefault, env.default, env.hash, n, m);
      case Clear => ClearedRepresents<K, V>(env.default, env.hash);
    }
  }

  // ----- runs

  ghost function Run<K, V>(t: Table<K, V>, env: Env<K, V>, ops: seq<Op<K, V>>): (r: (Table<K, V>, seq<Answer<V>>))
    requires WellFormed(t, env.default)
    ensures WellFormed(r.0, env.default)
    decreases |ops|
  {
    if ops == [] then (t, []) else
      var (t', a) := Step(t, env, ops[0]);
      var (t'', rest) := Run(t', env, ops[1..]);
      (t'', [a] + rest)
  }

  function MapRun<K, V>(m: map<K, V>, env: Env<K, V>, ops: seq<Op<K, V>>): (map<K, V>, seq<Answer<V>>)
    decreases |ops|
  {
    if ops == [] then (m, []) else
      var (m', a) := MapStep(m, env, ops[0]);
      var (m'', rest) := MapRun(m', env, ops[1..]);
      (m'', [a] + rest)
  }

  lemma {:induction false} RunRefinesFrom<K, V>(t: Table<K, V>, env: Env<K, V>, ops: seq<Op<K, V>>, m: map<K, V>)
    requires Refines(t, env, m) && forall op :: op in ops ==> GoodHash(env, op)
    ensures
      var (t', answers) := Run(t, env, ops);
      var (m', expected) := MapRun(m, env, ops);
      Refines(t', env, m') && answers == expected
    decreases |ops|
  {
    hide Refines, Step, MapStep;
    assert WellFormed(t, env.default) by { RefinesAligned(t, env, m); }
    if ops != [] {
      assert ops[0] in ops;
      StepRefines(t, env, ops[0], m);
      RunRefinesFrom(Step(t, env, ops[0]).0, env, ops[1..], MapStep(m, env, ops[0]).0);
    }
  }

  /** Every run from an empty table gives the answers of a finite map, and ends in a table that stands for it. */
  lemma RunRefines<K, V>(env: Env<K, V>, ops: seq<Op<K, V>>)
    requires forall op :: op in ops ==> GoodHash(env, op)
    ensures WellFormed(Cleared<K, V>(), env.default)
    ensures
      var (t', answers) := Run(Cleared<K, V>(), env, ops);
      var (m', expected) := MapRun(map[], env, ops);
      Refines(t', env, m') && answers == expected
  {
    ClearedRepresents<K, V>(env.default, env.hash);
    RunRefinesFrom(Cleared<K, V>(), env, ops, map[]);
  }

  // ----- the cost of rehashing

  /** The slots scanned by rehash_into during an operation. */
  function Cost<K, V>(t: Table<K, V>, op: Op<K, V>): nat {
    if MayInsert(op) && (MustGrow(t) || MustClean(t)) then t.Cap()
    else if op.Reserve? && op.n > 0 && Needed(op.n, MIN_CAPACITY) > t.Cap() then t.Cap()
    else 0
  }

  ghost function RunCost<K, V>(t: Table<K, V>, env: Env<K, V>, ops: seq<Op<K, V>>): nat
    requires WellFormed(t, env.default)
    decreases |ops|
  {
    if ops == [] then 0 else Cost(t, ops[0]) + RunCost(Step(t, env, ops[0]).0, env, ops[1..])
  }

  function Saved(cap: int, size: int, tombstones: int): int {
    4 * Max(0, size - cap / 4) + 4 * tombstones
  }

  /** What earlier operations have saved up for the next rehash. */
  function Potential<K, V>(t: Table<K, V>): int {
    Saved(t.Cap(), t.size, t.tombstones)
  }

  lemma SizesAfterInsert<K, V>(t: Table<K, V>, env: Env<K, V>, op: Op<K, V>)
    requires WellFormed(t, env.default) && MayInsert(op)
    ensures
      var p, t' := MakeRoom(t, env.keyDefault, env.default), Step(t, env, op).0;
      && t'.Cap() == p.Cap()
      && ((t'.size == p.size && t'.tombstones == p.tombstones) ||
          (t'.size == p.size + 1 && p.tombstones - 1 <= t'.tombstones <= p.tombstones))
  {
    hide WellFormed;
    var p := MakeRoom(t, env.keyDefault, env.default);
    PutKeySizes(p, env.default, op.key, env.hash(op.key));
  }

  lemma PutKeySizes<K, V>(t: Table<K, V>, default: V, key: K, raw: u64)
    requires WellFormed(t, default) && t.Cap() > 0
    ensures
      var p := PutKey(t, default, key, raw).table;
      && p.Cap() == t.Cap()
      && ((p.size == t.size && p.tombstones == t.tombstones) ||
          (p.size == t.size + 1 && t.tombstones - 1 <= p.tombstones <= t.tombstones))
  {
  }

  lemma NonNegative<K, V>(t: Table<K, V>, env: Env<K, V>)
    requires WellFormed(t, env.default)
    ensures Potential(t) >= 0
  {
  }

  lemma AmortizedInsert<K, V>(t: Table<K, V>, env: Env<K, V>, op: Op<K, V>)
    requires WellFormed(t, env.default) && MayInsert(op)
    ensures Cost(t, op) + Potential(Step(t, env, op).0) - Potential(t) <= 4
  {
    assert t.tombstones >= 0 && 2 * t.size <= t.Cap();
    hide Step, PutKey, WellFormed, IsPowerOfTwo, Saved;
    SizesAfterInsert(t, env, op);
    GrownIsCapacity(t.Cap());
    var (p, t') := (MakeRoom(t, env.keyDefault, env.default), Step(t, env, op).0);
    PaidFor(t.Cap(), t.size, t.tombstones, t'.Cap(), t'.size, t'.tombstones, p.tombstones);
  }

  /** The same in the numbers alone. */
  lemma PaidFor(cap: int, size: int, tombstones: int, cap': int, size': int, tombstones': int, kept: int)
    requires cap % 8 == 0 && 0 <= 2 * size <= cap && tombstones >= 0 && size <= size' <= size + 1
    requires
      var (grow, clean) := (size >= cap / 2, (cap - size) / 2 < tombstones);
      && cap' == (if grow then GrownCapacity(cap) else cap) && kept == (if grow || clean then 0 else tombstones)
      && (if size' == size then tombstones' == kept else kept - 1 <= tombstones' <= kept)
    ensures
      var cost := if size >= cap / 2 || (cap - size) / 2 < tombstones then cap else 0;
      cost + Saved(cap', size', tombstones') - Saved(cap, size, tombstones) <= 4
  {
    if size >= cap / 2 {
      AfterGrowing(cap, size, tombstones, cap', size', tombstones');
    } else if (cap - size) / 2 < tombstones {
      AfterCleaning(cap, size, tombstones, size', tombstones');
    }
  }

  /** Growing a table that is half full is paid for by the quarter above its first. */
  lemma AfterGrowing(cap: int, size: int, tombstones: int, cap': int, size': int, tombstones': int)
    requires cap % 8 == 0 && size >= cap / 2 && 2 * size <= cap && cap >= 0 && tombstones >= 0
    requires cap' == GrownCapacity(cap) && size <= size' <= size + 1 && tombstones' <= 0
    ensures cap + Saved(cap', size', tombstones') - Saved(cap, size, tombstones) <= 4
  {
    var quarter := cap / 8;
    assert cap == 8 * quarter && cap / 4 == 2 * quarter && cap / 2 == 4 * quarter;
    assert size == 4 * quarter;
  }

  /** Cleaning one is paid for by its tombstones. */
  lemma AfterCleaning(cap: int, size: int, tombstones: int, size': int, tombstones': int)
    requires 0 <= size < cap / 2 && tombstones > (cap - size) / 2
    requires size <= size' <= size + 1 && tombstones' <= 0
    ensures cap + Saved(cap, size', tombstones') - Saved(cap, size, tombstones) <= 4
  {
  }

  lemma AmortizedErase<K, V>(t: Table<K, V>, env: Env<K, V>, s: nat)
    requires WellFormed(t, env.default) && t.Live(s)
    ensures Potential(EraseAt(t, env.keyDefault, env.default, s)) - Potential(t) <= 4
  {
    hide WellFormed;
  }

  /** An operation and the change of potential together cost at most four slots. */
  lemma AmortizedStep<K, V>(t: Table<K, V>, env: Env<K, V>, op: Op<K, V>)
    requires WellFormed(t, env.default) && !op.Reserve?
    ensures Cost(t, op) + Potential(Step(t, env, op).0) - Potential(t) <= 4
  {
    NonNegative(t, env);
    if MayInsert(op) {
      AmortizedInsert(t, env, op);
    } else if op.Erase? {
      FindIsLive(t, env.default, op.key, env.hash(op.key));
      var s := Find(t, env.default, op.key, env.hash(op.key));
      hide WellFormed, Find;
      if s.Some? {
        AmortizedErase(t, env, s.value);
      }
    } else {
      hide WellFormed, Find;
    }
  }

  lemma {:induction false} AmortizedRun<K, V>(t: Table<K, V>, env: Env<K, V>, ops: seq<Op<K, V>>)
    requires WellFormed(t, env.default) && forall op :: op in ops ==> !op.Reserve?
    ensures RunCost(t, env, ops) <= 4 * |ops| + Potential(t)
    decreases |ops|
  {
    hide WellFormed, Step, Cost, Potential;
    if ops == [] {
      NonNegative(t, env);
    } else {
      assert ops[0] in ops;
      AmortizedStep(t, env, ops[0]);
      AmortizedRun(Step(t, env, ops[0]).0, env, ops[1..]);
    }
  }

  /** In a run without explicit reserve, the slots scanned by all rehashes are at most four for each operation. */
  lemma RehashIsAmortized<K, V>(env: Env<K, V>, ops: seq<Op<K, V>>)
    requires forall op :: op in ops ==> !op.Reserve?
    ensures WellFormed(Cleared<K, V>(), env.default)
    ensures RunCost(Cleared<K, V>(), env, ops) <= 4 * |ops|
  {
    ClearedWellFormed<K, V>(env.default);
    AmortizedRun(Cleared<K, V>(), env, ops);
  }

  // ----- the space that a run takes

  /** After n operations the table has at most n entries, and no more slots than eight or four for each operation. */
  ghost predicate InSpace<K, V>(t: Table<K, V>, n: nat) {
    t.size <= n && t.Cap() <= Max(8, 4 * n)
  }

  lemma StepInSpace<K, V>(t: Table<K, V>, env: Env<K, V>, op: Op<K, V>, n: nat)
    requires WellFormed(t, env.default) && InSpace(t, n) && !op.Reserve?
    ensures InSpace(Step(t, env, op).0, n + 1)
  {
    if MayInsert(op) {
      assert 2 * t.size <= t.Cap();
      SizesAfterInsert(t, env, op);
      hide WellFormed, Step, PutKey, IsPowerOfTwo;
      GrownIsCapacity(t.Cap());
    } else if op.Erase? {
      FindIsLive(t, env.default, op.key, env.hash(op.key));
    }
  }

  lemma {:induction false} RunInSpace<K, V>(t: Table<K, V>, env: Env<K, V>, ops: seq<Op<K, V>>, n: nat)
    requires WellFormed(t, env.default) && InSpace(t, n) && forall op :: op in ops ==> !op.Reserve?
    ensures InSpace(Run(t, env, ops).0, n + |ops|)
    decreases |ops|
  {
    hide WellFormed, Step, InSpace;
    if ops != [] {
      assert ops[0] in ops;
      StepInSpace(t, env, ops[0], n);
      RunInSpace(Step(t, env, ops[0]).0, env, ops[1..], n + 1);
    }
  }

  /** In a run without explicit reserve a map never has more slots than eight, or four for each operation. */
  lemma SpaceIsLinear<K, V>(env: Env<K, V>, ops: seq<Op<K, V>>)
    requires forall op :: op in ops ==> !op.Reserve?
    ensures WellFormed(Cleared<K, V>(), env.default)
    ensures Run(Cleared<K, V>(), env, ops).0.Cap() <= Max(8, 4 * |ops|)
  {
    ClearedWellFormed<K, V>(env.default);
    RunInSpace(Cleared<K, V>(), env, ops, 0);
  }
}
