// The map surface of the table, and whole runs against a finite map.
module Maps {
  import opened Options
  import opened Bits
  import opened ProbeSequences
  import opened MetadataGroups
  import opened TableStates
  import opened TableClear
  import opened TableMetrics
  import opened RawHashtables

  // -------- The specification --------

  // An equal key that is already stored keeps its entry.
  ghost function MapInsert<K, V>(ctx: KeyContext<K>, m: map<K, V>, key: K, value: V): map<K, V> {
    if HasKey(ctx, m, key) then m else m[key := value]
  }

  // An equal key that is already stored keeps its key and takes the new value.
  ghost function MapUpdate<K, V>(ctx: KeyContext<K>, m: map<K, V>, key: K, value: V): map<K, V> {
    if HasKey(ctx, m, key) then m[StoredKey(ctx, m, key) := value] else m[key := value]
  }

  ghost function MapErase<K, V>(ctx: KeyContext<K>, m: map<K, V>, key: K): map<K, V> {
    if HasKey(ctx, m, key) then m - {StoredKey(ctx, m, key)} else m
  }

  ghost function MapLookup<K, V>(ctx: KeyContext<K>, m: map<K, V>, key: K): Option<V> {
    if HasKey(ctx, m, key) then Some(m[StoredKey(ctx, m, key)]) else None
  }

  // No two stored keys are equal.
  ghost predicate KeysApart<K(!new), V>(ctx: KeyContext<K>, m: map<K, V>) {
    forall a, b | a in m && b in m && a != b :: !KeyEq(ctx, a, b)
  }

  class Map<K(!new), V> {
    const impl: HashTable<K, V>

    ghost predicate Sound()
      reads impl, impl.metadata, impl.entries
    {
      impl.Sound()
    }

    ghost predicate Valid()
      reads impl, impl.metadata, impl.entries
    {
      impl.Valid()
    }

    ghost function Contents(): map<K, V>
      requires Sound()
      reads impl, impl.metadata, impl.entries
    {
      impl.Map()
    }

    constructor (ctx: KeyContext<K>, allocSize: nat)
      requires Lawful(ctx) && IsSize(allocSize)
      ensures Valid() && Contents() == map[] && impl.ctx == ctx && impl.excess == 0
      ensures fresh(impl) && fresh(impl.metadata) && fresh(impl.entries)
    {
      impl := new HashTable(ctx, allocSize);
    }

    method Lookup(key: K) returns (value: Option<V>)
      requires Sound() && impl.Searchable(key)
      ensures value == MapLookup(impl.ctx, Contents(), key)
    {
      hide Wellformed, Lawful, Budgeted, TableStates.Contents, HasKey, Absent, Holds;
      var entry, _, _ := impl.LookupEntry(key);
      WellformedIsUnique(impl.ctx, impl.View());
      if entry == None {
        AbsentNotStored(impl.ctx, impl.View(), key);
        return None;
      }
      HolderIsStored(impl.ctx, impl.View(), entry.value, key);
      HolderInRange(impl.ctx, impl.View(), entry.value, key);
      return Some(impl.entries[entry.value].value.value);
    }

    method Insert(key: K, value: V) returns (inserted: bool, stored: V)
      requires Sound() && impl.Searchable(key)
      modifies impl, impl.metadata, impl.entries
      ensures Sound() && (old(Valid()) ==> Valid())
      ensures Contents() == MapInsert(impl.ctx, old(Contents()), key, value)
      ensures inserted == !HasKey(impl.ctx, old(Contents()), key)
      ensures Some(stored) == MapLookup(impl.ctx, Contents(), key)
      ensures (impl.metadata == old(impl.metadata) && impl.entries == old(impl.entries))
        || (fresh(impl.metadata) && fresh(impl.entries))
      ensures impl.excess <= old(impl.excess)
      ensures old(impl.growthBudget) > 0 ==>
        impl.metadata == old(impl.metadata) && impl.growthBudget >= old(impl.growthBudget) - 1
    {
      hide Wellformed, Lawful, Budgeted, TableStates.Contents, HasKey, Absent, Holds, Pending, Chosen, NothingToReuse,
           Count;
      ghost var t := impl.View();
      WellformedIsUnique(impl.ctx, t);
      ghost var before;
      var index;
      index, inserted, before := impl.InsertImpl(key);
      if inserted {
        AbsentNotStored(impl.ctx, t, key);
        PendingFilled(impl.ctx, impl.View(), before, index, Entry(key, value));
        impl.entries[index] := Some(Entry(key, value));
        AtLeastSixteen(impl.ctx, impl.View());
        NewIsStored(impl.ctx, impl.View(), index, key);
        stored := value;
      } else {
        HolderIsStored(impl.ctx, t, index, key);
        HolderInRange(impl.ctx, t, index, key);
        stored := impl.entries[index].value.value;
      }
    }

    method Update(key: K, value: V) returns (inserted: bool)
      requires Sound() && impl.Searchable(key)
      modifies impl, impl.metadata, impl.entries
      ensures Sound() && (old(Valid()) ==> Valid())
      ensures Contents() == MapUpdate(impl.ctx, old(Contents()), key, value)
      ensures inserted == !HasKey(impl.ctx, old(Contents()), key)
      ensures (impl.metadata == old(impl.metadata) && impl.entries == old(impl.entries))
        || (fresh(impl.metadata) && fresh(impl.entries))
      ensures impl.excess <= old(impl.excess)
      ensures old(impl.growthBudget) > 0 ==>
        impl.metadata == old(impl.metadata) && impl.growthBudget >= old(impl.growthBudget) - 1
    {
      hide Wellformed, Lawful, Budgeted, TableStates.Contents, HasKey, Absent, Holds, Pending, Chosen, NothingToReuse,
           Count;
      ghost var t := impl.View();
      WellformedIsUnique(impl.ctx, t);
      ghost var before;
      var index;
      index, inserted, before := impl.InsertImpl(key);
      if inserted {
        AbsentNotStored(impl.ctx, t, key);
        PendingFilled(impl.ctx, impl.View(), before, index, Entry(key, value));
        impl.entries[index] := Some(Entry(key, value));
        AtLeastSixteen(impl.ctx, impl.View());
      } else {
        HolderIsStored(impl.ctx, t, index, key);
        HolderInRange(impl.ctx, t, index, key);
        RevalueSteps(impl.ctx, t, index, value);
        impl.entries[index] := Some(Entry(impl.entries[index].value.key, value));
      }
    }

    method Erase(key: K) returns (erased: bool)
      requires Sound() && impl.Searchable(key)
      modifies impl, impl.metadata, impl.entries
      ensures Sound() && (old(Valid()) ==> Valid())
      ensures Contents() == MapErase(impl.ctx, old(Contents()), key)
      ensures erased == HasKey(impl.ctx, old(Contents()), key)
      ensures impl.metadata == old(impl.metadata) && impl.entries == old(impl.entries)
      ensures impl.excess == old(impl.excess) && impl.growthBudget >= old(impl.growthBudget)
      ensures if erased then
          exists slot: nat :: old(Holds(impl.ctx, impl.View(), slot, key)) && OthersStay(old(impl.View()), impl.View(), slot)
        else impl.View() == old(impl.View())
    {
      hide Wellformed, Lawful, Budgeted, TableStates.Contents, HasKey, Holds, Removed, Count, OthersStay;
      ghost var slot;
      ghost var t := impl.View();
      erased, slot := impl.EraseImpl(key);
      if erased {
        HolderInRange(impl.ctx, t, slot, key);
        RemovedLeavesOthers(impl.ctx, t, slot);
      }
    }

    // `Clear`: whether the table stays valid depends on the groups of tombstones it leaves.
    method Clear()
      requires Sound()
      modifies impl, impl.metadata, impl.entries
      ensures Sound() && Contents() == map[]
      ensures impl.metadata == old(impl.metadata) && impl.entries == old(impl.entries)
      ensures impl.excess == GroupSize * old(TombstoneGroups(impl.metadata[..], impl.metadata.Length))
    {
      impl.ClearImpl();
    }

    method GrowToAllocSize(target: nat)
      requires Sound() && IsPow2(target)
      modifies impl, impl.entries
      ensures Sound() && (old(Valid()) ==> Valid())
      ensures Contents() == old(Contents())
      ensures impl.metadata.Length == if target <= old(impl.metadata.Length) then old(impl.metadata.Length) else target
      ensures (impl.metadata == old(impl.metadata) && impl.entries == old(impl.entries))
        || (fresh(impl.metadata) && fresh(impl.entries))
      ensures impl.excess <= old(impl.excess)
    {
      hide Wellformed, Lawful, Budgeted, TableStates.Contents, Count;
      impl.GrowToAllocSizeImpl(target);
    }

    method GrowForInsertCount(count: int)
      requires Sound()
      modifies impl, impl.entries
      ensures Sound() && (old(Valid()) ==> Valid())
      ensures Contents() == old(Contents()) && impl.growthBudget > count - old(impl.excess)
      ensures impl.growthBudget > count <==>
        GrowthSuffices(old(impl.metadata.Length), old(impl.growthBudget), old(|Contents()|), count)
      ensures (impl.metadata == old(impl.metadata) && impl.entries == old(impl.entries))
        || (fresh(impl.metadata) && fresh(impl.entries))
      ensures impl.excess <= old(impl.excess)
    {
      hide Wellformed, Lawful, Budgeted, TableStates.Contents, Count, GrowthSuffices;
      MapSize(impl.ctx, impl.View());
      impl.GrowForInsertCountImpl(count);
    }

    // After growing for `count` insertions, that many insertions leave the allocation alone.
    method InsertAll(items: seq<(K, V)>)
      requires Valid() && impl.growthBudget >= |items|
      modifies impl, impl.metadata, impl.entries
      ensures Valid() && Contents() == MapInsertAll(impl.ctx, old(Contents()), items)
      ensures impl.metadata == old(impl.metadata) && impl.entries == old(impl.entries)
    {
      hide Wellformed, Lawful, Budgeted, TableStates.Contents, HasKey;
      for n := 0 to |items|
        invariant Valid() && Contents() == MapInsertAll(impl.ctx, old(Contents()), items[..n])
        invariant impl.metadata == old(impl.metadata) && impl.entries == old(impl.entries)
        invariant impl.growthBudget >= |items| - n
      {
        assert items[..n + 1][..n] == items[..n];
        impl.SearchesEnd();
        var _, _ := Insert(items[n].0, items[n].1);
      }
      assert items[..|items|] == items;
    }
  }

  ghost function MapInsertAll<K, V>(ctx: KeyContext<K>, m: map<K, V>, items: seq<(K, V)>): map<K, V> {
    if |items| == 0 then m else
      var last := |items| - 1;
      MapInsert(ctx, MapInsertAll(ctx, m, items[..last]), items[last].0, items[last].1)
  }

  // -------- Whole runs --------

  datatype Op<K, V> =
    | Lookup(key: K)
    | Insert(key: K, value: V)
    | Update(key: K, value: V)
    | Erase(key: K)
    | GrowToAllocSize(log2: nat)
    | GrowForInsertCount(count: int)
    | Clear

  datatype Outcome<V> = Found(value: Option<V>) | Stored(inserted: bool) | Erased(erased: bool) | Done

  ghost function SpecMap<K, V>(ctx: KeyContext<K>, m: map<K, V>, op: Op<K, V>): map<K, V> {
    match op
    case Insert(k, v) => MapInsert(ctx, m, k, v)
    case Update(k, v) => MapUpdate(ctx, m, k, v)
    case Erase(k) => MapErase(ctx, m, k)
    case Clear => map[]
    case _ => m
  }

  ghost function SpecOutcome<K, V>(ctx: KeyContext<K>, m: map<K, V>, op: Op<K, V>): Outcome<V> {
    match op
    case Lookup(k) => Found(MapLookup(ctx, m, k))
    case Insert(k, _) => Stored(!HasKey(ctx, m, k))
    case Update(k, _) => Stored(!HasKey(ctx, m, k))
    case Erase(k) => Erased(HasKey(ctx, m, k))
    case _ => Done
  }

  ghost function SpecRun<K, V>(ctx: KeyContext<K>, m: map<K, V>, ops: seq<Op<K, V>>): map<K, V> {
    if |ops| == 0 then m else SpecMap(ctx, SpecRun(ctx, m, ops[..|ops| - 1]), ops[|ops| - 1])
  }

  // The answers of a finite map to the same operations.
  ghost function SpecOutcomes<K, V>(ctx: KeyContext<K>, m: map<K, V>, ops: seq<Op<K, V>>): seq<Outcome<V>> {
    if |ops| == 0 then [] else
      var before := ops[..|ops| - 1];
      SpecOutcomes(ctx, m, before) + [SpecOutcome(ctx, SpecRun(ctx, m, before), ops[|ops| - 1])]
  }

  predicate Searches<K, V>(op: Op<K, V>) {
    op.Lookup? || op.Insert? || op.Update? || op.Erase?
  }

  // The operation searches for its key for ever.
  ghost predicate NeverEnds<K(!new), V>(m: Map<K, V>, op: Op<K, V>)
    requires m.Sound()
    reads m.impl, m.impl.metadata, m.impl.entries
  {
    Searches(op) && IsSize(m.impl.metadata.Length)
    && forall steps: nat :: Searched(m.impl.ctx, m.impl.View(), op.key, steps)
  }

  // Whether the operation never ends: no byte is empty and no entry has its key.
  method Endless<K(!new), V>(m: Map<K, V>, op: Op<K, V>) returns (endless: bool)
    requires m.Sound()
    ensures endless == NeverEnds(m, op)
    ensures endless ==> !m.Valid()
    ensures !endless && Searches(op) ==> m.impl.Searchable(op.key)
  {
    hide Wellformed, Lawful, Budgeted, TableStates.Contents, Count, Searched, KeyEq;
    if !Searches(op) {
      return false;
    }
    ghost var t := m.impl.View();
    var meta, slots, key := m.impl.metadata, m.impl.entries, op.key;
    SearchNeverEnds(m.impl.ctx, t, key);
    WholeLength(m.impl.ctx, t);
    if exists i: nat :: i < meta.Length && meta[i] == Empty {
      SomeEmpty(t.meta);
      return false;
    }
    NoneEmptyCount(t.meta);
    if exists i: nat :: i < slots.Length && slots[i].Some? && KeyEq(m.impl.ctx, key, slots[i].value.key) {
      var i: nat :| i < slots.Length && slots[i].Some? && KeyEq(m.impl.ctx, key, slots[i].value.key);
      assert Holds(m.impl.ctx, t, i, key);
      return false;
    }
    forall i: nat
      ensures !Holds(m.impl.ctx, t, i, key)
    {
      assert Occupied(t, i) ==> t.slots[i] == slots[i];
    }
    if m.Valid() {
      m.impl.SearchesEnd();
    }
    return true;
  }

  method Apply<K(!new), V>(m: Map<K, V>, op: Op<K, V>) returns (outcome: Outcome<V>)
    requires m.Sound() && (Searches(op) ==> m.impl.Searchable(op.key))
    modifies m.impl, m.impl.metadata, m.impl.entries
    ensures m.Sound() && (!op.Clear? && old(m.Valid()) ==> m.Valid())
    ensures !op.Clear? ==> m.impl.excess <= old(m.impl.excess)
    ensures m.Contents() == SpecMap(m.impl.ctx, old(m.Contents()), op)
    ensures outcome == SpecOutcome(m.impl.ctx, old(m.Contents()), op)
    ensures (m.impl.metadata == old(m.impl.metadata) && m.impl.entries == old(m.impl.entries))
      || (fresh(m.impl.metadata) && fresh(m.impl.entries))
  {
    hide Wellformed, Lawful, Budgeted, TableStates.Contents, HasKey, MapLookup, MapInsert, MapUpdate, MapErase, Absent,
         Count;
    match op {
      case Lookup(k) =>
        var value := m.Lookup(k);
        return Found(value);
      case Insert(k, v) =>
        var inserted, _ := m.Insert(k, v);
        return Stored(inserted);
      case Update(k, v) =>
        var inserted := m.Update(k, v);
        return Stored(inserted);
      case Erase(k) =>
        var erased := m.Erase(k);
        return Erased(erased);
      case GrowToAllocSize(log2) =>
        m.GrowToAllocSize(Pow2(log2));
      case GrowForInsertCount(count) =>
        m.GrowForInsertCount(count);
      case Clear =>
        m.Clear();
    }
    return Done;
  }

  // Every run from a constructed table answers exactly as a finite map does. It goes to its end, or
  // up to the first operation whose search never ends; without Clear the budget is exact throughout
  // and every search ends.
  method Run<K(!new), V>(ctx: KeyContext<K>, allocSize: nat, ops: seq<Op<K, V>>)
    returns (m: Map<K, V>, outcomes: seq<Outcome<V>>)
    requires Lawful(ctx) && IsSize(allocSize)
    ensures m.Sound() && m.impl.ctx == ctx && |outcomes| <= |ops|
    ensures m.Contents() == SpecRun(ctx, map[], ops[..|outcomes|])
    ensures outcomes == SpecOutcomes(ctx, map[], ops[..|outcomes|])
    ensures |outcomes| < |ops| ==> NeverEnds(m, ops[|outcomes|]) && !m.Valid()
    ensures (forall op | op in ops :: !op.Clear?) ==> m.Valid() && |outcomes| == |ops| && m.impl.excess == 0
  {
    hide Wellformed, Lawful, Budgeted, TableStates.Contents, SpecMap, SpecOutcome, IsSize, NeverEnds, Absent, Count;
    m := new Map(ctx, allocSize);
    outcomes := [];
    for n := 0 to |ops|
      invariant m.Sound() && m.impl.ctx == ctx && |outcomes| == n
      invariant fresh(m.impl) && fresh(m.impl.metadata) && fresh(m.impl.entries)
      invariant m.Contents() == SpecRun(ctx, map[], ops[..n])
      invariant outcomes == SpecOutcomes(ctx, map[], ops[..n])
      invariant (forall op | op in ops :: !op.Clear?) ==> m.Valid() && m.impl.excess == 0
    {
      var endless := Endless(m, ops[n]);
      if endless {
        return;
      }
      assert ops[..n + 1][..n] == ops[..n];
      var outcome := Apply(m, ops[n]);
      outcomes := outcomes + [outcome];
    }
    assert ops[..|ops|] == ops;
  }

  // The stored keys of a well formed table are pairwise different.
  lemma ContentsApart<K(!new), V>(ctx: KeyContext<K>, t: Table<K, V>)
    requires Lawful(ctx) && Wellformed(ctx, t)
    ensures KeysApart(ctx, Contents(ctx, t))
  {
    hide Matched, AllChained, Settled, IsSize, Lawful, HashKey, KeyEq;
    var m := Contents(ctx, t);
    forall a, b | a in m && b in m && a != b ensures !KeyEq(ctx, a, b) {
      var d :| d in Entries(t) && d.key == a;
      var e :| e in Entries(t) && e.key == b;
      var i: nat :| Occupied(t, i) && t.slots[i].value == d;
      var j: nat :| Occupied(t, j) && t.slots[j].value == e;
      assert Occupied(t, i) && Occupied(t, j);
    }
  }

  lemma NewIsStored<K(!new), V>(ctx: KeyContext<K>, t: Table<K, V>, i: nat, key: K)
    requires Lawful(ctx) && Wellformed(ctx, t) && i < |t.slots| && t.slots[i].Some? && t.slots[i].value.key == key
    ensures MapLookup(ctx, Contents(ctx, t), key) == Some(t.slots[i].value.value)
  {
    hide Matched, AllChained, Settled, Unique, IsSize, Contents;
    assert KeyEq(ctx, key, key);
    assert Holds(ctx, t, i, key);
    HolderIsStored(ctx, t, i, key);
  }

  lemma RevalueSteps<K(!new), V>(ctx: KeyContext<K>, t: Table<K, V>, i: nat, v: V)
    requires Lawful(ctx) && Wellformed(ctx, t) && Occupied(t, i)
    ensures i < |t.slots| && Wellformed(ctx, Table(t.meta, t.slots[i := Some(Entry(KeyAt(t, i), v))]))
    ensures Contents(ctx, Table(t.meta, t.slots[i := Some(Entry(KeyAt(t, i), v))])) == Contents(ctx, t)[KeyAt(t, i) := v]
  {
    hide Matched, AllChained, Settled, Unique, IsSize, Contents;
    RevalueKeeps(ctx, t, i, v);
    RevalueContents(ctx, t, i, v);
  }

  // No slot but this one has changed.
  ghost predicate OthersStay<K, V>(before: Table<K, V>, now: Table<K, V>, slot: nat) {
    && |now.meta| == |before.meta| && |now.slots| == |before.slots|
    && (forall i: nat | i < |before.meta| && i != slot :: now.meta[i] == before.meta[i])
    && (forall i: nat | i < |before.slots| && i != slot :: now.slots[i] == before.slots[i])
  }

  lemma RemovedLeavesOthers<K(!new), V>(ctx: KeyContext<K>, t: Table<K, V>, slot: nat)
    requires Wellformed(ctx, t) && Occupied(t, slot)
    ensures Shaped(t) && slot < |t.meta| && OthersStay(t, Removed(t, slot), slot)
  {
    hide Matched, Unique, AllChained, Settled, Tombstone, IsSize;
  }

  lemma WholeLength<K, V>(ctx: KeyContext<K>, t: Table<K, V>)
    requires Wellformed(ctx, t)
    ensures IsSize(|t.meta|) && |t.slots| == |t.meta|
  {
    hide Matched, AllChained, Settled, Unique, IsSize;
  }

  lemma HolderInRange<K(!new), V>(ctx: KeyContext<K>, t: Table<K, V>, i: nat, key: K)
    requires Holds(ctx, t, i, key)
    ensures Occupied(t, i)
  {
  }
}
