// A run that clears a table and leaves its budget too large: one group is filled
// and then emptied, so it holds nothing but tombstones when the table is cleared.
module ClearRuns {
  import opened Options
  import opened Bits
  import opened MetadataGroups
  import opened ProbeSequences
  import opened TableStates
  import opened TableGrowth
  import opened TableClear
  import opened TableMetrics
  import opened RawHashtables

  // Every key hashes alike, so every probe starts at group 0.
  function OneHash(): KeyContext<int> {
    KeyContext((k: int) => 0, (a: int, b: int) => a == b)
  }

  lemma OneHashLawful()
    ensures Lawful(OneHash())
    ensures forall k: int :: StartOf(OneHash(), k) == 0
  {
  }

  // The entries are the keys [a, b), all stored in group 0.
  ghost predicate Window(t: Table<int, int>, a: int, b: int) {
    && Wellformed(OneHash(), t)
    && (forall i: nat | Occupied(t, i) :: i < GroupSize && a <= KeyAt(t, i) < b)
    && Count(AnyPresent, t.meta) == b - a
  }

  lemma WindowAbsent(t: Table<int, int>, a: int, b: int)
    requires Window(t, a, b)
    ensures Absent(OneHash(), t, b)
  {
    forall i: nat ensures !Holds(OneHash(), t, i, b) {
      assert Occupied(t, i) ==> KeyAt(t, i) < b;
    }
  }

  // While group 0 has an empty slot, an insertion chooses a slot of group 0.
  lemma ChoosesFirstGroup(meta: seq<Control>, i: nat, e: nat)
    requires IsSize(|meta|) && i < |meta| && Chained(meta, 0, i) && e < GroupSize && meta[e] == Empty
    ensures i < GroupSize
  {
    hide IsSize;
    FirstIndex(|meta|);
    GroupStartInTable(i, |meta|);
    assert !FullStep(meta, 0, 0);
    assert StepOf(0, GroupStart(i), |meta|) == 0;
  }

  lemma FirstIndex(size: nat)
    requires IsSize(size)
    ensures ProbeIndex(0, 0, size) == 0
  {
    hide IsSize, GroupAt;
    var m := SizeInGroups(size);
    FirstGroup(size / GroupSize);
    assert 0 / GroupSize == 0;
  }

  lemma FirstGroup(groups: nat)
    requires groups > 0
    ensures GroupAt(0, 0, groups) == 0
  {
  }

  lemma {:induction false} CountFull(q: Query, g: seq<Control>)
    requires Count(q, g) == |g|
    ensures forall i: nat | i < |g| :: Hits(q, g[i])
  {
    if |g| > 0 {
      CountFull(q, g[..|g| - 1]);
      forall i: nat | i < |g| ensures Hits(q, g[i]) {
        assert i < |g| - 1 ==> g[..|g| - 1][i] == g[i];
      }
    }
  }

  // Entries only in group 0: their number is the number of present bytes there.
  lemma WindowCount(t: Table<int, int>, a: int, b: int)
    requires Window(t, a, b)
    ensures |t.meta| >= GroupSize && Count(AnyPresent, t.meta[..GroupSize]) == b - a
  {
    hide Unique, AllChained, Settled, Count, HashKey, TagBits;
    var n := |t.meta|;
    forall i: nat | GroupSize <= i < n ensures !t.meta[i].Present? {
      assert !Occupied(t, i);
    }
    CountGap(AnyPresent, t.meta, GroupSize, n);
    assert t.meta[..n] == t.meta;
  }

  lemma RoomInFirstGroup(t: Table<int, int>, b: int) returns (e: nat)
    requires Window(t, 0, b) && b < GroupSize && Count(AnyDeleted, t.meta) == 0
    ensures e < GroupSize && e < |t.meta| && t.meta[e] == Empty
  {
    hide Unique, AllChained, Settled, Matched;
    WindowCount(t, 0, b);
    var g := t.meta[..GroupSize];
    CountPartition(g);
    assert t.meta == g + t.meta[GroupSize..];
    CountConcat(AnyDeleted, g, t.meta[GroupSize..]);
    e := CountPositive(AnyEmpty, g);
  }

  // One insertion extends the window.
  lemma WindowGrows(t: Table<int, int>, before: Table<int, int>, b: int, i: nat)
    requires Lawful(OneHash()) && StartOf(OneHash(), b) == 0
    requires Window(before, 0, b) && b < GroupSize && Count(AnyDeleted, before.meta) == 0
    requires Pending(OneHash(), t, before, i, b)
    ensures i < |t.slots| && Window(Table(t.meta, t.slots[i := Some(Entry(b, 0))]), 0, b + 1)
    ensures Count(AnyDeleted, t.meta) == 0
  {
    hide Unique, AllChained, Settled, HashKey, TagBits, StartOf, Matched, Chained;
    var e := RoomInFirstGroup(before, b);
    ChoosesFirstGroup(before.meta, i, e);
    PendingFilled(OneHash(), t, before, i, Entry(b, 0));
    CountUpdate(AnyPresent, before.meta, i, t.meta[i]);
    CountUpdate(AnyDeleted, before.meta, i, t.meta[i]);
    var u := Table(t.meta, t.slots[i := Some(Entry(b, 0))]);
    forall j: nat | Occupied(u, j) ensures j < GroupSize && 0 <= KeyAt(u, j) < b + 1 {
      assert j != i ==> Occupied(before, j) && KeyAt(before, j) == KeyAt(u, j);
    }
  }

  lemma WindowBudget(t: Table<int, int>, b: int, budget: int)
    requires Window(t, 0, b) && b < GroupSize && Count(AnyDeleted, t.meta) == 0
    requires Budgeted(t.meta, budget, 0) && |t.meta| >= 64
    ensures budget > 0
  {
    hide Wellformed, Count;
    CountPartition(t.meta);
  }

  // With `GroupSize` entries the first group is full.
  lemma WindowFull(t: Table<int, int>)
    requires Window(t, 0, GroupSize)
    ensures |t.meta| >= GroupSize && forall i: nat | i < GroupSize :: t.meta[i] != Empty
  {
    hide Wellformed, Count;
    WindowCount(t, 0, GroupSize);
    var g := t.meta[..GroupSize];
    CountFull(AnyPresent, g);
    forall i: nat | i < GroupSize ensures t.meta[i] != Empty {
      assert g[i] == t.meta[i] && Hits(AnyPresent, g[i]);
    }
  }

  // Erasing one key of a full group leaves a tombstone.
  lemma WindowShrinks(t: Table<int, int>, a: int, i: nat)
    requires Lawful(OneHash()) && Window(t, a, GroupSize) && Occupied(t, i) && KeyAt(t, i) == a
    requires |t.meta| >= GroupSize && forall j: nat | j < GroupSize :: t.meta[j] != Empty
    ensures Shaped(t) && i < |t.meta| && Window(Removed(t, i), a + 1, GroupSize)
    ensures |Removed(t, i).meta| == |t.meta| && forall j: nat | j < GroupSize :: Removed(t, i).meta[j] != Empty
  {
    hide AllChained, Settled, HashKey, TagBits, Tombstone, GroupStart, IsSize;
    var u := Removed(t, i);
    RemoveKeeps(OneHash(), t, i);
    GroupStartInTable(i, |t.meta|);
    GroupStartUnique(i, 0);
    TombstoneMeaning(t.meta, i);
    assert t.meta[i].Present?;
    CountUpdate(AnyPresent, t.meta, i, Tombstone(t.meta, i));
    forall j: nat | Occupied(u, j) ensures j < GroupSize && a + 1 <= KeyAt(u, j) < GroupSize {
      assert Occupied(t, j) && KeyAt(u, j) == KeyAt(t, j);
      assert !KeyEq(OneHash(), KeyAt(t, i), KeyAt(t, j));
    }
  }

  // A window with no keys left over a group with no empty byte: all tombstones.
  lemma WindowSpent(t: Table<int, int>)
    requires Window(t, GroupSize, GroupSize)
    requires |t.meta| >= GroupSize && forall j: nat | j < GroupSize :: t.meta[j] != Empty
    ensures AllTombstones(t.meta, 0) && TombstoneGroups(t.meta, |t.meta|) > 0
  {
    hide AllChained, Settled, HashKey, TagBits, Unique, IsSize;
    forall i | 0 <= i < GroupSize ensures t.meta[i] == Deleted {
      assert !Occupied(t, i);
    }
    assert AllTombstones(t.meta, 0);
    var m := SizeInGroups(|t.meta|);
    TombstonesCounted(t.meta, |t.meta|);
  }

  lemma {:induction false} TombstonesCounted(meta: seq<Control>, bound: nat)
    requires GroupSize <= bound <= |meta| && bound % GroupSize == 0 && AllTombstones(meta, 0)
    ensures TombstoneGroups(meta, bound) > 0
  {
    if bound > GroupSize {
      TombstonesCounted(meta, bound - GroupSize);
    }
  }

  ghost predicate HasKeys(t: Table<int, int>, a: int, b: int) {
    && Lawful(OneHash()) && Unique(OneHash(), t)
    && forall k :: k in Contents(OneHash(), t) <==> a <= k < b
  }

  lemma HeldKey(t: Table<int, int>, a: int, b: int)
    requires HasKeys(t, a, b) && a < b
    ensures HasKey(OneHash(), Contents(OneHash(), t), a)
  {
    assert KeyEq(OneHash(), a, a);
  }

  lemma FewerKeys(t: Table<int, int>, u: Table<int, int>, a: int, b: int)
    requires HasKeys(t, a, b) && Wellformed(OneHash(), u)
    requires HasKey(OneHash(), Contents(OneHash(), t), a)
    requires Contents(OneHash(), u) == Contents(OneHash(), t) - {StoredKey(OneHash(), Contents(OneHash(), t), a)}
    ensures HasKeys(u, a + 1, b)
  {
    hide Contents, Unique, AllChained, Settled, Matched, IsSize;
  }

  lemma MoreKeys(t: Table<int, int>, u: Table<int, int>, b: int)
    requires HasKeys(t, 0, b) && b >= 0 && Wellformed(OneHash(), u)
    requires Contents(OneHash(), u) == Contents(OneHash(), t)[b := 0]
    ensures HasKeys(u, 0, b + 1)
  {
    hide Contents, Unique, AllChained, Settled, Matched, IsSize;
  }

  lemma HolderOfKey(t: Table<int, int>, i: nat, key: int)
    requires Holds(OneHash(), t, i, key)
    ensures Occupied(t, i) && KeyAt(t, i) == key
  {
  }

  method FillGroup(m: HashTable<int, int>)
    requires m.Valid() && m.excess == 0 && m.ctx == OneHash() && m.metadata.Length >= 64
    requires HasKeys(m.View(), 0, 0) && Window(m.View(), 0, 0) && Count(AnyDeleted, m.metadata[..]) == 0
    modifies m, m.metadata, m.entries
    ensures m.Valid() && m.excess == 0 && m.metadata == old(m.metadata) && m.entries == old(m.entries)
    ensures Window(m.View(), 0, GroupSize) && HasKeys(m.View(), 0, GroupSize)
    ensures m.growthBudget == Threshold(m.metadata.Length) - GroupSize
  {
    hide Wellformed, Budgeted, Lawful, Window, Contents, Pending, Count, Absent, Holds, OneHash, Chosen, NothingToReuse;
    OneHashLawful();
    var k := 0;
    while k < GroupSize
      invariant 0 <= k <= GroupSize
      invariant m.Valid() && m.excess == 0 && m.metadata == old(m.metadata) && m.entries == old(m.entries)
      invariant Window(m.View(), 0, k) && HasKeys(m.View(), 0, k) && Count(AnyDeleted, m.metadata[..]) == 0
    {
      ghost var t := m.View();
      WindowAbsent(t, 0, k);
      WindowBudget(t, k, m.growthBudget);
      m.SearchesEnd();
      var index, inserted, before := m.InsertImpl(k);
      AbsentNotHeld(t, index, k);
      WindowGrows(m.View(), before, k, index);
      PendingFilled(m.ctx, m.View(), before, index, Entry(k, 0));
      m.entries[index] := Some(Entry(k, 0));
      MoreKeys(t, m.View(), k);
      k := k + 1;
    }
    WindowCost(m.View(), m.growthBudget);
  }

  lemma WindowCost(t: Table<int, int>, budget: int)
    requires Window(t, 0, GroupSize) && Count(AnyDeleted, t.meta) == 0 && Budgeted(t.meta, budget, 0)
    ensures budget == Threshold(|t.meta|) - GroupSize
  {
    hide Wellformed, Count;
    CountPartition(t.meta);
  }

  lemma AbsentNotHeld(t: Table<int, int>, i: nat, key: int)
    requires Absent(OneHash(), t, key)
    ensures !Holds(OneHash(), t, i, key)
  {
  }

  method EraseGroup(m: HashTable<int, int>)
    requires m.Valid() && m.ctx == OneHash()
    requires Window(m.View(), 0, GroupSize) && HasKeys(m.View(), 0, GroupSize)
    modifies m, m.metadata, m.entries
    ensures m.Valid() && m.excess == old(m.excess) && m.metadata == old(m.metadata) && m.entries == old(m.entries)
    ensures m.growthBudget >= old(m.growthBudget)
    ensures m.metadata.Length >= GroupSize && AllTombstones(m.metadata[..], 0)
    ensures TombstoneGroups(m.metadata[..], m.metadata.Length) > 0
  {
    hide Wellformed, Budgeted, Lawful, Window, Contents, Holds, HasKey, OneHash, Removed, HasKeys, TombstoneGroups, Count;
    WindowFull(m.View());
    var k := 0;
    while k < GroupSize
      invariant 0 <= k <= GroupSize
      invariant m.Valid() && m.excess == old(m.excess) && m.metadata == old(m.metadata) && m.entries == old(m.entries)
      invariant m.growthBudget >= old(m.growthBudget)
      invariant Window(m.View(), k, GroupSize) && HasKeys(m.View(), k, GroupSize)
      invariant m.metadata.Length >= GroupSize && forall i: nat | i < GroupSize :: m.metadata[i] != Empty
    {
      ghost var t := m.View();
      HeldKey(t, k, GroupSize);
      m.SearchesEnd();
      var erased, slot := m.EraseImpl(k);
      HolderOfKey(t, slot, k);
      WindowShrinks(t, k, slot);
      FewerKeys(t, m.View(), k, GroupSize);
      k := k + 1;
    }
    WindowSpent(m.View());
  }

  // Filling one group, erasing everything and clearing leaves an empty table whose budget exceeds the
  // exact one by `GroupSize`: by too much for a small table.
  method FillEraseClear(size: nat) returns (m: HashTable<int, int>)
    requires IsSize(size) && size >= 64
    ensures fresh(m) && fresh(m.metadata) && fresh(m.entries)
    ensures m.Sound() && m.ctx == OneHash() && m.metadata.Length == size && m.Map() == map[]
    ensures m.growthBudget == Threshold(size) == Threshold(size) - NonEmpty(m.metadata[..]) + GroupSize
    ensures m.excess == GroupSize && (m.Valid() <==> GroupSize < size / 8)
    ensures forall i: nat | i < GroupSize :: m.metadata[i] == Deleted
  {
    hide Wellformed, Budgeted, Lawful, Window, Contents, HasKeys, TombstoneGroups, OneHash, NonEmpty, Count,
         ClearedBelow, AllTombstones, IsSize;
    OneHashLawful();
    m := new HashTable(OneHash(), size);
    EmptyWindow(m.View(), m.growthBudget);
    FillGroup(m);
    EraseGroup(m);
    ghost var t, budget := m.View(), m.growthBudget;
    OneTombstoneGroup(t.meta, budget);
    m.ClearImpl();
    FirstGroupStays(m.ctx, t, m.View());
  }

  lemma {:induction false} TombstoneGroupsFull(meta: seq<Control>, bound: nat)
    requires bound <= |meta|
    ensures TombstoneGroups(meta, bound) <= FullGroups(meta, bound)
  {
    if bound >= GroupSize {
      TombstoneGroupsFull(meta, bound - GroupSize);
    }
  }

  lemma OneTombstoneGroup(meta: seq<Control>, budget: int)
    requires Budgeted(meta, budget, 0) && budget >= Threshold(|meta|) - GroupSize && TombstoneGroups(meta, |meta|) > 0
    ensures TombstoneGroups(meta, |meta|) == 1
  {
    hide Count, FullGroups, TombstoneGroups;
    TombstoneGroupsFull(meta, |meta|);
    FullGroupsNonEmpty(meta, |meta|);
    assert meta[..|meta|] == meta;
  }

  lemma FirstGroupStays<K, V>(ctx: KeyContext<K>, t: Table<K, V>, u: Table<K, V>)
    requires Wellformed(ctx, t) && ClearedBelow(t, |t.meta|, u) && |t.meta| >= GroupSize && AllTombstones(t.meta, 0)
    ensures |u.meta| == |t.meta| && forall i: nat | i < GroupSize :: u.meta[i] == Deleted
  {
    hide Matched, Unique, AllChained, ClearedBelow, Settled;
    ClearedLength(t, u);
    TableGrowth.FirstGroup(|t.meta|);
    ClearedGroup(t, u, 0);
  }

  // One insertion while a byte is empty: the excess keeps the budget from running out.
  lemma BudgetLasts(meta: seq<Control>, budget: int, excess: nat)
    requires Budgeted(meta, budget, excess) && |meta| == 64 && excess >= GroupSize && Count(AnyEmpty, meta) > 0
    ensures budget > 0
    ensures Count(AnyPresent, meta) < 64
  {
    CountPartition(meta);
  }

  lemma OneMorePresent<K, V>(ctx: KeyContext<K>, t: Table<K, V>, before: Table<K, V>, i: nat, key: K)
    requires Pending(ctx, t, before, i, key)
    ensures |t.meta| == |before.meta| && Count(AnyPresent, t.meta) == Count(AnyPresent, before.meta) + 1
  {
    hide Wellformed, Count, Absent;
    CountUpdate(AnyPresent, before.meta, i, Present(TagBits(HashKey(ctx, key))));
  }

  lemma NextAbsent(t: Table<int, int>, b: int)
    requires Lawful(OneHash()) && HasKeys(t, 0, b) && b >= 0
    ensures Absent(OneHash(), t, b)
  {
    hide Matched, AllChained, Settled, Unique, IsSize, Contents, Holds;
    forall i: nat
      ensures !Holds(OneHash(), t, i, b)
    {
      HolderStored(OneHash(), t, i, b);
    }
  }

  lemma NothingPresent(t: Table<int, int>)
    requires Lawful(OneHash()) && Wellformed(OneHash(), t) && Contents(OneHash(), t) == map[]
    ensures Count(AnyPresent, t.meta) == 0 && HasKeys(t, 0, 0)
  {
    hide Matched, AllChained, Settled, Unique, IsSize, Contents, Count;
    MapSize(OneHash(), t);
  }

  // One insertion of the next key, while there is budget and an empty byte.
  method InsertNext(m: HashTable<int, int>, key: int)
    requires m.Sound() && m.ctx == OneHash() && Count(AnyEmpty, m.metadata[..]) > 0 && m.growthBudget > 0
    requires key >= 0 && HasKeys(m.View(), 0, key)
    modifies m, m.metadata, m.entries
    ensures m.Sound() && m.metadata == old(m.metadata) && m.entries == old(m.entries) && m.excess == old(m.excess)
    ensures HasKeys(m.View(), 0, key + 1) && Count(AnyPresent, m.metadata[..]) == old(Count(AnyPresent, m.metadata[..])) + 1
  {
    hide Wellformed, Budgeted, Lawful, Contents, Pending, Count, Absent, Holds, OneHash, HasKeys, Chosen, NothingToReuse;
    OneHashLawful();
    ghost var t := m.View();
    NextAbsent(t, key);
    var index, inserted, before := m.InsertImpl(key);
    AbsentNotHeld(t, index, key);
    OneMorePresent(m.ctx, m.View(), before, index, key);
    PendingFilled(m.ctx, m.View(), before, index, Entry(key, 0));
    m.entries[index] := Some(Entry(key, 0));
    MoreKeys(t, m.View(), key);
  }

  // Going on to insert fills the table to the last byte without ever growing it: from then on no
  // search for an absent key ends.
  method FillEraseClearFill() returns (m: HashTable<int, int>, key: int)
    ensures m.Sound() && m.metadata.Length == 64 && Count(AnyEmpty, m.metadata[..]) == 0
    ensures Absent(m.ctx, m.View(), key)
    ensures forall steps: nat :: Searched(m.ctx, m.View(), key, steps)
  {
    hide Wellformed, Budgeted, Lawful, Contents, Count, Absent, OneHash, HasKeys, NonEmpty, Searched, FullGroups, IsSize;
    OneHashLawful();
    SmallSizes();
    m := FillEraseClear(64);
    NothingPresent(m.View());
    key := 0;
    ghost var meta, slots := m.metadata, m.entries;
    while exists i :: 0 <= i < m.metadata.Length && m.metadata[i] == Empty
      invariant m.Sound() && m.ctx == OneHash() && m.excess >= GroupSize && key >= 0
      invariant m.metadata == meta && m.entries == slots && fresh(m) && fresh(meta) && fresh(slots)
      invariant meta.Length == 64 && HasKeys(m.View(), 0, key) && Count(AnyPresent, m.metadata[..]) == key
      decreases 64 - key
    {
      SomeEmpty(m.metadata[..]);
      BudgetLasts(m.metadata[..], m.growthBudget, m.excess);
      InsertNext(m, key);
      key := key + 1;
    }
    NoneEmptyCount(m.metadata[..]);
    NextAbsent(m.View(), key);
    SearchNeverEnds(m.ctx, m.View(), key);
  }

  // In a larger table the same excess leaves the table valid, yet at the end of the budget fewer
  // bytes are empty than the check of the debug build demands.
  method FillEraseClearRunOut() returns (m: HashTable<int, int>)
    ensures m.Valid() && m.metadata.Length == 256 && m.excess == GroupSize && m.growthBudget == 0
    ensures 0 < Count(AnyEmpty, m.metadata[..]) < m.metadata.Length - Threshold(m.metadata.Length)
  {
    hide Wellformed, Budgeted, Lawful, Contents, Count, Absent, OneHash, HasKeys, NonEmpty, FullGroups, IsSize;
    OneHashLawful();
    SmallSizes();
    m := FillEraseClear(256);
    NothingPresent(m.View());
    var key := 0;
    ghost var meta, slots := m.metadata, m.entries;
    while m.growthBudget > 0
      invariant m.Valid() && m.ctx == OneHash() && m.excess == GroupSize && key >= 0
      invariant m.metadata == meta && m.entries == slots && fresh(m) && fresh(meta) && fresh(slots)
      invariant meta.Length == 256 && HasKeys(m.View(), 0, key) && Count(AnyPresent, m.metadata[..]) == key
      decreases 256 - key
    {
      m.SearchesEnd();
      PresentBounded(m.metadata[..]);
      InsertNext(m, key);
      key := key + 1;
    }
    m.SearchesEnd();
    BudgetNonNegative(m.metadata[..], m.growthBudget, m.excess);
    EmptySlotExists(m.metadata[..], m.growthBudget, m.excess);
  }

  lemma PresentBounded(meta: seq<Control>)
    requires Count(AnyEmpty, meta) > 0
    ensures Count(AnyPresent, meta) < |meta|
  {
    CountPartition(meta);
  }

  lemma PowerInRange(p: nat)
    requires IsPow2(p) && 126 < p <= 252
    ensures p == 128
  {
    var k: nat :| p == Pow2(k);
    assert Pow2(7) == 128 by {
      assert Pow2(2) == 4 && Pow2(4) == 16 && Pow2(6) == 64;
    }
    if k < 7 {
      Pow2Monotone(k, 6);
    } else if k > 7 {
      Pow2Monotone(8, k);
    }
  }

  // A key whose probe starts at group 0 reuses a tombstone of that group.
  lemma ReusesFirstGroup(meta: seq<Control>, index: nat)
    requires IsSize(|meta|) && Chosen(meta, 0, index) && |meta| >= GroupSize
    requires exists j: nat :: j < GroupSize && meta[j] == Deleted
    ensures index < GroupSize && meta[index] == Deleted
  {
    hide EndsAt, IsSize;
    FirstIndex(|meta|);
    var j: nat :| j < GroupSize && meta[j] == Deleted;
    assert InStep(meta, 0, 0, j);
  }

  lemma FewerTombstones(meta: seq<Control>, index: nat, tag: Tag)
    requires |meta| >= GroupSize && index < GroupSize && meta[index] == Deleted
    ensures Count(AnyDeleted, meta[index := Present(tag)][..GroupSize]) == Count(AnyDeleted, meta[..GroupSize]) - 1
    ensures Count(AnyEmpty, meta[index := Present(tag)]) == Count(AnyEmpty, meta)
  {
    CountUpdate(AnyDeleted, meta[..GroupSize], index, Present(tag));
    CountUpdate(AnyEmpty, meta, index, Present(tag));
    assert meta[index := Present(tag)][..GroupSize] == meta[..GroupSize][index := Present(tag)];
  }

  lemma {:induction false} AllDeletedCount(g: seq<Control>)
    requires forall i: nat | i < |g| :: g[i] == Deleted
    ensures Count(AnyDeleted, g) == |g|
  {
    if |g| > 0 {
      AllDeletedCount(g[..|g| - 1]);
    }
  }

  lemma TombstoneLeft(meta: seq<Control>)
    requires |meta| >= GroupSize && Count(AnyDeleted, meta[..GroupSize]) > 0
    ensures exists j: nat :: j < GroupSize && meta[j] == Deleted
  {
    var j := CountPositive(AnyDeleted, meta[..GroupSize]);
    assert meta[j] == Deleted;
  }

  // A tombstone is reused: what that does to the counts and the budget.
  lemma Reused(t: Table<int, int>, before: Table<int, int>, i: nat, key: int,
               budget0: int, budget: int, excess: nat)
    requires Lawful(OneHash()) && Pending(OneHash(), t, before, i, key) && Chosen(before.meta, 0, i)
    requires |before.meta| >= GroupSize && Count(AnyDeleted, before.meta[..GroupSize]) > 0
    requires Budgeted(before.meta, budget0, excess) && Budgeted(t.meta, budget, excess)
    ensures |t.meta| == |before.meta| && budget == budget0
    ensures Count(AnyDeleted, t.meta[..GroupSize]) == Count(AnyDeleted, before.meta[..GroupSize]) - 1
  {
    hide Matched, Unique, AllChained, Settled, Count, Chosen, FullGroups, Absent;
    TombstoneLeft(before.meta);
    ReusesFirstGroup(before.meta, i);
    FewerTombstones(before.meta, i, TagBits(HashKey(OneHash(), key)));
  }

  lemma BudgetStands(meta: seq<Control>, excess: nat)
    requires Budgeted(meta, 56, excess) && |meta| == 64 && excess <= 56
    ensures Count(AnyEmpty, meta) > 0
  {
  }

  // Refilling the tombstones of a cleared table leaves its budget in full: the keys that reuse them
  // are not counted, so that growing for 111 insertions finds a size too small for all the keys.
  method FillEraseClearRefill() returns (m: HashTable<int, int>, count: int)
    ensures fresh(m) && fresh(m.metadata) && fresh(m.entries)
    ensures m.Sound() && m.ctx == OneHash() && m.metadata.Length == 64 && m.growthBudget == 56
    ensures Count(AnyPresent, m.metadata[..]) == GroupSize && HasKeys(m.View(), 0, GroupSize) && count == 111
    ensures !GrowthSuffices(m.metadata.Length, m.growthBudget, Count(AnyPresent, m.metadata[..]), count)
  {
    hide Wellformed, Budgeted, Lawful, Contents, Pending, Count, Absent, Holds, OneHash, HasKeys, Chosen, NothingToReuse,
         NonEmpty, FullGroups, IsSize, GrowthSuffices, NextPowerOf2;
    OneHashLawful();
    SmallSizes();
    m := FillEraseClear(64);
    NothingPresent(m.View());
    var key := 0;
    ghost var meta, slots, excess := m.metadata, m.entries, m.excess;
    AllDeletedCount(m.metadata[..GroupSize]);
    while key < GroupSize
      invariant 0 <= key <= GroupSize
      invariant m.Sound() && m.ctx == OneHash() && m.excess == excess && m.growthBudget == 56
      invariant m.metadata == meta && m.entries == slots && fresh(m) && fresh(meta) && fresh(slots)
      invariant meta.Length == 64 && HasKeys(m.View(), 0, key) && Count(AnyPresent, m.metadata[..]) == key
      invariant Count(AnyDeleted, m.metadata[..][..GroupSize]) == GroupSize - key
    {
      ghost var t := m.View();
      BudgetStands(t.meta, excess);
      NextAbsent(t, key);
      var index, inserted, before := m.InsertImpl(key);
      AbsentNotHeld(t, index, key);
      OneMorePresent(m.ctx, m.View(), before, index, key);
      Reused(m.View(), before, index, key, 56, m.growthBudget, excess);
      PendingFilled(m.ctx, m.View(), before, index, Entry(key, 0));
      m.entries[index] := Some(Entry(key, 0));
      MoreKeys(t, m.View(), key);
      key := key + 1;
    }
    count := 111;
    GrowthFallsShort();
  }

  lemma GrowthFallsShort()
    ensures !GrowthSuffices(64, 56, GroupSize, 111)
  {
    hide NextPowerOf2;
    PowerInRange(NextPowerOf2(126));
  }

  lemma SameKeys(t: Table<int, int>, u: Table<int, int>, a: int, b: int)
    requires HasKeys(t, a, b) && Wellformed(OneHash(), u) && Contents(OneHash(), u) == Contents(OneHash(), t)
    ensures HasKeys(u, a, b)
  {
    hide Contents, Unique, AllChained, Settled, Matched, IsSize;
  }

  // The growth itself: afterwards the budget does not cover the insertions it was asked for.
  method GrowTooLittle() returns (m: HashTable<int, int>, count: int)
    ensures m.Valid() && m.excess == 0 && m.metadata.Length == 128
    ensures HasKeys(m.View(), 0, GroupSize) && m.growthBudget == 112 - GroupSize < count == 111
  {
    hide Wellformed, Budgeted, Lawful, Contents, Count, GrowthSuffices, NextPowerOf2, HasKeys;
    m, count := FillEraseClearRefill();
    ghost var t := m.View();
    PowerInRange(NextPowerOf2(126));
    m.GrowForInsertCountImpl(count);
    SameKeys(t, m.View(), 0, GroupSize);
  }

  lemma EmptyWindow(t: Table<int, int>, budget: int)
    requires Lawful(OneHash()) && Wellformed(OneHash(), t) && Contents(OneHash(), t) == map[]
    requires Budgeted(t.meta, budget, 0) && budget == Threshold(|t.meta|)
    ensures Window(t, 0, 0) && Count(AnyDeleted, t.meta) == 0 && HasKeys(t, 0, 0)
  {
    hide Matched, Unique, AllChained, Settled, IsSize;
    CountPartition(t.meta);
    forall i: nat ensures !Occupied(t, i) {
      if Occupied(t, i) {
        assert KeyEq(OneHash(), KeyAt(t, i), KeyAt(t, i));
        assert Holds(OneHash(), t, i, KeyAt(t, i));
        HolderIsStored(OneHash(), t, i, KeyAt(t, i));
      }
    }
  }

  lemma SmallSizes()
    ensures IsSize(64) && IsSize(256)
  {
    assert Pow2(2) == 4 && Pow2(4) == 16 && Pow2(6) == 64 && Pow2(8) == 256;
  }
}
