// What growing a table must do, on values: where each entry of a doubled table
// goes, and why reinsertion keeps the table well formed and the map unchanged.
module TableGrowth {
  import opened Options
  import opened Bits
  import opened MetadataGroups
  import opened ProbeSequences
  import opened TableStates

  // -------- Reinsertion --------

  ghost function EntriesAt<K, V>(t: Table<K, V>, moved: set<nat>): set<Entry<K, V>> {
    set i | i in moved && i < |t.slots| && t.slots[i].Some? :: t.slots[i].value
  }

  // `u` is well formed, free of tombstones, and holds the entries of `t` at the moved slots.
  ghost predicate Growing<K, V>(ctx: KeyContext<K>, t: Table<K, V>, u: Table<K, V>, moved: set<nat>) {
    && Wellformed(ctx, u)
    && Count(AnyDeleted, u.meta) == 0
    && Entries(u) == EntriesAt(t, moved)
  }

  lemma ReinsertStep<K(!new), V>(ctx: KeyContext<K>, t: Table<K, V>, u: Table<K, V>, moved: set<nat>, i: nat, j: nat)
    requires Lawful(ctx) && Unique(ctx, t) && Occupied(t, i) && i !in moved && Growing(ctx, t, u, moved)
    requires j < |u.meta| && u.meta[j] == Empty && Chained(u.meta, StartOf(ctx, KeyAt(t, i)), j)
    ensures Growing(ctx, t, Filled(ctx, u, j, t.slots[i].value), moved + {i})
  {
    hide Unique, Chained, AllChained, Settled, HashKey, TagBits, IsSize, StartOf;
    var e := t.slots[i].value;
    NotYetMoved(ctx, t, u, moved, i);
    assert !Occupied(u, j);
    FillKeeps(ctx, u, j, e);
    FillEntries(ctx, u, j, e);
    MovedOneMore(t, moved, i);
    CountUpdate(AnyDeleted, u.meta, j, Present(TagBits(HashKey(ctx, e.key))));
  }

  lemma MovedOneMore<K, V>(t: Table<K, V>, moved: set<nat>, i: nat)
    requires Occupied(t, i)
    ensures EntriesAt(t, moved + {i}) == EntriesAt(t, moved) + {t.slots[i].value}
  {
  }

  lemma NotYetMoved<K(!new), V>(ctx: KeyContext<K>, t: Table<K, V>, u: Table<K, V>, moved: set<nat>, i: nat)
    requires Unique(ctx, t) && Occupied(t, i) && i !in moved && Entries(u) == EntriesAt(t, moved)
    ensures Absent(ctx, u, KeyAt(t, i))
  {
    hide KeyEq;
    forall j: nat ensures !Holds(ctx, u, j, KeyAt(t, i)) {
      if Occupied(u, j) {
        assert u.slots[j].value in Entries(u);
        var k: nat :| k in moved && Occupied(t, k) && t.slots[k].value == u.slots[j].value;
        assert Occupied(t, k);
        assert !KeyEq(ctx, KeyAt(t, i), KeyAt(t, k));
      }
    }
  }

  // -------- Counting entries --------

  ghost function SlotEntries<K, V>(slots: seq<Option<Entry<K, V>>>): set<Entry<K, V>> {
    set i | 0 <= i < |slots| && slots[i].Some? :: slots[i].value
  }

  lemma {:induction false} PresentIsEntries<K, V>(meta: seq<Control>, slots: seq<Option<Entry<K, V>>>)
    requires |meta| == |slots|
    requires forall i | 0 <= i < |meta| :: meta[i].Present? <==> slots[i].Some?
    requires forall i, j | 0 <= i < j < |slots| && slots[i].Some? && slots[j].Some? :: slots[i] != slots[j]
    ensures Count(AnyPresent, meta) == |SlotEntries(slots)|
  {
    if |meta| > 0 {
      var last := |meta| - 1;
      PresentIsEntries(meta[..last], slots[..last]);
      LastEntry(slots);
    }
  }

  lemma LastEntry<K, V>(slots: seq<Option<Entry<K, V>>>)
    requires |slots| > 0
    requires forall i, j | 0 <= i < j < |slots| && slots[i].Some? && slots[j].Some? :: slots[i] != slots[j]
    ensures var last := |slots| - 1; var before := SlotEntries(slots[..last]);
      if slots[last].Some? then SlotEntries(slots) == before + {slots[last].value} && slots[last].value !in before
      else SlotEntries(slots) == before
  {
    var last := |slots| - 1;
    var before := SlotEntries(slots[..last]);
    forall e | e in SlotEntries(slots) ensures e in before || (slots[last].Some? && e == slots[last].value) {
      var i :| 0 <= i < |slots| && slots[i].Some? && slots[i].value == e;
      if i < last {
        assert slots[..last][i] == slots[i];
      }
    }
    forall e | e in before ensures e in SlotEntries(slots) {
      var i :| 0 <= i < last && slots[..last][i].Some? && slots[..last][i].value == e;
      assert slots[i] == slots[..last][i];
    }
  }

  lemma PresentCount<K(!new), V>(ctx: KeyContext<K>, t: Table<K, V>)
    requires Lawful(ctx) && |t.slots| == |t.meta| && Matched(ctx, t) && Unique(ctx, t)
    ensures Count(AnyPresent, t.meta) == |Entries(t)|
  {
    hide KeyEq, HashKey, TagBits;
    forall i, j | 0 <= i < j < |t.slots| && t.slots[i].Some? && t.slots[j].Some? ensures t.slots[i] != t.slots[j] {
      assert Occupied(t, i) && Occupied(t, j);
      assert KeyEq(ctx, KeyAt(t, i), KeyAt(t, i));
      assert !KeyEq(ctx, KeyAt(t, i), KeyAt(t, j));
    }
    forall i | 0 <= i < |t.meta| ensures t.meta[i].Present? <==> t.slots[i].Some? {
      assert Occupied(t, i) <==> t.slots[i].Some?;
    }
    PresentIsEntries(t.meta, t.slots);
    assert Entries(t) == SlotEntries(t.slots);
  }

  lemma MovedSubset<K, V>(t: Table<K, V>, moved: set<nat>)
    ensures EntriesAt(t, moved) <= Entries(t)
  {
  }

  lemma SubsetSmaller<T>(a: set<T>, b: set<T>)
    requires a <= b
    ensures |a| <= |b|
  {
    assert b == a + (b - a);
  }

  // A larger table always has an empty slot while entries are moved into it.
  lemma RoomWhileGrowing<K(!new), V>(ctx: KeyContext<K>, t: Table<K, V>, u: Table<K, V>, moved: set<nat>)
    requires Lawful(ctx) && Wellformed(ctx, t) && Growing(ctx, t, u, moved) && |u.meta| > |t.meta|
    ensures Count(AnyEmpty, u.meta) > 0
  {
    hide Matched, Unique, AllChained, Settled, IsSize;
    PresentCount(ctx, t);
    PresentCount(ctx, u);
    MovedSubset(t, moved);
    SubsetSmaller(EntriesAt(t, moved), Entries(t));
    CountPartition(u.meta);
  }

  // Once every entry has moved, the map is the same and the budget is exact.
  lemma AllMoved<K(!new), V>(ctx: KeyContext<K>, t: Table<K, V>, u: Table<K, V>, moved: set<nat>)
    requires Lawful(ctx) && Wellformed(ctx, t) && Growing(ctx, t, u, moved)
    requires forall i: nat | Occupied(t, i) :: i in moved
    requires |u.meta| >= 2 * |t.meta|
    ensures Contents(ctx, u) == Contents(ctx, t)
    ensures Budgeted(u.meta, Threshold(|u.meta|) - Count(AnyPresent, t.meta), 0)
    ensures Threshold(|u.meta|) - Count(AnyPresent, t.meta) > 0
  {
    hide Matched, Unique, AllChained, Settled, FullGroups;
    assert Entries(u) == Entries(t) by {
      assert forall i | 0 <= i < |t.slots| && t.slots[i].Some? :: Occupied(t, i);
    }
    PresentCount(ctx, t);
    PresentCount(ctx, u);
    CountPartition(u.meta);
    CountPartition(t.meta);
  }

  // -------- Doubling --------

  // The entry at slot `i` needed no probing.
  ghost predicate AtHome<K, V>(ctx: KeyContext<K>, t: Table<K, V>, i: int)
    requires Shaped(t)
  {
    Occupied(t, i) && ProbeIndex(StartOf(ctx, KeyAt(t, i)), 0, |t.meta|) == GroupStart(i)
  }

  ghost predicate Probed<K, V>(ctx: KeyContext<K>, t: Table<K, V>, i: int)
    requires Shaped(t)
  {
    Occupied(t, i) && !AtHome(ctx, t, i)
  }

  // The old slot that slot `j` of the doubled table can receive.
  ghost function OldSlot(j: nat, size: nat): (i: nat)
    requires j < 2 * size
    ensures i < size && (j == i || j == i + size)
  {
    if j < size then j else j - size
  }

  // The entry at slot `i` keeps its position within the group, in its new home group.
  ghost predicate GoesTo<K, V>(ctx: KeyContext<K>, t: Table<K, V>, i: nat, j: nat)
    requires Shaped(t)
  {
    AtHome(ctx, t, i) && j == ProbeIndex(StartOf(ctx, KeyAt(t, i)), 0, 2 * |t.meta|) + (i - GroupStart(i))
  }

  ghost function SplitByte<K, V>(ctx: KeyContext<K>, t: Table<K, V>, j: nat): Control
    requires Shaped(t) && j < 2 * |t.meta|
  {
    if GoesTo(ctx, t, OldSlot(j, |t.meta|), j) then t.meta[OldSlot(j, |t.meta|)] else Empty
  }

  ghost function SplitSlot<K, V>(ctx: KeyContext<K>, t: Table<K, V>, j: nat): Option<Entry<K, V>>
    requires Shaped(t) && j < 2 * |t.meta|
  {
    if GoesTo(ctx, t, OldSlot(j, |t.meta|), j) then t.slots[OldSlot(j, |t.meta|)] else None
  }

  // The doubled table once the unprobed entries have been distributed.
  ghost predicate IsSplit<K, V>(ctx: KeyContext<K>, t: Table<K, V>, u: Table<K, V>)
    requires Shaped(t)
  {
    && |u.meta| == |u.slots| == 2 * |t.meta|
    && (forall j: nat | j < 2 * |t.meta| :: u.meta[j] == SplitByte(ctx, t, j))
    && (forall j: nat | j < 2 * |t.meta| :: u.slots[j] == SplitSlot(ctx, t, j))
  }

  ghost function HomeSlots<K, V>(ctx: KeyContext<K>, t: Table<K, V>): set<nat>
    requires Shaped(t)
  {
    set i: nat | i < |t.slots| && AtHome(ctx, t, i)
  }

  // An unprobed entry lands at its old index or at its old index plus the old size.
  lemma HomeOrHigh<K, V>(ctx: KeyContext<K>, t: Table<K, V>, i: nat)
    requires Shaped(t) && AtHome(ctx, t, i)
    ensures GoesTo(ctx, t, i, i) != GoesTo(ctx, t, i, i + |t.meta|)
    ensures GoesTo(ctx, t, i, i)
      <==> ProbeIndex(StartOf(ctx, KeyAt(t, i)), 0, 2 * |t.meta|) == ProbeIndex(StartOf(ctx, KeyAt(t, i)), 0, |t.meta|)
  {
    hide ProbeIndex, StartOf, GroupStart;
    HomeDoubles(StartOf(ctx, KeyAt(t, i)), |t.meta|);
  }

  lemma SplitOccupied<K, V>(ctx: KeyContext<K>, t: Table<K, V>, u: Table<K, V>, j: nat)
    requires Shaped(t) && |t.slots| == |t.meta| && IsSplit(ctx, t, u)
    ensures Occupied(u, j) <==> j < 2 * |t.meta| && GoesTo(ctx, t, OldSlot(j, |t.meta|), j)
    ensures Occupied(u, j) ==> u.slots[j] == t.slots[OldSlot(j, |t.meta|)] && u.meta[j] == t.meta[OldSlot(j, |t.meta|)]
  {
    hide ProbeIndex, StartOf, GroupStart, IsSize;
    if j < 2 * |t.meta| {
      assert u.slots[j] == SplitSlot(ctx, t, j);
      assert u.meta[j] == SplitByte(ctx, t, j);
    }
  }

  lemma SplitMatched<K(!new), V>(ctx: KeyContext<K>, t: Table<K, V>, u: Table<K, V>)
    requires Wellformed(ctx, t) && IsSplit(ctx, t, u)
    ensures Matched(ctx, u)
  {
    hide GoesTo, HashKey, TagBits, AllChained, Unique, Settled, IsSize;
    forall j: nat | j < |u.meta| && u.meta[j].Present? ensures Occupied(u, j) {
      assert u.meta[j] == SplitByte(ctx, t, j);
      SplitOccupied(ctx, t, u, j);
    }
    forall j: nat | Occupied(u, j) ensures u.meta[j] == Present(TagBits(HashKey(ctx, KeyAt(u, j)))) {
      SplitOccupied(ctx, t, u, j);
      assert Occupied(t, OldSlot(j, |t.meta|));
    }
  }

  lemma SplitUnique<K(!new), V>(ctx: KeyContext<K>, t: Table<K, V>, u: Table<K, V>)
    requires Wellformed(ctx, t) && IsSplit(ctx, t, u)
    ensures Unique(ctx, u)
  {
    hide ProbeIndex, StartOf, GroupStart, HashKey, TagBits, AllChained, Settled, IsSize, IsSplit, Matched;
    forall a: nat, b: nat | Occupied(u, a) && Occupied(u, b) && a != b
      ensures !KeyEq(ctx, KeyAt(u, a), KeyAt(u, b))
    {
      SplitOccupied(ctx, t, u, a);
      SplitOccupied(ctx, t, u, b);
      var i, j := OldSlot(a, |t.meta|), OldSlot(b, |t.meta|);
      assert Occupied(t, i) && Occupied(t, j);
      assert KeyAt(u, a) == KeyAt(t, i) && KeyAt(u, b) == KeyAt(t, j);
    }
  }

  lemma SplitChained<K(!new), V>(ctx: KeyContext<K>, t: Table<K, V>, u: Table<K, V>)
    requires Wellformed(ctx, t) && IsSplit(ctx, t, u)
    ensures Shaped(u) && AllChained(ctx, u)
  {
    hide ProbeIndex, StartOf, GroupStart, AllChained, Settled, IsSplit, Matched, Unique, FullStep, IsSize;
    DoubleSize(|t.meta|);
    assert |u.meta| == |u.slots| == 2 * |t.meta| by { SplitSize(ctx, t, u); }
    forall j: nat | Occupied(u, j) ensures Chained(u.meta, StartOf(ctx, KeyAt(u, j)), j) {
      SplitOccupied(ctx, t, u, j);
      HomeIsChained(u.meta, StartOf(ctx, KeyAt(u, j)), j);
    }
    AllChainedFrom(ctx, u);
  }

  lemma SplitSize<K(!new), V>(ctx: KeyContext<K>, t: Table<K, V>, u: Table<K, V>)
    requires Shaped(t) && IsSplit(ctx, t, u)
    ensures |u.meta| == |u.slots| == 2 * |t.meta|
  {
  }

  lemma AllChainedFrom<K(!new), V>(ctx: KeyContext<K>, u: Table<K, V>)
    requires Shaped(u)
    requires forall j: nat | Occupied(u, j) :: Chained(u.meta, StartOf(ctx, KeyAt(u, j)), j)
    ensures AllChained(ctx, u)
  {
  }

  // A slot in the first group of the probe is on an unbroken chain.
  lemma HomeIsChained(meta: seq<Control>, start: nat, j: nat)
    requires IsSize(|meta|) && j < |meta|
    requires ProbeIndex(start, 0, |meta|) <= j < ProbeIndex(start, 0, |meta|) + GroupSize
    ensures Chained(meta, start, j)
  {
    hide ProbeIndex, FullStep;
    var m := SizeInGroups(|meta|);
    ChainedAfterSearch(meta, start, 0, j);
  }

  lemma SplitSettled<K(!new), V>(ctx: KeyContext<K>, t: Table<K, V>, u: Table<K, V>)
    requires Wellformed(ctx, t) && IsSplit(ctx, t, u)
    ensures Settled(u.meta) && Count(AnyDeleted, u.meta) == 0
  {
    hide ProbeIndex, StartOf, GroupStart, HashKey, TagBits, AllChained, Settled, Unique, IsSize;
    forall j: nat | j < |u.meta| ensures u.meta[j] != Deleted {
      assert u.meta[j] == SplitByte(ctx, t, j);
    }
    NoTombstones(u.meta);
  }

  lemma NoTombstones(meta: seq<Control>)
    requires forall j: nat | j < |meta| :: meta[j] != Deleted
    ensures Settled(meta) && Count(AnyDeleted, meta) == 0
  {
    if Count(AnyDeleted, meta) > 0 {
      var i := CountPositive(AnyDeleted, meta);
    }
  }

  lemma SplitEntries<K(!new), V>(ctx: KeyContext<K>, t: Table<K, V>, u: Table<K, V>)
    requires Wellformed(ctx, t) && IsSplit(ctx, t, u)
    ensures Entries(u) == EntriesAt(t, HomeSlots(ctx, t))
  {
    hide ProbeIndex, StartOf, GroupStart, HashKey, TagBits, AllChained, Settled, Unique, IsSize, Matched, IsSplit;
    var n := |t.meta|;
    forall e | e in Entries(u) ensures e in EntriesAt(t, HomeSlots(ctx, t)) {
      var j: nat :| Occupied(u, j) && u.slots[j].value == e;
      SplitOccupied(ctx, t, u, j);
      assert OldSlot(j, n) in HomeSlots(ctx, t);
    }
    forall e | e in EntriesAt(t, HomeSlots(ctx, t)) ensures e in Entries(u) {
      var i: nat :| i in HomeSlots(ctx, t) && Occupied(t, i) && t.slots[i].value == e;
      HomeOrHigh(ctx, t, i);
      SplitOccupied(ctx, t, u, i);
      SplitOccupied(ctx, t, u, i + n);
      assert OldSlot(i, n) == i && OldSlot(i + n, n) == i;
    }
  }

  // Every occupied slot still holds the same entry.
  ghost predicate Kept<K, V>(before: seq<Option<Entry<K, V>>>, now: seq<Option<Entry<K, V>>>) {
    |now| == |before| && forall j: nat | j < |before| && before[j].Some? :: now[j] == before[j]
  }

  // Every entry that needed no probing is in the slot it goes to.
  ghost predicate HomesHold<K, V>(ctx: KeyContext<K>, t: Table<K, V>, slots: seq<Option<Entry<K, V>>>)
    requires Shaped(t)
  {
    forall i: nat, j: nat | AtHome(ctx, t, i) && GoesTo(ctx, t, i, j) ::
      i < |t.slots| && t.slots[i].Some? && j < |slots| && slots[j] == t.slots[i]
  }

  // The distribution puts the unprobed entries where they go, and reinsertion leaves them there.
  lemma HomesStay<K(!new), V>(ctx: KeyContext<K>, t: Table<K, V>, u: Table<K, V>, now: seq<Option<Entry<K, V>>>)
    requires Wellformed(ctx, t) && IsSplit(ctx, t, u) && Kept(u.slots, now)
    ensures HomesHold(ctx, t, now)
  {
    hide GoesTo, HashKey, TagBits, AllChained, Unique, Settled, Matched, IsSize, IsSplit, AtHome;
    forall i: nat, j: nat | AtHome(ctx, t, i) && GoesTo(ctx, t, i, j)
      ensures i < |t.slots| && t.slots[i].Some? && j < |now| && now[j] == t.slots[i]
    {
      HomeOccupied(ctx, t, i);
      GoesToEither(ctx, t, i, j);
      SplitSize(ctx, t, u);
      SplitOccupied(ctx, t, u, j);
      assert Occupied(u, j);
    }
  }

  lemma GoesToEither<K, V>(ctx: KeyContext<K>, t: Table<K, V>, i: nat, j: nat)
    requires Shaped(t) && AtHome(ctx, t, i) && GoesTo(ctx, t, i, j)
    ensures i < |t.meta| && (j == i || j == i + |t.meta|) && OldSlot(j, |t.meta|) == i
  {
    hide ProbeIndex, StartOf, IsSize;
    HomeOrHigh(ctx, t, i);
  }

  // Copying the old storage into both halves in bulk, as is done for trivially relocatable entries,
  // puts the same entry into every slot that the new metadata says is present.
  lemma RelocationAgrees<K(!new), V>(ctx: KeyContext<K>, t: Table<K, V>, u: Table<K, V>, j: nat)
    requires Wellformed(ctx, t) && IsSplit(ctx, t, u) && j < |u.meta| && u.meta[j].Present?
    ensures |t.slots + t.slots| == |u.slots| && (t.slots + t.slots)[j] == u.slots[j] && u.slots[j].Some?
  {
    hide ProbeIndex, StartOf, GroupStart, HashKey, TagBits, AllChained, Settled, Unique, IsSize, IsSplit;
    SplitSize(ctx, t, u);
    SplitMatched(ctx, t, u);
    SplitOccupied(ctx, t, u, j);
    assert Occupied(u, j);
  }

  // The distribution is a well formed, tombstone-free table of the unprobed entries.
  lemma SplitGrowing<K(!new), V>(ctx: KeyContext<K>, t: Table<K, V>, u: Table<K, V>)
    requires Wellformed(ctx, t) && IsSplit(ctx, t, u)
    ensures Growing(ctx, t, u, HomeSlots(ctx, t))
  {
    hide IsSplit, Matched, Unique, Settled, AllChained, HomeSlots, EntriesAt, Entries, IsSize;
    SplitMatched(ctx, t, u);
    SplitUnique(ctx, t, u);
    SplitChained(ctx, t, u);
    SplitSettled(ctx, t, u);
    SplitEntries(ctx, t, u);
  }

  // The probed slots below `upto`, with their hashes, in ascending order.
  ghost function ProbedBelow<K, V>(ctx: KeyContext<K>, t: Table<K, V>, upto: nat): seq<(nat, bv64)>
    requires Shaped(t)
  {
    if upto == 0 then [] else
      var before := ProbedBelow(ctx, t, upto - 1);
      if Probed(ctx, t, upto - 1) then before + [(upto - 1, HashKey(ctx, KeyAt(t, upto - 1)))] else before
  }

  lemma {:induction false} ProbedSkip<K, V>(ctx: KeyContext<K>, t: Table<K, V>, a: nat, b: nat)
    requires Shaped(t) && a <= b && forall i: nat | a <= i < b :: !Occupied(t, i)
    ensures ProbedBelow(ctx, t, a) == ProbedBelow(ctx, t, b)
  {
    hide IsSize, AtHome;
    if a < b {
      ProbedSkip(ctx, t, a, b - 1);
      assert !Occupied(t, b - 1);
    }
  }

  lemma {:induction false} ProbedMember<K, V>(ctx: KeyContext<K>, t: Table<K, V>, upto: nat, k: nat)
    requires Shaped(t) && k < |ProbedBelow(ctx, t, upto)|
    ensures var (i, hash) := ProbedBelow(ctx, t, upto)[k];
      i < upto && Probed(ctx, t, i) && hash == HashKey(ctx, KeyAt(t, i))
    ensures forall b: nat | b < k :: ProbedBelow(ctx, t, upto)[b].0 < ProbedBelow(ctx, t, upto)[k].0
  {
    hide IsSize, AtHome, HashKey;
    var before := ProbedBelow(ctx, t, upto - 1);
    if k < |before| {
      ProbedMember(ctx, t, upto - 1, k);
    } else {
      forall b: nat | b < k ensures before[b].0 < upto - 1 {
        ProbedMember(ctx, t, upto - 1, b);
      }
    }
  }

  lemma {:induction false} ProbedListed<K, V>(ctx: KeyContext<K>, t: Table<K, V>, upto: nat, i: nat) returns (k: nat)
    requires Shaped(t) && i < upto && Probed(ctx, t, i)
    ensures k < |ProbedBelow(ctx, t, upto)| && ProbedBelow(ctx, t, upto)[k].0 == i
  {
    hide IsSize, AtHome, HashKey;
    if i == upto - 1 {
      k := |ProbedBelow(ctx, t, upto - 1)|;
    } else {
      k := ProbedListed(ctx, t, upto - 1, i);
    }
  }

  // How the growth loop classifies one present slot from its masked hash indices.
  lemma ClassifySlot<K, V>(ctx: KeyContext<K>, t: Table<K, V>, group: nat, b: nat)
    requires Shaped(t) && IsGroupStart(group, |t.meta|) && b < GroupSize && Occupied(t, group + b)
    ensures var n, i := |t.meta|, group + b;
      var index := StartOf(ctx, KeyAt(t, i));
      var oldHome, newHome := And(index, ProbeMask(n)), And(index, ProbeMask(2 * n));
      && (AtHome(ctx, t, i) <==> oldHome == group)
      && (oldHome == group ==>
          && (newHome == oldHome || newHome == Or(oldHome, n))
          && GoesTo(ctx, t, i, newHome + b)
          && newHome + b < 2 * n && OldSlot(newHome + b, n) == i
          && (newHome == oldHome <==> newHome + b == i)
          && Xor(newHome + b, n) == if newHome == oldHome then i + n else i)
  {
    hide And, Or, Xor, ProbeMask, ProbeIndex, StartOf, GroupStart, Pow2;
    var n, i := |t.meta|, group + b;
    var index := StartOf(ctx, KeyAt(t, i));
    GroupStartUnique(i, group);
    DoubleSize(n);
    MaskedStart(index, n);
    MaskedStart(index, 2 * n);
    HomeDoubles(index, n);
    HighSlot(group, n);
    OtherSlot(i, n);
  }

  lemma OtherSlot(i: nat, size: nat)
    requires IsSize(size) && i < size
    ensures Xor(i, size) == i + size && Xor(i + size, size) == i
  {
    var k: nat :| size == Pow2(k);
    ToggleHighBit(i, k);
  }

  lemma HighSlot(i: nat, size: nat)
    requires IsSize(size) && i < size
    ensures Or(i, size) == i + size
  {
    var k: nat :| size == Pow2(k);
    SetHighBit(i, k);
  }

  // What the classification means for the two bytes and slots an old slot maps to.
  lemma SplitPair<K, V>(ctx: KeyContext<K>, t: Table<K, V>, i: nat, j: nat)
    requires Shaped(t) && i < |t.meta| && Occupied(t, i) && (j == i || j == i + |t.meta|)
    requires AtHome(ctx, t, i) ==> GoesTo(ctx, t, i, j)
    ensures var n := |t.meta|; var other := if j == i then i + n else i;
      && SplitByte(ctx, t, other) == Empty && SplitSlot(ctx, t, other) == None
      && SplitByte(ctx, t, j) == (if AtHome(ctx, t, i) then t.meta[i] else Empty)
      && SplitSlot(ctx, t, j) == (if AtHome(ctx, t, i) then t.slots[i] else None)
  {
    hide ProbeIndex, StartOf, GroupStart, IsSize;
  }

  // -------- One group of the doubling loop --------

  // The two copies of a group once the slots below `bound` have been classified.
  ghost predicate BytesSplit<K, V>(ctx: KeyContext<K>, t: Table<K, V>, group: nat, bound: nat,
                                   low: seq<Control>, high: seq<Control>)
    requires Shaped(t) && IsGroupStart(group, |t.meta|)
  {
    && |low| == |high| == GroupSize
    && (forall b: nat | b < GroupSize ::
          low[b] == if group + b < bound then SplitByte(ctx, t, group + b) else Untombed(t.meta[group + b]))
    && (forall b: nat | b < GroupSize ::
          high[b] == if group + b < bound then SplitByte(ctx, t, group + b + |t.meta|) else Untombed(t.meta[group + b]))
  }

  ghost function Untombed(c: Control): Control {
    if c == Deleted then Empty else c
  }

  // The slots of the new table that the old slots in [group, bound) map to have been written.
  ghost predicate SlotsSplit<K, V>(ctx: KeyContext<K>, t: Table<K, V>, group: nat, bound: nat,
                                   before: seq<Option<Entry<K, V>>>, now: seq<Option<Entry<K, V>>>)
    requires Shaped(t)
  {
    && |now| == |before| == 2 * |t.meta|
    && forall j: nat | j < 2 * |t.meta| ::
         now[j] == if group <= OldSlot(j, |t.meta|) < bound then SplitSlot(ctx, t, j) else before[j]
  }

  // Unprobed entries in [group, bound) have been moved out of the old storage.
  ghost predicate MovedOut<K, V>(ctx: KeyContext<K>, t: Table<K, V>, group: nat, bound: nat,
                                 before: seq<Option<Entry<K, V>>>, now: seq<Option<Entry<K, V>>>)
    requires Shaped(t)
  {
    && |now| == |before| == |t.meta|
    && forall i: nat | i < |t.meta| ::
         now[i] == if group <= i < bound && AtHome(ctx, t, i) then None else before[i]
  }

  lemma BytesStart<K, V>(ctx: KeyContext<K>, t: Table<K, V>, group: nat)
    requires Shaped(t) && IsGroupStart(group, |t.meta|)
    ensures var g := ClearDeleted(t.meta[group..group + GroupSize]);
      BytesSplit(ctx, t, group, group, g, g)
  {
    hide IsSize, GoesTo;
  }

  lemma SlotsStart<K, V>(ctx: KeyContext<K>, t: Table<K, V>, group: nat,
                         slots: seq<Option<Entry<K, V>>>, old_: seq<Option<Entry<K, V>>>)
    requires Shaped(t) && |slots| == 2 * |t.meta| && |old_| == |t.meta|
    ensures SlotsSplit(ctx, t, group, group, slots, slots)
    ensures MovedOut(ctx, t, group, group, old_, old_)
  {
    hide IsSize, GoesTo;
  }

  // Slots that hold nothing need no work.
  lemma BytesSkip<K, V>(ctx: KeyContext<K>, t: Table<K, V>, group: nat, a: nat, b: nat,
                        low: seq<Control>, high: seq<Control>)
    requires Shaped(t) && IsGroupStart(group, |t.meta|) && Matched(ctx, t)
    requires a <= b <= group + GroupSize && forall i: nat | a <= i < b :: !t.meta[i].Present?
    requires BytesSplit(ctx, t, group, a, low, high)
    ensures BytesSplit(ctx, t, group, b, low, high)
  {
    hide IsSize, ProbeIndex, StartOf, TagBits, HashKey;
  }

  lemma SlotsSkip<K, V>(ctx: KeyContext<K>, t: Table<K, V>, group: nat, a: nat, b: nat,
                        before: seq<Option<Entry<K, V>>>, now: seq<Option<Entry<K, V>>>)
    requires Shaped(t) && group <= a <= b <= |t.meta| && forall i: nat | a <= i < b :: !Occupied(t, i)
    requires forall j: nat | j < |before| && j < 2 * |t.meta| && group <= OldSlot(j, |t.meta|) < b :: before[j] == None
    requires SlotsSplit(ctx, t, group, a, before, now)
    ensures SlotsSplit(ctx, t, group, b, before, now)
  {
    hide IsSize, ProbeIndex, StartOf;
  }

  lemma MovedOutSkip<K, V>(ctx: KeyContext<K>, t: Table<K, V>, group: nat, a: nat, b: nat,
                           before: seq<Option<Entry<K, V>>>, now: seq<Option<Entry<K, V>>>)
    requires Shaped(t) && group <= a <= b <= |t.meta| && forall i: nat | a <= i < b :: !Occupied(t, i)
    requires MovedOut(ctx, t, group, a, before, now)
    ensures MovedOut(ctx, t, group, b, before, now)
  {
    hide IsSize, ProbeIndex, StartOf;
  }

  lemma {:induction false} CountSkip(meta: seq<Control>, a: nat, b: nat)
    requires a <= b <= |meta| && forall i: nat | a <= i < b :: !meta[i].Present?
    ensures Count(AnyPresent, meta[..a]) == Count(AnyPresent, meta[..b])
  {
    if a < b {
      CountSkip(meta, a, b - 1);
      assert meta[..b][..b - 1] == meta[..b - 1];
    }
  }

  // A present slot clears one of its two bytes, or both when it was probed.
  lemma BytesStep<K, V>(ctx: KeyContext<K>, t: Table<K, V>, group: nat, b: nat, j: nat,
                        low: seq<Control>, high: seq<Control>)
    requires Shaped(t) && IsGroupStart(group, |t.meta|) && b < GroupSize && Occupied(t, group + b)
    requires t.meta[group + b].Present?
    requires j == group + b || j == group + b + |t.meta|
    requires AtHome(ctx, t, group + b) ==> GoesTo(ctx, t, group + b, j)
    requires BytesSplit(ctx, t, group, group + b, low, high)
    ensures BytesSplit(ctx, t, group, group + b + 1,
                       if AtHome(ctx, t, group + b) && j == group + b then low else low[b := Empty],
                       if AtHome(ctx, t, group + b) && j != group + b then high else high[b := Empty])
  {
    hide IsSize, GoesTo, AtHome, SplitByte;
    SplitPair(ctx, t, group + b, j);
    var home := AtHome(ctx, t, group + b);
    BytesWrite(ctx, t, group, b, low, high, home && j == group + b, home && j != group + b);
  }

  lemma BytesWrite<K, V>(ctx: KeyContext<K>, t: Table<K, V>, group: nat, b: nat,
                         low: seq<Control>, high: seq<Control>, keepLow: bool, keepHigh: bool)
    requires Shaped(t) && IsGroupStart(group, |t.meta|) && b < GroupSize
    requires BytesSplit(ctx, t, group, group + b, low, high)
    requires SplitByte(ctx, t, group + b) == if keepLow then Untombed(t.meta[group + b]) else Empty
    requires SplitByte(ctx, t, group + b + |t.meta|) == if keepHigh then Untombed(t.meta[group + b]) else Empty
    ensures BytesSplit(ctx, t, group, group + b + 1,
                       if keepLow then low else low[b := Empty], if keepHigh then high else high[b := Empty])
  {
    hide IsSize, SplitByte, Untombed;
  }

  lemma SlotsStep<K, V>(ctx: KeyContext<K>, t: Table<K, V>, group: nat, i: nat, j: nat,
                        before: seq<Option<Entry<K, V>>>, now: seq<Option<Entry<K, V>>>)
    requires Shaped(t) && group <= i < |t.meta| && Occupied(t, i) && (j == i || j == i + |t.meta|)
    requires AtHome(ctx, t, i) ==> GoesTo(ctx, t, i, j)
    requires |before| == 2 * |t.meta| && before[i] == None && before[i + |t.meta|] == None
    requires SlotsSplit(ctx, t, group, i, before, now)
    ensures SlotsSplit(ctx, t, group, i + 1, before, if AtHome(ctx, t, i) then now[j := t.slots[i]] else now)
  {
    hide IsSize, GoesTo, AtHome, SplitSlot;
    SplitPair(ctx, t, i, j);
  }

  lemma MovedOutStep<K, V>(ctx: KeyContext<K>, t: Table<K, V>, group: nat, i: nat,
                           before: seq<Option<Entry<K, V>>>, now: seq<Option<Entry<K, V>>>)
    requires Shaped(t) && group <= i < |t.meta| && MovedOut(ctx, t, group, i, before, now)
    ensures MovedOut(ctx, t, group, i + 1, before, if AtHome(ctx, t, i) then now[i := None] else now)
  {
    hide IsSize, AtHome;
  }

  lemma CountStep(meta: seq<Control>, i: nat)
    requires i < |meta| && meta[i].Present?
    ensures Count(AnyPresent, meta[..i + 1]) == Count(AnyPresent, meta[..i]) + 1
  {
    assert meta[..i + 1][..i] == meta[..i];
  }

  // The state of the loop over one group: the two copies of the group's bytes, the new
  // slots and the old slots (each before the group and now), and what was collected.
  datatype Work<!K, !V> = Work(
    low: seq<Control>, high: seq<Control>,
    slots0: seq<Option<Entry<K, V>>>, slots: seq<Option<Entry<K, V>>>,
    old0: seq<Option<Entry<K, V>>>, olds: seq<Option<Entry<K, V>>>,
    probed: seq<(nat, bv64)>, count: nat)

  ghost predicate RawTargets<K, V>(t: Table<K, V>, group: nat, slots: seq<Option<Entry<K, V>>>) {
    && |slots| == 2 * |t.meta|
    && forall j: nat | j < 2 * |t.meta| && group <= OldSlot(j, |t.meta|) < group + GroupSize :: slots[j] == None
  }

  ghost predicate Progress<K, V>(ctx: KeyContext<K>, t: Table<K, V>, group: nat, bound: nat, w: Work<K, V>)
    requires Shaped(t) && IsGroupStart(group, |t.meta|)
  {
    && group <= bound <= group + GroupSize
    && BytesSplit(ctx, t, group, bound, w.low, w.high)
    && SlotsSplit(ctx, t, group, bound, w.slots0, w.slots)
    && MovedOut(ctx, t, group, bound, w.old0, w.olds)
    && w.probed == ProbedBelow(ctx, t, bound)
    && w.count == Count(AnyPresent, t.meta[..bound])
  }

  lemma ProgressSkip<K, V>(ctx: KeyContext<K>, t: Table<K, V>, group: nat, a: nat, b: nat, w: Work<K, V>)
    requires Shaped(t) && IsGroupStart(group, |t.meta|) && Matched(ctx, t)
    requires a <= b <= group + GroupSize && forall i: nat | a <= i < b :: !t.meta[i].Present?
    requires RawTargets(t, group, w.slots0)
    requires Progress(ctx, t, group, a, w)
    ensures Progress(ctx, t, group, b, w)
    ensures |w.low| == |w.high| == GroupSize
  {
    hide IsSize, SlotsSplit, MovedOut, ProbedBelow, Count, TagBits, HashKey, SplitByte;
    assert forall i: nat | a <= i < b :: !Occupied(t, i);
    BytesSkip(ctx, t, group, a, b, w.low, w.high);
    SlotsSkip(ctx, t, group, a, b, w.slots0, w.slots);
    MovedOutSkip(ctx, t, group, a, b, w.old0, w.olds);
    ProbedSkip(ctx, t, a, b);
    CountSkip(t.meta, a, b);
  }

  // A probed entry: both bytes cleared, nothing moved, the slot remembered with its hash.
  lemma ProgressProbed<K, V>(ctx: KeyContext<K>, t: Table<K, V>, group: nat, b: nat, w: Work<K, V>)
    requires Shaped(t) && IsGroupStart(group, |t.meta|) && b < GroupSize && Probed(ctx, t, group + b)
    requires t.meta[group + b].Present? && RawTargets(t, group, w.slots0)
    requires Progress(ctx, t, group, group + b, w)
    ensures |w.low| == |w.high| == GroupSize
    ensures Progress(ctx, t, group, group + b + 1,
      w.(low := w.low[b := Empty], high := w.high[b := Empty],
         probed := w.probed + [(group + b, HashKey(ctx, KeyAt(t, group + b)))], count := w.count + 1))
  {
    hide IsSize, SlotsSplit, MovedOut, Count, TagBits, HashKey, AtHome;
    var i, n := group + b, |t.meta|;
    assert OldSlot(i, n) == i && OldSlot(i + n, n) == i;
    BytesStep(ctx, t, group, b, i, w.low, w.high);
    SlotsStep(ctx, t, group, i, i, w.slots0, w.slots);
    MovedOutStep(ctx, t, group, i, w.old0, w.olds);
    CountStep(t.meta, i);
  }

  // An unprobed entry: the byte at the other target cleared, the entry moved to slot `j`.
  lemma ProgressHome<K, V>(ctx: KeyContext<K>, t: Table<K, V>, group: nat, b: nat, j: nat, w: Work<K, V>)
    requires Shaped(t) && IsGroupStart(group, |t.meta|) && b < GroupSize && AtHome(ctx, t, group + b)
    requires t.meta[group + b].Present? && RawTargets(t, group, w.slots0)
    requires (j == group + b || j == group + b + |t.meta|) && GoesTo(ctx, t, group + b, j)
    requires Progress(ctx, t, group, group + b, w)
    ensures |w.low| == |w.high| == GroupSize && |w.slots| == 2 * |t.meta| && |w.olds| == |t.meta|
    ensures Progress(ctx, t, group, group + b + 1,
      w.(low := if j == group + b then w.low else w.low[b := Empty],
         high := if j == group + b then w.high[b := Empty] else w.high,
         slots := w.slots[j := t.slots[group + b]], olds := w.olds[group + b := None],
         count := w.count + 1))
  {
    hide IsSize, Count, TagBits, HashKey, AtHome, GoesTo;
    var i, n := group + b, |t.meta|;
    assert Occupied(t, i) by { assert AtHome(ctx, t, i); HomeOccupied(ctx, t, i); }
    assert OldSlot(i, n) == i && OldSlot(i + n, n) == i;
    BytesStep(ctx, t, group, b, j, w.low, w.high);
    SlotsStep(ctx, t, group, i, j, w.slots0, w.slots);
    MovedOutStep(ctx, t, group, i, w.old0, w.olds);
    CountStep(t.meta, i);
  }

  lemma HomeOccupied<K, V>(ctx: KeyContext<K>, t: Table<K, V>, i: nat)
    requires Shaped(t) && AtHome(ctx, t, i)
    ensures Occupied(t, i)
  {
  }

  lemma ProgressEnd<K, V>(ctx: KeyContext<K>, t: Table<K, V>, group: nat, w: Work<K, V>)
    requires Shaped(t) && IsGroupStart(group, |t.meta|)
    requires Progress(ctx, t, group, group + GroupSize, w)
    ensures BytesSplit(ctx, t, group, group + GroupSize, w.low, w.high)
    ensures SlotsSplit(ctx, t, group, group + GroupSize, w.slots0, w.slots)
    ensures MovedOut(ctx, t, group, group + GroupSize, w.old0, w.olds)
    ensures w.probed == ProbedBelow(ctx, t, group + GroupSize)
    ensures w.count == Count(AnyPresent, t.meta[..group + GroupSize])
  {
  }

  lemma ProgressStart<K, V>(ctx: KeyContext<K>, t: Table<K, V>, group: nat, w: Work<K, V>)
    requires Shaped(t) && IsGroupStart(group, |t.meta|)
    requires w.low == w.high == ClearDeleted(t.meta[group..group + GroupSize])
    requires w.slots == w.slots0 && |w.slots| == 2 * |t.meta| && w.olds == w.old0 && |w.olds| == |t.meta|
    requires w.probed == ProbedBelow(ctx, t, group) && w.count == Count(AnyPresent, t.meta[..group])
    ensures Progress(ctx, t, group, group, w)
  {
    hide IsSize, BytesSplit, SlotsSplit, MovedOut, ProbedBelow, Count;
    BytesStart(ctx, t, group);
    SlotsStart(ctx, t, group, w.slots, w.olds);
  }

  // -------- What one group leaves behind --------

  ghost predicate BytesWritten<K, V>(ctx: KeyContext<K>, t: Table<K, V>, group: nat,
                                     before: seq<Control>, now: seq<Control>)
    requires Shaped(t)
  {
    && |now| == |before| == 2 * |t.meta|
    && forall j: nat | j < 2 * |t.meta| ::
         now[j] == if group <= OldSlot(j, |t.meta|) < group + GroupSize then SplitByte(ctx, t, j) else before[j]
  }

  // The bytes of the group in both halves of the new metadata; nothing else has changed.
  ghost predicate PairHeld(before: seq<Control>, now: seq<Control>, group: nat, size: nat,
                           low: seq<Control>, high: seq<Control>)
  {
    && |before| == |now| == 2 * size && group + GroupSize <= size
    && |low| == |high| == GroupSize
    && now[group..group + GroupSize] == low
    && now[group + size..group + size + GroupSize] == high
    && forall j: nat | j < 2 * size && !(group <= OldSlot(j, size) < group + GroupSize) :: now[j] == before[j]
  }

  lemma PairWrite(before: seq<Control>, now: seq<Control>, group: nat, size: nat,
                  low: seq<Control>, high: seq<Control>, b: nat)
    requires PairHeld(before, now, group, size, low, high) && b < GroupSize
    ensures PairHeld(before, now[group + b := Empty], group, size, low[b := Empty], high)
    ensures PairHeld(before, now[group + b + size := Empty], group, size, low, high[b := Empty])
  {
    var one, two := now[group + b := Empty], now[group + b + size := Empty];
    assert one[group + size..group + size + GroupSize] == now[group + size..group + size + GroupSize];
    assert two[group..group + GroupSize] == now[group..group + GroupSize];
  }

  lemma StoredBytes<K, V>(ctx: KeyContext<K>, t: Table<K, V>, group: nat,
                          low: seq<Control>, high: seq<Control>, before: seq<Control>, now: seq<Control>)
    requires Shaped(t) && IsGroupStart(group, |t.meta|)
    requires BytesSplit(ctx, t, group, group + GroupSize, low, high)
    requires PairHeld(before, now, group, |t.meta|, low, high)
    ensures BytesWritten(ctx, t, group, before, now)
  {
    hide IsSize, SplitByte;
    var n := |t.meta|;
    forall j: nat | j < 2 * n && group <= OldSlot(j, n) < group + GroupSize
      ensures now[j] == SplitByte(ctx, t, j)
    {
      var b := OldSlot(j, n) - group;
      if j < n {
        assert now[j] == low[b];
      } else {
        assert now[j] == high[b];
      }
    }
  }

  // -------- Walking the present bytes of a group --------

  ghost function Bound(group: nat, present: seq<nat>, n: nat): nat
    requires n <= |present|
  {
    if n == 0 then group else group + present[n - 1] + 1
  }

  lemma NextPresent<K, V>(ctx: KeyContext<K>, t: Table<K, V>, group: nat, n: nat, present: seq<nat>)
    requires Shaped(t) && Matched(ctx, t) && IsGroupStart(group, |t.meta|)
    requires present == Matches(AnyPresent, t.meta[group..group + GroupSize]) && n <= |present|
    ensures n < |present| ==>
      && present[n] < GroupSize
      && Bound(group, present, n) <= group + present[n]
      && t.meta[group + present[n]].Present? && Occupied(t, group + present[n])
      && forall i: nat | Bound(group, present, n) <= i < group + present[n] :: !t.meta[i].Present?
    ensures n == |present| ==>
      && Bound(group, present, n) <= group + GroupSize
      && forall i: nat | Bound(group, present, n) <= i < group + GroupSize :: !t.meta[i].Present?
  {
    hide Matches, IsSize, TagBits, HashKey;
    var g := t.meta[group..group + GroupSize];
    assert present == Matches(AnyPresent, g);
    NextMatch(AnyPresent, g, n);
    if n > 0 {
      NextMatch(AnyPresent, g, n - 1);
      MatchesAscend(AnyPresent, g, n);
    }
    forall i: nat | Bound(group, present, n) <= i < if n < |present| then group + present[n] else group + GroupSize
      ensures !t.meta[i].Present?
    {
      var b: nat := i - group;
      assert g[b] == t.meta[i];
      NotBetween(AnyPresent, g, n, b);
    }
  }

  // A position between two neighbours of the matches is no match.
  lemma NotBetween(q: Query, g: seq<Control>, n: nat, b: nat)
    requires n <= |Matches(q, g)| && b < |g|
    requires n > 0 ==> Matches(q, g)[n - 1] < b
    requires n < |Matches(q, g)| ==> b < Matches(q, g)[n]
    ensures !Hits(q, g[b])
  {
    hide Matches;
    NextMatch(q, g, n);
  }

  lemma MatchesAscend(q: Query, g: seq<Control>, n: nat)
    requires 0 < n <= |Matches(q, g)|
    ensures n < |Matches(q, g)| ==> Matches(q, g)[n - 1] < Matches(q, g)[n]
  {
  }

  // The entry about to be classified is still in the old storage.
  lemma StillThere<K, V>(ctx: KeyContext<K>, t: Table<K, V>, group: nat, i: nat, w: Work<K, V>)
    requires Shaped(t) && IsGroupStart(group, |t.meta|) && group <= i < group + GroupSize
    requires |w.old0| == |t.meta| && w.old0[group..group + GroupSize] == t.slots[group..group + GroupSize]
    requires Progress(ctx, t, group, i, w)
    ensures |w.olds| == |t.meta| && w.olds[i] == t.slots[i]
    ensures |w.low| == |w.high| == GroupSize
  {
    hide IsSize, SlotsSplit, ProbedBelow, Count, AtHome;
    assert w.old0[i] == w.old0[group..group + GroupSize][i - group];
    assert t.slots[i] == t.slots[group..group + GroupSize][i - group];
  }

  // -------- The groups one after another --------

  // The old slots below `bound` have been distributed over the doubled table `u`.
  ghost predicate SplitBelow<K, V>(ctx: KeyContext<K>, t: Table<K, V>, bound: nat,
                                   meta: seq<Control>, slots: seq<Option<Entry<K, V>>>)
    requires Shaped(t)
  {
    && |meta| == |slots| == 2 * |t.meta|
    && (forall j: nat | j < 2 * |t.meta| && OldSlot(j, |t.meta|) < bound :: meta[j] == SplitByte(ctx, t, j))
    && (forall j: nat | j < 2 * |t.meta| ::
          slots[j] == if OldSlot(j, |t.meta|) < bound then SplitSlot(ctx, t, j) else None)
  }

  lemma GroupReady<K, V>(ctx: KeyContext<K>, t: Table<K, V>, group: nat,
                         meta: seq<Control>, slots: seq<Option<Entry<K, V>>>, olds: seq<Option<Entry<K, V>>>)
    requires Shaped(t) && IsGroupStart(group, |t.meta|)
    requires SplitBelow(ctx, t, group, meta, slots) && MovedOut(ctx, t, 0, group, t.slots, olds)
    ensures RawTargets(t, group, slots)
    ensures |olds| == |t.slots| && olds[group..group + GroupSize] == t.slots[group..group + GroupSize]
  {
    hide IsSize, SplitByte, SplitSlot, AtHome;
  }

  lemma GroupDone<K, V>(ctx: KeyContext<K>, t: Table<K, V>, group: nat,
                        meta0: seq<Control>, meta: seq<Control>,
                        slots0: seq<Option<Entry<K, V>>>, slots: seq<Option<Entry<K, V>>>)
    requires Shaped(t) && IsGroupStart(group, |t.meta|)
    requires SplitBelow(ctx, t, group, meta0, slots0)
    requires BytesWritten(ctx, t, group, meta0, meta)
    requires SlotsSplit(ctx, t, group, group + GroupSize, slots0, slots)
    ensures SplitBelow(ctx, t, group + GroupSize, meta, slots)
  {
    hide IsSize, SplitByte, SplitSlot;
  }

  lemma MovedOutCompose<K, V>(ctx: KeyContext<K>, t: Table<K, V>, a: nat, b: nat, old0: seq<Option<Entry<K, V>>>,
                              old1: seq<Option<Entry<K, V>>>, old2: seq<Option<Entry<K, V>>>)
    requires Shaped(t) && a <= b && MovedOut(ctx, t, 0, a, old0, old1) && MovedOut(ctx, t, a, b, old1, old2)
    ensures MovedOut(ctx, t, 0, b, old0, old2)
  {
    hide IsSize, AtHome;
  }

  lemma SplitComplete<K, V>(ctx: KeyContext<K>, t: Table<K, V>, meta: seq<Control>, slots: seq<Option<Entry<K, V>>>)
    requires Shaped(t) && SplitBelow(ctx, t, |t.meta|, meta, slots)
    ensures IsSplit(ctx, t, Table(meta, slots))
  {
    hide IsSize, SplitByte, SplitSlot;
  }

  lemma SplitNone<K, V>(ctx: KeyContext<K>, t: Table<K, V>, meta: seq<Control>, slots: seq<Option<Entry<K, V>>>)
    requires Shaped(t) && |meta| == |slots| == 2 * |t.meta| && forall j: nat | j < |slots| :: slots[j] == None
    ensures SplitBelow(ctx, t, 0, meta, slots)
    ensures MovedOut(ctx, t, 0, 0, t.slots, t.slots)
    ensures ProbedBelow(ctx, t, 0) == [] && Count(AnyPresent, t.meta[..0]) == 0
  {
    hide IsSize, SplitByte, SplitSlot, AtHome;
  }

  lemma FirstGroup(size: nat)
    requires IsSize(size)
    ensures IsGroupStart(0, size)
  {
  }

  lemma NextGroup(group: nat, size: nat)
    requires IsSize(size) && (group == size || IsGroupStart(group, size))
    ensures group < size ==> group + GroupSize == size || IsGroupStart(group + GroupSize, size)
  {
    hide Pow2, IsSize;
    var m := SizeInGroups(size);
    MultipleAhead(group, size, group / GroupSize, Pow2(m));
  }

  lemma MultipleAhead(a: nat, b: nat, i: nat, j: nat)
    requires a == GroupSize * i && b == GroupSize * j
    ensures a < b ==> a + GroupSize <= b && (a + GroupSize) % GroupSize == 0
    ensures a + GroupSize < b ==> a + 2 * GroupSize <= b
  {
  }

  // -------- Reinserting what was probed --------

  // The slots whose entries are in the new table once `done` probed entries are reinserted.
  ghost function Reinserted<K, V>(ctx: KeyContext<K>, t: Table<K, V>, done: nat): set<nat>
    requires Shaped(t) && done <= |ProbedBelow(ctx, t, |t.meta|)|
  {
    if done == 0 then HomeSlots(ctx, t)
    else Reinserted(ctx, t, done - 1) + {ProbedBelow(ctx, t, |t.meta|)[done - 1].0}
  }

  lemma {:induction false} ReinsertedMember<K, V>(ctx: KeyContext<K>, t: Table<K, V>, done: nat, i: nat)
    requires Shaped(t) && done <= |ProbedBelow(ctx, t, |t.meta|)|
    ensures i in Reinserted(ctx, t, done)
      <==> i in HomeSlots(ctx, t) || exists k: nat :: k < done && ProbedBelow(ctx, t, |t.meta|)[k].0 == i
  {
    hide ProbedBelow, HomeSlots, IsSize;
    if done > 0 {
      ReinsertedMember(ctx, t, done - 1, i);
    }
  }

  // The next probed slot holds an entry that has not been moved yet.
  lemma NextProbed<K, V>(ctx: KeyContext<K>, t: Table<K, V>, done: nat)
    requires Shaped(t) && done < |ProbedBelow(ctx, t, |t.meta|)|
    ensures var (i, hash) := ProbedBelow(ctx, t, |t.meta|)[done];
      i < |t.meta| && Probed(ctx, t, i) && hash == HashKey(ctx, KeyAt(t, i)) && i !in Reinserted(ctx, t, done)
  {
    hide ProbedBelow, IsSize, AtHome, HashKey, Reinserted;
    ProbedMember(ctx, t, |t.meta|, done);
    var i := ProbedBelow(ctx, t, |t.meta|)[done].0;
    ReinsertedMember(ctx, t, done, i);
  }

  lemma AllReinserted<K, V>(ctx: KeyContext<K>, t: Table<K, V>)
    requires Shaped(t)
    ensures forall i: nat | Occupied(t, i) :: i in Reinserted(ctx, t, |ProbedBelow(ctx, t, |t.meta|)|)
  {
    hide ProbedBelow, IsSize, AtHome, Reinserted;
    var all := |ProbedBelow(ctx, t, |t.meta|)|;
    forall i: nat | Occupied(t, i) ensures i in Reinserted(ctx, t, all) {
      ReinsertedMember(ctx, t, all, i);
      if Probed(ctx, t, i) {
        var k := ProbedListed(ctx, t, |t.meta|, i);
      }
    }
  }

  // The old storage still holds exactly the entries that have not been moved.
  ghost predicate Leftover<K, V>(t: Table<K, V>, moved: set<nat>, olds: seq<Option<Entry<K, V>>>) {
    && |olds| == |t.slots|
    && forall i: nat | i < |t.slots| :: olds[i] == if i in moved then None else t.slots[i]
  }

  lemma LeftoverStart<K, V>(ctx: KeyContext<K>, t: Table<K, V>, olds: seq<Option<Entry<K, V>>>)
    requires Shaped(t) && MovedOut(ctx, t, 0, |t.meta|, t.slots, olds)
    ensures Leftover(t, HomeSlots(ctx, t), olds)
  {
    hide IsSize, AtHome;
  }

  lemma LeftoverStep<K, V>(t: Table<K, V>, moved: set<nat>, olds: seq<Option<Entry<K, V>>>, i: nat)
    requires Leftover(t, moved, olds) && i < |t.slots| && i !in moved
    ensures |olds| == |t.slots| && olds[i] == t.slots[i] && Leftover(t, moved + {i}, olds[i := None])
  {
  }

  lemma LeftoverEnd<K, V>(t: Table<K, V>, moved: set<nat>, olds: seq<Option<Entry<K, V>>>)
    requires Leftover(t, moved, olds) && forall i: nat | Occupied(t, i) :: i in moved
    ensures forall i: nat | i < |olds| :: olds[i] == None
  {
    forall i: nat | i < |olds| ensures olds[i] == None {
      assert Occupied(t, i) <==> t.slots[i].Some?;
    }
  }

  // -------- Growing to a given size --------

  lemma FreshTable<K(!new), V>(ctx: KeyContext<K>, t: Table<K, V>, u: Table<K, V>)
    requires Shaped(u)
    requires forall j: nat | j < |u.meta| :: u.meta[j] == Empty
    requires forall j: nat | j < |u.slots| :: u.slots[j] == None
    ensures Growing(ctx, t, u, {})
    ensures Leftover(t, {}, t.slots)
  {
    hide IsSize, GroupStart, TagBits, HashKey;
    NoTombstones(u.meta);
    assert forall j: nat :: !Occupied(u, j);
    assert Entries(u) == {};
    assert EntriesAt(t, {}) == {};
  }

  // The slots below `bound` have been inserted anew, and counted.
  ghost predicate Regrown<K, V>(ctx: KeyContext<K>, t: Table<K, V>, bound: nat, u: Table<K, V>,
                                olds: seq<Option<Entry<K, V>>>, count: nat)
  {
    && bound <= |t.meta|
    && Growing(ctx, t, u, Below(bound))
    && Leftover(t, Below(bound), olds)
    && count == Count(AnyPresent, t.meta[..bound])
  }

  // Slots that hold nothing count as moved.
  lemma SkipMoved<K, V>(ctx: KeyContext<K>, t: Table<K, V>, u: Table<K, V>, olds: seq<Option<Entry<K, V>>>,
                        count: nat, a: nat, b: nat)
    requires Wellformed(ctx, t) && a <= b <= |t.meta| && forall i: nat | a <= i < b :: !t.meta[i].Present?
    requires Regrown(ctx, t, a, u, olds, count)
    ensures Regrown(ctx, t, b, u, olds, count)
  {
    hide Unique, AllChained, Settled, IsSize, Count, TagBits, HashKey, Growing, Leftover;
    CountSkip(t.meta, a, b);
    SameMoved(ctx, t, u, olds, a, b);
  }

  lemma SameMoved<K, V>(ctx: KeyContext<K>, t: Table<K, V>, u: Table<K, V>, olds: seq<Option<Entry<K, V>>>,
                        a: nat, b: nat)
    requires Wellformed(ctx, t) && a <= b <= |t.meta| && forall i: nat | a <= i < b :: !t.meta[i].Present?
    requires Growing(ctx, t, u, Below(a)) && Leftover(t, Below(a), olds)
    ensures Growing(ctx, t, u, Below(b)) && Leftover(t, Below(b), olds)
  {
    hide Wellformed, EntriesAt, Entries, Count;
    RawAreNone(ctx, t, a, b);
    SameEntriesAt(t, a, b);
  }

  lemma RawAreNone<K, V>(ctx: KeyContext<K>, t: Table<K, V>, a: nat, b: nat)
    requires Wellformed(ctx, t) && a <= b <= |t.meta| && forall i: nat | a <= i < b :: !t.meta[i].Present?
    ensures |t.slots| == |t.meta| && forall i: nat | a <= i < b :: t.slots[i] == None
  {
    hide Unique, AllChained, Settled, IsSize, TagBits, HashKey;
    forall i: nat | a <= i < b
      ensures t.slots[i] == None
    {
      assert !Occupied(t, i);
    }
  }

  lemma SameEntriesAt<K, V>(t: Table<K, V>, a: nat, b: nat)
    requires a <= b <= |t.slots| && forall i: nat | a <= i < b :: t.slots[i] == None
    ensures EntriesAt(t, Below(b)) == EntriesAt(t, Below(a))
  {
  }

  lemma RegrownStart<K(!new), V>(ctx: KeyContext<K>, t: Table<K, V>, u: Table<K, V>)
    requires Shaped(u)
    requires forall j: nat | j < |u.meta| :: u.meta[j] == Empty
    requires forall j: nat | j < |u.slots| :: u.slots[j] == None
    ensures Regrown(ctx, t, 0, u, t.slots, 0)
  {
    hide Growing, Leftover;
    FreshTable(ctx, t, u);
    assert Below(0) == {};
  }

  lemma RegrownEnd<K(!new), V>(ctx: KeyContext<K>, t: Table<K, V>, u: Table<K, V>, olds: seq<Option<Entry<K, V>>>,
                               count: nat)
    requires Lawful(ctx) && Wellformed(ctx, t) && |u.meta| >= 2 * |t.meta|
    requires Regrown(ctx, t, |t.meta|, u, olds, count)
    ensures Wellformed(ctx, u) && Contents(ctx, u) == Contents(ctx, t)
    ensures count == Count(AnyPresent, t.meta)
    ensures Budgeted(u.meta, Threshold(|u.meta|) - count, 0) && Threshold(|u.meta|) - count > 0
  {
    hide Matched, Unique, AllChained, Settled, Budgeted, Count, Contents, Lawful, Leftover, IsSize, Entries, EntriesAt;
    assert t.meta[..|t.meta|] == t.meta;
    AllMoved(ctx, t, u, Below(|t.meta|));
  }

  lemma BelowStep(i: nat)
    ensures Below(i) + {i} == Below(i + 1) && i !in Below(i)
  {
  }

  // -------- Sizes for a number of insertions --------

  // `llvm::NextPowerOf2`: the smallest power of two above `n`.
  function NextPowerOf2(n: nat): (p: nat)
    ensures p > n && IsPow2(p) && (n > 0 ==> p <= 2 * n)
  {
    NextPowerFrom(n, 1, 0)
  }

  function NextPowerFrom(n: nat, p: nat, ghost k: nat): (r: nat)
    requires p == Pow2(k) && (p == 1 || p <= 2 * n)
    ensures r > n && IsPow2(r) && (n > 0 ==> r <= 2 * n)
    decreases if p > n then 0 else n + 1 - p
  {
    if p > n then p else NextPowerFrom(n, 2 * p, k + 1)
  }

  // The space asked for always brings a threshold above the budget needed.
  lemma ThresholdSuffices(needed: nat)
    ensures Threshold(NextPowerOf2(needed + needed / 7)) > needed
  {
    hide Pow2;
    var space := needed + needed / 7;
    var target := NextPowerOf2(space);
    Pow2ByEight(target);
  }

  lemma Pow2ByEight(p: nat)
    requires IsPow2(p)
    ensures p >= 8 ==> p % 8 == 0
  {
    var k: nat :| p == Pow2(k);
    if k >= 3 {
      Pow2Eighth(k);
    } else {
      Pow2Monotone(k, 2);
      assert Pow2(2) == 4;
    }
  }

  lemma Pow2Eighth(k: nat)
    requires k >= 3
    ensures Pow2(k) % 8 == 0
  {
    var p := Pow2(k - 3);
    assert Pow2(k - 2) == 2 * p;
    assert Pow2(k - 1) == 2 * Pow2(k - 2);
    assert Pow2(k) == 8 * p;
  }

  lemma Pow2AtLeast(p: nat, size: nat)
    requires IsPow2(p) && IsSize(size) && p > size
    ensures IsSize(p) && p >= 2 * size
  {
    var j: nat :| size == Pow2(j);
    var k: nat :| p == Pow2(k);
    if k <= j {
      Pow2Monotone(k, j);
    } else {
      Pow2Monotone(j + 1, k);
    }
  }

  // When the budget does not cover `count` insertions, the target is a larger size.
  lemma TargetIsLarger(size: nat, budget: int, count: int)
    requires IsSize(size) && 0 <= budget <= count && budget <= Threshold(size)
    ensures var needed := Threshold(size) - budget + count; NextPowerOf2(needed + needed / 7) > size
  {
    hide Pow2, NextPowerOf2;
    var needed := Threshold(size) - budget + count;
    Pow2ByEight(size);
    assert needed >= size - size / 8;
    assert 7 * (needed / 7) + 6 >= needed;
    assert needed + needed / 7 >= size;
  }
}
