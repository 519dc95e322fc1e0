// The open-addressing table: metadata bytes and entries updated in place.
module RawHashtables {
  import opened Options
  import opened MetadataGroups
  import opened ProbeSequences
  import opened Bits
  import opened TableStates
  import opened TableGrowth
  import opened TableClear
  import opened TableMetrics

  class HashTable<K(!new), V> {
    const ctx: KeyContext<K>
    var metadata: array<Control>
    var entries: array<Option<Entry<K, V>>>
    var growthBudget: int
    // How far the budget exceeds the threshold less the non-empty slots: only Clear leaves an excess.
    ghost var excess: nat

    ghost function View(): Table<K, V>
      reads this, metadata, entries
    {
      Table(metadata[..], entries[..])
    }

    ghost predicate Sound()
      reads this, metadata, entries
    {
      && Lawful(ctx)
      && Wellformed(ctx, View())
      && Budgeted(metadata[..], growthBudget, excess)
    }

    // A search ends at an empty byte, or at the key's entry.
    ghost predicate Searchable(key: K)
      reads this, metadata, entries
    {
      Count(AnyEmpty, metadata[..]) > 0 || !Absent(ctx, View(), key)
    }

    // The excess leaves part of the eighth of the table that is meant to stay empty.
    ghost predicate Valid()
      reads this, metadata, entries
    {
      Sound() && excess < metadata.Length / 8
    }

    lemma SearchesEnd()
      requires Valid()
      ensures Count(AnyEmpty, metadata[..]) > 0
    {
      hide Wellformed, Lawful, Count, FullGroups;
      EmptySlotExists(metadata[..], growthBudget, excess);
    }

    ghost function Map(): map<K, V>
      requires Lawful(ctx) && Unique(ctx, View())
      reads this, metadata, entries
    {
      Contents(ctx, View())
    }

    // `Construct`: every byte empty, every slot raw.
    constructor (ctx: KeyContext<K>, allocSize: nat)
      requires Lawful(ctx) && IsSize(allocSize)
      ensures Valid() && fresh(metadata) && fresh(entries)
      ensures this.ctx == ctx && metadata.Length == allocSize
      ensures Map() == map[]
      ensures growthBudget == Threshold(allocSize) && excess == 0
    {
      this.ctx := ctx;
      metadata := new Control[allocSize](_ => Empty);
      entries := new Option<Entry<K, V>>[allocSize](_ => None);
      growthBudget, excess := Threshold(allocSize), 0;
      new;
      EmptyTable(ctx, View());
    }

    // The candidates of one group, in ascending order, compared in turn.
    method FindInGroup(group: nat, key: K) returns (found: Option<nat>, ghost failed: nat)
      requires Sound() && IsGroupStart(group, metadata.Length)
      ensures found.Some? ==> Holds(ctx, View(), found.value, key) && group <= found.value < group + GroupSize
      ensures found.None? ==> NotInGroup(ctx, View(), group, key)
      ensures var last := if found.Some? then found.value else group + GroupSize;
        failed == Count(Tagged(TagBits(HashKey(ctx, key))), metadata[group..last])
    {
      hide Matches, TagBits, HashKey, KeyEq, Wellformed, Budgeted, Lawful, Count;
      var tag := TagBits(HashKey(ctx, key));
      var candidates := Matches(Tagged(tag), metadata[group..group + GroupSize]);
      failed := 0;
      var n := 0;
      while n < |candidates|
        invariant n <= |candidates| && failed == n
        invariant forall b | 0 <= b < n :: !Holds(ctx, View(), group + candidates[b], key)
      {
        var index := group + candidates[n];
        CandidateOccupied(ctx, View(), group, tag, n);
        ScanCost(metadata[..], group, tag, n);
        if KeyEq(ctx, key, entries[index].value.key) {
          return Some(index), failed;
        }
        failed := failed + 1;
        n := n + 1;
      }
      ScanCost(metadata[..], group, tag, n);
      NoCandidateHolds(ctx, View(), group, key);
      return None, failed;
    }

    method LookupEntry(key: K) returns (found: Option<nat>, ghost extraGroups: nat, ghost failedCompares: nat)
      requires Sound() && Searchable(key)
      ensures found.Some? ==> Holds(ctx, View(), found.value, key)
      ensures found.None? ==> Absent(ctx, View(), key)
      ensures found.Some? ==>
        && Occupied(View(), found.value)
        && extraGroups == Distance(ctx, View(), found.value)
        && failedCompares == FailedCompares(ctx, View(), found.value)
    {
      hide Wellformed, Budgeted, Lawful, Searched, Matches, ProbeIndex, StartOf, IsSize, NotInGroup, Full, Holds, Absent,
           TagBits, HashKey, Count, TagsOnPath, Distance, FailedCompares, StopsAt;
      var start := StartOf(ctx, key);
      ghost var tag := TagBits(HashKey(ctx, key));
      ghost var e := SearchStarts(ctx, View(), key);
      extraGroups, failedCompares := 0, 0;
      NoTagsYet(metadata[..], start, tag);
      var s := new ProbeSequence(start, metadata.Length);
      while true
        invariant fresh(s) && s.Valid() && s.start == start && s.size == metadata.Length
        invariant Searched(ctx, View(), key, s.taken)
        invariant extraGroups == s.taken && failedCompares == TagsOnPath(metadata[..], start, tag, s.taken)
        decreases metadata.Length / GroupSize - s.taken
      {
        SearchPosition(s, metadata.Length);
        var group := s.Index();
        ghost var failed;
        found, failed := FindInGroup(group, key);
        failedCompares := failedCompares + failed;
        if found.Some? {
          FoundCost(ctx, View(), key, s.taken, found.value);
          return;
        }
        TagsOneMoreGroup(metadata[..], start, tag, s.taken);
        var emptyMatch := Matches(AnyEmpty, metadata[group..group + GroupSize]);
        EmptyMatchMeaning(metadata[..], group);
        SearchStep(ctx, View(), key, s.taken, e);
        if emptyMatch != [] {
          return;
        }
        extraGroups := extraGroups + 1;
        s.Next();
      }
    }

    // Marks a slot for a key that is not present, in a table with an empty slot and
    // no tombstones on the way.
    method InsertIntoEmpty(hash: bv64) returns (index: nat)
      requires IsSize(metadata.Length) && Count(AnyEmpty, metadata[..]) > 0
      modifies metadata
      ensures index < metadata.Length && old(metadata[index]) == Empty
      ensures Chained(old(metadata[..]), IndexBits(hash), index)
      ensures metadata[..] == old(metadata[..])[index := Present(TagBits(hash))]
    {
      hide Matches, ProbeIndex, IndexBits, TagBits, IsSize, Full, FullSteps, Count, Chained;
      var start := IndexBits(hash);
      ghost var e := CountPositive(AnyEmpty, metadata[..]);
      var s := new ProbeSequence(start, metadata.Length);
      assert FullSteps(metadata[..], start, 0) by { NoSteps(metadata[..], start); }
      while true
        invariant fresh(s) && s.Valid() && s.start == start && s.size == metadata.Length
        invariant metadata[..] == old(metadata[..])
        invariant FullSteps(metadata[..], start, s.taken)
        decreases metadata.Length / GroupSize - s.taken
      {
        SearchPosition(s, metadata.Length);
        var group := s.Index();
        var emptyMatch := Matches(AnyEmpty, metadata[group..group + GroupSize]);
        EmptyMatchMeaning(metadata[..], group);
        if emptyMatch != [] {
          index := group + emptyMatch[0];
          ChainedAfterSearch(metadata[..], start, s.taken, index);
          metadata[index] := Present(TagBits(hash));
          return;
        }
        EmptySearchStep(metadata[..], start, s.taken, e);
        s.Next();
      }
    }

    // Classifies one present slot of the old storage and, when it was not probed, moves its
    // entry to the only index it can have in the doubled table.
    method MovePresent(oldEntries: array<Option<Entry<K, V>>>, group: nat, byteIndex: nat, ghost t: Table<K, V>)
      returns (atHome: bool, newIndex: nat, hash: bv64)
      requires Shaped(t) && IsGroupStart(group, |t.meta|) && byteIndex < GroupSize
      requires Occupied(t, group + byteIndex)
      requires oldEntries.Length == |t.meta| && entries.Length == 2 * |t.meta| && entries != oldEntries
      requires oldEntries[group + byteIndex] == t.slots[group + byteIndex]
      modifies entries, oldEntries
      ensures atHome == AtHome(ctx, t, group + byteIndex)
      ensures hash == HashKey(ctx, KeyAt(t, group + byteIndex))
      ensures if atHome then
          && (newIndex == group + byteIndex || newIndex == group + byteIndex + |t.meta|)
          && GoesTo(ctx, t, group + byteIndex, newIndex)
          && Xor(newIndex, |t.meta|) == 2 * (group + byteIndex) + |t.meta| - newIndex
          && entries[..] == old(entries[..])[newIndex := t.slots[group + byteIndex]]
          && oldEntries[..] == old(oldEntries[..])[group + byteIndex := None]
        else
          entries[..] == old(entries[..]) && oldEntries[..] == old(oldEntries[..])
    {
      hide And, Or, Xor, ProbeMask, HashKey, IndexBits, AtHome, GoesTo;
      var oldSize, oldIndex := oldEntries.Length, group + byteIndex;
      ClassifySlot(ctx, t, group, byteIndex);
      hash := HashKey(ctx, oldEntries[oldIndex].value.key);
      var oldHashIndex := And(IndexBits(hash), ProbeMask(oldSize));
      atHome, newIndex := oldHashIndex == group, 0;
      if atHome {
        newIndex := And(IndexBits(hash), ProbeMask(entries.Length));
        assert newIndex == oldHashIndex || newIndex == Or(oldHashIndex, oldSize);
        newIndex := newIndex + byteIndex;
        entries[newIndex] := oldEntries[oldIndex];
        oldEntries[oldIndex] := None;
      }
    }

    // One group of the doubling loop, the group's bytes held in registers and stored at the end.
    method GrowGroupInRegister(oldMeta: array<Control>, oldEntries: array<Option<Entry<K, V>>>, group: nat,
                               probed0: seq<(nat, bv64)>, count0: nat, ghost t: Table<K, V>)
      returns (probed: seq<(nat, bv64)>, count: nat)
      requires Shaped(t) && Matched(ctx, t) && IsGroupStart(group, |t.meta|)
      requires oldMeta[..] == t.meta && oldEntries.Length == |t.meta| && metadata.Length == entries.Length == 2 * |t.meta|
      requires metadata != oldMeta && entries != oldEntries
      requires oldEntries[group..group + GroupSize] == t.slots[group..group + GroupSize]
      requires RawTargets(t, group, entries[..])
      requires probed0 == ProbedBelow(ctx, t, group) && count0 == Count(AnyPresent, t.meta[..group])
      modifies metadata, entries, oldEntries
      ensures probed == ProbedBelow(ctx, t, group + GroupSize)
      ensures count == Count(AnyPresent, t.meta[..group + GroupSize])
      ensures BytesWritten(ctx, t, group, old(metadata[..]), metadata[..])
      ensures SlotsSplit(ctx, t, group, group + GroupSize, old(entries[..]), entries[..])
      ensures MovedOut(ctx, t, group, group + GroupSize, old(oldEntries[..]), oldEntries[..])
    {
      hide IsSize, Matched, BytesSplit, SlotsSplit, MovedOut, ProbedBelow, Count, Matches, ClearDeleted,
           And, Or, Xor, ProbeMask, HashKey, IndexBits, RawTargets, Progress, BytesWritten, AtHome, GoesTo, Occupied;
      var oldSize := oldMeta.Length;
      var lowG := oldMeta[group..group + GroupSize];
      var present := Matches(AnyPresent, lowG);
      lowG := ClearDeleted(lowG);
      var highG := lowG;
      probed, count := probed0, count0;
      ghost var slots0, old0 := entries[..], oldEntries[..];
      ghost var w := Work(lowG, highG, slots0, slots0, old0, old0, probed, count);
      assert oldMeta[group..group + GroupSize] == t.meta[group..group + GroupSize];
      ProgressStart(ctx, t, group, w);
      var n := 0;
      while n < |present|
        invariant n <= |present|
        invariant w == Work(lowG, highG, slots0, entries[..], old0, oldEntries[..], probed, count)
        invariant Progress(ctx, t, group, Bound(group, present, n), w)
        invariant metadata[..] == old(metadata[..]) && oldMeta[..] == t.meta
      {
        var byteIndex := present[n];
        var oldIndex := group + byteIndex;
        NextPresent(ctx, t, group, n, present);
        ProgressSkip(ctx, t, group, Bound(group, present, n), oldIndex, w);
        StillThere(ctx, t, group, oldIndex, w);
        var atHome, newIndex, hash := MovePresent(oldEntries, group, byteIndex, t);
        count := count + 1;
        if atHome {
          ProgressHome(ctx, t, group, byteIndex, newIndex, w);
          if newIndex == oldIndex {
            highG := highG[byteIndex := Empty];
          } else {
            lowG := lowG[byteIndex := Empty];
          }
        } else {
          ProgressProbed(ctx, t, group, byteIndex, w);
          probed := probed + [(oldIndex, hash)];
          lowG, highG := lowG[byteIndex := Empty], highG[byteIndex := Empty];
        }
        n := n + 1;
        w := Work(lowG, highG, slots0, entries[..], old0, oldEntries[..], probed, count);
      }
      NextPresent(ctx, t, group, n, present);
      ProgressSkip(ctx, t, group, Bound(group, present, n), group + GroupSize, w);
      ProgressEnd(ctx, t, group, w);
      StorePair(group, oldSize, lowG, highG, t);
      StoredBytes(ctx, t, group, lowG, highG, old(metadata[..]), metadata[..]);
    }

    method StorePair(group: nat, oldSize: nat, lowG: seq<Control>, highG: seq<Control>, ghost t: Table<K, V>)
      requires Shaped(t) && oldSize == |t.meta| && IsGroupStart(group, oldSize) && metadata.Length == 2 * oldSize
      requires |lowG| == |highG| == GroupSize
      modifies metadata
      ensures PairHeld(old(metadata[..]), metadata[..], group, oldSize, lowG, highG)
    {
      hide IsSize, Or;
      HighSlot(group, oldSize);
      StoreGroup(group, lowG);
      StoreGroup(Or(group, oldSize), highG);
    }

    // The same group, stored eagerly in both halves and corrected byte by byte.
    method GrowGroupByStores(oldMeta: array<Control>, oldEntries: array<Option<Entry<K, V>>>, group: nat,
                             probed0: seq<(nat, bv64)>, count0: nat, ghost t: Table<K, V>)
      returns (probed: seq<(nat, bv64)>, count: nat)
      requires Shaped(t) && Matched(ctx, t) && IsGroupStart(group, |t.meta|)
      requires oldMeta[..] == t.meta && oldEntries.Length == |t.meta| && metadata.Length == entries.Length == 2 * |t.meta|
      requires metadata != oldMeta && entries != oldEntries
      requires oldEntries[group..group + GroupSize] == t.slots[group..group + GroupSize]
      requires RawTargets(t, group, entries[..])
      requires probed0 == ProbedBelow(ctx, t, group) && count0 == Count(AnyPresent, t.meta[..group])
      modifies metadata, entries, oldEntries
      ensures probed == ProbedBelow(ctx, t, group + GroupSize)
      ensures count == Count(AnyPresent, t.meta[..group + GroupSize])
      ensures BytesWritten(ctx, t, group, old(metadata[..]), metadata[..])
      ensures SlotsSplit(ctx, t, group, group + GroupSize, old(entries[..]), entries[..])
      ensures MovedOut(ctx, t, group, group + GroupSize, old(oldEntries[..]), oldEntries[..])
    {
      hide IsSize, Matched, BytesSplit, SlotsSplit, MovedOut, ProbedBelow, Count, Matches, ClearDeleted,
           And, Or, Xor, ProbeMask, HashKey, IndexBits, RawTargets, Progress, BytesWritten, AtHome, GoesTo, Occupied, PairHeld;
      var oldSize := oldMeta.Length;
      var g := oldMeta[group..group + GroupSize];
      var present := Matches(AnyPresent, g);
      g := ClearDeleted(g);
      assert oldMeta[group..group + GroupSize] == t.meta[group..group + GroupSize];
      StorePair(group, oldSize, g, g, t);
      probed, count := probed0, count0;
      ghost var slots0, old0 := entries[..], oldEntries[..];
      ghost var w := Work(g, g, slots0, slots0, old0, old0, probed, count);
      ProgressStart(ctx, t, group, w);
      var n := 0;
      while n < |present|
        invariant n <= |present|
        invariant w == Work(w.low, w.high, slots0, entries[..], old0, oldEntries[..], probed, count)
        invariant Progress(ctx, t, group, Bound(group, present, n), w)
        invariant PairHeld(old(metadata[..]), metadata[..], group, oldSize, w.low, w.high)
        invariant oldMeta[..] == t.meta
      {
        var byteIndex := present[n];
        var oldIndex := group + byteIndex;
        NextPresent(ctx, t, group, n, present);
        ProgressSkip(ctx, t, group, Bound(group, present, n), oldIndex, w);
        StillThere(ctx, t, group, oldIndex, w);
        count := count + 1;
        probed, w := StorePresent(oldEntries, group, byteIndex, probed, t, w, old(metadata[..]));
        n := n + 1;
      }
      NextPresent(ctx, t, group, n, present);
      ProgressSkip(ctx, t, group, Bound(group, present, n), group + GroupSize, w);
      ProgressEnd(ctx, t, group, w);
      StoredBytes(ctx, t, group, w.low, w.high, old(metadata[..]), metadata[..]);
    }

    method StorePresent(oldEntries: array<Option<Entry<K, V>>>, group: nat, byteIndex: nat,
                        probed0: seq<(nat, bv64)>, ghost t: Table<K, V>, ghost w0: Work<K, V>,
                        ghost before: seq<Control>)
      returns (probed: seq<(nat, bv64)>, ghost w: Work<K, V>)
      requires Shaped(t) && IsGroupStart(group, |t.meta|) && byteIndex < GroupSize
      requires Occupied(t, group + byteIndex) && t.meta[group + byteIndex].Present?
      requires metadata.Length == entries.Length == 2 * |t.meta| && oldEntries.Length == |t.meta| && entries != oldEntries
      requires oldEntries[group + byteIndex] == t.slots[group + byteIndex]
      requires w0 == Work(w0.low, w0.high, w0.slots0, entries[..], w0.old0, oldEntries[..], probed0, w0.count)
      requires RawTargets(t, group, w0.slots0) && Progress(ctx, t, group, group + byteIndex, w0)
      requires PairHeld(before, metadata[..], group, |t.meta|, w0.low, w0.high)
      modifies metadata, entries, oldEntries
      ensures w == Work(w.low, w.high, w0.slots0, entries[..], w0.old0, oldEntries[..], probed, w0.count + 1)
      ensures Progress(ctx, t, group, group + byteIndex + 1, w)
      ensures PairHeld(before, metadata[..], group, |t.meta|, w.low, w.high)
    {
      hide IsSize, HashKey, Progress, AtHome, GoesTo, PairHeld, Xor, RawTargets;
      var oldSize, oldIndex := oldEntries.Length, group + byteIndex;
      var atHome, newIndex, hash := MovePresent(oldEntries, group, byteIndex, t);
      probed := probed0;
      if atHome {
        ProgressHome(ctx, t, group, byteIndex, newIndex, w0);
        ClearOther(newIndex, byteIndex, oldSize, group, w0.low, w0.high, before);
        w := if newIndex == oldIndex then w0.(high := w0.high[byteIndex := Empty]) else w0.(low := w0.low[byteIndex := Empty]);
      } else {
        ProgressProbed(ctx, t, group, byteIndex, w0);
        probed := probed + [(oldIndex, hash)];
        ClearPair(oldIndex, oldSize, group, w0.low, w0.high, before, t);
        w := w0.(low := w0.low[byteIndex := Empty], high := w0.high[byteIndex := Empty]);
      }
      w := w.(slots := entries[..], olds := oldEntries[..], probed := probed, count := w0.count + 1);
    }

    // Toggling the newly added bit of the index gives the other possible target.
    method ClearOther(newIndex: nat, byteIndex: nat, oldSize: nat, ghost group: nat,
                      ghost low: seq<Control>, ghost high: seq<Control>, ghost before: seq<Control>)
      requires byteIndex < GroupSize && group + byteIndex < oldSize
      requires newIndex == group + byteIndex || newIndex == group + byteIndex + oldSize
      requires Xor(newIndex, oldSize) == 2 * (group + byteIndex) + oldSize - newIndex
      requires PairHeld(before, metadata[..], group, oldSize, low, high)
      modifies metadata
      ensures PairHeld(before, metadata[..], group, oldSize,
                       if newIndex == group + byteIndex then low else low[byteIndex := Empty],
                       if newIndex == group + byteIndex then high[byteIndex := Empty] else high)
    {
      PairWrite(before, metadata[..], group, oldSize, low, high, byteIndex);
      metadata[Xor(newIndex, oldSize)] := Empty;
    }

    method ClearPair(oldIndex: nat, oldSize: nat, ghost group: nat, ghost low: seq<Control>, ghost high: seq<Control>,
                     ghost before: seq<Control>, ghost t: Table<K, V>)
      requires Shaped(t) && oldSize == |t.meta| && group <= oldIndex < group + GroupSize
      requires PairHeld(before, metadata[..], group, oldSize, low, high)
      modifies metadata
      ensures PairHeld(before, metadata[..], group, oldSize, low[oldIndex - group := Empty], high[oldIndex - group := Empty])
    {
      hide Or;
      HighSlot(oldIndex, oldSize);
      ghost var b := oldIndex - group;
      PairWrite(before, metadata[..], group, oldSize, low, high, b);
      metadata[oldIndex] := Empty;
      PairWrite(before, metadata[..], group, oldSize, low[b := Empty], high, b);
      metadata[Or(oldIndex, oldSize)] := Empty;
    }

    // `MetadataGroup::Store`
    method StoreGroup(index: nat, g: seq<Control>)
      requires |g| == GroupSize && index + GroupSize <= metadata.Length
      modifies metadata
      ensures metadata[index..index + GroupSize] == g
      ensures forall j: nat | j < metadata.Length && !(index <= j < index + GroupSize) :: metadata[j] == old(metadata[j])
    {
      forall k | 0 <= k < GroupSize {
        metadata[index + k] := g[k];
      }
    }

    // The walk over all groups of the old table.
    method DistributeGroups(oldMeta: array<Control>, oldEntries: array<Option<Entry<K, V>>>, ghost t: Table<K, V>)
      returns (probed: seq<(nat, bv64)>, count: nat)
      requires Wellformed(ctx, t)
      requires oldMeta[..] == t.meta && oldEntries[..] == t.slots
      requires metadata.Length == entries.Length == 2 * |t.meta|
      requires metadata != oldMeta && entries != oldEntries
      requires forall j | 0 <= j < entries.Length :: entries[j] == None
      modifies metadata, entries, oldEntries
      ensures probed == ProbedBelow(ctx, t, |t.meta|)
      ensures count == Count(AnyPresent, t.meta)
      ensures IsSplit(ctx, t, View())
      ensures MovedOut(ctx, t, 0, |t.meta|, t.slots, oldEntries[..])
    {
      hide IsSize, Matched, Unique, AllChained, Settled, BytesWritten, SlotsSplit, MovedOut, SplitBelow, ProbedBelow,
           Count, RawTargets, IsSplit;
      var oldSize := oldMeta.Length;
      probed, count := [], 0;
      SplitNone(ctx, t, metadata[..], entries[..]);
      var group := 0;
      FirstGroup(oldSize);
      while group < oldSize
        invariant group == oldSize || IsGroupStart(group, oldSize)
        invariant oldMeta[..] == t.meta
        invariant SplitBelow(ctx, t, group, metadata[..], entries[..])
        invariant MovedOut(ctx, t, 0, group, t.slots, oldEntries[..])
        invariant probed == ProbedBelow(ctx, t, group) && count == Count(AnyPresent, t.meta[..group])
      {
        ghost var meta0, slots0, olds := metadata[..], entries[..], oldEntries[..];
        GroupReady(ctx, t, group, meta0, slots0, olds);
        if FastByteClear() {
          probed, count := GrowGroupInRegister(oldMeta, oldEntries, group, probed, count, t);
        } else {
          probed, count := GrowGroupByStores(oldMeta, oldEntries, group, probed, count, t);
        }
        GroupDone(ctx, t, group, meta0, metadata[..], slots0, entries[..]);
        MovedOutCompose(ctx, t, group, group + GroupSize, t.slots, olds, oldEntries[..]);
        NextGroup(group, oldSize);
        group := group + GroupSize;
      }
      assert t.meta[..oldSize] == t.meta;
      SplitComplete(ctx, t, metadata[..], entries[..]);
    }

    // Inserts one entry of the old storage, known to be new and to have room.
    method ReinsertOne(oldEntries: array<Option<Entry<K, V>>>, oldIndex: nat, hash: bv64,
                       ghost t: Table<K, V>, ghost moved: set<nat>)
      requires Lawful(ctx) && Wellformed(ctx, t) && Growing(ctx, t, View(), moved) && metadata.Length > |t.meta|
      requires Occupied(t, oldIndex) && oldIndex !in moved && hash == HashKey(ctx, KeyAt(t, oldIndex))
      requires entries != oldEntries && Leftover(t, moved, oldEntries[..])
      modifies metadata, entries, oldEntries
      ensures Growing(ctx, t, View(), moved + {oldIndex}) && Leftover(t, moved + {oldIndex}, oldEntries[..])
      ensures Kept(old(entries[..]), entries[..])
    {
      hide Lawful, Matched, Unique, AllChained, Settled, Count, Entries, EntriesAt, Leftover, HashKey, TagBits,
           IndexBits, Chained, Occupied;
      ghost var u := View();
      RoomWhileGrowing(ctx, t, u, moved);
      OccupiedIsSome(t, oldIndex);
      LeftoverStep(t, moved, oldEntries[..], oldIndex);
      var index := InsertIntoEmpty(hash);
      ReinsertStep(ctx, t, u, moved, oldIndex, index);
      EmptyHoldsNothing(ctx, u, index);
      entries[index] := oldEntries[oldIndex];
      oldEntries[oldIndex] := None;
      assert View() == Filled(ctx, u, index, t.slots[oldIndex].value);
    }

    // Normal insertion of everything that was probed before growth.
    method ReinsertProbed(oldEntries: array<Option<Entry<K, V>>>, probed: seq<(nat, bv64)>, ghost t: Table<K, V>)
      requires Lawful(ctx) && Wellformed(ctx, t) && probed == ProbedBelow(ctx, t, |t.meta|)
      requires IsSplit(ctx, t, View())
      requires entries != oldEntries && MovedOut(ctx, t, 0, |t.meta|, t.slots, oldEntries[..])
      modifies metadata, entries, oldEntries
      ensures metadata.Length == 2 * |t.meta|
      ensures Growing(ctx, t, View(), Reinserted(ctx, t, |probed|))
      ensures HomesHold(ctx, t, entries[..])
      ensures forall i: nat | i < oldEntries.Length :: oldEntries[i] == None
    {
      hide Lawful, Matched, Unique, AllChained, Settled, Growing, Leftover, HashKey, ProbedBelow, MovedOut, IsSplit,
           IsSize, HomeSlots, Kept, HomesHold;
      ghost var u := View();
      SplitGrowing(ctx, t, View());
      SplitSize(ctx, t, View());
      LeftoverStart(ctx, t, oldEntries[..]);
      KeptRefl(u.slots);
      for p := 0 to |probed|
        invariant Growing(ctx, t, View(), Reinserted(ctx, t, p))
        invariant Kept(u.slots, entries[..])
        invariant Leftover(t, Reinserted(ctx, t, p), oldEntries[..])
      {
        var (oldIndex, hash) := probed[p];
        NextProbed(ctx, t, p);
        ghost var before := entries[..];
        ReinsertOne(oldEntries, oldIndex, hash, t, Reinserted(ctx, t, p));
        KeptTrans(u.slots, before, entries[..]);
      }
      HomesStay(ctx, t, u, entries[..]);
      AllReinserted(ctx, t);
      LeftoverEnd(t, Reinserted(ctx, t, |probed|), oldEntries[..]);
    }

    method GrowToNextAllocSize()
      requires Sound()
      modifies this, entries
      ensures Valid() && excess == 0 && fresh(metadata) && fresh(entries)
      ensures metadata.Length == 2 * old(metadata.Length)
      ensures Map() == old(Map())
      ensures HomesHold(ctx, old(View()), entries[..])
      ensures growthBudget == Threshold(metadata.Length) - old(Count(AnyPresent, metadata[..]))
      ensures growthBudget > 0
      ensures forall i: nat | i < old(entries).Length :: old(entries)[i] == None
    {
      hide Matched, Unique, AllChained, Settled, Growing, ProbedBelow, MovedOut, IsSplit, IsSize, Count, Budgeted,
           Contents, Reinserted, HomesHold, FullGroups;
      ghost var t := View();
      var oldMeta, oldEntries := metadata, entries;
      var newSize := 2 * oldMeta.Length;
      metadata := new Control[newSize];
      entries := new Option<Entry<K, V>>[newSize](_ => None);
      var budget := Threshold(newSize);
      var probed, count := DistributeGroups(oldMeta, oldEntries, t);
      ReinsertProbed(oldEntries, probed, t);
      AllReinserted(ctx, t);
      ghost var u := View();
      AllMoved(ctx, t, u, Reinserted(ctx, t, |probed|));
      growthBudget, excess := budget - count, 0;
      assert View() == u;
      GrowingIsWellformed(ctx, t, u, Reinserted(ctx, t, |probed|));
      AtLeastSixteen(ctx, u);
    }

    // One present slot of the old table, inserted anew.
    method ReinsertPresent(oldEntries: array<Option<Entry<K, V>>>, oldIndex: nat, ghost count: nat, ghost t: Table<K, V>)
      requires Lawful(ctx) && Wellformed(ctx, t) && metadata.Length > |t.meta| && entries != oldEntries
      requires oldIndex < |t.meta| && t.meta[oldIndex].Present? && Occupied(t, oldIndex)
      requires Regrown(ctx, t, oldIndex, View(), oldEntries[..], count)
      modifies metadata, entries, oldEntries
      ensures Regrown(ctx, t, oldIndex + 1, View(), oldEntries[..], count + 1)
    {
      hide Wellformed, Growing, Leftover, Count, HashKey, Lawful, Below;
      BelowStep(oldIndex);
      CountStep(t.meta, oldIndex);
      OccupiedIsSome(t, oldIndex);
      LeftoverStep(t, Below(oldIndex), oldEntries[..], oldIndex);
      var hash := HashKey(ctx, oldEntries[oldIndex].value.key);
      ReinsertOne(oldEntries, oldIndex, hash, t, Below(oldIndex));
    }

    // The present slots of one group of the old table, inserted anew.
    method ReinsertGroup(oldMeta: array<Control>, oldEntries: array<Option<Entry<K, V>>>, group: nat, count0: nat,
                         ghost t: Table<K, V>)
      returns (count: nat)
      requires Lawful(ctx) && Wellformed(ctx, t) && IsGroupStart(group, |t.meta|)
      requires oldMeta[..] == t.meta && metadata.Length > |t.meta| && metadata != oldMeta && entries != oldEntries
      requires Regrown(ctx, t, group, View(), oldEntries[..], count0)
      modifies metadata, entries, oldEntries
      ensures Regrown(ctx, t, group + GroupSize, View(), oldEntries[..], count)
    {
      hide IsSize, Unique, AllChained, Settled, Regrown, Matches, Lawful, TagBits, HashKey;
      var g := oldMeta[group..group + GroupSize];
      assert g == t.meta[group..group + GroupSize];
      var present := Matches(AnyPresent, g);
      count := count0;
      var n := 0;
      while n < |present|
        invariant n <= |present| && oldMeta[..] == t.meta
        invariant Regrown(ctx, t, Bound(group, present, n), View(), oldEntries[..], count)
      {
        NextPresent(ctx, t, group, n, present);
        var oldIndex := group + present[n];
        SkipMoved(ctx, t, View(), oldEntries[..], count, Bound(group, present, n), oldIndex);
        ReinsertPresent(oldEntries, oldIndex, count, t);
        count := count + 1;
        n := n + 1;
      }
      NextPresent(ctx, t, group, n, present);
      SkipMoved(ctx, t, View(), oldEntries[..], count, Bound(group, present, n), group + GroupSize);
    }

    // More than doubling: every entry is inserted anew into an empty table.
    method GrowByReinsertion(target: nat)
      requires Sound() && IsSize(target) && target >= 2 * metadata.Length
      modifies this, entries
      ensures Valid() && excess == 0 && Map() == old(Map()) && fresh(metadata) && fresh(entries) && metadata.Length == target
      ensures growthBudget == Threshold(target) - old(Count(AnyPresent, metadata[..])) > 0
    {
      hide Matched, Unique, AllChained, Settled, Growing, Leftover, Regrown, Count, Budgeted, Contents, Lawful, IsSize;
      ghost var t := View();
      var oldMeta, oldEntries := metadata, entries;
      metadata := new Control[target](_ => Empty);
      entries := new Option<Entry<K, V>>[target](_ => None);
      var budget := Threshold(target);
      RegrownStart(ctx, t, View());
      var count, group := 0, 0;
      FirstGroup(oldMeta.Length);
      label Loop:
      while group < oldMeta.Length
        invariant metadata == old@Loop(metadata) && entries == old@Loop(entries)
        invariant group == |t.meta| || IsGroupStart(group, |t.meta|)
        invariant oldMeta[..] == t.meta
        invariant Regrown(ctx, t, group, View(), oldEntries[..], count)
      {
        count := ReinsertGroup(oldMeta, oldEntries, group, count, t);
        NextGroup(group, oldMeta.Length);
        group := group + GroupSize;
      }
      ghost var u := View();
      RegrownEnd(ctx, t, u, oldEntries[..], count);
      growthBudget, excess := budget - count, 0;
      assert View() == u;
      AtLeastSixteen(ctx, u);
    }

    method GrowToAllocSizeImpl(target: nat)
      requires Sound() && IsPow2(target)
      modifies this, entries
      ensures Sound() && Map() == old(Map())
      ensures if target <= old(metadata.Length) then excess == old(excess) else Valid() && excess == 0
      ensures metadata.Length == if target <= old(metadata.Length) then old(metadata.Length) else target
      ensures target <= old(metadata.Length) ==> metadata == old(metadata) && growthBudget == old(growthBudget)
      ensures (metadata == old(metadata) && entries == old(entries)) || (fresh(metadata) && fresh(entries))
      ensures target > old(metadata.Length) ==>
        growthBudget == Threshold(target) - old(Count(AnyPresent, metadata[..]))
      ensures target > old(metadata.Length) ==> growthBudget >= Threshold(target) - old(NonEmpty(metadata[..])) > 0
    {
      hide Wellformed, Count, Lawful, Contents, IsSize;
      if target <= metadata.Length {
        return;
      }
      ghost var t := View();
      PresentIsNonEmpty(t.meta);
      LargerSize(ctx, t, target);
      if target == 2 * metadata.Length {
        GrowToNextAllocSize();
        return;
      }
      GrowByReinsertion(target);
    }

    // Afterwards more than `count` insertions fit without growing exactly under `GrowthSuffices`, which
    // holds whenever there was no excess.
    method GrowForInsertCountImpl(count: int)
      requires Sound()
      modifies this, entries
      ensures Sound() && Map() == old(Map())
      ensures growthBudget > count - old(excess)
      ensures growthBudget > count <==>
        GrowthSuffices(old(metadata.Length), old(growthBudget), old(Count(AnyPresent, metadata[..])), count)
      ensures count < old(growthBudget) ==> metadata == old(metadata) && growthBudget == old(growthBudget)
      ensures count >= old(growthBudget) ==>
        var needed := Threshold(old(metadata.Length)) - old(growthBudget) + count;
        && needed >= 0
        && metadata.Length == NextPowerOf2(needed + needed / 7) > old(metadata.Length)
        && growthBudget == Threshold(metadata.Length) - old(Count(AnyPresent, metadata[..]))
      ensures (metadata == old(metadata) && entries == old(entries) && excess == old(excess))
        || (fresh(metadata) && fresh(entries) && Valid() && excess == 0)
    {
      hide Wellformed, Lawful, Contents, Count, NextPowerOf2, Budgeted, GrowthSuffices, Threshold, NonEmpty;
      GrowthCases(metadata.Length, growthBudget, Count(AnyPresent, metadata[..]), count);
      if count < growthBudget {
        return;
      }
      BudgetArithmetic(ctx, View(), growthBudget, excess, count);
      var usedBudget := Threshold(metadata.Length) - growthBudget;
      var budgetNeeded := usedBudget + count;
      var spaceNeeded := budgetNeeded + budgetNeeded / 7;
      var target := NextPowerOf2(spaceNeeded);
      assert Threshold(target) > budgetNeeded;
      GrowToAllocSizeImpl(target);
    }

    // Clears every group that holds an entry and resets the budget in full.
    method ClearImpl()
      requires Sound()
      modifies this, metadata, entries
      ensures Sound() && Map() == map[]
      ensures metadata == old(metadata) && entries == old(entries)
      ensures ClearedBelow(old(View()), metadata.Length, View())
      ensures growthBudget == Threshold(metadata.Length)
      ensures growthBudget == Threshold(metadata.Length) - NonEmpty(metadata[..])
        + GroupSize * old(TombstoneGroups(metadata[..], metadata.Length))
      ensures excess == GroupSize * old(TombstoneGroups(metadata[..], metadata.Length))
    {
      hide Matched, Unique, AllChained, Settled, IsSize, Lawful, Count, Matches, HasPresent, ClearedBelow, Contents,
           Budgeted;
      ghost var t := View();
      var group := 0;
      ClearedStart(t);
      FirstGroup(metadata.Length);
      while group < metadata.Length
        invariant metadata == old(metadata) && entries == old(entries)
        invariant group == metadata.Length || IsGroupStart(group, metadata.Length)
        invariant ClearedBelow(t, group, View())
      {
        ghost var u := View();
        GroupUntouched(t, group, u);
        var present := Matches(AnyPresent, metadata[group..group + GroupSize]);
        PresentMeaning(t, group, metadata[group..group + GroupSize]);
        if present != [] {
          DestroyGroup(group, present, t);
          forall k | 0 <= k < GroupSize {
            metadata[group + k] := Empty;
          }
        }
        ClearedStep(ctx, t, group, u, View());
        NextGroup(group, metadata.Length);
        group := group + GroupSize;
      }
      ghost var w := View();
      ClearedWellformed(ctx, t, w);
      ClearedBudget(ctx, t, w);
      growthBudget := Threshold(metadata.Length);
      excess := GroupSize * TombstoneGroups(t.meta, |t.meta|);
      assert View() == w;
    }

    // `entry.Destroy()` for each entry of a group
    method DestroyGroup(group: nat, present: seq<nat>, ghost t: Table<K, V>)
      requires Wellformed(ctx, t) && IsGroupStart(group, |t.meta|) && entries.Length == |t.meta|
      requires present == Matches(AnyPresent, t.meta[group..group + GroupSize])
      requires entries[group..group + GroupSize] == t.slots[group..group + GroupSize]
      modifies entries
      ensures forall i: nat | i < entries.Length ::
        entries[i] == if group <= i < group + GroupSize then None else old(entries[i])
    {
      hide Unique, AllChained, Settled, IsSize, Matches, TagBits, HashKey;
      var n := 0;
      while n < |present|
        invariant n <= |present| && Bound(group, present, n) <= group + GroupSize
        invariant forall i: nat | i < entries.Length ::
          entries[i] == if group <= i < Bound(group, present, n) then None else old(entries[i])
      {
        NextPresent(ctx, t, group, n, present);
        RawBetween(ctx, t, group, Bound(group, present, n), group + present[n], old(entries[..]));
        entries[group + present[n]] := None;
        n := n + 1;
      }
      NextPresent(ctx, t, group, n, present);
      RawBetween(ctx, t, group, Bound(group, present, n), group + GroupSize, old(entries[..]));
    }

    // The probe distance and the failed comparisons of one present key.
    method KeyCost(groupIndex: nat, byteIndex: nat) returns (distance: nat, compares: nat)
      requires Sound() && byteIndex < GroupSize && Occupied(View(), groupIndex + byteIndex)
      requires GroupStart(groupIndex + byteIndex) == groupIndex
      ensures distance == Distance(ctx, View(), groupIndex + byteIndex)
      ensures compares == FailedCompares(ctx, View(), groupIndex + byteIndex)
    {
      hide Unique, AllChained, Settled, Budgeted, Lawful, Matches, ProbeIndex, Count, TagsOnPath, Distance,
           HashKey, TagBits, IndexBits, GroupStart, NonEmpty;
      ghost var t := View();
      var index := groupIndex + byteIndex;
      var hash := HashKey(ctx, entries[index].value.key);
      var start, tag := IndexBits(hash), TagBits(hash);
      var s := new ProbeSequence(start, metadata.Length);
      distance, compares := 0, 0;
      NoTagsYet(t.meta, start, tag);
      BeforeOwnGroup(ctx, t, index, 0);
      SearchPosition(s, metadata.Length);
      while s.Index() != groupIndex
        invariant fresh(s) && s.Valid() && s.start == start && s.size == metadata.Length
        invariant s.Index() == ProbeIndex(start, s.taken, metadata.Length) && IsGroupStart(s.Index(), metadata.Length)
        invariant distance == s.taken <= Distance(ctx, t, index)
        invariant compares == TagsOnPath(t.meta, start, tag, s.taken)
        decreases Distance(ctx, t, index) - s.taken
      {
        BeforeOwnGroup(ctx, t, index, s.taken);
        var probeMatches := Matches(Tagged(tag), metadata[s.Index()..s.Index() + GroupSize]);
        ScanCost(t.meta, s.Index(), tag, |probeMatches|);
        TagsOneMoreGroup(t.meta, start, tag, s.taken);
        compares := compares + |probeMatches|;
        distance := distance + 1;
        s.Next();
        SearchPosition(s, metadata.Length);
      }
      BeforeOwnGroup(ctx, t, index, s.taken);
      var own := CountOwnGroup(groupIndex, byteIndex, tag);
      compares := compares + own;
    }

    // The candidates before the key's own position.
    method CountOwnGroup(groupIndex: nat, byteIndex: nat, tag: Tag) returns (before: nat)
      requires groupIndex + GroupSize <= metadata.Length && byteIndex < GroupSize
      requires metadata[groupIndex + byteIndex] == Present(tag)
      ensures before == Count(Tagged(tag), metadata[groupIndex..groupIndex + byteIndex])
    {
      hide Matches, Count;
      var probeMatches := Matches(Tagged(tag), metadata[groupIndex..groupIndex + GroupSize]);
      ghost var m := OwnCandidate(metadata[..], groupIndex, byteIndex, tag);
      assert metadata[..][groupIndex..groupIndex + GroupSize] == metadata[groupIndex..groupIndex + GroupSize];
      assert metadata[..][groupIndex..groupIndex + byteIndex] == metadata[groupIndex..groupIndex + byteIndex];
      assert probeMatches != [];
      before := 0;
      while before < |probeMatches| && probeMatches[before] < byteIndex
        invariant before <= m
      {
        before := before + 1;
      }
    }

    method CountDeleted() returns (n: nat)
      ensures n == Count(AnyDeleted, metadata[..])
    {
      n := 0;
      for i := 0 to metadata.Length
        invariant n == Count(AnyDeleted, metadata[..i])
      {
        assert metadata[..i + 1][..i] == metadata[..i];
        if metadata[i] == Deleted {
          n := n + 1;
        }
      }
      assert metadata[..metadata.Length] == metadata[..];
    }

    method ComputeMetricsImpl() returns (metrics: Metrics)
      requires Sound()
      ensures metrics.keyCount == |Map()|
      ensures metrics.deletedCount == Count(AnyDeleted, metadata[..])
      ensures metrics.storageBytes == AllocByteSize(metadata.Length)
      ensures metrics.probedKeyCount == ProbedKeys(ctx, View(), metadata.Length)
      ensures IsMean(metrics.probeAvgDistance, Total(ctx, View(), false, metadata.Length), |Map()|)
      ensures metrics.probeMaxDistance == Largest(ctx, View(), false, metadata.Length)
      ensures IsMean(metrics.probeAvgCompares, Total(ctx, View(), true, metadata.Length), |Map()|)
      ensures metrics.probeMaxCompares == Largest(ctx, View(), true, metadata.Length)
    {
      hide Unique, AllChained, Settled, Matched, IsSize, Budgeted, Lawful, Matches, Count, Summed, Contents,
           Average, IsMean, AllocByteSize;
      ghost var t := View();
      var deletedCount := CountDeleted();
      var sums := Sums(0, 0, 0, 0, 0, 0);
      SummedStart(ctx, t);
      var group := 0;
      FirstGroup(metadata.Length);
      while group < metadata.Length
        invariant group == metadata.Length || IsGroupStart(group, metadata.Length)
        invariant Summed(ctx, t, group, sums)
      {
        sums := AddGroup(group, sums);
        NextGroup(group, metadata.Length);
        group := group + GroupSize;
      }
      MapSize(ctx, t);
      SummedEnd(ctx, t, sums);
      metrics := Metrics(sums.keys, deletedCount, AllocByteSize(metadata.Length), sums.probed,
                         Average(sums.distance, sums.keys), sums.maxDistance,
                         Average(sums.compares, sums.keys), sums.maxCompares);
    }

    method AddGroup(group: nat, sums0: Sums) returns (sums: Sums)
      requires Sound() && IsGroupStart(group, metadata.Length)
      requires Summed(ctx, View(), group, sums0)
      ensures Summed(ctx, View(), group + GroupSize, sums)
    {
      hide Unique, AllChained, Settled, IsSize, Budgeted, Lawful, Matches, Count, Summed, TagBits, HashKey, Distance,
           FailedCompares;
      ghost var t := View();
      assert t.meta[group..group + GroupSize] == metadata[group..group + GroupSize];
      var present := Matches(AnyPresent, metadata[group..group + GroupSize]);
      sums := sums0;
      var n := 0;
      while n < |present|
        invariant n <= |present| && Bound(group, present, n) <= group + GroupSize
        invariant Summed(ctx, t, Bound(group, present, n), sums)
      {
        NextPresent(ctx, t, group, n, present);
        var index := group + present[n];
        GroupStartUnique(index, group);
        SummedSkip(ctx, t, Bound(group, present, n), index, sums);
        var distance, compares := KeyCost(group, present[n]);
        SummedStep(ctx, t, index, sums);
        sums := AddKey(sums, distance, compares);
        n := n + 1;
      }
      NextPresent(ctx, t, group, n, present);
      SummedSkip(ctx, t, Bound(group, present, n), group + GroupSize, sums);
    }

    // Growing, then marking a slot for a key that is not present.
    method GrowAndInsert(key: K) returns (index: nat, ghost before: Table<K, V>)
      requires Sound() && Absent(ctx, View(), key)
      modifies this, entries
      ensures fresh(metadata) && fresh(entries)
      ensures Lawful(ctx) && Pending(ctx, View(), before, index, key)
      ensures Contents(ctx, before) == old(Map())
      ensures Budgeted(metadata[..], growthBudget, excess) && excess == 0
    {
      hide Matched, Unique, AllChained, Settled, Count, Contents, Absent, HashKey, IndexBits, TagBits, Chained, Budgeted;
      ghost var t := View();
      GrowToNextAllocSize();
      before := View();
      StillAbsent(ctx, t, before, key);
      SearchesEnd();
      var hash := HashKey(ctx, key);
      ghost var budget := growthBudget;
      growthBudget := growthBudget - 1;
      index := InsertIntoEmpty(hash);
      WholeSize(|before.meta|);
      FillBudget(before.meta, index, TagBits(hash), budget, 0);
    }

    // The end of an insertion: the slot chosen once the key is known to be absent.
    method InsertAbsent(key: K, group: nat, emptyMatch: seq<nat>, groupWithDeleted: nat, deletedMatch: seq<nat>,
                        ghost last: nat)
      returns (index: nat, ghost before: Table<K, V>)
      requires Sound() && Absent(ctx, View(), key)
      requires EndsAt(metadata[..], StartOf(ctx, key), last)
      requires Reusable(metadata[..], StartOf(ctx, key), last + 1, groupWithDeleted, deletedMatch)
      requires group == ProbeIndex(StartOf(ctx, key), last, metadata.Length) && emptyMatch != []
      requires FirstInGroup(metadata[..], group, Empty, group + emptyMatch[0])
      requires Chained(metadata[..], StartOf(ctx, key), group + emptyMatch[0])
      modifies this, metadata, entries
      ensures Lawful(ctx) && Pending(ctx, View(), before, index, key)
      ensures Contents(ctx, before) == old(Map())
      ensures Budgeted(metadata[..], growthBudget, excess)
      ensures (metadata == old(metadata) && entries == old(entries) && excess == old(excess))
        || (fresh(metadata) && fresh(entries) && excess == 0)
      ensures metadata == old(metadata) ==> before == old(View())
      ensures metadata == old(metadata) ==> Picked(old(metadata[..]), StartOf(ctx, key), last, index)
      ensures metadata != old(metadata) ==>
        old(growthBudget) == 0 && NoneOnPath(old(metadata[..]), StartOf(ctx, key), last + 1)
      ensures growthBudget >= old(growthBudget) - 1
    {
      hide Matched, Unique, AllChained, Settled, IsSize, Count, Contents, Absent, HashKey, TagBits, Chained, Budgeted,
           ProbeIndex, FirstTombstoneAt, NoneOnPath, EndsAt, StartOf;
      var tag := TagBits(HashKey(ctx, key));
      before := View();
      WholeSize(|before.meta|);
      if deletedMatch != [] {
        index := groupWithDeleted + deletedMatch[0];
        TombstonePicked(before.meta, StartOf(ctx, key), last, index);
        FillBudget(before.meta, index, tag, growthBudget, excess);
        metadata[index] := Present(tag);
        return;
      }
      BudgetNonNegative(before.meta, growthBudget, excess);
      if growthBudget == 0 {
        index, before := GrowAndInsert(key);
        BudgetNonNegative(metadata[..], growthBudget, excess);
        return;
      }
      index := group + emptyMatch[0];
      FillBudget(before.meta, index, tag, growthBudget, excess);
      growthBudget := growthBudget - 1;
      metadata[index] := Present(tag);
    }

    // Finds the key's entry, or marks a slot for it and leaves the entry to be constructed.
    method InsertImpl(key: K) returns (index: nat, inserted: bool, ghost before: Table<K, V>)
      requires Sound() && Searchable(key)
      modifies this, metadata, entries
      ensures Lawful(ctx)
      ensures !inserted ==> Sound() && View() == old(View()) && growthBudget == old(growthBudget)
      ensures !inserted ==> Holds(ctx, View(), index, key)
      ensures inserted ==> old(Absent(ctx, View(), key)) && Pending(ctx, View(), before, index, key)
      ensures inserted ==> Contents(ctx, before) == old(Map())
      ensures inserted ==> Budgeted(metadata[..], growthBudget, excess)
      ensures (metadata == old(metadata) && entries == old(entries) && excess == old(excess))
        || (fresh(metadata) && fresh(entries) && excess == 0)
      ensures metadata == old(metadata) ==> before == old(View())
      ensures inserted && metadata == old(metadata) ==> Chosen(old(metadata[..]), StartOf(ctx, key), index)
      ensures metadata != old(metadata) ==>
        old(growthBudget) == 0 && NothingToReuse(old(metadata[..]), StartOf(ctx, key))
      ensures growthBudget >= old(growthBudget) - 1
    {
      hide Wellformed, Budgeted, Lawful, Searched, Matches, ProbeIndex, StartOf, IsSize, NotInGroup, Full, Holds, Absent,
           Contents, Chained, Reusable, FullSteps, FullStep, Pending, Count, EndsAt, Picked, NoneOnPath, FirstInGroup,
           Chosen, NothingToReuse, HashKey, TagBits, IndexBits, Triangle, StopsAt;
      var start := StartOf(ctx, key);
      ghost var e := SearchStarts(ctx, View(), key);
      var groupWithDeleted, deletedMatch := 0, [];
      NoneMet(metadata[..], start);
      before := View();
      var s := new ProbeSequence(start, metadata.Length);
      while true
        invariant fresh(s) && s.Valid() && s.start == start && s.size == metadata.Length
        invariant metadata == old(metadata) && entries == old(entries) && growthBudget == old(growthBudget)
        invariant excess == old(excess) && View() == before
        invariant Searched(ctx, before, key, s.taken)
        invariant Reusable(before.meta, start, s.taken, groupWithDeleted, deletedMatch)
        decreases metadata.Length / GroupSize - s.taken
      {
        SearchPosition(s, metadata.Length);
        var group := s.Index();
        var found, _ := FindInGroup(group, key);
        if found.Some? {
          return found.value, false, before;
        }
        SearchedIsFull(ctx, before, key, s.taken);
        GroupTracked(before.meta, start, s.taken, groupWithDeleted, deletedMatch);
        if deletedMatch == [] {
          deletedMatch := Matches(AnyDeleted, metadata[group..group + GroupSize]);
          groupWithDeleted := group;
        }
        var emptyMatch := Matches(AnyEmpty, metadata[group..group + GroupSize]);
        EmptyMatchMeaning(before.meta, group);
        SearchStep(ctx, before, key, s.taken, e);
        if emptyMatch != [] {
          PathEndsAt(before.meta, start, s.taken, group + emptyMatch[0]);
          index, before := InsertAbsent(key, group, emptyMatch, groupWithDeleted, deletedMatch, s.taken);
          Choice(old(metadata[..]), start, s.taken, index);
          inserted := true;
          return;
        }
        s.Next();
      }
    }

    method EraseImpl(key: K) returns (erased: bool, ghost slot: nat)
      requires Sound() && Searchable(key)
      modifies this, metadata, entries
      ensures Sound() && metadata == old(metadata) && entries == old(entries) && excess == old(excess)
      ensures erased == HasKey(ctx, old(Map()), key)
      ensures Map() == if erased then old(Map()) - {StoredKey(ctx, old(Map()), key)} else old(Map())
      ensures erased ==> old(Holds(ctx, View(), slot, key)) && View() == Removed(old(View()), slot)
      ensures !erased ==> View() == old(View())
      ensures growthBudget >= old(growthBudget)
    {
      hide Wellformed, Contents, Absent, Holds, HasKey, Removed, Budgeted, Lawful, Count;
      ghost var t := View();
      var entry, _, _ := LookupEntry(key);
      slot := 0;
      if entry == None {
        AbsentNotStored(ctx, t, key) by { WellformedIsUnique(ctx, t); }
        return false, slot;
      }
      RemoveSteps(ctx, t, entry.value, key, growthBudget, excess);
      EraseSlot(entry.value);
      return true, entry.value;
    }

    // Marks the slot and destroys its entry.
    method EraseSlot(index: nat)
      requires Wellformed(ctx, View()) && Occupied(View(), index)
      modifies this, metadata, entries
      ensures metadata == old(metadata) && entries == old(entries)
      ensures View() == Removed(old(View()), index) && excess == old(excess)
      ensures growthBudget == old(growthBudget) + if metadata[index] == Empty then 1 else 0
    {
      hide Wellformed, IsSize, AndNot, Matches, GroupStart;
      ghost var t := View();
      ErasePlace(ctx, t, index);
      var groupIndex := AndNot(index, GroupSize - 1);
      assert metadata[groupIndex..groupIndex + GroupSize] == t.meta[groupIndex..groupIndex + GroupSize];
      if Matches(AnyEmpty, metadata[groupIndex..groupIndex + GroupSize]) != [] {
        metadata[index] := Empty;
        growthBudget := growthBudget + 1;
      } else {
        metadata[index] := Deleted;
      }
      entries[index] := None;
    }
  }

  lemma WellformedIsUnique<K, V>(ctx: KeyContext<K>, t: Table<K, V>)
    requires Wellformed(ctx, t)
    ensures Unique(ctx, t)
  {
  }

  lemma ErasePlace<K(!new), V>(ctx: KeyContext<K>, t: Table<K, V>, i: nat)
    requires Wellformed(ctx, t) && Occupied(t, i)
    ensures Shaped(t) && i < |t.meta| && t.meta[i].Present?
    ensures AndNot(i, GroupSize - 1) == GroupStart(i) && IsGroupStart(GroupStart(i), |t.meta|)
  {
    hide AndNot, Unique, AllChained, Settled, GroupStart, IsSize;
    GroupStartInTable(i, |t.meta|);
    GroupStartMask(i);
  }

  lemma GroupStartMask(i: nat)
    ensures AndNot(i, GroupSize - 1) == GroupStart(i)
  {
    hide AndNot, Low;
    AndNotLow(i, GroupBits());
    LowIsModulo(i, GroupBits());
  }

  // What erasing the holder of a key means for the invariant, the map and the budget.
  lemma RemoveSteps<K(!new), V>(ctx: KeyContext<K>, t: Table<K, V>, i: nat, key: K, budget: int, excess: nat)
    requires Lawful(ctx) && Wellformed(ctx, t) && Holds(ctx, t, i, key) && Budgeted(t.meta, budget, excess)
    ensures Wellformed(ctx, Removed(t, i))
    ensures Contents(ctx, Removed(t, i)) == Contents(ctx, t) - {StoredKey(ctx, Contents(ctx, t), key)}
    ensures HasKey(ctx, Contents(ctx, t), key)
    ensures Occupied(t, i) && i < |t.meta|
    ensures Budgeted(Removed(t, i).meta, budget + if Removed(t, i).meta[i] == Empty then 1 else 0, excess)
  {
    hide Unique, AllChained, Settled, IsSize, Contents, Tombstone, GroupStart, KeyEq, Budgeted, HashKey, TagBits;
    RemoveKeeps(ctx, t, i);
    RemoveContents(ctx, t, i);
    HolderIsStored(ctx, t, i, key);
    WholeSize(|t.meta|);
    GroupStartInTable(i, |t.meta|);
    RemoveBudget(t.meta, i, budget, excess);
  }

  // Whether growing for `count` insertions into a table of `size` slots leaves a budget above `count`:
  // the new threshold has to cover the entries that are there as well.
  ghost predicate GrowthSuffices(size: nat, budget: int, present: nat, count: int) {
    var needed := Threshold(size) - budget + count;
    count < budget || (needed >= 0 && Threshold(NextPowerOf2(needed + needed / 7)) > present + count)
  }

  lemma GrowthCases(size: nat, budget: int, present: nat, count: int)
    ensures count < budget ==> GrowthSuffices(size, budget, present, count)
    ensures var needed := Threshold(size) - budget + count;
      count >= budget && needed >= 0 ==>
        (GrowthSuffices(size, budget, present, count) <==> Threshold(NextPowerOf2(needed + needed / 7)) > present + count)
  {
    hide NextPowerOf2;
  }

  lemma BudgetArithmetic<K, V>(ctx: KeyContext<K>, t: Table<K, V>, budget: int, excess: nat, count: int)
    requires Wellformed(ctx, t) && Budgeted(t.meta, budget, excess) && budget <= count
    ensures 0 <= budget <= Threshold(|t.meta|)
    ensures var needed := Threshold(|t.meta|) - budget + count;
      needed == NonEmpty(t.meta) - excess + count >= 0
      && NextPowerOf2(needed + needed / 7) > |t.meta|
      && Threshold(NextPowerOf2(needed + needed / 7)) > needed
  {
    hide Matched, Unique, AllChained, Settled, Count, IsSize, NextPowerOf2, FullGroups;
    ExcessBounded(t.meta, budget, excess);
    TargetIsLarger(|t.meta|, budget, count);
    ThresholdSuffices(Threshold(|t.meta|) - budget + count);
  }

  lemma PresentIsNonEmpty(meta: seq<Control>)
    ensures Count(AnyPresent, meta) <= NonEmpty(meta)
  {
    CountPartition(meta);
  }

  lemma LargerSize<K, V>(ctx: KeyContext<K>, t: Table<K, V>, target: nat)
    requires Wellformed(ctx, t) && IsPow2(target) && target > |t.meta|
    ensures IsSize(target) && target >= 2 * |t.meta|
  {
    hide Matched, Unique, AllChained, Settled;
    Pow2AtLeast(target, |t.meta|);
  }

  lemma EmptyTable<K(!new), V>(ctx: KeyContext<K>, u: Table<K, V>)
    requires Lawful(ctx) && Shaped(u)
    requires forall j: nat | j < |u.meta| :: u.meta[j] == Empty
    requires forall j: nat | j < |u.slots| :: u.slots[j] == None
    ensures Wellformed(ctx, u) && Contents(ctx, u) == map[]
    ensures Budgeted(u.meta, Threshold(|u.meta|), 0) && |u.meta| >= 16
  {
    hide Matched, Unique, AllChained, Settled, Lawful;
    FreshTable(ctx, u, u);
    AllEmptyCount(u.meta);
    assert Entries(u) == {};
  }

  lemma {:induction false} AllEmptyCount(meta: seq<Control>)
    requires forall j: nat | j < |meta| :: meta[j] == Empty
    ensures Count(AnyEmpty, meta) == |meta|
  {
    if |meta| > 0 {
      AllEmptyCount(meta[..|meta| - 1]);
    }
  }

  lemma RawBetween<K, V>(ctx: KeyContext<K>, t: Table<K, V>, group: nat, a: nat, b: nat, slots: seq<Option<Entry<K, V>>>)
    requires Wellformed(ctx, t) && IsGroupStart(group, |t.meta|) && group <= a <= b <= group + GroupSize
    requires |slots| == |t.slots| && slots[group..group + GroupSize] == t.slots[group..group + GroupSize]
    requires forall i: nat | a <= i < b :: !t.meta[i].Present?
    ensures forall i: nat | a <= i < b :: slots[i] == None
  {
    hide Unique, AllChained, Settled, IsSize, TagBits, HashKey;
    forall i: nat | a <= i < b ensures slots[i] == None {
      assert slots[group..group + GroupSize][i - group] == t.slots[group..group + GroupSize][i - group];
      assert !Occupied(t, i);
    }
  }

  lemma GroupUntouched<K, V>(t: Table<K, V>, group: nat, u: Table<K, V>)
    requires Shaped(t) && IsGroupStart(group, |t.meta|) && ClearedBelow(t, group, u)
    ensures |u.meta| == |u.slots| == |t.meta|
    ensures u.meta[group..group + GroupSize] == t.meta[group..group + GroupSize]
    ensures u.slots[group..group + GroupSize] == t.slots[group..group + GroupSize]
  {
    hide IsSize;
  }

  lemma PresentMeaning<K, V>(t: Table<K, V>, group: nat, g: seq<Control>)
    requires IsGroupStart(group, |t.meta|) && g == t.meta[group..group + GroupSize]
    ensures Matches(AnyPresent, g) != [] <==> HasPresent(t.meta, group)
  {
    hide Matches;
    MatchMeaning(AnyPresent, t.meta, group);
  }

  lemma BudgetNonNegative(meta: seq<Control>, budget: int, excess: nat)
    requires Budgeted(meta, budget, excess)
    ensures budget >= 0
  {
  }

  lemma AtLeastSixteen<K, V>(ctx: KeyContext<K>, t: Table<K, V>)
    requires Wellformed(ctx, t)
    ensures |t.meta| >= 16
  {
    hide Matched, Unique, AllChained, Settled;
  }

  // An empty slot holds no entry.
  lemma EmptyHoldsNothing<K, V>(ctx: KeyContext<K>, t: Table<K, V>, i: nat)
    requires Wellformed(ctx, t) && i < |t.meta| && t.meta[i] == Empty
    ensures |t.slots| == |t.meta| && t.slots[i] == None
  {
    hide Unique, AllChained, Settled, TagBits, HashKey, IsSize;
    assert !Occupied(t, i);
  }

  lemma KeptRefl<K, V>(slots: seq<Option<Entry<K, V>>>)
    ensures Kept(slots, slots)
  {
  }

  lemma KeptTrans<K, V>(a: seq<Option<Entry<K, V>>>, b: seq<Option<Entry<K, V>>>, c: seq<Option<Entry<K, V>>>)
    requires Kept(a, b) && Kept(b, c)
    ensures Kept(a, c)
  {
  }

  // Absence depends on the map alone.
  lemma StillAbsent<K(!new), V>(ctx: KeyContext<K>, t: Table<K, V>, u: Table<K, V>, key: K)
    requires Lawful(ctx) && Unique(ctx, t) && Unique(ctx, u) && Contents(ctx, t) == Contents(ctx, u)
    requires Absent(ctx, t, key)
    ensures Absent(ctx, u, key)
  {
    hide Unique, Contents, Lawful, Holds;
    AbsentNotStored(ctx, t, key);
    forall i: nat ensures !Holds(ctx, u, i, key) {
      HolderStored(ctx, u, i, key);
    }
  }

  lemma HolderStored<K(!new), V>(ctx: KeyContext<K>, t: Table<K, V>, i: nat, key: K)
    requires Lawful(ctx) && Unique(ctx, t)
    ensures Holds(ctx, t, i, key) ==> HasKey(ctx, Contents(ctx, t), key)
  {
    hide Unique, Contents, Lawful, Holds;
    if Holds(ctx, t, i, key) {
      HolderIsStored(ctx, t, i, key);
    }
  }

  lemma GrowingIsWellformed<K, V>(ctx: KeyContext<K>, t: Table<K, V>, u: Table<K, V>, moved: set<nat>)
    requires Growing(ctx, t, u, moved)
    ensures Wellformed(ctx, u)
  {
  }

  lemma OccupiedIsSome<K, V>(t: Table<K, V>, i: nat)
    requires Occupied(t, i)
    ensures i < |t.slots| && t.slots[i].Some?
  {
  }

  // `MetadataGroup::FastByteClear`
  predicate FastByteClear() {
    GroupSize == 8
  }

  lemma NoSteps(meta: seq<Control>, start: nat)
    requires IsSize(|meta|)
    ensures FullSteps(meta, start, 0)
  {
  }

  lemma CandidateOccupied<K(!new), V>(ctx: KeyContext<K>, t: Table<K, V>, group: nat, tag: Tag, n: nat)
    requires Wellformed(ctx, t) && IsGroupStart(group, |t.meta|)
    requires n < |Matches(Tagged(tag), t.meta[group..group + GroupSize])|
    ensures Occupied(t, group + Matches(Tagged(tag), t.meta[group..group + GroupSize])[n])
  {
    hide Matches;
    var g := t.meta[group..group + GroupSize];
    var candidates := MatchesFrom(Tagged(tag), g, 0);
    assert candidates == Matches(Tagged(tag), g) by { MatchesIsFromZero(Tagged(tag), g); }
    assert candidates[n] in candidates;
    assert t.meta[group + candidates[n]] == g[candidates[n]];
  }

  lemma MatchesIsFromZero(q: Query, g: seq<Control>)
    ensures Matches(q, g) == MatchesFrom(q, g, 0)
  {
  }

  lemma NoCandidateHolds<K(!new), V>(ctx: KeyContext<K>, t: Table<K, V>, group: nat, key: K)
    requires Lawful(ctx) && Wellformed(ctx, t) && IsGroupStart(group, |t.meta|)
    requires var candidates := Matches(Tagged(TagBits(HashKey(ctx, key))), t.meta[group..group + GroupSize]);
      forall b | 0 <= b < |candidates| :: !Holds(ctx, t, group + candidates[b], key)
    ensures NotInGroup(ctx, t, group, key)
  {
    hide MatchesFrom, TagBits;
    var tag := TagBits(HashKey(ctx, key));
    var g := t.meta[group..group + GroupSize];
    var candidates := Matches(Tagged(tag), g);
    forall i: nat | group <= i < group + GroupSize ensures !Holds(ctx, t, i, key) {
      if t.meta[i] == Present(tag) {
        assert g[i - group] == t.meta[i];
        assert (i - group) in candidates;
      } else {
        OtherTagNoHolder(ctx, t, i, key);
      }
    }
  }

  lemma OtherTagNoHolder<K(!new), V>(ctx: KeyContext<K>, t: Table<K, V>, i: nat, key: K)
    requires Lawful(ctx) && Shaped(t) && Matched(ctx, t) && i < |t.meta|
    requires t.meta[i] != Present(TagBits(HashKey(ctx, key)))
    ensures !Holds(ctx, t, i, key)
  {
  }

  lemma MatchMeaning(q: Query, meta: seq<Control>, group: nat)
    requires IsGroupStart(group, |meta|)
    ensures var m := Matches(q, meta[group..group + GroupSize]);
      && (m == [] <==> forall j | group <= j < group + GroupSize :: !Hits(q, meta[j]))
      && (m != [] ==> m[0] < GroupSize && Hits(q, meta[group + m[0]]))
  {
    hide MatchesFrom, Hits;
    var g := meta[group..group + GroupSize];
    var m := Matches(q, g);
    if m == [] {
      forall j | group <= j < group + GroupSize ensures !Hits(q, meta[j]) {
        assert g[j - group] == meta[j] && (j - group) !in m;
      }
    } else {
      assert m[0] in m;
      assert meta[group + m[0]] == g[m[0]];
    }
  }

  // The first position of a group with this byte.
  ghost predicate FirstInGroup(meta: seq<Control>, group: nat, c: Control, i: nat) {
    && group <= i < group + GroupSize && i < |meta| && meta[i] == c
    && forall j: nat | group <= j < i :: meta[j] != c
  }

  lemma FirstMatch(q: Query, meta: seq<Control>, group: nat, c: Control)
    requires IsGroupStart(group, |meta|) && ((q == AnyEmpty && c == Empty) || (q == AnyDeleted && c == Deleted))
    ensures var m := Matches(q, meta[group..group + GroupSize]);
      && (m == [] <==> forall j: nat | group <= j < group + GroupSize :: meta[j] != c)
      && (m != [] ==> FirstInGroup(meta, group, c, group + m[0]))
  {
    hide Matches;
    MatchMeaning(q, meta, group);
    var g := meta[group..group + GroupSize];
    var m := Matches(q, g);
    NextMatch(q, g, 0);
    if m != [] {
      forall j: nat | group <= j < group + m[0]
        ensures meta[j] != c
      {
        assert !Hits(q, g[j - group]);
      }
    }
  }

  lemma EmptyMatchMeaning(meta: seq<Control>, group: nat)
    requires IsGroupStart(group, |meta|)
    ensures var m := Matches(AnyEmpty, meta[group..group + GroupSize]);
      && (m == [] <==> Full(meta, group))
      && (m != [] ==> m[0] < GroupSize && meta[group + m[0]] == Empty)
      && (m != [] ==> FirstInGroup(meta, group, Empty, group + m[0]))
  {
    hide Matches;
    FirstMatch(AnyEmpty, meta, group, Empty);
  }

  // -------- The slot that an insertion chooses --------

  // None of the first `steps` groups of the probe holds a tombstone.
  ghost predicate NoneOnPath(meta: seq<Control>, start: nat, steps: nat)
    requires IsSize(|meta|)
  {
    forall k: nat, j: nat | k < steps && InStep(meta, start, k, j) :: meta[j] != Deleted
  }

  ghost predicate InStep(meta: seq<Control>, start: nat, k: nat, j: nat)
    requires IsSize(|meta|)
  {
    j < |meta| && ProbeIndex(start, k, |meta|) <= j < ProbeIndex(start, k, |meta|) + GroupSize
  }

  // Slot `i` is the first tombstone on the probe path, in the group at step `k`.
  ghost predicate FirstTombstoneAt(meta: seq<Control>, start: nat, k: nat, i: nat)
    requires IsSize(|meta|)
  {
    NoneOnPath(meta, start, k) && FirstInGroup(meta, ProbeIndex(start, k, |meta|), Deleted, i)
  }

  // The search ends at step `last`, at the first group with an empty byte.
  ghost predicate EndsAt(meta: seq<Control>, start: nat, last: nat)
    requires IsSize(|meta|)
  {
    last < |meta| / GroupSize && FullSteps(meta, start, last) && !FullStep(meta, start, last)
  }

  // The first tombstone up to step `last`, or the first empty slot of that step if there is none.
  ghost predicate Picked(meta: seq<Control>, start: nat, last: nat, index: nat)
    requires IsSize(|meta|)
  {
    || (exists k: nat :: k <= last && FirstTombstoneAt(meta, start, k, index))
    || (NoneOnPath(meta, start, last + 1) && FirstInGroup(meta, ProbeIndex(start, last, |meta|), Empty, index))
  }

  ghost predicate Chosen(meta: seq<Control>, start: nat, index: nat) {
    IsSize(|meta|) && exists last: nat :: EndsAt(meta, start, last) && Picked(meta, start, last, index)
  }

  ghost predicate NothingToReuse(meta: seq<Control>, start: nat) {
    IsSize(|meta|) && exists last: nat :: EndsAt(meta, start, last) && NoneOnPath(meta, start, last + 1)
  }

  lemma Choice(meta: seq<Control>, start: nat, last: nat, index: nat)
    requires IsSize(|meta|) && EndsAt(meta, start, last)
    ensures Picked(meta, start, last, index) ==> Chosen(meta, start, index)
    ensures NoneOnPath(meta, start, last + 1) ==> NothingToReuse(meta, start)
  {
    hide IsSize, EndsAt, Picked, NoneOnPath;
  }

  // The first tombstone met in `steps` groups, if any, which lies on an unbroken chain.
  ghost predicate Reusable(meta: seq<Control>, start: nat, steps: nat, group: nat, deletedMatch: seq<nat>)
    requires IsSize(|meta|)
  {
    if deletedMatch == [] then NoneOnPath(meta, start, steps)
    else
      var i := group + deletedMatch[0];
      && i < |meta| && meta[i] == Deleted && Chained(meta, start, i)
      && exists k: nat :: k < steps && FirstTombstoneAt(meta, start, k, i)
  }

  lemma NoneMet(meta: seq<Control>, start: nat)
    requires IsSize(|meta|)
    ensures Reusable(meta, start, 0, 0, [])
  {
  }

  lemma ReusableLater(meta: seq<Control>, start: nat, steps: nat, group: nat, deletedMatch: seq<nat>)
    requires IsSize(|meta|) && deletedMatch != [] && Reusable(meta, start, steps, group, deletedMatch)
    ensures Reusable(meta, start, steps + 1, group, deletedMatch)
  {
    hide IsSize, Chained, FirstTombstoneAt;
  }

  lemma TombstonePicked(meta: seq<Control>, start: nat, last: nat, index: nat)
    requires IsSize(|meta|) && exists k: nat :: k < last + 1 && FirstTombstoneAt(meta, start, k, index)
    ensures Picked(meta, start, last, index)
  {
    hide FirstTombstoneAt, NoneOnPath, FirstInGroup, IsSize;
    var k: nat :| k < last + 1 && FirstTombstoneAt(meta, start, k, index);
    assert k <= last && FirstTombstoneAt(meta, start, k, index);
  }

  // The group of the first empty byte on the path ends it.
  lemma PathEndsAt(meta: seq<Control>, start: nat, last: nat, i: nat)
    requires IsSize(|meta|) && last < |meta| / GroupSize && FullSteps(meta, start, last)
    requires IsGroupStart(ProbeIndex(start, last, |meta|), |meta|)
    requires FirstInGroup(meta, ProbeIndex(start, last, |meta|), Empty, i)
    ensures EndsAt(meta, start, last) && Chained(meta, start, i)
  {
    hide ProbeIndex, Chained;
    ChainedAfterSearch(meta, start, last, i);
    assert !Full(meta, ProbeIndex(start, last, |meta|));
  }

  // One group more on the path: its tombstones matter only if none has been met before.
  lemma GroupTracked(meta: seq<Control>, start: nat, taken: nat, group0: nat, deletedMatch: seq<nat>)
    requires IsSize(|meta|) && taken < |meta| / GroupSize && FullSteps(meta, start, taken)
    requires Reusable(meta, start, taken, group0, deletedMatch)
    ensures var group := ProbeIndex(start, taken, |meta|);
      && IsGroupStart(group, |meta|)
      && var later := if deletedMatch == [] then Matches(AnyDeleted, meta[group..group + GroupSize]) else deletedMatch;
        Reusable(meta, start, taken + 1, if deletedMatch == [] then group else group0, later)
  {
    hide Reusable, FullSteps, Matches, ProbeIndex;
    ProbeIndexInRange(start, taken, |meta|);
    if deletedMatch == [] {
      FirstTombstone(meta, start, taken, group0);
    } else {
      ReusableLater(meta, start, taken, group0, deletedMatch);
    }
  }

  lemma FirstTombstone(meta: seq<Control>, start: nat, taken: nat, group0: nat)
    requires IsSize(|meta|) && taken < |meta| / GroupSize && FullSteps(meta, start, taken)
    requires Reusable(meta, start, taken, group0, [])
    ensures var group := ProbeIndex(start, taken, |meta|);
      && IsGroupStart(group, |meta|)
      && Reusable(meta, start, taken + 1, group, Matches(AnyDeleted, meta[group..group + GroupSize]))
  {
    hide Matches, ProbeIndex, Chained;
    ProbeIndexInRange(start, taken, |meta|);
    var group := ProbeIndex(start, taken, |meta|);
    FirstMatch(AnyDeleted, meta, group, Deleted);
    var m := Matches(AnyDeleted, meta[group..group + GroupSize]);
    if m != [] {
      ChainedAfterSearch(meta, start, taken, group + m[0]);
      assert FirstTombstoneAt(meta, start, taken, group + m[0]);
    }
  }
}
