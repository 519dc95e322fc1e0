// What clearing a table does: groups without a present entry are skipped, so
// all-tombstone groups stay behind while the budget is reset in full.
module TableClear {
  import opened Options
  import opened MetadataGroups
  import opened ProbeSequences
  import opened TableStates

  ghost predicate HasPresent(meta: seq<Control>, group: nat)
    requires group + GroupSize <= |meta|
  {
    exists i :: group <= i < group + GroupSize && meta[i].Present?
  }

  ghost predicate AllTombstones(meta: seq<Control>, group: nat)
    requires group + GroupSize <= |meta|
  {
    forall i | group <= i < group + GroupSize :: meta[i] == Deleted
  }

  // How many groups hold nothing but tombstones.
  ghost function TombstoneGroups(meta: seq<Control>, bound: nat): nat
    requires bound <= |meta|
  {
    if bound < GroupSize then 0
    else TombstoneGroups(meta, bound - GroupSize) + if AllTombstones(meta, bound - GroupSize) then 1 else 0
  }

  // Byte `i` after clearing.
  ghost function ClearedByte(meta: seq<Control>, i: nat): Control
    requires IsSize(|meta|) && i < |meta|
  {
    GroupStartInTable(i, |meta|);
    if HasPresent(meta, GroupStart(i)) then Empty else meta[i]
  }

  // The groups below `bound` have been cleared.
  ghost predicate ClearedBelow<K, V>(t: Table<K, V>, bound: nat, u: Table<K, V>)
    requires Shaped(t)
  {
    && |u.meta| == |t.meta| && |u.slots| == |t.slots|
    && (forall i: nat | i < |t.meta| :: u.meta[i] == if i < bound then ClearedByte(t.meta, i) else t.meta[i])
    && (forall i: nat | i < |t.meta| :: u.slots[i] == if i < bound then None else t.slots[i])
  }

  lemma ClearedStart<K, V>(t: Table<K, V>)
    requires Shaped(t)
    ensures ClearedBelow(t, 0, t)
  {
    hide IsSize;
  }

  // One group: cleared and its entries destroyed, or skipped when nothing is present.
  lemma ClearedStep<K, V>(ctx: KeyContext<K>, t: Table<K, V>, group: nat, u: Table<K, V>, w: Table<K, V>)
    requires Wellformed(ctx, t) && IsGroupStart(group, |t.meta|) && ClearedBelow(t, group, u)
    requires |w.meta| == |u.meta| && |w.slots| == |u.slots|
    requires forall i: nat | i < |t.meta| ::
      w.meta[i] == if group <= i < group + GroupSize && HasPresent(t.meta, group) then Empty else u.meta[i]
    requires forall i: nat | i < |t.meta| ::
      w.slots[i] == if group <= i < group + GroupSize && HasPresent(t.meta, group) then None else u.slots[i]
    ensures ClearedBelow(t, group + GroupSize, w)
  {
    hide IsSize, Unique, AllChained, Settled, GroupStart, HasPresent, TagBits, HashKey;
    forall i: nat | group <= i < group + GroupSize ensures GroupStart(i) == group {
      GroupStartUnique(i, group);
    }
    if !HasPresent(t.meta, group) {
      NoPresentNoEntry(ctx, t, group);
    }
  }

  lemma NoPresentNoEntry<K, V>(ctx: KeyContext<K>, t: Table<K, V>, group: nat)
    requires Shaped(t) && Matched(ctx, t) && IsGroupStart(group, |t.meta|) && !HasPresent(t.meta, group)
    ensures forall i: nat | group <= i < group + GroupSize :: t.slots[i] == None
  {
    hide TagBits, HashKey, IsSize;
    forall i: nat | group <= i < group + GroupSize ensures t.slots[i] == None {
      assert !t.meta[i].Present?;
      assert !Occupied(t, i);
    }
  }

  // Clearing always empties the map and keeps the table well formed.
  lemma ClearedWellformed<K(!new), V>(ctx: KeyContext<K>, t: Table<K, V>, u: Table<K, V>)
    requires Lawful(ctx) && Wellformed(ctx, t) && ClearedBelow(t, |t.meta|, u)
    ensures Wellformed(ctx, u) && Contents(ctx, u) == map[]
  {
    hide IsSize, Unique, AllChained, Matched, GroupStart, HasPresent, TagBits, HashKey, Lawful, Settled;
    assert forall i: nat :: !Occupied(u, i);
    assert Entries(u) == {};
    NothingOccupied(ctx, u, t.meta);
    ClearedSettled(ctx, t, u);
  }

  lemma NothingOccupied<K(!new), V>(ctx: KeyContext<K>, u: Table<K, V>, meta: seq<Control>)
    requires Shaped(u) && |u.meta| == |meta| && forall i: nat :: !Occupied(u, i)
    requires forall i: nat | i < |meta| :: u.meta[i] == ClearedByte(meta, i)
    ensures Matched(ctx, u) && Unique(ctx, u) && AllChained(ctx, u)
  {
    hide IsSize, GroupStart;
    forall i | 0 <= i < |u.meta| ensures !u.meta[i].Present? {
      GroupStartInTable(i, |meta|);
      assert u.meta[i] == ClearedByte(meta, i);
    }
  }

  lemma ClearedSettled<K, V>(ctx: KeyContext<K>, t: Table<K, V>, u: Table<K, V>)
    requires Shaped(t) && Settled(t.meta) && ClearedBelow(t, |t.meta|, u)
    ensures Settled(u.meta)
  {
    hide IsSize, HasPresent, GroupStart;
    forall i: nat, j: nat | i < |u.meta| && j < |u.meta| && GroupStart(i) == GroupStart(j)
      ensures u.meta[i] == Deleted ==> u.meta[j] != Empty
    {
      assert u.meta[i] == ClearedByte(t.meta, i);
      assert u.meta[j] == ClearedByte(t.meta, j);
    }
  }

  // A group after clearing is all empty, or was and is all tombstones.
  lemma ClearedGroup<K, V>(t: Table<K, V>, u: Table<K, V>, group: nat)
    requires Shaped(t) && Settled(t.meta) && ClearedBelow(t, |t.meta|, u) && IsGroupStart(group, |t.meta|)
    ensures if AllTombstones(t.meta, group)
      then forall i: nat | group <= i < group + GroupSize :: u.meta[i] == Deleted
      else forall i: nat | group <= i < group + GroupSize :: u.meta[i] == Empty
  {
    hide IsSize, GroupStart;
    forall i: nat | group <= i < group + GroupSize ensures GroupStart(i) == group {
      GroupStartUnique(i, group);
    }
    assert forall i: nat | group <= i < group + GroupSize :: u.meta[i] == ClearedByte(t.meta, i);
    if !AllTombstones(t.meta, group) && !HasPresent(t.meta, group) {
      var e: nat :| group <= e < group + GroupSize && t.meta[e] != Deleted;
      assert t.meta[e] == Empty;
      forall i: nat | group <= i < group + GroupSize ensures t.meta[i] == Empty {
        assert GroupStart(i) == GroupStart(e);
      }
    }
  }

  lemma {:induction false} UniformCount(meta: seq<Control>, c: Control)
    requires forall i: nat | i < |meta| :: meta[i] == c
    ensures Count(AnyEmpty, meta) == if c == Empty then |meta| else 0
  {
    if |meta| > 0 {
      UniformCount(meta[..|meta| - 1], c);
    }
  }

  // What is left non-empty: GroupSize slots for each all-tombstone group.
  lemma {:induction false} ClearedCount<K, V>(t: Table<K, V>, u: Table<K, V>, bound: nat)
    requires Shaped(t) && Settled(t.meta) && ClearedBelow(t, |t.meta|, u)
    requires bound <= |t.meta| && bound % GroupSize == 0
    ensures bound - Count(AnyEmpty, u.meta[..bound]) == GroupSize * TombstoneGroups(t.meta, bound)
  {
    hide IsSize, Settled, ClearedBelow, Count;
    ClearedLength(t, u);
    if bound > 0 {
      GroupBefore(bound, |t.meta|);
      var group := bound - GroupSize;
      ClearedCount(t, u, group);
      ClearedGroupCount(t, u, group);
      TombstoneStep(t.meta, bound);
    } else {
      assert u.meta[..0] == [];
    }
  }

  lemma GroupBefore(bound: nat, size: nat)
    requires 0 < bound <= size && bound % GroupSize == 0
    ensures bound >= GroupSize && IsGroupStart(bound - GroupSize, size)
  {
  }

  lemma TombstoneStep(meta: seq<Control>, bound: nat)
    requires GroupSize <= bound <= |meta|
    ensures GroupSize * TombstoneGroups(meta, bound)
         == GroupSize * TombstoneGroups(meta, bound - GroupSize)
            + if AllTombstones(meta, bound - GroupSize) then GroupSize else 0
  {
    var n := TombstoneGroups(meta, bound - GroupSize);
    assert GroupSize * (n + 1) == GroupSize * n + GroupSize;
  }

  lemma ClearedGroupCount<K, V>(t: Table<K, V>, u: Table<K, V>, group: nat)
    requires Shaped(t) && Settled(t.meta) && ClearedBelow(t, |t.meta|, u) && IsGroupStart(group, |t.meta|)
    requires |u.meta| == |t.meta|
    ensures Count(AnyEmpty, u.meta[..group + GroupSize])
         == Count(AnyEmpty, u.meta[..group]) + if AllTombstones(t.meta, group) then 0 else GroupSize
  {
    hide IsSize, Settled, ClearedBelow, Count;
    ClearedGroup(t, u, group);
    var g := u.meta[group..group + GroupSize];
    UniformCount(g, if AllTombstones(t.meta, group) then Deleted else Empty);
    assert u.meta[..group + GroupSize] == u.meta[..group] + g;
    CountConcat(AnyEmpty, u.meta[..group], g);
  }

  lemma ClearedLength<K, V>(t: Table<K, V>, u: Table<K, V>)
    requires Shaped(t) && ClearedBelow(t, |t.meta|, u)
    ensures |u.meta| == |t.meta|
  {
  }

  // The all-tombstone groups stay, and are full.
  lemma {:induction false} TombstonesStayFull<K, V>(t: Table<K, V>, u: Table<K, V>, bound: nat)
    requires Shaped(t) && Settled(t.meta) && ClearedBelow(t, |t.meta|, u)
    requires |u.meta| == |t.meta| && bound <= |t.meta| && bound % GroupSize == 0
    ensures TombstoneGroups(t.meta, bound) <= FullGroups(u.meta, bound)
  {
    hide ClearedBelow, Settled, IsSize;
    if bound > 0 {
      GroupBefore(bound, |t.meta|);
      TombstonesStayFull(t, u, bound - GroupSize);
      ClearedGroup(t, u, bound - GroupSize);
    }
  }

  // The reset budget exceeds the exact one by GroupSize for each all-tombstone group.
  lemma ClearedBudget<K(!new), V>(ctx: KeyContext<K>, t: Table<K, V>, u: Table<K, V>)
    requires Wellformed(ctx, t) && ClearedBelow(t, |t.meta|, u)
    ensures Threshold(|u.meta|)
         == Threshold(|u.meta|) - NonEmpty(u.meta) + GroupSize * TombstoneGroups(t.meta, |t.meta|)
    ensures Budgeted(u.meta, Threshold(|u.meta|), GroupSize * TombstoneGroups(t.meta, |t.meta|))
    ensures Budgeted(u.meta, Threshold(|u.meta|), 0) <==> TombstoneGroups(t.meta, |t.meta|) == 0
  {
    hide Matched, Unique, AllChained, Settled, Count, TombstoneGroups, ClearedBelow, FullGroups, IsSize;
    ClearedLength(t, u);
    WholeSize(|t.meta|);
    ClearedCount(t, u, |t.meta|);
    TombstonesStayFull(t, u, |t.meta|);
    assert u.meta[..|u.meta|] == u.meta;
  }
}
