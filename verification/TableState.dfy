// The state of one hash table as a value, the invariant every operation keeps,
// and the finite map the state stands for.
module TableStates {
  import opened Options
  import opened MetadataGroups
  import opened ProbeSequences

  datatype Entry<K, V> = Entry(key: K, value: V)

  // Hashing and comparison of keys.
  datatype KeyContext<!K> = KeyContext(hash: K -> bv64, eq: (K, K) -> bool)

  function HashKey<K>(ctx: KeyContext<K>, key: K): bv64 {
    ctx.hash(key)
  }

  predicate KeyEq<K>(ctx: KeyContext<K>, a: K, b: K) {
    ctx.eq(a, b)
  }

  // Equality of keys is an equivalence, and equal keys hash alike.
  ghost predicate Lawful<K(!new)>(ctx: KeyContext<K>) {
    && (forall a :: KeyEq(ctx, a, a))
    && (forall a, b :: KeyEq(ctx, a, b) ==> KeyEq(ctx, b, a) && HashKey(ctx, a) == HashKey(ctx, b))
    && (forall a, b, c :: KeyEq(ctx, a, b) && KeyEq(ctx, b, c) ==> KeyEq(ctx, a, c))
  }

  // `ExtractIndexAndTag<7>`
  function IndexBits(hash: bv64): nat {
    (hash >> 7) as nat
  }

  function TagBits(hash: bv64): Tag {
    hash & 0x7F
  }

  // Index and tag are the quotient and the remainder by 128, so that nothing of the hash is lost.
  lemma HashSplits(hash: bv64)
    ensures IndexBits(hash) == (hash / 128) as nat && TagBits(hash) == hash % 128
    ensures hash == 128 * (hash / 128) + hash % 128
  {
  }

  lemma HashDetermined(a: bv64, b: bv64)
    requires IndexBits(a) == IndexBits(b) && TagBits(a) == TagBits(b)
    ensures a == b
  {
    HashSplits(a);
    HashSplits(b);
    SameWord(a / 128, b / 128);
  }

  lemma SameWord(a: bv64, b: bv64)
    requires a as nat == b as nat
    ensures a == b
  {
    assert (a as nat) as bv64 == a && (b as nat) as bv64 == b;
  }

  function StartOf<K>(ctx: KeyContext<K>, key: K): nat {
    IndexBits(HashKey(ctx, key))
  }

  // The probe of a key starts at the index part of its hash, and its tag is the rest.
  lemma KeyPlace<K>(ctx: KeyContext<K>, key: K)
    ensures StartOf(ctx, key) == (ctx.hash(key) / 128) as nat && TagBits(HashKey(ctx, key)) == ctx.hash(key) % 128
  {
    hide IndexBits, TagBits;
    HashSplits(ctx.hash(key));
  }

  // The metadata bytes and the entries. A slot holds a constructed entry or raw storage.
  datatype Table<!K, !V> = Table(meta: seq<Control>, slots: seq<Option<Entry<K, V>>>)

  function GroupStart(i: nat): (g: nat)
    ensures g <= i < g + GroupSize && g % GroupSize == 0
  {
    i - i % GroupSize
  }

  lemma GroupStartUnique(i: nat, g: nat)
    requires g <= i < g + GroupSize && g % GroupSize == 0
    ensures GroupStart(i) == g
  {
  }

  lemma GroupStartInTable(i: nat, size: nat)
    requires IsSize(size) && i < size
    ensures IsGroupStart(GroupStart(i), size)
  {
    hide GroupStart, IsSize;
    var m := SizeInGroups(size);
    assert size % GroupSize == 0;
    WholeGroups(GroupStart(i), i, size);
  }

  lemma WholeGroups(g: nat, i: nat, size: nat)
    requires g % GroupSize == 0 && size % GroupSize == 0 && g <= i < size
    ensures g + GroupSize <= size
  {
  }

  // -------- The invariant --------

  ghost predicate Shaped<K, V>(t: Table<K, V>) {
    IsSize(|t.meta|) && |t.slots| == |t.meta|
  }

  ghost predicate Occupied<K, V>(t: Table<K, V>, i: int) {
    0 <= i < |t.slots| && t.slots[i].Some?
  }

  ghost function KeyAt<K, V>(t: Table<K, V>, i: nat): K
    requires Occupied(t, i)
  {
    t.slots[i].value.key
  }

  // A slot holds an entry exactly when its byte is present, with the entry's tag.
  ghost predicate Matched<K, V>(ctx: KeyContext<K>, t: Table<K, V>)
    requires |t.slots| == |t.meta|
  {
    && (forall i | 0 <= i < |t.meta| :: t.meta[i].Present? ==> Occupied(t, i))
    && (forall i: nat | Occupied(t, i) :: t.meta[i] == Present(TagBits(HashKey(ctx, KeyAt(t, i)))))
  }

  ghost predicate Unique<K, V>(ctx: KeyContext<K>, t: Table<K, V>) {
    forall i: nat, j: nat | Occupied(t, i) && Occupied(t, j) && i != j :: !KeyEq(ctx, KeyAt(t, i), KeyAt(t, j))
  }

  ghost predicate Full(meta: seq<Control>, g: nat)
    requires g + GroupSize <= |meta|
  {
    forall i | g <= i < g + GroupSize :: meta[i] != Empty
  }

  ghost predicate FullStep(meta: seq<Control>, start: nat, step: nat)
    requires IsSize(|meta|)
  {
    ProbeIndexInRange(start, step, |meta|);
    Full(meta, ProbeIndex(start, step, |meta|))
  }

  // Every group that a probe from `start` visits before reaching slot `i` has no empty byte.
  ghost predicate Chained(meta: seq<Control>, start: nat, i: nat)
    requires IsSize(|meta|) && i < |meta|
  {
    GroupStartInTable(i, |meta|);
    forall step: nat | step < StepOf(start, GroupStart(i), |meta|) :: FullStep(meta, start, step)
  }

  ghost predicate AllChained<K, V>(ctx: KeyContext<K>, t: Table<K, V>)
    requires Shaped(t)
  {
    forall i: nat | Occupied(t, i) :: Chained(t.meta, StartOf(ctx, KeyAt(t, i)), i)
  }

  // A group with a tombstone has no empty byte.
  ghost predicate Settled(meta: seq<Control>) {
    forall i: nat, j: nat | i < |meta| && j < |meta| && GroupStart(i) == GroupStart(j) ::
      meta[i] == Deleted ==> meta[j] != Empty
  }

  ghost predicate Wellformed<K, V>(ctx: KeyContext<K>, t: Table<K, V>) {
    && Shaped(t)
    && Matched(ctx, t)
    && Unique(ctx, t)
    && AllChained(ctx, t)
    && Settled(t.meta)
  }

  // -------- Counting and the growth budget --------

  ghost function Count(q: Query, meta: seq<Control>): (n: nat)
    ensures n <= |meta|
  {
    if |meta| == 0 then 0
    else Count(q, meta[..|meta| - 1]) + if Hits(q, meta[|meta| - 1]) then 1 else 0
  }

  ghost function NonEmpty(meta: seq<Control>): nat {
    |meta| - Count(AnyEmpty, meta)
  }

  // `GrowthThresholdForAllocSize`
  function Threshold(size: nat): nat {
    size - size / 8
  }

  // How many groups have no empty byte.
  ghost function FullGroups(meta: seq<Control>, bound: nat): nat
    requires bound <= |meta|
  {
    if bound < GroupSize then 0
    else FullGroups(meta, bound - GroupSize) + if Full(meta, bound - GroupSize) then 1 else 0
  }

  // The budget is the threshold less the non-empty slots, and whatever Clear has left in excess:
  // nothing, unless it skipped groups of tombstones, which are full.
  ghost predicate Budgeted(meta: seq<Control>, budget: int, excess: nat) {
    && budget == Threshold(|meta|) - NonEmpty(meta) + excess
    && budget >= 0
    && excess <= GroupSize * FullGroups(meta, |meta|)
  }

  lemma {:induction false} CountUpdate(q: Query, meta: seq<Control>, i: nat, c: Control)
    requires i < |meta|
    ensures Count(q, meta[i := c])
         == Count(q, meta) - (if Hits(q, meta[i]) then 1 else 0) + (if Hits(q, c) then 1 else 0)
  {
    var last := |meta| - 1;
    if i == last {
      assert meta[i := c][..last] == meta[..last];
    } else {
      assert meta[i := c][..last] == meta[..last][i := c];
      CountUpdate(q, meta[..last], i, c);
    }
  }

  lemma {:induction false} CountPositive(q: Query, meta: seq<Control>) returns (i: nat)
    requires Count(q, meta) > 0
    ensures i < |meta| && Hits(q, meta[i])
  {
    var last := |meta| - 1;
    if Hits(q, meta[last]) {
      i := last;
    } else {
      i := CountPositive(q, meta[..last]);
    }
  }

  lemma {:induction false} CountPartition(meta: seq<Control>)
    ensures Count(AnyEmpty, meta) + Count(AnyDeleted, meta) + Count(AnyPresent, meta) == |meta|
  {
    if |meta| > 0 {
      CountPartition(meta[..|meta| - 1]);
    }
  }

  lemma {:induction false} CountConcat(q: Query, a: seq<Control>, b: seq<Control>)
    ensures Count(q, a + b) == Count(q, a) + Count(q, b)
  {
    if |b| == 0 {
      assert a + b == a;
    } else {
      var last := |b| - 1;
      assert (a + b)[..|a + b| - 1] == a + b[..last];
      CountConcat(q, a, b[..last]);
    }
  }

  // At least one slot in eight is empty, but for the excess. The debug check of this before doubling
  // holds exactly when the budget covers the excess.
  lemma EmptySlotExists(meta: seq<Control>, budget: int, excess: nat)
    requires Budgeted(meta, budget, excess)
    ensures Count(AnyEmpty, meta) >= |meta| / 8 - excess
    ensures excess < |meta| / 8 ==> Count(AnyEmpty, meta) > 0
    ensures Count(AnyEmpty, meta) >= |meta| - Threshold(|meta|) <==> budget >= excess
  {
  }

  lemma SomeEmpty(meta: seq<Control>)
    requires exists i: nat :: i < |meta| && meta[i] == Empty
    ensures Count(AnyEmpty, meta) > 0
  {
    var i: nat :| i < |meta| && meta[i] == Empty;
    CountUpdate(AnyEmpty, meta, i, Deleted);
  }

  lemma {:induction false} NoneEmptyCount(g: seq<Control>)
    requires forall i: nat | i < |g| :: g[i] != Empty
    ensures Count(AnyEmpty, g) == 0
  {
    if |g| > 0 {
      NoneEmptyCount(g[..|g| - 1]);
    }
  }

  // The bytes of full groups are among the non-empty ones.
  lemma {:induction false} FullGroupsNonEmpty(meta: seq<Control>, bound: nat)
    requires bound <= |meta|
    ensures GroupSize * FullGroups(meta, bound) <= bound - Count(AnyEmpty, meta[..bound])
  {
    if bound >= GroupSize {
      var before := bound - GroupSize;
      FullGroupsNonEmpty(meta, before);
      var g := meta[before..bound];
      assert meta[..bound] == meta[..before] + g;
      CountConcat(AnyEmpty, meta[..before], g);
      FullGroupStep(meta, bound);
      if Full(meta, before) {
        NoneEmptyCount(g);
      }
    }
  }

  lemma FullGroupStep(meta: seq<Control>, bound: nat)
    requires GroupSize <= bound <= |meta|
    ensures GroupSize * FullGroups(meta, bound) ==
      GroupSize * FullGroups(meta, bound - GroupSize) + if Full(meta, bound - GroupSize) then GroupSize else 0
  {
  }

  // The excess never passes the non-empty slots, so the budget never passes the threshold.
  lemma ExcessBounded(meta: seq<Control>, budget: int, excess: nat)
    requires Budgeted(meta, budget, excess)
    ensures excess <= NonEmpty(meta) && 0 <= budget <= Threshold(|meta|)
  {
    hide Count, FullGroups;
    FullGroupsNonEmpty(meta, |meta|);
    assert meta[..|meta|] == meta;
  }

  // While groups that are full stay full, they do not get fewer.
  lemma {:induction false} FullGroupsKept(meta: seq<Control>, after: seq<Control>, bound: nat)
    requires |after| == |meta| && bound <= |meta| && bound % GroupSize == 0
    requires forall g: nat | g + GroupSize <= |meta| && g % GroupSize == 0 && Full(meta, g) :: Full(after, g)
    ensures FullGroups(meta, bound) <= FullGroups(after, bound)
  {
    hide Full;
    if bound >= GroupSize {
      FullGroupsKept(meta, after, bound - GroupSize);
    }
  }

  lemma WholeSize(size: nat)
    requires IsSize(size)
    ensures size % GroupSize == 0
  {
    var m := SizeInGroups(size);
  }

  ghost predicate Holds<K, V>(ctx: KeyContext<K>, t: Table<K, V>, i: int, key: K) {
    Occupied(t, i) && KeyEq(ctx, key, KeyAt(t, i))
  }

  ghost predicate Absent<K, V>(ctx: KeyContext<K>, t: Table<K, V>, key: K) {
    forall i: nat :: !Holds(ctx, t, i, key)
  }

  ghost predicate NotInGroup<K, V>(ctx: KeyContext<K>, t: Table<K, V>, g: nat, key: K) {
    forall i: nat | g <= i < g + GroupSize :: !Holds(ctx, t, i, key)
  }

  // The first `steps` groups of the probe for `key` are full and do not hold it.
  ghost predicate Searched<K, V>(ctx: KeyContext<K>, t: Table<K, V>, key: K, steps: nat)
    requires IsSize(|t.meta|)
  {
    forall k: nat | k < steps ::
      FullStep(t.meta, StartOf(ctx, key), k) && NotInGroup(ctx, t, ProbeIndex(StartOf(ctx, key), k, |t.meta|), key)
  }

  ghost predicate FullSteps(meta: seq<Control>, start: nat, steps: nat)
    requires IsSize(|meta|)
  {
    forall k: nat | k < steps :: FullStep(meta, start, k)
  }

  // While an empty byte exists, a probe past full groups only has another group to go to.
  lemma ProbeHasNext(meta: seq<Control>, start: nat, last: nat, e: nat)
    requires IsSize(|meta|) && e < |meta| && meta[e] == Empty
    requires FullSteps(meta, start, last + 1)
    ensures last + 1 < |meta| / GroupSize
  {
    GroupStartInTable(e, |meta|);
    var step := StepOf(start, GroupStart(e), |meta|);
    assert !FullStep(meta, start, step);
  }

  // A group with an empty byte ends the search: no later group can hold the key.
  lemma SearchEnds<K(!new), V>(ctx: KeyContext<K>, t: Table<K, V>, key: K, last: nat)
    requires Lawful(ctx) && Shaped(t) && AllChained(ctx, t)
    requires Searched(ctx, t, key, last)
    requires NotInGroup(ctx, t, ProbeIndex(StartOf(ctx, key), last, |t.meta|), key)
    requires !FullStep(t.meta, StartOf(ctx, key), last)
    ensures Absent(ctx, t, key)
  {
    hide ProbeIndex, GroupStart, FullStep, StartOf;
    forall i: nat ensures !Holds(ctx, t, i, key) {
      HolderStart(ctx, t, key, i);
      if Occupied(t, i) && StartOf(ctx, KeyAt(t, i)) == StartOf(ctx, key) {
        GroupStartInTable(i, |t.meta|);
        var step := StepOf(StartOf(ctx, key), GroupStart(i), |t.meta|);
        assert Chained(t.meta, StartOf(ctx, key), i);
        assert step <= last;
        assert NotInGroup(ctx, t, ProbeIndex(StartOf(ctx, key), step, |t.meta|), key);
      }
    }
  }

  lemma HolderStart<K(!new), V>(ctx: KeyContext<K>, t: Table<K, V>, key: K, i: nat)
    requires Lawful(ctx)
    ensures Holds(ctx, t, i, key) ==> StartOf(ctx, KeyAt(t, i)) == StartOf(ctx, key)
  {
  }

  // A slot in the group after `steps` full groups is on an unbroken chain.
  lemma ChainedAfterSearch(meta: seq<Control>, start: nat, steps: nat, i: nat)
    requires IsSize(|meta|) && steps < |meta| / GroupSize
    requires FullSteps(meta, start, steps)
    requires ProbeIndex(start, steps, |meta|) <= i < ProbeIndex(start, steps, |meta|) + GroupSize
    ensures i < |meta| && Chained(meta, start, i)
  {
    hide ProbeIndex, GroupStart, FullStep;
    StepOfUnique(start, steps, |meta|);
    GroupStartUnique(i, ProbeIndex(start, steps, |meta|));
  }

  // One step of a search for an empty byte alone.
  lemma EmptySearchStep(meta: seq<Control>, start: nat, last: nat, e: nat)
    requires IsSize(|meta|) && e < |meta| && meta[e] == Empty && FullSteps(meta, start, last)
    ensures IsGroupStart(ProbeIndex(start, last, |meta|), |meta|)
    ensures Full(meta, ProbeIndex(start, last, |meta|)) ==>
      FullSteps(meta, start, last + 1) && last + 1 < |meta| / GroupSize
  {
    hide ProbeIndex;
    ProbeIndexInRange(start, last, |meta|);
    if FullStep(meta, start, last) {
      ProbeHasNext(meta, start, last, e);
    }
  }

  lemma SearchStep<K(!new), V>(ctx: KeyContext<K>, t: Table<K, V>, key: K, last: nat, e: nat)
    requires Lawful(ctx) && Wellformed(ctx, t) && Searched(ctx, t, key, last)
    requires StopsAt(ctx, t, key, e)
    requires NotInGroup(ctx, t, ProbeIndex(StartOf(ctx, key), last, |t.meta|), key)
    ensures IsGroupStart(ProbeIndex(StartOf(ctx, key), last, |t.meta|), |t.meta|)
    ensures if Full(t.meta, ProbeIndex(StartOf(ctx, key), last, |t.meta|))
      then Searched(ctx, t, key, last + 1) && last + 1 < |t.meta| / GroupSize
      else Absent(ctx, t, key)
  {
    hide ProbeIndex, StartOf, NotInGroup, Matched, Unique, AllChained, Settled;
    ProbeIndexInRange(StartOf(ctx, key), last, |t.meta|);
    if !FullStep(t.meta, StartOf(ctx, key), last) {
      SearchEnds(ctx, t, key, last);
    } else if t.meta[e] == Empty {
      ProbeHasNext(t.meta, StartOf(ctx, key), last, e);
    } else {
      HolderAhead(ctx, t, key, last, e);
    }
  }

  // A slot that no search for the key goes past: an empty byte, or the key's entry.
  ghost predicate StopsAt<K, V>(ctx: KeyContext<K>, t: Table<K, V>, key: K, e: nat) {
    e < |t.meta| && (t.meta[e] == Empty || Holds(ctx, t, e, key))
  }

  // While the key's entry has not been met, a probe has another group to go to.
  lemma HolderAhead<K, V>(ctx: KeyContext<K>, t: Table<K, V>, key: K, last: nat, e: nat)
    requires IsSize(|t.meta|) && Searched(ctx, t, key, last) && e < |t.meta| && Holds(ctx, t, e, key)
    requires NotInGroup(ctx, t, ProbeIndex(StartOf(ctx, key), last, |t.meta|), key)
    ensures last + 1 < |t.meta| / GroupSize
  {
    hide ProbeIndex, StartOf, Full, Holds;
    GroupStartInTable(e, |t.meta|);
    var step := StepOf(StartOf(ctx, key), GroupStart(e), |t.meta|);
    assert !NotInGroup(ctx, t, ProbeIndex(StartOf(ctx, key), step, |t.meta|), key);
  }

  lemma SearchStarts<K(!new), V>(ctx: KeyContext<K>, t: Table<K, V>, key: K) returns (e: nat)
    requires Wellformed(ctx, t) && (Count(AnyEmpty, t.meta) > 0 || !Absent(ctx, t, key))
    ensures IsSize(|t.meta|) && Searched(ctx, t, key, 0)
    ensures StopsAt(ctx, t, key, e)
  {
    hide Unique, AllChained, Settled, IsSize, Count, KeyEq, TagBits, HashKey;
    if Count(AnyEmpty, t.meta) > 0 {
      e := CountPositive(AnyEmpty, t.meta);
    } else {
      e :| Holds(ctx, t, e, key);
    }
  }

  // The whole of a search goes on for ever exactly when no slot stops it: the key is absent and no
  // byte is empty.
  lemma SearchNeverEnds<K(!new), V>(ctx: KeyContext<K>, t: Table<K, V>, key: K)
    requires Wellformed(ctx, t)
    ensures IsSize(|t.meta|)
    ensures (forall steps: nat :: Searched(ctx, t, key, steps)) <==> Absent(ctx, t, key) && Count(AnyEmpty, t.meta) == 0
  {
    hide Matched, AllChained, Settled, Unique, IsSize, Holds, Count, Searched;
    if Absent(ctx, t, key) && Count(AnyEmpty, t.meta) == 0 {
      forall steps: nat
        ensures Searched(ctx, t, key, steps)
      {
        SearchGoesOn(ctx, t, key, steps);
      }
    } else {
      var e := SearchStarts(ctx, t, key);
      SearchStopped(ctx, t, key, e);
    }
  }

  lemma SearchGoesOn<K(!new), V>(ctx: KeyContext<K>, t: Table<K, V>, key: K, steps: nat)
    requires Wellformed(ctx, t) && Absent(ctx, t, key) && Count(AnyEmpty, t.meta) == 0
    ensures Searched(ctx, t, key, steps)
  {
    hide Matched, AllChained, Settled, Unique, ProbeIndex, StartOf, Holds, Count;
    forall i: nat | i < |t.meta|
      ensures t.meta[i] != Empty
    {
      if t.meta[i] == Empty {
        CountUpdate(AnyEmpty, t.meta, i, Deleted);
      }
    }
    forall k: nat | k < steps
      ensures IsGroupStart(ProbeIndex(StartOf(ctx, key), k, |t.meta|), |t.meta|)
    {
      ProbeIndexInRange(StartOf(ctx, key), k, |t.meta|);
    }
  }

  lemma SearchStopped<K, V>(ctx: KeyContext<K>, t: Table<K, V>, key: K, e: nat)
    requires IsSize(|t.meta|) && StopsAt(ctx, t, key, e)
    ensures exists steps: nat :: !Searched(ctx, t, key, steps)
  {
    hide ProbeIndex, StartOf, Holds;
    GroupStartInTable(e, |t.meta|);
    var step := StepOf(StartOf(ctx, key), GroupStart(e), |t.meta|);
    assert !Searched(ctx, t, key, step + 1);
  }

  lemma SearchedIsFull<K(!new), V>(ctx: KeyContext<K>, t: Table<K, V>, key: K, steps: nat)
    requires IsSize(|t.meta|) && Searched(ctx, t, key, steps)
    ensures FullSteps(t.meta, StartOf(ctx, key), steps)
  {
    hide ProbeIndex, StartOf, FullStep;
  }

  // -------- Writing one slot --------

  ghost function Filled<K, V>(ctx: KeyContext<K>, t: Table<K, V>, i: nat, e: Entry<K, V>): Table<K, V>
    requires Shaped(t) && i < |t.meta|
  {
    Table(t.meta[i := Present(TagBits(HashKey(ctx, e.key)))], t.slots[i := Some(e)])
  }

  lemma FullAfterWrite(meta: seq<Control>, i: nat, c: Control, start: nat, step: nat)
    requires IsSize(|meta|) && i < |meta| && c != Empty && FullStep(meta, start, step)
    ensures FullStep(meta[i := c], start, step)
  {
    hide ProbeIndex;
    ProbeIndexInRange(start, step, |meta|);
  }

  lemma ChainedAfterWrite(meta: seq<Control>, i: nat, c: Control, start: nat, j: nat)
    requires IsSize(|meta|) && i < |meta| && j < |meta| && c != Empty && Chained(meta, start, j)
    ensures Chained(meta[i := c], start, j)
  {
    hide ProbeIndex, IsSize, GroupStart, FullStep;
    GroupStartInTable(j, |meta|);
    var m := meta[i := c];
    forall step: nat | step < StepOf(start, GroupStart(j), |meta|)
      ensures FullStep(m, start, step)
    {
      FullAfterWrite(meta, i, c, start, step);
    }
  }

  // Storing a new key in a free slot on an unbroken chain keeps the table well formed.
  lemma FillKeeps<K(!new), V>(ctx: KeyContext<K>, t: Table<K, V>, i: nat, e: Entry<K, V>)
    requires Lawful(ctx) && Wellformed(ctx, t) && Absent(ctx, t, e.key)
    requires i < |t.meta| && !t.meta[i].Present? && Chained(t.meta, StartOf(ctx, e.key), i)
    ensures Wellformed(ctx, Filled(ctx, t, i, e))
  {
    var u := Filled(ctx, t, i, e);
    FillMatched(ctx, t, i, e);
    FillUnique(ctx, t, i, e);
    FillChained(ctx, t, i, e);
    FillSettled(t.meta, i, TagBits(HashKey(ctx, e.key)));
  }

  lemma FillMatched<K(!new), V>(ctx: KeyContext<K>, t: Table<K, V>, i: nat, e: Entry<K, V>)
    requires Shaped(t) && Matched(ctx, t) && i < |t.meta|
    ensures Matched(ctx, Filled(ctx, t, i, e))
  {
    hide IsSize, HashKey, TagBits;
  }

  lemma FillUnique<K(!new), V>(ctx: KeyContext<K>, t: Table<K, V>, i: nat, e: Entry<K, V>)
    requires Lawful(ctx) && Shaped(t) && Unique(ctx, t) && Absent(ctx, t, e.key) && i < |t.meta|
    ensures Unique(ctx, Filled(ctx, t, i, e))
  {
    hide IsSize, HashKey, TagBits;
    var u := Filled(ctx, t, i, e);
    assert forall j: nat | Occupied(u, j) && j != i :: Occupied(t, j) && KeyAt(u, j) == KeyAt(t, j);
    forall j: nat | Occupied(u, j) && j != i
      ensures !KeyEq(ctx, e.key, KeyAt(u, j)) && !KeyEq(ctx, KeyAt(u, j), e.key)
    {
      assert !Holds(ctx, t, j, e.key);
    }
  }

  lemma FillChained<K(!new), V>(ctx: KeyContext<K>, t: Table<K, V>, i: nat, e: Entry<K, V>)
    requires Shaped(t) && AllChained(ctx, t) && i < |t.meta| && Chained(t.meta, StartOf(ctx, e.key), i)
    ensures AllChained(ctx, Filled(ctx, t, i, e))
  {
    hide IsSize, StartOf, TagBits, Chained;
    var u := Filled(ctx, t, i, e);
    forall j: nat | Occupied(u, j) ensures Chained(u.meta, StartOf(ctx, KeyAt(u, j)), j) {
      assert j != i ==> Occupied(t, j) && KeyAt(u, j) == KeyAt(t, j);
      ChainedAfterWrite(t.meta, i, u.meta[i], StartOf(ctx, KeyAt(u, j)), j);
    }
  }

  lemma FillSettled(meta: seq<Control>, i: nat, tag: Tag)
    requires Settled(meta) && i < |meta|
    ensures Settled(meta[i := Present(tag)])
  {
    hide GroupStart;
  }

  // `EraseImpl`: empty again when the group has an empty byte, a tombstone otherwise.
  function Tombstone(meta: seq<Control>, i: nat): Control
    requires GroupStart(i) + GroupSize <= |meta|
  {
    if Matches(AnyEmpty, meta[GroupStart(i)..GroupStart(i) + GroupSize]) != [] then Empty else Deleted
  }

  ghost function Removed<K, V>(t: Table<K, V>, i: nat): Table<K, V>
    requires Shaped(t) && i < |t.meta|
  {
    GroupStartInTable(i, |t.meta|);
    Table(t.meta[i := Tombstone(t.meta, i)], t.slots[i := None])
  }

  lemma TombstoneMeaning(meta: seq<Control>, i: nat)
    requires GroupStart(i) + GroupSize <= |meta|
    ensures Tombstone(meta, i) == if Full(meta, GroupStart(i)) then Deleted else Empty
  {
    var g := GroupStart(i);
    var group := meta[g..g + GroupSize];
    var found := Matches(AnyEmpty, group);
    if found != [] {
      assert found[0] in found;
      assert meta[g + found[0]] == Empty;
    } else {
      forall j | g <= j < g + GroupSize ensures meta[j] != Empty {
        assert group[j - g] == meta[j] && (j - g) !in found;
      }
    }
  }

  // Erasing an entry never breaks the chain of another entry.
  lemma RemoveKeeps<K(!new), V>(ctx: KeyContext<K>, t: Table<K, V>, i: nat)
    requires Wellformed(ctx, t) && Occupied(t, i)
    ensures Wellformed(ctx, Removed(t, i))
  {
    hide IsSize, GroupStart;
    GroupStartInTable(i, |t.meta|);
    TombstoneMeaning(t.meta, i);
    RemoveMatched(ctx, t, i);
    RemoveUnique(ctx, t, i);
    RemoveChained(ctx, t, i);
    RemoveSettled(t.meta, i, Tombstone(t.meta, i));
  }

  lemma RemoveMatched<K(!new), V>(ctx: KeyContext<K>, t: Table<K, V>, i: nat)
    requires Shaped(t) && Matched(ctx, t) && i < |t.meta|
    ensures Matched(ctx, Removed(t, i))
  {
    hide IsSize, HashKey, TagBits, GroupStart, Matches;
    var u := Removed(t, i);
    assert !u.meta[i].Present?;
  }

  lemma RemoveUnique<K(!new), V>(ctx: KeyContext<K>, t: Table<K, V>, i: nat)
    requires Shaped(t) && Unique(ctx, t) && i < |t.meta|
    ensures Unique(ctx, Removed(t, i))
  {
    hide IsSize, Tombstone;
    var u := Removed(t, i);
    assert forall j: nat | Occupied(u, j) :: Occupied(t, j) && KeyAt(t, j) == KeyAt(u, j);
  }

  lemma RemoveChained<K(!new), V>(ctx: KeyContext<K>, t: Table<K, V>, i: nat)
    requires Shaped(t) && AllChained(ctx, t) && i < |t.meta|
    ensures AllChained(ctx, Removed(t, i))
  {
    hide IsSize, StartOf, Chained, Tombstone;
    GroupStartInTable(i, |t.meta|);
    TombstoneMeaning(t.meta, i);
    var u := Removed(t, i);
    forall j: nat | Occupied(u, j) ensures Chained(u.meta, StartOf(ctx, KeyAt(u, j)), j) {
      ChainedAfterErase(t.meta, i, Tombstone(t.meta, i), StartOf(ctx, KeyAt(t, j)), j);
    }
  }

  lemma ChainedAfterErase(meta: seq<Control>, i: nat, c: Control, start: nat, j: nat)
    requires IsSize(|meta|) && i < |meta| && j < |meta| && Chained(meta, start, j)
    requires GroupStart(i) + GroupSize <= |meta|
    requires c == Empty ==> !Full(meta, GroupStart(i))
    ensures Chained(meta[i := c], start, j)
  {
    hide ProbeIndex, IsSize, GroupStart, FullStep;
    GroupStartInTable(j, |meta|);
    var m := meta[i := c];
    forall step: nat | step < StepOf(start, GroupStart(j), |meta|)
      ensures FullStep(m, start, step)
    {
      FullAfterErase(meta, i, c, start, step);
    }
  }

  lemma FullAfterErase(meta: seq<Control>, i: nat, c: Control, start: nat, step: nat)
    requires IsSize(|meta|) && i < |meta| && GroupStart(i) + GroupSize <= |meta|
    requires c == Empty ==> !Full(meta, GroupStart(i))
    requires FullStep(meta, start, step)
    ensures FullStep(meta[i := c], start, step)
  {
    hide ProbeIndex, GroupStart;
    ProbeIndexInRange(start, step, |meta|);
    var g := ProbeIndex(start, step, |meta|);
    if g <= i < g + GroupSize {
      GroupStartUnique(i, g);
    }
  }

  lemma RemoveSettled(meta: seq<Control>, i: nat, c: Control)
    requires Settled(meta) && i < |meta| && GroupStart(i) + GroupSize <= |meta|
    requires c == if Full(meta, GroupStart(i)) then Deleted else Empty
    ensures Settled(meta[i := c])
  {
    var m := meta[i := c];
    forall a: nat, b: nat | a < |m| && b < |m| && GroupStart(a) == GroupStart(b)
      ensures m[a] == Deleted ==> m[b] != Empty
    {
      if GroupStart(a) == GroupStart(i) {
        SettledGroup(meta, i);
      }
    }
  }

  lemma SettledGroup(meta: seq<Control>, i: nat)
    requires Settled(meta) && i < |meta| && GroupStart(i) + GroupSize <= |meta|
    ensures !Full(meta, GroupStart(i)) ==>
      forall a: nat | a < |meta| && GroupStart(a) == GroupStart(i) :: meta[a] != Deleted
  {
    hide GroupStart;
    var g := GroupStart(i);
    if !Full(meta, g) {
      var e: nat :| g <= e < g + GroupSize && meta[e] == Empty;
      GroupStartUnique(e, g);
    }
  }

  // -------- The map a table stands for --------

  ghost function Entries<K, V>(t: Table<K, V>): set<Entry<K, V>> {
    set i | 0 <= i < |t.slots| && t.slots[i].Some? :: t.slots[i].value
  }

  ghost predicate OneEntryPerKey<K, V>(s: set<Entry<K, V>>) {
    forall a, b | a in s && b in s && a.key == b.key :: a == b
  }

  ghost function AsMap<K, V>(s: set<Entry<K, V>>): map<K, V>
    requires OneEntryPerKey(s)
  {
    map e | e in s :: e.key := e.value
  }

  ghost function Contents<K(!new), V>(ctx: KeyContext<K>, t: Table<K, V>): map<K, V>
    requires Lawful(ctx) && Unique(ctx, t)
  {
    UniqueEntries(ctx, t);
    AsMap(Entries(t))
  }

  lemma UniqueEntries<K(!new), V>(ctx: KeyContext<K>, t: Table<K, V>)
    requires Lawful(ctx) && Unique(ctx, t)
    ensures OneEntryPerKey(Entries(t))
  {
    hide HashKey, KeyEq;
    forall a, b | a in Entries(t) && b in Entries(t) && a.key == b.key ensures a == b {
      var i: nat :| Occupied(t, i) && t.slots[i].value == a;
      var j: nat :| Occupied(t, j) && t.slots[j].value == b;
      assert KeyEq(ctx, KeyAt(t, i), KeyAt(t, j));
    }
  }

  lemma MapAt<K, V>(s: set<Entry<K, V>>, e: Entry<K, V>)
    requires OneEntryPerKey(s) && e in s
    ensures e.key in AsMap(s) && AsMap(s)[e.key] == e.value
  {
  }

  // -------- Finite maps over a key equivalence: the specification of the table --------

  ghost predicate HasKey<K, V>(ctx: KeyContext<K>, m: map<K, V>, key: K) {
    exists k :: k in m && KeyEq(ctx, key, k)
  }

  // The stored key that `key` is equal to.
  ghost function StoredKey<K, V>(ctx: KeyContext<K>, m: map<K, V>, key: K): (k: K)
    requires HasKey(ctx, m, key)
    ensures k in m && KeyEq(ctx, key, k)
  {
    var k :| k in m && KeyEq(ctx, key, k);
    k
  }

  lemma HolderIsStored<K(!new), V>(ctx: KeyContext<K>, t: Table<K, V>, i: nat, key: K)
    requires Lawful(ctx) && Unique(ctx, t) && Holds(ctx, t, i, key)
    ensures HasKey(ctx, Contents(ctx, t), key)
    ensures StoredKey(ctx, Contents(ctx, t), key) == KeyAt(t, i)
    ensures Contents(ctx, t)[KeyAt(t, i)] == t.slots[i].value.value
  {
    hide HashKey, KeyEq;
    UniqueEntries(ctx, t);
    var m := Contents(ctx, t);
    var e := t.slots[i].value;
    assert e in Entries(t);
    MapAt(Entries(t), e);
    var k := StoredKey(ctx, m, key);
    var d :| d in Entries(t) && d.key == k;
    var j: nat :| Occupied(t, j) && t.slots[j].value == d;
    assert KeyEq(ctx, KeyAt(t, i), key);
    assert KeyEq(ctx, KeyAt(t, i), KeyAt(t, j));
  }

  lemma AbsentNotStored<K(!new), V>(ctx: KeyContext<K>, t: Table<K, V>, key: K)
    requires Lawful(ctx) && Unique(ctx, t) && Absent(ctx, t, key)
    ensures !HasKey(ctx, Contents(ctx, t), key)
  {
    hide HashKey, KeyEq;
    var m := Contents(ctx, t);
    forall k | k in m ensures !KeyEq(ctx, key, k) {
      var d :| d in Entries(t) && d.key == k;
      var j: nat :| Occupied(t, j) && t.slots[j].value == d;
      assert !Holds(ctx, t, j, key);
    }
  }

  // -------- What each write does to the map and the budget --------

  lemma FillContents<K(!new), V>(ctx: KeyContext<K>, t: Table<K, V>, i: nat, e: Entry<K, V>)
    requires Lawful(ctx) && Shaped(t) && Unique(ctx, t) && Absent(ctx, t, e.key)
    requires i < |t.meta| && !Occupied(t, i)
    requires Unique(ctx, Filled(ctx, t, i, e))
    ensures Contents(ctx, Filled(ctx, t, i, e)) == Contents(ctx, t)[e.key := e.value]
  {
    hide HashKey, KeyEq, Unique, IsSize;
    var u := Filled(ctx, t, i, e);
    UniqueEntries(ctx, t);
    UniqueEntries(ctx, u);
    FillEntries(ctx, t, i, e);
    MapAfterAdd(Entries(t), e);
  }

  lemma FillEntries<K(!new), V>(ctx: KeyContext<K>, t: Table<K, V>, i: nat, e: Entry<K, V>)
    requires Shaped(t) && i < |t.meta| && !Occupied(t, i)
    ensures Entries(Filled(ctx, t, i, e)) == Entries(t) + {e}
  {
    hide HashKey, TagBits, IsSize;
    var u := Filled(ctx, t, i, e);
    assert u.slots[i] == Some(e);
    forall d | d in Entries(t) ensures d in Entries(u) {
      var j :| 0 <= j < |t.slots| && t.slots[j].Some? && t.slots[j].value == d;
      assert u.slots[j] == t.slots[j];
    }
  }

  lemma MapAfterAdd<K, V>(s: set<Entry<K, V>>, e: Entry<K, V>)
    requires OneEntryPerKey(s) && OneEntryPerKey(s + {e})
    ensures AsMap(s + {e}) == AsMap(s)[e.key := e.value]
  {
    var m, n := AsMap(s + {e}), AsMap(s)[e.key := e.value];
    assert e in s + {e};
    forall k | k in n ensures k in m && m[k] == n[k] {
      if k != e.key {
        var d :| d in s && d.key == k;
        assert d in s + {e};
      }
    }
  }

  lemma RemoveContents<K(!new), V>(ctx: KeyContext<K>, t: Table<K, V>, i: nat)
    requires Lawful(ctx) && Shaped(t) && Unique(ctx, t) && Occupied(t, i) && Unique(ctx, Removed(t, i))
    ensures Contents(ctx, Removed(t, i)) == Contents(ctx, t) - {KeyAt(t, i)}
  {
    hide HashKey, KeyEq, Unique, IsSize, Tombstone;
    var u, e := Removed(t, i), t.slots[i].value;
    UniqueEntries(ctx, t);
    UniqueEntries(ctx, u);
    RemoveEntries(ctx, t, i);
    MapAfterRemove(Entries(t), e);
  }

  lemma RemoveEntries<K(!new), V>(ctx: KeyContext<K>, t: Table<K, V>, i: nat)
    requires Lawful(ctx) && Shaped(t) && Unique(ctx, t) && Occupied(t, i)
    ensures Entries(Removed(t, i)) == Entries(t) - {t.slots[i].value}
  {
    hide HashKey, KeyEq, IsSize, Tombstone;
    var u, e := Removed(t, i), t.slots[i].value;
    assert u.slots == t.slots[i := None];
    forall d | d in Entries(u) ensures d in Entries(t) && d != e {
      var j: nat :| Occupied(u, j) && u.slots[j].value == d;
      assert Occupied(u, j);
      assert Occupied(t, j) && t.slots[j] == u.slots[j];
      assert !KeyEq(ctx, KeyAt(t, i), KeyAt(t, j));
    }
    forall d | d in Entries(t) && d != e ensures d in Entries(u) {
      var j: nat :| Occupied(t, j) && t.slots[j].value == d;
      assert u.slots[j] == t.slots[j];
    }
  }

  lemma MapAfterRemove<K, V>(s: set<Entry<K, V>>, e: Entry<K, V>)
    requires OneEntryPerKey(s) && e in s && OneEntryPerKey(s - {e})
    ensures AsMap(s - {e}) == AsMap(s) - {e.key}
  {
    var m, n := AsMap(s - {e}), AsMap(s) - {e.key};
    forall k | k in n ensures k in m && m[k] == n[k] {
      var d :| d in s && d.key == k;
      assert d in s - {e};
    }
  }

  // Replacing the value of one entry.
  ghost function Revalued<K, V>(t: Table<K, V>, i: nat, v: V): Table<K, V>
    requires Occupied(t, i)
  {
    t.(slots := t.slots[i := Some(Entry(KeyAt(t, i), v))])
  }

  lemma RevalueKeeps<K(!new), V>(ctx: KeyContext<K>, t: Table<K, V>, i: nat, v: V)
    requires Wellformed(ctx, t) && Occupied(t, i)
    ensures Wellformed(ctx, Revalued(t, i, v))
  {
    hide IsSize, Chained, StartOf, TagBits;
    var u := Revalued(t, i, v);
    assert forall j: nat | Occupied(u, j) :: Occupied(t, j) && KeyAt(u, j) == KeyAt(t, j);
  }

  lemma RevalueContents<K(!new), V>(ctx: KeyContext<K>, t: Table<K, V>, i: nat, v: V)
    requires Lawful(ctx) && Unique(ctx, t) && Occupied(t, i) && Unique(ctx, Revalued(t, i, v))
    ensures Contents(ctx, Revalued(t, i, v)) == Contents(ctx, t)[KeyAt(t, i) := v]
  {
    hide HashKey, KeyEq, Unique;
    var u, e := Revalued(t, i, v), t.slots[i].value;
    UniqueEntries(ctx, t);
    UniqueEntries(ctx, u);
    RevalueEntries(ctx, t, i, v);
    MapAfterReplace(Entries(t), e, Entry(e.key, v));
  }

  lemma RevalueEntries<K(!new), V>(ctx: KeyContext<K>, t: Table<K, V>, i: nat, v: V)
    requires Lawful(ctx) && Unique(ctx, t) && Occupied(t, i)
    ensures Entries(Revalued(t, i, v)) == Entries(t) - {t.slots[i].value} + {Entry(KeyAt(t, i), v)}
  {
    hide HashKey, KeyEq;
    var u, e, f := Revalued(t, i, v), t.slots[i].value, Entry(KeyAt(t, i), v);
    assert u.slots[i] == Some(f);
    forall d | d in Entries(u) ensures d == f || (d in Entries(t) && d != e) {
      var j: nat :| Occupied(u, j) && u.slots[j].value == d;
      assert Occupied(u, j);
      assert j != i ==> Occupied(t, j) && t.slots[j] == u.slots[j] && !KeyEq(ctx, KeyAt(t, i), KeyAt(t, j));
    }
    forall d | d in Entries(t) && d != e ensures d in Entries(u) {
      var j: nat :| Occupied(t, j) && t.slots[j].value == d;
      assert u.slots[j] == t.slots[j];
    }
  }

  lemma MapAfterReplace<K, V>(s: set<Entry<K, V>>, e: Entry<K, V>, f: Entry<K, V>)
    requires OneEntryPerKey(s) && e in s && f.key == e.key && OneEntryPerKey(s - {e} + {f})
    ensures AsMap(s - {e} + {f}) == AsMap(s)[e.key := f.value]
  {
    MapAfterRemove(s, e);
    MapAfterAdd(s - {e}, f);
    MapAt(s, e);
  }

  // -------- Between choosing a slot and constructing the entry --------

  // Slot `i` of `before` has been marked for `key`; its entry is not constructed yet.
  ghost predicate Pending<K, V>(ctx: KeyContext<K>, t: Table<K, V>, before: Table<K, V>, i: nat, key: K) {
    && Wellformed(ctx, before)
    && Absent(ctx, before, key)
    && i < |before.meta| && !before.meta[i].Present?
    && Chained(before.meta, StartOf(ctx, key), i)
    && t == Table(before.meta[i := Present(TagBits(HashKey(ctx, key)))], before.slots)
  }

  lemma PendingFilled<K(!new), V>(ctx: KeyContext<K>, t: Table<K, V>, before: Table<K, V>, i: nat, e: Entry<K, V>)
    requires Lawful(ctx) && Pending(ctx, t, before, i, e.key)
    ensures |t.slots| == |t.meta| == |before.meta| && i < |t.slots|
    ensures Wellformed(ctx, Table(t.meta, t.slots[i := Some(e)]))
    ensures Contents(ctx, Table(t.meta, t.slots[i := Some(e)])) == Contents(ctx, before)[e.key := e.value]
  {
    hide TagBits, HashKey, Chained, Unique, AllChained, Settled, IsSize;
    assert !Occupied(before, i);
    FillKeeps(ctx, before, i, e);
    FillContents(ctx, before, i, e);
  }

  lemma FillBudget(meta: seq<Control>, i: nat, tag: Tag, budget: int, excess: nat)
    requires i < |meta| && |meta| % GroupSize == 0 && Budgeted(meta, budget, excess)
    ensures meta[i] == Deleted ==> Budgeted(meta[i := Present(tag)], budget, excess)
    ensures meta[i] == Empty && budget > 0 ==> Budgeted(meta[i := Present(tag)], budget - 1, excess)
  {
    hide FullGroups;
    CountUpdate(AnyEmpty, meta, i, Present(tag));
    FullGroupsKept(meta, meta[i := Present(tag)], |meta|);
  }

  lemma RemoveBudget(meta: seq<Control>, i: nat, budget: int, excess: nat)
    requires i < |meta| && meta[i].Present? && |meta| % GroupSize == 0 && GroupStart(i) + GroupSize <= |meta|
    requires Budgeted(meta, budget, excess)
    ensures var c := Tombstone(meta, i);
      Budgeted(meta[i := c], budget + if c == Empty then 1 else 0, excess)
  {
    hide FullGroups, Tombstone, GroupStart;
    TombstoneMeaning(meta, i);
    var c := Tombstone(meta, i);
    CountUpdate(AnyEmpty, meta, i, c);
    var after := meta[i := c];
    forall g: nat | g + GroupSize <= |meta| && g % GroupSize == 0 && Full(meta, g)
      ensures Full(after, g)
    {
      if g <= i < g + GroupSize {
        GroupStartUnique(i, g);
      }
    }
    FullGroupsKept(meta, after, |meta|);
  }
}
