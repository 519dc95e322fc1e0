// How far a present key is from the start of its probe, and how many failed key
// comparisons finding it takes.
module TableMetrics {
  import opened MetadataGroups
  import opened ProbeSequences
  import opened TableStates
  import opened TableGrowth

  ghost function GroupAtStep(meta: seq<Control>, start: nat, step: nat): (g: seq<Control>)
    requires IsSize(|meta|)
    ensures |g| == GroupSize
  {
    ProbeIndexInRange(start, step, |meta|);
    meta[ProbeIndex(start, step, |meta|)..ProbeIndex(start, step, |meta|) + GroupSize]
  }

  lemma NoTagsYet(meta: seq<Control>, start: nat, tag: Tag)
    requires IsSize(|meta|)
    ensures TagsOnPath(meta, start, tag, 0) == 0
  {
  }

  lemma TagsOneMoreGroup(meta: seq<Control>, start: nat, tag: Tag, steps: nat)
    requires IsSize(|meta|)
    ensures IsGroupStart(ProbeIndex(start, steps, |meta|), |meta|)
    ensures TagsOnPath(meta, start, tag, steps + 1) == TagsOnPath(meta, start, tag, steps)
      + Count(Tagged(tag), meta[ProbeIndex(start, steps, |meta|)..ProbeIndex(start, steps, |meta|) + GroupSize])
  {
    hide ProbeIndex, Count;
    ProbeIndexInRange(start, steps, |meta|);
  }

  // The slots carrying `tag` in the first `steps` groups of the probe.
  ghost function TagsOnPath(meta: seq<Control>, start: nat, tag: Tag, steps: nat): nat
    requires IsSize(|meta|)
  {
    if steps == 0 then 0
    else TagsOnPath(meta, start, tag, steps - 1) + Count(Tagged(tag), GroupAtStep(meta, start, steps - 1))
  }

  // The groups inspected before the one that holds slot `i`.
  ghost function Distance<K, V>(ctx: KeyContext<K>, t: Table<K, V>, i: nat): nat
    requires Shaped(t) && Occupied(t, i)
  {
    GroupStartInTable(i, |t.meta|);
    StepOf(StartOf(ctx, KeyAt(t, i)), GroupStart(i), |t.meta|)
  }

  // The comparisons that fail before the one that finds slot `i`: equal tags in the groups
  // inspected earlier, and before slot `i` in its own group.
  ghost function FailedCompares<K, V>(ctx: KeyContext<K>, t: Table<K, V>, i: nat): nat
    requires Shaped(t) && Occupied(t, i)
  {
    var tag := TagBits(HashKey(ctx, KeyAt(t, i)));
    TagsOnPath(t.meta, StartOf(ctx, KeyAt(t, i)), tag, Distance(ctx, t, i))
      + Count(Tagged(tag), t.meta[GroupStart(i)..i])
  }

  lemma {:induction false} CountGap(q: Query, g: seq<Control>, a: nat, b: nat)
    requires a <= b <= |g| && forall i: nat | a <= i < b :: !Hits(q, g[i])
    ensures Count(q, g[..a]) == Count(q, g[..b])
  {
    if a < b {
      CountGap(q, g, a, b - 1);
      assert g[..b][..b - 1] == g[..b - 1];
    }
  }

  // The n-th reported position has exactly n hits before it.
  lemma {:induction false} MatchesBefore(q: Query, g: seq<Control>, n: nat)
    requires n <= |Matches(q, g)|
    ensures n < |Matches(q, g)| ==> Matches(q, g)[n] < |g| && Count(q, g[..Matches(q, g)[n]]) == n
    ensures n == |Matches(q, g)| ==> Count(q, g) == n
  {
    hide Matches, Hits;
    var r := Matches(q, g);
    NextMatch(q, g, n);
    var from := 0;
    if n > 0 {
      MatchesBefore(q, g, n - 1);
      NextMatch(q, g, n - 1);
      MatchesAscend(q, g, n);
      from := r[n - 1] + 1;
      assert g[..from][..r[n - 1]] == g[..r[n - 1]];
      assert Count(q, g[..from]) == n;
    } else {
      assert g[..0] == [];
    }
    if n < |r| {
      CountGap(q, g, from, r[n]);
    } else {
      CountGap(q, g, from, |g|);
      assert g[..|g|] == g;
    }
  }

  // A key found at step `taken`, as the n-th candidate of its group.
  lemma FoundCost<K(!new), V>(ctx: KeyContext<K>, t: Table<K, V>, key: K, taken: nat, i: nat)
    requires Lawful(ctx) && Wellformed(ctx, t) && Holds(ctx, t, i, key) && taken < |t.meta| / GroupSize
    requires ProbeIndex(StartOf(ctx, key), taken, |t.meta|) <= i < ProbeIndex(StartOf(ctx, key), taken, |t.meta|) + GroupSize
    ensures Occupied(t, i) && i < |t.meta|
    ensures GroupStart(i) == ProbeIndex(StartOf(ctx, key), taken, |t.meta|)
    ensures Distance(ctx, t, i) == taken
    ensures FailedCompares(ctx, t, i)
      == TagsOnPath(t.meta, StartOf(ctx, key), TagBits(HashKey(ctx, key)), taken)
         + Count(Tagged(TagBits(HashKey(ctx, key))), t.meta[GroupStart(i)..i])
  {
    hide ProbeIndex, StartOf, GroupStart, Unique, AllChained, Settled, TagBits, TagsOnPath, Count;
    HolderStart(ctx, t, key, i);
    HolderHash(ctx, t, key, i);
    StepOfUnique(StartOf(ctx, key), taken, |t.meta|);
    GroupStartUnique(i, ProbeIndex(StartOf(ctx, key), taken, |t.meta|));
  }

  lemma HolderHash<K(!new), V>(ctx: KeyContext<K>, t: Table<K, V>, key: K, i: nat)
    requires Lawful(ctx) && Holds(ctx, t, i, key)
    ensures HashKey(ctx, KeyAt(t, i)) == HashKey(ctx, key)
  {
  }

  // -------- Sums over the present slots --------

  ghost function CostAt<K, V>(ctx: KeyContext<K>, t: Table<K, V>, compares: bool, i: nat): nat
    requires Shaped(t) && Occupied(t, i)
  {
    if compares then FailedCompares(ctx, t, i) else Distance(ctx, t, i)
  }

  ghost function Total<K, V>(ctx: KeyContext<K>, t: Table<K, V>, compares: bool, bound: nat): nat
    requires Shaped(t)
  {
    if bound == 0 then 0
    else Total(ctx, t, compares, bound - 1) + if Occupied(t, bound - 1) then CostAt(ctx, t, compares, bound - 1) else 0
  }

  ghost function Largest<K, V>(ctx: KeyContext<K>, t: Table<K, V>, compares: bool, bound: nat): (m: nat)
    requires Shaped(t)
    ensures forall i: nat | i < bound && Occupied(t, i) :: CostAt(ctx, t, compares, i) <= m
    ensures m == 0 || exists i: nat :: i < bound && Occupied(t, i) && CostAt(ctx, t, compares, i) == m
  {
    if bound == 0 then 0 else
      var m := Largest(ctx, t, compares, bound - 1);
      if Occupied(t, bound - 1) && CostAt(ctx, t, compares, bound - 1) > m then CostAt(ctx, t, compares, bound - 1) else m
  }

  // The keys that were not found in their first group.
  ghost function ProbedKeys<K, V>(ctx: KeyContext<K>, t: Table<K, V>, bound: nat): nat
    requires Shaped(t)
  {
    if bound == 0 then 0
    else ProbedKeys(ctx, t, bound - 1) + if Occupied(t, bound - 1) && Distance(ctx, t, bound - 1) > 0 then 1 else 0
  }

  lemma {:induction false} AsMapSize<K, V>(s: set<Entry<K, V>>)
    requires OneEntryPerKey(s)
    ensures |AsMap(s)| == |s|
  {
    if s == {} {
      assert AsMap(s) == map[];
    } else {
      var e :| e in s;
      AsMapSize(s - {e});
      MapAt(s, e);
      MapAfterRemove(s, e);
      OneKeyLess(AsMap(s), e.key);
    }
  }

  lemma OneKeyLess<K, V>(m: map<K, V>, k: K)
    requires k in m
    ensures |m - {k}| == |m| - 1
  {
    assert (m - {k}).Keys == m.Keys - {k};
  }

  lemma MapSize<K(!new), V>(ctx: KeyContext<K>, t: Table<K, V>)
    requires Lawful(ctx) && Wellformed(ctx, t)
    ensures Count(AnyPresent, t.meta) == |Contents(ctx, t)|
  {
    hide Matched, Unique, AllChained, Settled, IsSize, Count, Entries;
    PresentCount(ctx, t);
    UniqueEntries(ctx, t);
    AsMapSize(Entries(t));
  }

  // The comparisons of a scan that stops at position `n` of the candidates, or at their end.
  lemma ScanCost(meta: seq<Control>, group: nat, tag: Tag, n: nat)
    requires group + GroupSize <= |meta|
    requires n <= |Matches(Tagged(tag), meta[group..group + GroupSize])|
    ensures var r := Matches(Tagged(tag), meta[group..group + GroupSize]);
      && (n < |r| ==> r[n] < GroupSize && Count(Tagged(tag), meta[group..group + r[n]]) == n)
      && (n == |r| ==> Count(Tagged(tag), meta[group..group + GroupSize]) == n)
  {
    hide Matches, Count;
    var g := meta[group..group + GroupSize];
    MatchesBefore(Tagged(tag), g, n);
    if n < |Matches(Tagged(tag), g)| {
      assert g[..Matches(Tagged(tag), g)[n]] == meta[group..group + Matches(Tagged(tag), g)[n]];
    }
  }

  // The size of an entry in bytes
  const EntryBytes: nat

  // `AllocByteSize`: one metadata byte and one entry for each slot
  function AllocByteSize(allocSize: nat): (bytes: nat)
    ensures bytes == (1 + EntryBytes) * allocSize
  {
    allocSize + EntryBytes * allocSize
  }

  datatype Metrics = Metrics(
    keyCount: nat, deletedCount: nat, storageBytes: nat, probedKeyCount: nat,
    probeAvgDistance: real, probeMaxDistance: nat, probeAvgCompares: real, probeMaxCompares: nat)

  // The average times the count is the total; of no keys it is the total, which is 0.
  ghost predicate IsMean(average: real, total: nat, count: nat) {
    if count > 0 then average * count as real == total as real else average == total as real
  }

  function Average(total: nat, count: nat): (average: real)
    ensures IsMean(average, total, count)
  {
    if count > 0 then total as real / count as real else total as real
  }

  // -------- Accumulating over the table --------

  datatype Sums = Sums(keys: nat, probed: nat, distance: nat, maxDistance: nat, compares: nat, maxCompares: nat)

  function Max(a: nat, b: nat): nat {
    if a >= b then a else b
  }

  // One more key found with these costs.
  function AddKey(s: Sums, distance: nat, compares: nat): Sums {
    Sums(s.keys + 1, s.probed + if distance > 0 then 1 else 0,
         s.distance + distance, Max(s.maxDistance, distance),
         s.compares + compares, Max(s.maxCompares, compares))
  }

  ghost predicate Summed<K, V>(ctx: KeyContext<K>, t: Table<K, V>, bound: nat, s: Sums)
    requires Shaped(t) && bound <= |t.meta|
  {
    && s.keys == Count(AnyPresent, t.meta[..bound])
    && s.probed == ProbedKeys(ctx, t, bound)
    && s.distance == Total(ctx, t, false, bound) && s.maxDistance == Largest(ctx, t, false, bound)
    && s.compares == Total(ctx, t, true, bound) && s.maxCompares == Largest(ctx, t, true, bound)
  }

  lemma {:induction false} SummedSkip<K, V>(ctx: KeyContext<K>, t: Table<K, V>, a: nat, b: nat, s: Sums)
    requires Shaped(t) && Matched(ctx, t) && a <= b <= |t.meta| && forall i: nat | a <= i < b :: !t.meta[i].Present?
    requires Summed(ctx, t, a, s)
    ensures Summed(ctx, t, b, s)
  {
    hide Summed, IsSize, TagBits, HashKey;
    if a < b {
      SummedSkip(ctx, t, a, b - 1, s);
      assert !Occupied(t, b - 1);
      SummedSkipOne(ctx, t, b - 1, s);
    }
  }

  lemma SummedSkipOne<K, V>(ctx: KeyContext<K>, t: Table<K, V>, i: nat, s: Sums)
    requires Shaped(t) && i < |t.meta| && !t.meta[i].Present? && !Occupied(t, i) && Summed(ctx, t, i, s)
    ensures Summed(ctx, t, i + 1, s)
  {
    hide CostAt, Distance, IsSize;
    assert t.meta[..i + 1][..i] == t.meta[..i];
  }

  lemma SummedStep<K, V>(ctx: KeyContext<K>, t: Table<K, V>, i: nat, s: Sums)
    requires Shaped(t) && i < |t.meta| && t.meta[i].Present? && Occupied(t, i) && Summed(ctx, t, i, s)
    ensures Summed(ctx, t, i + 1, AddKey(s, Distance(ctx, t, i), FailedCompares(ctx, t, i)))
  {
    hide Distance, FailedCompares, IsSize, Count;
    CountStep(t.meta, i);
  }

  lemma SummedEnd<K, V>(ctx: KeyContext<K>, t: Table<K, V>, s: Sums)
    requires Shaped(t) && Summed(ctx, t, |t.meta|, s)
    ensures s.keys == Count(AnyPresent, t.meta) && s.probed == ProbedKeys(ctx, t, |t.meta|)
    ensures s.distance == Total(ctx, t, false, |t.meta|) && s.maxDistance == Largest(ctx, t, false, |t.meta|)
    ensures s.compares == Total(ctx, t, true, |t.meta|) && s.maxCompares == Largest(ctx, t, true, |t.meta|)
  {
    hide Count, Total, Largest, ProbedKeys;
    assert t.meta[..|t.meta|] == t.meta;
  }

  lemma SummedStart<K, V>(ctx: KeyContext<K>, t: Table<K, V>)
    requires Shaped(t)
    ensures Summed(ctx, t, 0, Sums(0, 0, 0, 0, 0, 0))
  {
    hide IsSize;
  }

  // Walking the probe of the key at slot `i` has not passed its group yet.
  lemma BeforeOwnGroup<K, V>(ctx: KeyContext<K>, t: Table<K, V>, i: nat, taken: nat)
    requires Shaped(t) && Occupied(t, i) && taken <= Distance(ctx, t, i)
    ensures Distance(ctx, t, i) < |t.meta| / GroupSize
    ensures ProbeIndex(StartOf(ctx, KeyAt(t, i)), taken, |t.meta|) == GroupStart(i) <==> taken == Distance(ctx, t, i)
  {
    hide ProbeIndex, StartOf, GroupStart;
    GroupStartInTable(i, |t.meta|);
    var m := SizeInGroups(|t.meta|);
    StepOfUnique(StartOf(ctx, KeyAt(t, i)), taken, |t.meta|);
  }

  // The key's own byte is among the candidates of its group.
  lemma OwnCandidate(meta: seq<Control>, group: nat, b: nat, tag: Tag) returns (m: nat)
    requires group + GroupSize <= |meta| && b < GroupSize && meta[group + b] == Present(tag)
    ensures var r := Matches(Tagged(tag), meta[group..group + GroupSize]);
      m < |r| && r[m] == b && Count(Tagged(tag), meta[group..group + b]) == m
      && (forall k | 0 <= k < m :: r[k] < b)
  {
    hide Count;
    var g := meta[group..group + GroupSize];
    var r := Matches(Tagged(tag), g);
    assert g[b] == meta[group + b];
    assert b in r;
    m :| 0 <= m < |r| && r[m] == b;
    ScanCost(meta, group, tag, m);
  }
}
