# Verified models of the TinySwift common library

A Dafny model of the parts of `common/` whose correctness rests on an argument rather than on a
single function body, and proofs of what those parts promise.

- **The hash table** behind `Map` and `Set`: `Bits.dfy`, `MetadataGroup.dfy` (the word operations on
  groups of metadata bytes), `ProbeSequence.dfy`, `TableState.dfy` (the invariant and what single
  writes do to it), `TableGrowth.dfy`, `TableClear.dfy`, `TableMetrics.dfy`, `RawHashtable.dfy` (the
  class with the metadata and entry arrays and the growth budget), `Map.dfy` and `ClearRun.dfy`.
  The invariant of a valid table: bytes and entries agree, with each entry's tag; no key is stored
  twice; every group before a key's group in its probe sequence is free of empty bytes; a group with
  a tombstone has no empty byte; the budget is never negative, and is seven eighths of the size less
  the non-empty slots plus an excess, which only Clear leaves and which is smaller than the remaining
  eighth. Hashing and key comparison are any functions for which equality is an equivalence that
  respects the hash.
- **`Latch`** (`Latch.dfy`): the counter as a modification order of atomic side effects, threads as
  interleaved steps, and for each thread and side effect the set of events that happen before it.
  What a read-modify-write acquires follows the release sequence rules of section 6.9.2.1
  [intro.races] of C++20. The duties of the callers, a handle used only where its increment happened
  before, and Init only after the last cycle ended, are the enabling conditions of the steps.
- **Hashing of byte strings** (`Hashing.dfy`, `HashWords.dfy`): which bytes the size dispatch reads, which
  inputs can collide, and that every word read, the seed and the size make a difference.
- **Removal of directory trees** (`RemoveTree.dfy`): `Rmtree` with its explicit stack, on a map from
  paths to kinds. Directory listings come in any order and may or may not know an entry's kind;
  removal and opening may be refused.
- **The command line parser** (`CommandLine.dfy`): positional arguments, `--` and subcommands.
- **String literals** (`StringHelpers.dfy`, `BlockStrings.dfy`): unescaping, with an escaper and a
  writer of block literals that they invert.

`Common.dfy` holds definitions that several models share.

Where code and documentation disagree the model follows the code:

- The table's description says that the budget always is the threshold less the non-empty slots
  (common/raw_hashtable.h:115-119). `Clear` skips groups without a present entry and then resets the
  budget in full, so groups of tombstones alone leave an excess. `ClearImpl` states it exactly.
  Operations keep answering as a finite map does as long as their searches end (`Maps.Run`), and a
  search never ends if and only if its key is absent and no byte is empty (`SearchNeverEnds`). While
  the excess is smaller than an eighth of the table every search ends, although the debug check
  before doubling (common/raw_hashtable.h:1406-1409) fails exactly when the budget is below the
  excess (`EmptySlotExists`): `FillEraseClearRunOut` is such a run. `FillEraseClear` is one in which
  the excess is not smaller, and `FillEraseClearFill` goes on to a table in which searches do not end.
- Growing for a number of insertions is documented to allow them (common/map.h:342-344). It does if
  and only if the budget was large enough already, or the size asked for has a threshold above the
  keys and the insertions together (`GrowForInsertCountImpl`). Without an excess that always holds;
  `FillEraseClearRefill` and `GrowTooLittle` are a run in which it does not.
- Hashing is documented to incorporate the seed (common/hashing.h:83). For strings of up to 16 bytes
  `SeedIgnored` says exactly when it does not. A comment (common/hashing.h:986-990) says that
  it takes exactly 16 bytes; the first word alone decides it for all sizes from 9 to 16
  (`CancelledNine`). From 17 to 32 bytes the seed is lost when both left factors are zero or the two
  mixes are equal (`LongSeed`).
- `Rmtree` is documented to empty the named directory and then to remove it
  (common/filesystem.h:922-926). For a path that ends in `..` Linux reports a directory that is not
  empty, which the code enters like any other (common/filesystem.cpp:561-618). So that directory is
  emptied and stays; for `..` alone the loop then goes on for ever (`UpNeverEnds`). `Rmtree` states
  all cases.
- A required positional argument can stay without a value in a successful parse, when two `--`
  pass over it (common/command_line.cpp:1230-1242); `RequiredFilled` gives the exact condition.

## Model

| member | source | states |
|---|---|---|
| Maps.Run | common/map.h:411-582 | Any sequence of Lookup, Insert, Update, Erase, GrowToAllocSize, GrowForInsertCount and Clear from a constructed table gives, step by step, the answers of a finite map. The run goes to its end, or up to the first operation whose search never ends, which only an invalid table meets; without Clear it goes to its end and the budget is exact throughout. |
| Maps.Apply | common/map.h:411-582 | One operation on any sound table, valid or not, whose search ends: contents and answer are those of the finite map, and every operation but Clear keeps a valid table valid and never raises the excess of the budget. |
| Maps.Map.Lookup | common/map.h:411-414 | Returns a value exactly when an equal key is stored, and then that key's value. |
| Maps.Map.Insert | common/map.h:475-491 | A key that is already stored keeps its entry; otherwise the pair is added; the entry returned holds the stored value. |
| Maps.Map.Update | common/map.h:540-558 | A key that is already stored keeps its key object and takes the new value; otherwise the pair is added. |
| Maps.Map.Erase | common/map.h:574-577 | Removes exactly the equal key's pair and tells whether there was one; no other slot or byte changes. |
| Maps.Map.Clear | common/map.h:580-582 | Empties the map, in place; the excess of the budget is GroupSize for each group of tombstones alone. |
| Maps.Endless | common/raw_hashtable.h:755-799 | Decides whether an operation's search never ends, by looking for an empty byte and for the key; in a valid table none does. |
| Maps.Map.InsertAll | common/raw_hashtable.h:1055-1076 | With a budget of at least `count`, `count` insertions never reallocate: storage stays the same object throughout, and the map is updated by each. |
| Maps.Map.GrowForInsertCount | common/map.h:567-570 | Keeps the map and leaves a budget greater than `count`, less the excess that an earlier Clear left; it is greater than `count` if and only if `GrowthSuffices` holds of the size, the budget and the number of keys before. |
| Maps.ContentsApart | common/raw_hashtable.h:906-997 | In every well formed table no two stored keys are equal: no key occupies two slots. |
| RawHashtables.HashTable.constructor | common/raw_hashtable.h:1164-1177 | A constructed table is valid, empty, and has the full threshold as its budget, with no excess. |
| RawHashtables.HashTable.LookupEntry | common/raw_hashtable.h:740-800 | With an empty byte in the table or the key stored, it terminates; finds a slot holding an equal key, or proves no slot does; the extra groups visited and failed comparisons are `Distance` and `FailedCompares` of the slot found. |
| RawHashtables.HashTable.FindInGroup | common/raw_hashtable.h:766-783 | Compares the candidates of one group in order: finds the key, or it is in no slot of the group; the comparisons that failed are the equal tags before the end of the scan. |
| RawHashtables.HashTable.InsertImpl | common/raw_hashtable.h:906-997 | Finds an existing entry and changes nothing, or marks a slot so that constructing the entry extends the map: the first tombstone on the probe path if there is one, else the first empty slot of the first group with one. Growth happens only without budget and without a tombstone to reuse; the budget equation holds afterwards. |
| RawHashtables.HashTable.InsertAbsent | common/raw_hashtable.h:971-991 | The slot for an absent key: the first tombstone met if any, else the first empty slot of the last group, else growth, which happens only without budget; the budget equation holds afterwards in each case. |
| RawHashtables.HashTable.EraseImpl | common/raw_hashtable.h:1080-1113 | Removes the slot holding the key, keeps every invariant and the budget equation, and never lowers the budget. |
| RawHashtables.HashTable.EraseSlot | common/raw_hashtable.h:1097-1112 | The erased byte and slot are those of `Removed`; the budget grows exactly when the byte became empty. |
| RawHashtables.HashTable.InsertIntoEmpty | common/raw_hashtable.h:1305-1323 | Terminates with one empty slot in the table; marks an empty slot on the key's unbroken chain with its tag and changes no other byte. |
| RawHashtables.RemoveSteps | common/raw_hashtable.h:1080-1113 | Erasing the holder of a key: the invariant, the map without exactly that key, and the exact budget. |
| TableStates.SearchEnds | common/raw_hashtable.h:785-791 | A group with an empty byte ends the search soundly: no later group can hold the key. |
| TableStates.SearchStep | common/raw_hashtable.h:755-799 | One group searched in vain: either it has an empty byte and the key is absent, or a further group exists to go to, as long as an empty byte or the key's entry is somewhere. |
| TableStates.SearchNeverEnds | common/raw_hashtable.h:755-799 | A search goes on for ever, every step finding a full group without the key, if and only if the key is absent and no byte is empty. |
| TableStates.ProbeHasNext | common/raw_hashtable.h:716-718 | While an empty byte exists, full groups never exhaust the probe: the step stays below the size. |
| TableStates.FillKeeps | common/raw_hashtable.h:955-992 | Storing a new key in an empty or deleted slot on its unbroken chain keeps tags, uniqueness, every chain, and the tombstone rule. |
| TableStates.ChainedAfterSearch | common/raw_hashtable.h:926-992 | A slot in the group after full groups only is on an unbroken chain, also when an earlier tombstone is reused. |
| TableStates.TombstoneMeaning | common/raw_hashtable.h:1087-1106 | The choice of Erase is exact: deleted when the group has no empty byte, empty otherwise. |
| TableStates.RemoveKeeps | common/raw_hashtable.h:1087-1106 | Erasing an entry, with that choice, breaks no other key's chain and leaves no tombstone in a group with an empty byte. |
| TableStates.ChainedAfterErase | common/raw_hashtable.h:1097-1106 | Making a byte empty in a group that already had an empty byte keeps every chain. |
| TableStates.RemoveSettled | common/raw_hashtable.h:1097-1106 | A group containing a tombstone has no empty byte, after every erasure. |
| TableStates.HolderIsStored | common/raw_hashtable.h:740-800 | A slot that holds a key holds the map's pair for it. |
| TableStates.AbsentNotStored | common/raw_hashtable.h:740-800 | A key in no slot is not in the map. |
| TableStates.FillContents | common/raw_hashtable.h:976-997 | Filling a free slot extends the map by exactly that pair. |
| TableStates.RemoveContents | common/raw_hashtable.h:1097-1112 | Clearing a slot removes exactly its key from the map. |
| TableStates.RevalueContents | common/map.h:551-554 | Replacing a slot's value replaces exactly that key's value. |
| TableStates.EmptySlotExists | common/raw_hashtable.h:1406-1409 | With the budget equation at least an eighth of the slots are empty, less the excess; what the debug check before doubling tests holds exactly when the budget covers the excess. |
| TableStates.ExcessBounded | common/raw_hashtable.h:1068-1072 | The excess never passes the non-empty slots, so the budget never passes the threshold. |
| TableStates.FillBudget | common/raw_hashtable.h:976-991 | Reusing a tombstone keeps the budget, filling an empty slot takes one, and the excess stays accounted for by full groups. |
| TableStates.RemoveBudget | common/raw_hashtable.h:1097-1106 | Erasing to empty gives one back, erasing to deleted does not, and no full group is lost. |
| TableStates.CountPartition | common/raw_hashtable.h:115-119 | Empty, deleted and present bytes account for every slot. |
| TableStates.HashSplits | common/hashing.h:661-667 | The index and the tag are the quotient and the remainder of the hash by 128, which together give it back. |
| TableStates.HashDetermined | common/hashing.h:661-667 | Two hashes with the same index and tag are equal. |
| TableStates.KeyPlace | common/raw_hashtable.h:749-755 | The probe of a key starts at the index of its hash, and its tag is the rest of the hash. |
| ProbeSequences.ProbeSequence.Next | common/raw_hashtable.h:704-722 | Both debug checks hold: the masked index equals the quadratic formula and the step stays below the size, as long as fewer groups than there are have been visited. |
| ProbeSequences.ProbeReaches | common/raw_hashtable.h:694-734 | Every group is reached by some step below the number of groups. |
| ProbeSequences.ProbeIndexInjective | common/raw_hashtable.h:694-734 | No two of those steps reach the same group. |
| ProbeSequences.VisitsEveryGroup | common/raw_hashtable.h:686-693 | Triangular offsets modulo a power of two visit every residue. |
| ProbeSequences.TriangleInjective | common/raw_hashtable.h:686-693 | The difference of two triangular numbers below 2^m is never a multiple of 2^m. |
| ProbeSequences.MaskIsGroupModulo | common/raw_hashtable.h:668-675 | The probe mask keeps exactly the group index modulo the number of groups. |
| ProbeSequences.MaskedStep | common/raw_hashtable.h:704-706 | One incremental masked step follows the closed formula. |
| ProbeSequences.MaskedStart | common/raw_hashtable.h:696-699 | The masked start is the formula at step zero. |
| ProbeSequences.CheckedFormula | common/raw_hashtable.h:710-715 | The formula checked in debug builds is the closed formula, from the masked start. |
| ProbeSequences.HomeDoubles | common/raw_hashtable.h:1349-1362 | Doubling the size moves a first probe index by nothing or by the old size. |
| Bits.AndMask | common/raw_hashtable.h:668-675 | And with a mask of bits j to k is a difference of remainders. |
| Bits.LowIsModulo | common/raw_hashtable.h:668-675 | The low k bits are the remainder modulo 2^k. |
| RawHashtables.HashTable.GrowToNextAllocSize | common/raw_hashtable.h:1375-1540 | Doubling keeps the map and every unprobed entry in the slot it goes to, its old index or that plus the old size; it empties the old storage, removes all tombstones and any excess, and leaves exactly the new threshold less the number of keys, which is positive. |
| RawHashtables.HashTable.DistributeGroups | common/raw_hashtable.h:1422-1498 | After the walk over the old groups, every unprobed entry is at its new home, every probed one is remembered once with its hash, and nothing else is in the new table. |
| RawHashtables.HashTable.GrowGroupInRegister | common/raw_hashtable.h:1428-1494 | One group, bytes held in registers: exactly the bytes `SplitByte` and slots `SplitSlot` prescribe are written. |
| RawHashtables.HashTable.GrowGroupByStores | common/raw_hashtable.h:1428-1494 | The byte-store variant: the same contract, so both write the same metadata, entries and list of probed slots. |
| RawHashtables.HashTable.MovePresent | common/raw_hashtable.h:1455-1488 | An unprobed entry goes to its old index or old index plus old size; toggling the new bit gives the other one. |
| RawHashtables.HashTable.ReinsertProbed | common/raw_hashtable.h:1519-1524 | Each probed entry is inserted once, every unprobed entry stays in its slot, and the old storage ends empty. |
| TableGrowth.HomesStay | common/raw_hashtable.h:1484-1524 | The distribution puts each unprobed entry where it goes, and insertions that keep occupied slots leave it there. |
| TableGrowth.ClassifySlot | common/raw_hashtable.h:1457-1481 | The masked indices of an old slot decide exactly whether it was probed and where it goes. |
| TableGrowth.HomeOrHigh | common/raw_hashtable.h:1349-1362 | An unprobed entry has one target: its old index exactly when its first probe index did not change, else the old index plus the old size. |
| TableGrowth.SplitGrowing | common/raw_hashtable.h:1422-1498 | The distribution of the unprobed entries is itself a well formed table without tombstones, with every chain unbroken. |
| TableGrowth.RelocationAgrees | common/raw_hashtable.h:1507-1517 | The bulk copy made for trivially relocatable entries, both halves alike, holds in every present slot the same entry as moving entries one by one. |
| TableGrowth.ReinsertStep | common/raw_hashtable.h:1519-1524 | Inserting one more old entry keeps that, and adds exactly that entry. |
| TableGrowth.StoredBytes | common/raw_hashtable.h:1490-1493 | Storing the two copies of a group writes the prescribed bytes and touches no other. |
| TableGrowth.AllReinserted | common/raw_hashtable.h:1427-1524 | Unprobed and reinserted slots together are all occupied slots. |
| TableGrowth.RoomWhileGrowing | common/raw_hashtable.h:1519-1524 | A larger table always has an empty slot while entries move into it, so reinsertion terminates. |
| TableGrowth.AllMoved | common/raw_hashtable.h:1525-1534 | When every entry has moved, the map is the same, the budget equation is exact and the budget positive. |
| TableGrowth.PresentCount | common/raw_hashtable.h:1525-1532 | Present bytes count the entries. |
| RawHashtables.HashTable.GrowAndInsert | common/raw_hashtable.h:1549-1557 | Growth with the insertion that forced it: the map is extended by the new key and the budget equation holds. |
| RawHashtables.HashTable.GrowByReinsertion | common/raw_hashtable.h:1014-1051 | Growth to more than twice the size: same map, exact positive budget. |
| RawHashtables.HashTable.GrowToAllocSizeImpl | common/raw_hashtable.h:1001-1052 | Does nothing for a target that is not larger, else reaches exactly the target size with the same map, no excess, and the threshold less the number of keys as budget. |
| RawHashtables.HashTable.GrowForInsertCountImpl | common/raw_hashtable.h:1055-1076 | Afterwards the budget exceeds `count` if and only if it did before or the threshold of the size asked for exceeds `count` and the keys together, which is so whenever there was no excess; the size reached and the budget left are stated exactly; nothing changes if the budget already exceeded `count`. |
| RawHashtables.BudgetArithmetic | common/raw_hashtable.h:1068-1074 | The space asked for is a larger size whose threshold exceeds what is needed, so the `CHECK` never fails. |
| TableGrowth.NextPowerOf2 | common/raw_hashtable.h:1070-1072 | The smallest power of two above n is above n and at most twice n. |
| RawHashtables.HashTable.ClearImpl | common/raw_hashtable.h:1116-1128 | Always empties the map, and states every byte; the budget exceeds the exact one by GroupSize for each group of tombstones alone, which becomes the excess. |
| TableClear.ClearedBudget | common/raw_hashtable.h:1116-1128 | Exact excess of the reset budget, accounted for by full groups; the equation without excess holds exactly when no group was all tombstones. |
| TableClear.ClearedCount | common/raw_hashtable.h:817-829 | What stays non-empty is GroupSize bytes for each all-tombstone group. |
| TableClear.ClearedGroup | common/raw_hashtable.h:817-829 | After Clear a group is all empty or all tombstones, the latter exactly if it was before. |
| TableClear.TombstonesStayFull | common/raw_hashtable.h:817-829 | The groups that Clear skips are full groups of the cleared table. |
| ClearRuns.FillEraseClear | common/raw_hashtable.h:1116-1128 | A run that fills one group, erases everything and clears, in a table of any size from 64: the table is empty, but its budget is too large by exactly GroupSize; it is still valid if and only if that is less than an eighth of the size. |
| ClearRuns.FillEraseClearFill | common/raw_hashtable.h:716-718 | Going on to insert, that run fills a table of 64 slots to the last byte, its size unchanged; from then on no search for an absent key ends, so the check of the step fails. |
| ClearRuns.FillEraseClearRunOut | common/raw_hashtable.h:1406-1409 | In 256 slots the same run leaves a valid table; when insertions have used its budget, fewer bytes are empty than the debug check before doubling demands. |
| ClearRuns.FillEraseClearRefill | common/raw_hashtable.h:1055-1076 | The keys that reuse the tombstones of such a table are not counted: a run to a table of 64 slots with GroupSize keys and a full budget, where growing for 111 insertions does not suffice. |
| ClearRuns.GrowTooLittle | common/raw_hashtable.h:1055-1076 | The growth from that table: 128 slots, and a budget that does not cover the 111 insertions. |
| RawHashtables.HashTable.ComputeMetricsImpl | common/raw_hashtable.h:832-899 | The key count is the size of the map; the averages times the key count are the sums of the true probe distances and failed comparisons of all keys, the maxima are the largest of them; the bytes are one metadata byte and one entry for each slot. |
| RawHashtables.HashTable.KeyCost | common/raw_hashtable.h:855-885 | The distance and comparisons derived for a key are `Distance` and `FailedCompares`, which `LookupEntry` performs for it. |
| TableMetrics.FoundCost | common/raw_hashtable.h:756-799 | Finding a key as a candidate of its group costs exactly its distance and its failed comparisons. |
| TableMetrics.MatchesBefore | common/raw_hashtable_metadata_group.h:199-227 | The n-th reported position has exactly n hits before it. |
| TableMetrics.MapSize | common/raw_hashtable.h:832-899 | Present bytes count the keys of the map. |
| MetadataGroups.MatchExact | common/raw_hashtable_metadata_group.h:808-886 | For every word and tag: 0x80 in exactly the bytes equal to the tag with its high bit, 0 in all others. |
| MetadataGroups.BroadcastNoCarry | common/raw_hashtable_metadata_group.h:861-865 | Broadcasting a tag by multiplication never carries: addition and or agree. |
| MetadataGroups.NoBorrow | common/raw_hashtable_metadata_group.h:874-876 | The subtraction never borrows between bytes. |
| MetadataGroups.PresentExact | common/raw_hashtable_metadata_group.h:888-913 | Exactly the bytes with the high bit. |
| MetadataGroups.EmptyExact | common/raw_hashtable_metadata_group.h:915-947 | Exactly the bytes with neither the high nor the low bit. |
| MetadataGroups.DeletedExact | common/raw_hashtable_metadata_group.h:949-981 | Exactly the bytes with the low bit only. |
| MetadataGroups.SearchExact | common/raw_hashtable_metadata_group.h:808-981 | On every valid group each of the four searches marks exactly the positions asked for. |
| MetadataGroups.ClearDeletedMeaning | common/raw_hashtable_metadata_group.h:793-806 | On every valid group the tombstones become empty and nothing else changes. |
| MetadataGroups.ClearByteMeaning | common/raw_hashtable_metadata_group.h:605-613 | Clearing one byte makes that slot empty and keeps the others. |
| MetadataGroups.IndexIsFirst | common/raw_hashtable_metadata_group.h:144-168 | Counting leading zeros of the byte-reversed bits finds the first marked byte. |
| MetadataGroups.ClearLowestExact | common/raw_hashtable_metadata_group.h:213-227 | Clearing the lowest bit removes the first marked byte and no other. |
| MetadataGroups.Walk | common/raw_hashtable_metadata_group.h:190-232 | Iterating visits every marked byte exactly once, in ascending order. |
| MetadataGroups.WalkedSearch | common/raw_hashtable_metadata_group.h:808-913 | The word search followed by the walk gives exactly the bytewise matches, for every query and group. |
| MetadataGroups.FirstOfSearch | common/raw_hashtable_metadata_group.h:915-981 | An index search is zero exactly when nothing matches, and else names the first match. |
| Latches.RunInvariant | common/latch.cpp:11-58 | Every interleaving of initialization, copies, moves, drops, closure runs, program work and outside synchronization keeps the invariant; such synchronization may acquire at any earlier event, however much its thread has done since. |
| Latches.StepKeeps | common/latch.cpp:11-58 | Each step keeps it: closed histories, release sequences, the count of live handles, one closure per cycle, and that the thread which saw zero has acquired every earlier decrement. |
| Latches.ChecksHold | common/latch.cpp:11-58 | The count always equals the number of handles that the steps have constructed and neither moved from nor dropped; Init finds zero, Inc and Dec find a positive count. |
| Latches.LastDropKnowsAll | common/latch.h:59-83 | Dec reports the last drop exactly when no handle is left. For every drop among the steps before, by whichever thread, the thread of a later drop then knows all that had happened before that earlier drop, and the drop itself, although increments are relaxed. |
| Latches.AcquiresEveryRelease | common/latch.cpp:26-45 | Relaxed increments continue every release sequence: reading the last side effect acquires from every earlier decrement. |
| Latches.ClosureRunsLast | common/latch.cpp:41-58 | The closure is exchanged by a thread that knows of its write and of every drop with all that happened before it, when no handle is live, and is the closure of this cycle. |
| Latches.OneZeroPerCycle | common/latch.cpp:26-58 | As many drops see zero as there were cycles completed, and the closures run are the first of those that the steps gave to Init, in order, one for each run. |
| Latches.DropLearns | common/latch.cpp:26-45 | Each drop learns everything that an earlier decrement released, and the write of the closure. |
| Latches.DropStaysReleased | common/latch.cpp:26-45 | What a drop among the steps released, its past and itself, is in the past of a releasing side effect from then on, whatever steps follow. |
| Latches.StepLearns | common/latch.cpp:11-45 | No thread forgets and none but the acting one learns; a relaxed increment teaches nothing but itself. |
| Hashing.Hasher.HashSizedBytes | common/hashing.h:942-1025 | For every length each byte is read and none out of bounds, and the buffer ends as the dispatch's definition says. |
| Hashing.Hasher.HashSizedBytesLarge | common/hashing.cpp:11-79 | The same for long strings: the 64-byte loop, the 32-byte block and the overlapping tails read exactly the bytes of the string. |
| Hashing.Hasher.HashTail | common/hashing.cpp:56-75 | From 1 to 64 bytes before the end, the remainder and overlapping tail complete the reading. |
| Hashing.WeakMixBijective | common/hashing.h:742-752 | Weak mixing has a two-sided inverse on 64-bit words, whether the target reverses bytes or bits. |
| Hashing.BitsReversed | common/hashing.h:742-752 | The reversal of the bits takes bit i to bit 63 - i. |
| Hashing.BytesReversed | common/hashing.h:742-752 | The reversal of the bytes takes byte i to byte 7 - i. |
| Hashing.WeakMixOfOne | common/hashing.h:742-752 | The mix of 1, as a literal, for both reversals. |
| Hashing.ReadSmallInjective | common/hashing.h:783-805 | Values of one size from 1 to 8 bytes are read injectively, including the overlapping reads for 6 and 7. |
| Hashing.SmallValuesNeverCollide | common/hashing.h:901-911 | For a fixed seed, two values of one small size hash alike if and only if they are equal. |
| Hashing.SmallSeedsNeverCollide | common/hashing.h:901-911 | For a fixed small value, two seeds hash it alike if and only if they are equal. |
| Hashing.ShortStringsNeverCollide | common/hashing.h:974-976 | Strings of 1 to 3 bytes, of any sizes, hash alike if and only if they are equal. |
| Hashing.SeedIgnored | common/hashing.h:942-1001 | Up to 16 bytes the hash is the same for all seeds if and only if the string has 1 to 3 bytes, or 9 to 16 and its first word equals the sampled one. |
| Hashing.LongSeed | common/hashing.h:1003-1022 | From 17 to 32 bytes: if the left factors of the two mixes are equal, and are zero or the words mixed with the seed agree, then the hash is 0 for every seed; where one factor is zero or those words agree, the hash is the same for all seeds if and only if the factors are equal. |
| Hashing.SeedCancelledCollide | common/hashing.h:977-1022 | All strings of 9 to 32 bytes whose words cancel in one of these ways hash to 0 under every seed, so that they collide, whatever their lengths. |
| Hashing.CancelledStrings | common/hashing.h:1003-1022 | A family of such strings of 32 bytes, of which 16 are arbitrary. |
| Hashing.CancelledNine | common/hashing.h:977-1001 | A family of such strings of nine bytes. |
| HashWords.LargeIsChunks | common/hashing.cpp:11-79 | Above 32 bytes the hash is that of a walk over chunks of 32 bytes, in turn to the two buffers, then the last 16 or 32 bytes, then the size. |
| HashWords.EveryWordMatters | common/hashing.cpp:11-79 | For every size above 32 and every eight-byte word that the hash reads there are a seed and two strings of that size which differ in one byte, of that word, and have different hashes. |
| HashWords.EveryShortWordMatters | common/hashing.h:942-1022 | The same for 4 to 32 bytes and every word of four or eight bytes that is read. |
| HashWords.SeedMatters | common/hashing.cpp:11-79 | For every size above 32 there are a string and two seeds that give it different hashes. |
| HashWords.SizeMatters | common/hashing.cpp:77-78 | Strings of every size above 32 are alike in what is combined with the size, and for each size another one gives a different hash. |
| HashWords.FamilyOf64 | common/hashing.cpp:11-79 | A family of strings of 64 bytes, 32 of them arbitrary, with their common hash as a literal. |
| RemoveTree.FileSystem.Rmtree | common/filesystem.cpp:520-623 | Terminates. For a path without a `.` before its last name that does not end in `..` it succeeds if and only if the path is empty, or runs through directories without ending in a dot name there, and names nothing or a directory in whose tree no entry is protected from removal and no non-empty directory is unreadable; then exactly the subtree at that path is gone. A path that ends in `..` after other names empties the directory that it leads to: it succeeds if and only if the path before the `..` leads to nothing, or to a directory in whose parent everything is removable and readable, and then exactly what is below that parent is gone. Inner dots make no difference, and on every outcome nothing else has changed. |
| RemoveTree.PlainKeeps | common/filesystem.cpp:520-623 | A path without a `.` before its last name is taken as it is. |
| RemoveTree.PlainSkips | common/filesystem.cpp:520-623 | A `.` anywhere before the last name can be left out. |
| RemoveTree.UpNeverEnds | common/filesystem.cpp:520-623 | For the path `..` alone, when everything in the directory that it leads to can be removed, no turn of the loop is the last: every turn of every run leads to another one. |
| RemoveTree.FileSystem.Turn | common/filesystem.cpp:520-623 | One turn of the loop: finishes a directory, removes the last entry, enters the directory that it leads to, or fails, with the queue, the stack and the tree left in each case; its `CHECK` never fails. |
| RemoveTree.TurnKeeps | common/filesystem.cpp:520-623 | A turn keeps the invariant and comes nearer to the end, or ends with everything removed and an empty stack, as the `CHECK` demands, or fails only when the tree is not removable. |
| RemoveTree.UpTurn | common/filesystem.cpp:520-623 | For a path that ends in `..`: the turns enter the directory, empty it as if it were to be removed, and then find that the path leads nowhere any more, or, for `..` alone, enter it again. |
| RemoveTree.UpEmptied | common/filesystem.cpp:539-545 | When the stack is empty again, exactly what was below the directory is gone, and all of it was removable. |
| RemoveTree.FileSystem.ReadAndUnlink | common/filesystem.cpp:586-618 | Reading a directory and unlinking what is not known to be a directory leaves exactly its subdirectories queued; it fails only for an entry that may not be removed. |
| RemoveTree.PopKeeps | common/filesystem.cpp:539-545 | When the entries reach a directory's start, it is empty, and the entry to retry is that directory. |
| RemoveTree.RemoveKeeps | common/filesystem.cpp:547-560 | Removing the last entry keeps the partition of the queued entries by the starts on the stack. |
| RemoveTree.PushKeeps | common/filesystem.cpp:566-618 | Entering a directory keeps the partition, with the new entries as its last part. |
| RemoveTree.TopEntry | common/filesystem.cpp:533-549 | The entry taken lies below the root, one level deeper for each directory on the stack, and is an existing directory. |
| RemoveTree.StepRemove | common/filesystem.cpp:547-560 | After a removal either everything is removed and the stack is empty, as the `CHECK` demands, or the loop goes on from a state with the same invariant. |
| RemoveTree.AllRemoved | common/filesystem.cpp:520-623 | Once the root is gone, what is left is exactly the rest of the tree, and everything removed was permitted. |
| RemoveTree.TreeAddressed | common/filesystem.cpp:547-564 | Every entry in the tree is addressed through directories and not by a dot name, so only the given path can fail for its form. |
| RemoveTree.NotYetOpened | common/filesystem.cpp:566-577 | No directory is opened twice, which bounds the loop. |
| CommandLine.RunConserves | common/command_line.cpp:1258-1315 | On success the values delivered, concatenated in the order of the arguments, are exactly the positional tokens in order, and the command is the one the tokens select. |
| CommandLine.SuffixConserves | common/command_line.cpp:1209-1246 | The same after the first `--`, for every state the parser can be in there; the index stays within the arguments. |
| CommandLine.MarkerSeparates | common/command_line.cpp:1230-1242 | No token after a `--` joins an argument that received a token before it. |
| CommandLine.RunPassesOver | common/command_line.cpp:1209-1246 | On success some argument before the index is left without a value if and only if two `--` follow each other. |
| CommandLine.RunFirstGap | common/command_line.cpp:1209-1246 | The first argument left without a value before the index is the one that `FirstPassedOver` computes from the tokens. |
| CommandLine.RequiredFilled | common/command_line.cpp:1171-1187 | When a parse succeeds and runs the command, every required argument has a value if and only if no two `--` in a row pass over an argument or the first one they pass over is not required; that argument is computed from the tokens and from which arguments are appended to. |
| CommandLine.RequiredPassedOver | common/command_line.cpp:1230-1242 | With two `--` in a row a parse succeeds although a required argument has no value: a concrete command line. |
| CommandLine.OutcomeExact | common/command_line.cpp:1149-1315 | The exact result of every command line, from the tokens, the place of each and the command that they select. |
| CommandLine.RunExact | common/command_line.cpp:1258-1315 | From any place on, the tokens are all taken if and only if each is accepted where it stands, and the parser then stands where they lead. |
| CommandLine.DeliverKeeps | common/command_line.cpp:1104-1127 | Delivering a token extends the delivered values at their end and changes no earlier argument. |
| CommandLine.Parser.Parse | common/command_line.cpp:1258-1315 | The parse loop succeeds if and only if every token is accepted where it stands, none selects a meta action, and the selected command is an action whose options are complete and of which no required argument is left; it is a meta success if and only if every token is accepted and one selects a meta action or the complete command is one; else it is an error, as for a command that requires a subcommand. Without an error each argument has received exactly the tokens that its place in the command line gives it, and its `CHECK` never fails. |
| CommandLine.Parser.ParsePositionalSuffix | common/command_line.cpp:1209-1246 | The suffix loop does exactly what the specification of markers says. |
| CommandLine.Parser.FinalizeParse | common/command_line.cpp:1149-1207 | Success, meta success and error exactly by the meta action, the options, the required arguments left and the kind of the command; the `CHECK` of the index, the slice and the `CHECK` for required arguments after optional ones never fail. |
| CommandLine.Parser.ParsePositionalArg | common/command_line.cpp:1104-1127 | Accepts exactly while an argument is left that takes the value, also remembering a meta action. |
| CommandLine.Parser.ParseSubcommand | common/command_line.cpp:1129-1147 | Enters exactly a named subcommand once the options of the current command are complete. |
| StringHelpers.UnescapeStringLiteral | common/string_helpers.cpp:40-148 | The loop computes the meaning of the literal, given by `EscapeMeaning`, `EscapeRefused`, `UnescapeUnicode` and `RawMeaning`, and its result is never longer than its input. |
| StringHelpers.UnescapeEscapes | common/string_helpers.cpp:40-148 | Unescaping inverts the escaper, for every byte string and every number of hashtags. |
| StringHelpers.EscapeMeaning | common/string_helpers.cpp:55-136 | What each byte after the mark of an escape stands for, in codes: the one-byte escapes, `0` unless a digit follows, two hexadecimal digits, a newline in a block; everything else is refused. |
| StringHelpers.EscapeRefused | common/string_helpers.cpp:50-113 | A mark at the end is refused, and a `u` that is not followed by digits between braces. |
| StringHelpers.RawMeaning | common/string_helpers.cpp:137-146 | A byte that begins no escape stands for itself, but for a tab, which is refused. |
| StringHelpers.HexDigits | common/string_helpers.cpp:28-37 | Exactly the digits and the uppercase letters A to F are hexadecimal digits, with these values; lowercase is refused. |
| StringHelpers.HexValueFirst | common/string_helpers.cpp:99-111 | Each digit of a code point counts for a power of sixteen. |
| StringHelpers.Utf8Value | common/string_helpers.cpp:120-125 | The number of bytes of an encoding and the bits in each, in numbers. |
| StringHelpers.UnescapeUnicode | common/string_helpers.cpp:94-127 | A code point in braces is accepted exactly with one to eight digits and a Unicode scalar value, and then stands for its UTF-8 encoding. |
| StringHelpers.ReadCodePoint | common/string_helpers.cpp:99-119 | The accumulated value is the number the digits stand for: up to eight digits never overflow 32 bits. |
| StringHelpers.Utf8Surjective | common/string_helpers.cpp:120-125 | Every byte sequence that section 3 of RFC 3629 allows for one character is the encoding of the value it decodes to. |
| StringHelpers.Utf8RoundTrip | common/string_helpers.cpp:120-125 | Decoding inverts encoding, for every Unicode scalar value. |
| StringHelpers.UnescapeShrinks | common/string_helpers.cpp:40-44 | The result fits the space reserved for it. |
| StringHelpers.DecodeEscape | common/string_helpers.cpp:55-136 | Each escape gives the bytes and the length that it means, or is refused. |
| BlockStrings.ParseBlockStringLiteral | common/string_helpers.cpp:150-206 | The line loop computes the meaning of the block literal. |
| BlockStrings.BlockRoundTrip | common/string_helpers.cpp:150-206 | Every byte string, with any indentation, file type indicator and number of hashtags, has a block literal that parses back to it. |
| BlockStrings.BlockOfLines | common/string_helpers.cpp:150-180 | The text of a literal is that of the lines between its first and last, with the indentation of the last. |
| BlockStrings.FirstAndLast | common/string_helpers.cpp:158-180 | Exactly which lines open and close a literal, in codes. |
| BlockStrings.ContentMeaning | common/string_helpers.cpp:183-195 | A line keeps what is between the indentation and its trailing spaces and tabs; a blank line is empty however short; too little indentation is refused. |
| BlockStrings.TrailingSpaces | common/string_helpers.cpp:183-195 | Spaces and tabs at the ends of lines do not change the text. |
| BlockStrings.ShortIndentation | common/string_helpers.cpp:188-192 | One line that is not blank and has too little indentation makes the whole literal refused. |

## Left out

- The SIMD forms of the group operations and the fallback loops for groups wider than eight bytes: the table is proved for the bytewise meaning with groups of 8 or 16, the word operations for 8.
- Prefetching, alignment, allocation, constructors and destructors of entries: an entry is a value, a slot holds one or is raw.
- The bytes that the bulk copy for trivially relocatable entries leaves in slots that are not present: `GrowToNextAllocSize` moves entries one by one, and `RelocationAgrees` relates the two.
- Heterogeneous lookup: keys and lookup keys have one type. Insert callbacks are a key and a value.
- Copying, moving, small-size storage and Reset of tables, and `Set`, the same table without values.
- 32-bit budgets and overflow of sizes: sizes and budgets are unbounded integers.
- Rounding: averages in the metrics are exact rationals rather than doubles.
- Hash quality beyond what is stated, the address-based seed, `APInt` and `APFloat`.
- ProbeSequences.ProbeSequence.Next: requires that fewer steps were taken than there are groups; `ProbeHasNext` shows that every search respects this.
- RawHashtables.HashTable.ClearImpl: a valid table results only while the groups of tombstones it leaves take up less than an eighth of the table, as the code behaves.
- Maps.Map.Lookup: requires, like Insert, Update and Erase, that its search ends; `SearchNeverEnds` says when it does not.
- Hashing.LongSeed: does not classify strings of 17 to 32 bytes whose left factors are both non-zero and whose seeded words differ; some of them also lose the seed, for example with equal factors that are a power of two. Above 32 bytes `SeedMatters` says that the seed matters to some strings of every size, not to which.
- Latches.StepKeeps: each access to the counter is one step in a single modification order; for the non-atomic `on_zero_` the model shows that its accesses are ordered, not what unordered ones would do.
- Option parsing in the command line: option names, values and defaults are a function from a command and a token to refused, accepted, or accepted with a meta action. Help output and error texts are not modelled.
- RemoveTree.FileSystem.Rmtree: requires that no name before the last is `..`, and for `..` alone that the base is an existing directory and that not everything next to and below it can be removed, since otherwise the loop never ends; a handle whose directory is gone is modelled only for `..`; no other process changes the tree meanwhile; failures other than a missing, non-empty or directory entry are one kind of failure and do not change during the removal.
- Symbolic links, open file descriptors and all other file system operations.
- Error messages of the string functions: a failed parse is a single value.
- `ArrayStack`, `GrowingRange`, `ErrorOr` and the macro helpers, which would add only easy members.
