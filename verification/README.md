# flushdb, modelled and verified in Dafny

flushdb is a log-structured storage engine over an object store. Writes go to a write-ahead log and
a memtable; memtables are frozen, flushed to L0 SSTables and compacted down to L3; a numbered manifest,
written with create-if-absent requests, says which tables are live. This project models that engine and
proves what its parts promise each other.

`dafny verify dfyconfig.toml` checks everything.

## How the project is laid out

- Keys and formats: `Bytes`, `CompositeKeys`, `Varints`, `BlockCodec`, `BloomFilters`, `SstFormats`,
  `SstFiles` (whole SSTable files, byte for byte), `WalEntries`, `WalSegments` (log segment files).
- Sorted structures: `Entries`, `SortedRuns`, `SkipLists`, `MergeIteration`, `Tables`, `TableScans`,
  `RangeTombstones`.
- The engine: `Manifests`, `Compaction`, `LevelInvariants`, `Tiers`, `Engine` (the state machine),
  `EngineInvariant` (what every step keeps), `EngineReads`, `EngineTheorems`, `Scheduling`, `Operations`
  (what the caller's operations mean), `EngineObject` (the same engine as an object with fields and loops), `Memtables` (the memtable as it is built), `RangeReads`,
  `RangeReadTheorems`, `PageLists`, `Pagination`, `RangeReadMeaning`, `RangeStarts`, `PagedRangeDeletes`,
  `RangeBounds`.
- Protocols: `ManifestProtocol` (many managers racing on one store), `ManifestProgress`, `VersionGenerators`, `WalReplay`,
  `GroupCommits`, `CommitLoop`, `DirtySegments`, `Recovery`, `RecoveryInvariant`, `Retention`, `RecoveryTheorems`,
  `CoalescedFetches`.

The code that works by changing things step by step is modelled as classes and loops, each tied by its
contract to a function of its inputs or its old state; the laws are proved about those functions.
Protocols are state machines whose steps are single backend calls, file operations, atomic operations or
engine steps, and their theorems hold for every run.

## Decisions

- CRC-32, MurmurHash3, the compressors and the sizes of compressed files are parameters: arbitrary
  functions, with decompression undoing compression and the checksum below 2^32.
- Clocks, the choice of skip-list heights, freeze and memory-pressure decisions, cache evictions and the
  interleaving of threads and managers are inputs, and the theorems hold for all of them.
- ULIDs are ids drawn from a counter. A table in the model bundles the manifest's record of it with the
  immutable file it names; the trivial move keeps the blocks and changes only the level.
- The binary heap of the merge is a bag from which the greatest item is popped; `partition_point` and the
  library sorts are functions with their properties proved.
- A memtable in `Engine` holds the list its skip list stands for and its range tombstones in the order
  they came; `Memtables` builds it from the index-based skip list and the sorted tombstone index and
  proves that insertion, lookup and scan compute exactly what the state machine uses.
- The engine has one writer and its storage calls succeed. Failures of log writes, crashes and lost races
  on the manifest are part of the protocol models.

## Guarantees that hold only under a condition

Some guarantees hold only under conditions that lie in the code. The model keeps the code as it is, and
each condition is stated exactly:

- A point lookup looks at one block, the last whose first key is not greater. When versions of a key
  straddle a block boundary of an L0 table the newest may be missed: the read is wrong exactly when it is
  missed and it or the version found instead is to be seen (`Tables.GetIsNewestIffNotSplit`,
  `EngineReads.EveryReadIsLastWrite`, `EngineTheorems.StaleReadIff`, with a run in
  `EngineTheorems.OverwriteReadsStale`). Range scans lose versions only of the key they start at
  (`TableScans.ScanIsRangeIff`), and answer for it as a point read does
  (`RangeStarts.StartKeyIsPointRead`).
- Recovery replays the write that set the flushed mark if its segment is still there. If a block boundary
  hid that write from reads, the answer for its key changes, exactly when the two versions differ in what
  they show (`RecoveryTheorems.FirstCrashRecovery`, with a run in
  `RecoveryTheorems.HiddenWriteResurfaces`).
- A range delete counts for point reads only while it is in a memtable
  (`EngineTheorems.RangeDeleteHonouredIff`, with a run in `EngineTheorems.FlushedRangeDeleteIsLost`).
- A page forgets the flushed range deletes that earlier pages met. Pages make up the unlimited read for
  all limits exactly when the read can resume after every item it shows
  (`Pagination.PaginationInvisibleIff`, `Pagination.EvenPaginationIff`, with a run in
  `PagedRangeDeletes.PagesForgetARangeDelete`). It can in every range that stops short of the tombstone
  prefix byte and in every store whose items do not start with it.
- A manifest update stores both epochs and checks one, so a compaction update under an old writer epoch
  lowers it and a later writer is given an epoch a second time, and a flush does the same to compactors
  (`ManifestProtocol.EpochFallsIff`, `ManifestProtocol.StaleUpdateRepeatsEpoch`).
- A range delete is logged under a key of its own, which an item may share: it then erases that item,
  inside its range or not (`Operations.ReadsEveryOperationIff`, with a run in
  `Operations.TombstoneKeyErases`).
- The tasks of one plan run until the first stale one, so the task of L2 is not reached when the
  compaction of L0 consumed the table chosen at L1 (`Scheduling.CompactionRelieves`, with levels in
  `Scheduling.ThreeLevelsStick`).
- A log append is recorded against whatever segment is current when the record is made. A rotation in
  between lets the write be lost exactly when the segment that holds it is recorded for other generations
  only (`Retention.RetentionIff`, with a run in `RecoveryTheorems.MisplacedRecordLosesAWrite`).
- Versions increase exactly under clocks below 2^48 ms (`VersionGenerators.ClockBoundIsExact`,
  `VersionGenerators.TwoCallsIncreaseIff`, with a run in `VersionGenerators.ClockPastTheWordRepeats`).

## Model

| member | source | states |
|---|---|---|
| CompositeKeys.JoinSplit | crates/flushdb-types/src/composite_key.rs:20-95 | A key built from a record id without NUL bytes and any item splits back into exactly that record id and item |
| CompositeKeys.SplitJoin | crates/flushdb-types/src/composite_key.rs:67-95 | Splitting any stored key at its first separator and joining the parts gives the key back, and the record part has no NUL |
| CompositeKeys.OrderWithinRecord | crates/flushdb-types/src/composite_key.rs:13-25 | Inside one record the byte order of keys is the byte order of item keys, both ways |
| CompositeKeys.RecordsAreContiguous | crates/flushdb-types/src/composite_key.rs:51-65 | A key between two keys of a record belongs to that record, so a record is one contiguous run of the key order |
| CompositeKeys.KeyLimits | crates/flushdb-types/src/composite_key.rs:151-190 | A key is made if and only if the record id has 1 to 256 bytes without NUL and the item at most 4096 |
| Varints.EncodeInto | crates/flushdb-engine/src/sstable/varint.rs:3-16 | The encoding loop appends exactly the LEB128 form of the value to the buffer |
| Varints.DecodeLoop | crates/flushdb-engine/src/sstable/varint.rs:18-44 | The shifting loop computes the decoder, errors for short and overlong input included |
| Varints.RoundTrip | crates/flushdb-engine/src/sstable/varint.rs:3-44 | Every u64 decodes from its encoding followed by anything, consuming exactly its own bytes |
| Varints.EncodedLenExact | crates/flushdb-engine/src/sstable/varint.rs:46-52 | varint_len is the length of the encoding for every value |
| Varints.AtMostTenBytes | crates/flushdb-engine/src/sstable/varint.rs:18-52 | A u64 takes at most ten bytes, a decoded value ends within ten, and no byte after the tenth changes what the decoder returns |
| Varints.EndsAtLowByte | crates/flushdb-engine/src/sstable/varint.rs:18-44 | A varint ends with its first byte below 128, and a buffer without one among its first ten bytes is refused |
| BlockCodec.BlockBuilder.AddEntry | crates/flushdb-engine/src/sstable/block_builder.rs:48-101 | After any number of calls the buffer, first and last key, record set and elision state are those of the list of entries added |
| BlockCodec.BlockBuilder.Finish | crates/flushdb-engine/src/sstable/block_builder.rs:111-143 | An empty block is refused; otherwise the result is the compressed payload of the added entries with their checksum |
| BlockCodec.DecodeBlockLoop | crates/flushdb-engine/src/sstable/block_reader.rs:16-66 | Draining the block iterator computes the block decoder, with its corruption and checksum errors |
| BlockCodec.DecodesNext | crates/flushdb-engine/src/sstable/block_reader.rs:68-209 | Whatever record id came before, decoding an encoded entry restores it, elided record id included, and leaves the bytes that follow |
| BlockCodec.BlockRoundTrip | crates/flushdb-engine/src/sstable/block_builder.rs:48-143 | Decoding a finished block returns the same keys, values, metadata, types and sequences for every list with nonempty NUL-free record ids |
| BlockCodec.DamagedBlockIsRefused | crates/flushdb-engine/src/sstable/block_reader.rs:28-66 | A block whose stored checksum is not that of its payload, or that is too short to hold one, is refused |
| BloomFilters.BuildLoop | crates/flushdb-engine/src/sstable/bloom_filter.rs:73-112 | The nested loops set exactly the bits of the records in the byte array, in whatever order the records come |
| BloomFilters.NoFalseNegatives | crates/flushdb-engine/src/sstable/bloom_filter.rs:73-143 | A record that was added is never reported absent, for every hash function, record set and bits per key |
| BloomFilters.PassesIff | crates/flushdb-engine/src/sstable/bloom_filter.rs:124-143 | A record passes the filter if and only if every bit it probes is the bit of some added record |
| BloomFilters.FilterDimensions | crates/flushdb-engine/src/sstable/bloom_filter.rs:73-97 | The filter has the wanted bits to a key, at least 64, in whole bytes, and ln 2 times that many probes, at least one |
| BloomFilters.ContainsLoop | crates/flushdb-engine/src/sstable/bloom_filter.rs:124-143 | The membership loop over the bytes computes the test |
| SstFormats.IndexRoundTrip | crates/flushdb-engine/src/sstable/index_block.rs:110-174 | A serialized index reads back entry by entry |
| SstFormats.FilterRoundTrip | crates/flushdb-engine/src/sstable/bloom_filter.rs:145-178 | A serialized filter reads back with the same set of one bits and counts |
| SstFormats.PackRoundTrip | crates/flushdb-engine/src/sstable/bloom_filter.rs:96-105 | The bit array holds exactly the given set of bits |
| SstFormats.FooterRoundTrip | crates/flushdb-engine/src/sstable/footer.rs:23-87 | The 80-byte footer passes its magic and checksum tests and reads back every field |
| SstFormats.FooterIsChecked | crates/flushdb-engine/src/sstable/footer.rs:49-87 | A footer is accepted if and only if its size, magic number, checksum and compression are right |
| SstFormats.FooterRangeIsSafe | crates/flushdb-engine/src/sstable/footer.rs:93-104 | The 16-byte truncated key range of the footer never excludes a key between minimum and maximum |
| Tables.WrittenTable | crates/flushdb-engine/src/sstable/writer.rs:74-155 | Cutting sorted entries into blocks loses and reorders nothing, leaves no empty block, cuts each block where its encoding reaches the target, and records the true key range and filter |
| Tables.GetIsNewestIffNotSplit | crates/flushdb-engine/src/sstable_handle.rs:132-170 | A lookup returns the newest version of the key in the table if and only if versions of the key do not straddle a block boundary |
| Tables.DistinctKeysNeverSplit | crates/flushdb-engine/src/sstable/index_block.rs:63-77 | Tables with distinct keys, as compaction writes them, never have a key on both sides of a block boundary |
| TableScans.ScanLoop | crates/flushdb-engine/src/sstable_handle.rs:208-246 | The nested scan loops with their early stops compute the scan |
| TableScans.ScanIsRangeIff | crates/flushdb-engine/src/sstable_handle.rs:208-246 | A scan returns exactly the entries in range, in order, if and only if the start key is out of range or its versions do not straddle a block boundary |
| TableScans.ScanMembers | crates/flushdb-engine/src/sstable_handle.rs:208-246 | Past its start key a scan misses nothing, and it never returns anything outside the range |
| SstFiles.WriteFile | crates/flushdb-engine/src/sstable/writer.rs:74-234 | The writer, block by block through the block builder, produces exactly the specified file bytes, or an error for no entries |
| SstFiles.WrittenFileOpens | crates/flushdb-engine/src/sstable_handle.rs:21-53 | A written file opens, its footer has the entry count, the truncated key range and the compression, and every index entry of the handle leads to the bytes of its block |
| SstFiles.GetServed | crates/flushdb-engine/src/sstable_handle.rs:132-170 | A lookup on the bytes of an opened file equals the lookup on the blocks it stands for |
| SstFiles.ScanServed | crates/flushdb-engine/src/sstable_handle.rs:208-246 | A scan over the bytes of an opened file equals the scan over the blocks it stands for |
| SstFiles.FileIsASortedMap | crates/flushdb-engine/src/sstable/writer.rs:74-234 | For nonempty key-increasing entries and every block size, opening the written file and looking up finds exactly the written entry and scanning returns exactly the entries in range |
| MergeIteration.MergeIsPermutation | crates/flushdb-engine/src/merge_iterator.rs:152-190 | Draining the merge yields every entry of every source exactly as often as it occurs |
| MergeIteration.MergeIsSorted | crates/flushdb-engine/src/merge_iterator.rs:133-190 | From sorted sources the merge is sorted by key ascending and sequence descending |
| MergeIteration.MergeKeepsNewest | crates/flushdb-engine/src/merge_iterator.rs:192-205 | The deduplicated merge holds strictly increasing keys, each with its highest sequence among all sources, and every key of the sources |
| MergeIteration.MergeIterator.constructor | crates/flushdb-engine/src/merge_iterator.rs:152-168 | The initial heap holds one item for each nonempty source, and what is left to deliver is the whole merge |
| MergeIteration.MergeIterator.NextEntry | crates/flushdb-engine/src/merge_iterator.rs:170-190 | Each call delivers the next entry of the merge and keeps one heap item per unexhausted source |
| MergeIteration.MergeIterator.NextDeduped | crates/flushdb-engine/src/merge_iterator.rs:192-205 | Each call delivers the next entry of the deduplicated merge |
| MergeIteration.MergeIterator.IsExhausted | crates/flushdb-engine/src/merge_iterator.rs:207-209 | The heap is empty if and only if nothing is left to deliver |
| SkipLists.SkipList.Insert | crates/flushdb-engine/src/skiplist.rs:125-175 | For every height, insertion keeps each level a sublist of the one below and makes the contents the sorted insertion, replacing an equal key and sequence in place |
| SkipLists.SkipList.Get | crates/flushdb-engine/src/skiplist.rs:177-195 | Lookup ends and returns the highest-sequence version of the key, or nothing |
| SkipLists.SkipList.SeekTo | crates/flushdb-engine/src/skiplist.rs:213-227 | The descent ends at the first node whose key is not below the target, every other such node coming after it, and at none exactly when all keys are below |
| SkipLists.SkipList.Range | crates/flushdb-engine/src/skiplist.rs:237-248 | The range iterator yields exactly the nodes in the half-open key range, in order |
| SkipLists.SkipList.ScanRecord | crates/flushdb-engine/src/skiplist.rs:259-277 | The record iterator yields exactly the nodes of the record, and nothing for an invalid record id |
| SortedRuns.InsertSorted | crates/flushdb-engine/src/skiplist.rs:125-175 | The list a skip list stands for stays strictly sorted under insertion |
| SortedRuns.InsertMembers | crates/flushdb-engine/src/skiplist.rs:125-175 | Insertion adds the entry, replaces the one with its key and sequence, and touches nothing else |
| SortedRuns.LookupIsNewest | crates/flushdb-engine/src/skiplist.rs:177-195 | The first entry met for a key is the one with the highest sequence |
| RangeTombstones.RangeTombstoneIndex.Add | crates/flushdb-engine/src/range_tombstone.rs:30-36 | Insertion by binary search keeps the index sorted and adds exactly the tombstone |
| RangeTombstones.RangeTombstoneIndex.CoversKey | crates/flushdb-engine/src/range_tombstone.rs:38-51 | The search with its early stop answers whether some tombstone ever added covers the item and is newer |
| RangeTombstones.RecordRun | crates/flushdb-engine/src/range_tombstone.rs:53-85 | The two binary searches delimit exactly the tombstones of the record |
| Memtables.MemtableObject.InsertPrechecked | crates/flushdb-engine/src/memtable.rs:129-188 | An insertion through skip list, tombstone index and token set is the insertion of the state machine, or is refused when frozen |
| Memtables.MemtableObject.Insert | crates/flushdb-engine/src/memtable.rs:112-127 | A known token is refused and changes nothing |
| Memtables.MemtableObject.Get | crates/flushdb-engine/src/memtable.rs:190-202 | The lookup through skip list and index is the lookup of the state machine |
| Memtables.MemtableObject.ScanWithTombstones | crates/flushdb-engine/src/memtable.rs:214-253 | The pass over the skip list returns the newest version of each key in range that no tombstone of the memtable covers |
| Manifests.ApplyLoop | crates/flushdb-engine/src/manifest/types.rs:457-508 | The loops of apply compute the update or its error |
| Manifests.SortByMinCorrect | crates/flushdb-engine/src/manifest/types.rs:479-488 | Re-sorting a level gives a permutation sorted by minimum key |
| Manifests.AddKeepsDisjoint | crates/flushdb-engine/src/manifest/types.rs:479-488 | Adding a table whose range meets no other keeps a level sorted and disjoint and holds exactly the old tables and the new |
| Manifests.FindTableUnique | crates/flushdb-engine/src/manifest/types.rs:402-419 | On a sorted disjoint level the binary search returns the one table whose range holds the key, and nothing if there is none |
| Compaction.CombinedKeyRange | crates/flushdb-engine/src/compaction/scheduler.rs:197-215 | The loop returns the least minimum and greatest maximum of the tables, or nothing for none |
| Compaction.MergeAndWrite | crates/flushdb-engine/src/compaction/executor.rs:196-297 | The merge loop with its fragment buffer writes exactly the specified output tables |
| LevelInvariants.ScheduledTasksFit | crates/flushdb-engine/src/compaction/scheduler.rs:98-179 | Every task of one trigger check is fit to run on the manifest it was made from, in order, later ones reading no level an earlier one has already left |
| Scheduling.TriggersIff | crates/flushdb-engine/src/compaction/scheduler.rs:98-179 | For each level above the bottom there is one task if and only if the level is over its limit, by count at L0 and by total size at L1 and L2, with all of L0 or the oldest table as input and exactly the tables of the next level that meet its key range, shallowest first |
| Scheduling.LevelSizeIsSum | crates/flushdb-engine/src/compaction/scheduler.rs:147-179 | The size of a level is the sum of its table sizes |
| Scheduling.CompactionRelieves | crates/flushdb-engine/src/engine.rs:503-583 | After a compaction in any run every level over its limit has lost the tables its task was planned for, so an L0 over its count is empty, except exactly when the task of L2 is never reached because the compaction of L0 consumed the table chosen at L1; with no level over its limit nothing changes |
| Scheduling.FlushKeepsL0Small | crates/flushdb-engine/src/engine.rs:503-583 | After a flush in any run L0 is within its count, since a flush compacts |
| Scheduling.ThreeLevelsStick | crates/flushdb-engine/src/engine.rs:503-583 | Levels in which the task of L2 is never reached |
| LevelInvariants.ExecuteEffect | crates/flushdb-engine/src/compaction/executor.rs:47-338 | A scheduled task commits and replaces exactly its inputs and targets by its outputs, keeping tables well formed, ids unique and levels below L0 disjoint |
| LevelInvariants.MergeWritesNewest | crates/flushdb-engine/src/compaction/executor.rs:196-297 | A merging compaction writes the newest version of every key it reads and nothing else, except a deletion at the bottom level, in tables cut where they reach the fragment target and numbered from the given id |
| LevelInvariants.TrivialMoveKeepsTable | crates/flushdb-engine/src/compaction/executor.rs:64-124 | A table that meets nothing at the next level moves there as it is and uses no id |
| LevelInvariants.PendingRunsOrFails | crates/flushdb-engine/src/manifest/manager.rs:311-321 | A later task of a plan succeeds if and only if its inputs are still there; a stale one is rejected without effect |
| LevelInvariants.ChainSurvives | crates/flushdb-engine/src/engine.rs:548-583 | Running one task leaves the remaining tasks of the plan runnable or rejectable |
| Tiers.CompactionIsFaithful | crates/flushdb-engine/src/compaction/executor.rs:64-323 | Any scheduled compaction, trivial moves, fragmenting and dropped bottom tombstones included, keeps the version order between levels and the visible version of every key |
| Tiers.FirstTierWins | crates/flushdb-engine/src/read_path.rs:182-237 | Under the kept order, the newest version in the first tier that knows a key is the last write to it |
| EngineInvariant.StepKeeps | crates/flushdb-engine/src/engine.rs:167-583 | Every operation, successful or failing, keeps the invariant: levels valid, tiers ordered, the history faithfully stored |
| EngineInvariant.RunKeeps | crates/flushdb-engine/src/engine.rs:72-583 | The invariant holds after every run from an empty engine |
| EngineInvariant.FlushKeeps | crates/flushdb-engine/src/flush.rs:54-132 | Flushing the oldest frozen memtable always succeeds and keeps the invariant |
| EngineReads.LevelsAnswerIff | crates/flushdb-engine/src/sstable_handle.rs:287-306 | The search of the levels finds the newest stored version if and only if it is not hidden by a block boundary in L0 |
| EngineReads.ReadIsLastWrite | crates/flushdb-engine/src/read_path.rs:182-237 | A point read returns the last write to its key, or nothing if that deletes it or a buffered range delete covers it, unless the key is obscured by a block boundary |
| EngineReads.EveryReadIsLastWrite | crates/flushdb-engine/src/read_path.rs:182-237 | In every run of puts, deletes, range deletes, freezes, flushes and compactions a point read returns what the history prescribes, if and only if no L0 block boundary hides the last write or neither it nor the version found instead is to be seen |
| EngineTheorems.EngineIsAMap | crates/flushdb-engine/src/engine.rs:167-583 | In every run of puts and point deletes a point read is a lookup in the plain map of the history, except exactly where a block boundary hides the last write behind a version that shows something else |
| Operations.HistoryIsAccepted | crates/flushdb-engine/src/engine.rs:167-366 | The log of a run is exactly what its accepted puts, deletes and range deletes say by their own arguments, one entry each, numbered from one; a write is accepted if and only if it is not stalled, its key is well formed and no unflushed put carries its token |
| Operations.RefusedWrite | crates/flushdb-engine/src/engine.rs:167-366 | A write that is not accepted changes nothing and returns the error of its first fault |
| Operations.RepeatedPutIsRefused | crates/flushdb-engine/src/memtable_list.rs:28-45 | A put repeated with its token is refused as a duplicate as long as the first one is not flushed |
| Operations.DueWriteFlushes | crates/flushdb-engine/src/engine.rs:503-583 | An accepted write that is due freezes the active memtable and flushes the oldest frozen one, unless too many are frozen; one that is not due does neither |
| Operations.MaintenanceMoves | crates/flushdb-engine/src/engine.rs:503-583 | A freeze moves a nonempty active memtable to the frozen ones if there is room, and a flush takes the oldest to disk |
| Operations.EpochsStay | crates/flushdb-engine/src/flush.rs:100-125 | No step of the engine changes the epochs of its manifest |
| Operations.ReadsTheOperations | crates/flushdb-engine/src/engine.rs:167-583 | In every run of puts and point deletes the map that the accepted operations stand for is the map of the log, and a point read is a lookup in it, except exactly where a block boundary hides the last write behind a version that shows something else |
| Operations.ReadsEveryOperationIff | crates/flushdb-engine/src/read_path.rs:182-237 | In every run, range deletes included, a read that no block boundary hides is a lookup in the map of the operations, in which a range delete removes the earlier items of its record from start to end, if and only if a put that a range delete covers is still covered in a memtable and the key is not the tombstone key of a later range delete |
| Operations.TombstoneKeyErases | crates/flushdb-types/src/composite_key.rs:32-49 | A run in which a range delete erases an item outside its range whose key is its tombstone key |
| EngineTheorems.StaleReadIff | crates/flushdb-engine/src/sstable/index_block.rs:63-77 | For a flushed key, the search settles on the last write exactly when no L0 block boundary hides it, and the read misses it exactly when one does and either of the two versions is to be seen, by their kinds and the buffered range deletes |
| EngineTheorems.OverwriteReadsStale | crates/flushdb-engine/src/sstable_handle.rs:132-170 | A run of two puts, a freeze and a flush after which the older value is read |
| EngineTheorems.LevelsStayDisjoint | crates/flushdb-engine/src/sstable_handle.rs:287-306 | In every run L1 to L3 stay sorted and disjoint and the search returns the unique table that holds the key |
| EngineTheorems.RangeDeleteHonouredIff | crates/flushdb-engine/src/memtable_list.rs:199-221 | A read honours the range deletes of the history if and only if one that covers the key is still in a memtable |
| EngineTheorems.FlushedRangeDeletesAreForgotten | crates/flushdb-engine/src/read_path.rs:226-230 | Once nothing is buffered, a key whose own last write is a put reads as present whatever range deletes followed |
| EngineTheorems.FlushedRangeDeleteIsLost | crates/flushdb-engine/src/read_path.rs:226-230 | A run of put, covering delete_range, freeze and flush in which the history deletes the item and the read returns it |
| EngineObject.Engine.Write | crates/flushdb-engine/src/engine.rs:167-356 | The write path changes the fields as one step of the state machine and extends the history by what it accepted |
| EngineObject.Engine.Flush | crates/flushdb-engine/src/engine.rs:494-546 | Flushing pops, writes, commits and opens the table, then compacts, as one step of the state machine |
| EngineObject.Engine.MaybeCompact | crates/flushdb-engine/src/engine.rs:548-583 | The loop over planned tasks runs them until one is rejected, as one step of the state machine |
| EngineObject.Engine.PointRead | crates/flushdb-engine/src/read_path.rs:182-237 | The memtable and level loops compute the specified point read |
| RangeReads.TokenRoundTrip | crates/flushdb-engine/src/read_path.rs:41-89 | A page token survives encoding and decoding |
| RangeReads.FillLoop | crates/flushdb-engine/src/read_path.rs:290-381 | The page loop over the merge iterator computes the specified page and token |
| PageLists.PageLimits | crates/flushdb-engine/src/read_path.rs:293-382 | A page stops with the entry that reaches the page size or the item limit and not before, a page with a token has reached one, the token stands at its last entry, and its size is that of its entries |
| RangeReadTheorems.MemSourceIsNewest | crates/flushdb-engine/src/memtable_list.rs:236-255 | The memtable source holds strictly increasing keys, each with the newest scanned version |
| RangeReadTheorems.MergedIsBest | crates/flushdb-engine/src/read_path.rs:262-296 | Past its start key a merged range holds exactly the newest version on offer for each key, wherever the range begins |
| Pagination.PageContinues | crates/flushdb-engine/src/read_path.rs:239-382 | What is left after a token is the next page, whatever limits it is read with, and what is left after the token of that page |
| Pagination.ScanRange | crates/flushdb-server/src/handlers/read.rs:164-211 | For every page size and item limit, following tokens on an unchanged store ends; the pages put together are the page-wise reading of the merged range, and the unlimited read when the read can resume after every item it shows |
| Pagination.PaginationInvisibleIff | crates/flushdb-engine/src/read_path.rs:239-382 | Pages put together are the unlimited read, whatever limits each request sets, if and only if after every item shown a resumed page hides of the later items exactly what the unlimited read hides |
| PageLists.PagesAgreeIff | crates/flushdb-engine/src/read_path.rs:293-360 | The same for any list in key order, any buffered tombstones and any tombstones that pages resume with |
| Pagination.EvenPaginationIff | crates/flushdb-engine/src/read_path.rs:239-382 | Where no page restarts on a range delete, the condition is that no flushed range delete met before an item that is shown still hides a later one, and pages of one item each differ from the unlimited read exactly when it fails |
| Pagination.ApartIsInvisible | crates/flushdb-engine/src/read_path.rs:239-382 | A range without range-delete entries can be resumed after every item |
| PagedRangeDeletes.PlainItemsPageInvisibly | crates/flushdb-types/src/composite_key.rs:32-65 | Pages make up the unlimited read of every range in every run, range deletes included, when no item key starts with the tombstone prefix byte |
| PagedRangeDeletes.PagesForgetARangeDelete | crates/flushdb-engine/src/read_path.rs:293-360 | A run in which pages of one item return an item that the unlimited read hides, for every page size |
| RangeReadMeaning.UnlimitedIsOnePage | crates/flushdb-engine/src/read_path.rs:239-382 | A read whose page size exceeds the answer returns the whole answer and no token |
| RangeReadMeaning.RangesLieAbove | crates/flushdb-types/src/composite_key.rs:32-65 | Ranges that end at or before the tombstone prefix byte contain no range-delete entry |
| RangeReadMeaning.RangeReadIsMap | crates/flushdb-engine/src/read_path.rs:239-382 | In every run of puts and deletes a range read holds a key past its start exactly when its last write is a put, with that value |
| RangeStarts.StartKeyIsPointRead | crates/flushdb-engine/src/read_path.rs:239-382 | A range read answers for the key it starts at exactly as a point read does, buffered range deletes and block boundaries included |
| RangeStarts.RangeReadIsMapFromStart | crates/flushdb-engine/src/read_path.rs:239-382 | The same from the start key on, which is missed only where a point read misses it |
| RangeBounds.RangeHolds | crates/flushdb-types/src/composite_key.rs:51-65 | The keys of a range are those of the record from the start item, or the first, up to the end item, or the tombstone prefix byte; the read is refused if and only if its arguments are not well formed |
| RangeBounds.RangeReadReturnsItems | crates/flushdb-engine/src/read_path.rs:239-382 | In every run of puts and deletes a range read of a record returns, in key order and without a token, exactly the items within its bounds that the operations left there, with their values and metadata |
| ManifestProtocol.HistoryIsLinear | crates/flushdb-engine/src/manifest/manager.rs:31-148 | In every interleaving of any number of managers stored ids are contiguous, each manifest is the recorded update applied to exactly its predecessor, each accepted update occurs once, and the flushed sequence never goes back |
| ManifestProtocol.StoredForever | crates/flushdb-engine/src/manifest/manager.rs:111-115 | A stored manifest is never replaced |
| ManifestProtocol.EpochFallsIff | crates/flushdb-engine/src/manifest/types.rs:503-505 | The stored writer or compactor epoch goes back if and only if the update is not of the kind that checks it and its manager is behind |
| ManifestProtocol.WriterFencing | crates/flushdb-engine/src/manifest/manager.rs:89-213 | With own-epoch flushes the stored writer epoch never falls, claims never repeat and no flush commits under an epoch below one stored before it |
| ManifestProtocol.CompactorFencing | crates/flushdb-engine/src/manifest/manager.rs:178-226 | With own-epoch compactions the stored compactor epoch never falls, claims never repeat and no compaction commits under an epoch below one stored before it |
| ManifestProtocol.StaleUpdateRepeatsEpoch | crates/flushdb-engine/src/manifest/manager.rs:303-309 | A run in which one update of the other kind makes two managers hold the same epoch: a compaction for writers, a flush for compactors |
| ManifestProgress.ApplyHolds | crates/flushdb-engine/src/manifest/types.rs:457-508 | An update applies if and only if the tables it removes are there and the flushed mark does not go back, and the result has the next id, the epochs of the update, and the old tables without those removed and with those added |
| ManifestProgress.UncontendedUpdate | crates/flushdb-engine/src/manifest/manager.rs:89-148 | An update of an up-to-date manager is committed at once, with its ticket and epochs, if and only if its epoch is not behind, the tables it removes are there, those it adds are not and the flushed mark does not go back |
| ManifestProgress.LostRace | crates/flushdb-engine/src/manifest/manager.rs:113-145 | A lost race writes nothing and is tried again on the newest manifest, five attempts in all |
| ManifestProgress.RetryGoesOn | crates/flushdb-engine/src/manifest/manager.rs:126-140 | After the refresh the update goes on if and only if its epoch is not behind and the tables it removes are still there |
| ManifestProgress.UncontendedClaim | crates/flushdb-engine/src/manifest/manager.rs:151-203 | A claim without contention stores the next epoch of its role, changes nothing else and makes it the own epoch of the manager |
| VersionGenerators.BytesRoundTrip | crates/flushdb-types/src/ordered_key.rs:31-78 | The 12-byte form reads back |
| VersionGenerators.BytesKeepOrder | crates/flushdb-types/src/ordered_key.rs:15-78 | The 12-byte forms sort exactly as the versions do |
| VersionGenerators.PackRoundTrip | crates/flushdb-server/src/version_generator.rs:17-25 | Timestamps below 2^48 and 16-bit sequences unpack from the word |
| VersionGenerators.WordArithmetic | crates/flushdb-server/src/version_generator.rs:70-78 | Adding one to a word whose sequence is not the last never carries into the timestamp |
| VersionGenerators.VersionsIncrease | crates/flushdb-server/src/version_generator.rs:52-91 | For every interleaving and every clock below 2^48 ms, going back included, versions and their encodings come out strictly increasing |
| VersionGenerators.CallReturns | crates/flushdb-server/src/version_generator.rs:52-91 | An uncontended call returns a version at the later of clock and last timestamp, with the first or the next sequence, or waits when the sequence of the timestamp is used up |
| VersionGenerators.TwoCallsIncreaseIff | crates/flushdb-server/src/version_generator.rs:17-91 | From every reachable word, two calls of an idle thread at one clock reading give increasing versions if and only if the reading is below 2^48 ms |
| VersionGenerators.ClockBoundIsExact | crates/flushdb-server/src/version_generator.rs:17-91 | Versions increase in every interleaving under a clock if and only if none of its readings reaches 2^48 ms |
| VersionGenerators.ClockPastTheWordRepeats | crates/flushdb-server/src/version_generator.rs:17-19 | At 2^48 ms two calls in a row return the same version |
| WalEntries.BodyRoundTrip | crates/flushdb-wal/src/entry.rs:43-146 | A log entry whose fields fit their prefixes decodes from its body |
| WalEntries.BodyInverse | crates/flushdb-wal/src/entry.rs:85-146 | A body that decodes begins with the byte form of the entry it decodes to |
| WalEntries.EncodeBatch | crates/flushdb-wal/src/segment_writer.rs:54-64 | The batch buffer is the entries encoded one after the other |
| WalSegments.OpensWithStart | crates/flushdb-wal/src/segment_header.rs:27-66 | A segment opens with the starting sequence of its header, and with its number and creation time when they fit their fields |
| WalSegments.OpensOnlySegments | crates/flushdb-wal/src/segment_header.rs:27-66 | A file opens if and only if it begins with the header of some segment |
| WalSegments.SegmentReader.Next | crates/flushdb-wal/src/segment_reader.rs:46-107 | One call delivers the next entry, the end at a torn, zero-filled or corrupt tail, or an error, and moves the position accordingly |
| WalSegments.ReadsBack | crates/flushdb-wal/src/segment_reader.rs:46-150 | Entries followed by any torn tail read back exactly, with no error |
| WalSegments.DamageIsReported | crates/flushdb-wal/src/segment_reader.rs:92-124 | Entries before a body with a wrong checksum read back, and reading ends with a checksum error if at least eight bytes follow that are not all zero, and without one otherwise |
| WalSegments.NonsenseIsReported | crates/flushdb-wal/src/segment_reader.rs:82-91 | A body with its own checksum that is no entry ends the reading with an error |
| WalSegments.PaddingEnds | crates/flushdb-wal/src/segment_reader.rs:56-60 | Zero padding after the entries ends the segment without an error |
| WalSegments.CutLeavesPrefix | crates/flushdb-wal/src/segment_reader.rs:46-73 | A cut anywhere leaves whole entries and a torn tail and loses no entry that lies before it |
| WalReplay.Replay | crates/flushdb-wal/src/wal_reader.rs:40-77 | replay_all and replay_from as loops compute the specified stream, skipping included |
| WalReplay.WalEntryIterator.Next | crates/flushdb-wal/src/wal_reader.rs:126-193 | Each call delivers the head of what remains of the replay, or its error, or its end |
| WalReplay.DrainIterator | crates/flushdb-wal/src/wal_reader.rs:80-193 | The lazy iterator, drained, returns what the eager replay returns |
| WalReplay.SkippingInvisibleIff | crates/flushdb-wal/src/wal_reader.rs:52-77 | Replay from a minimum equals the filtered full replay for every minimum if and only if each header start lies above all entries of the segment before |
| WalReplay.ReplayReportsDamage | crates/flushdb-wal/src/wal_reader.rs:40-77 | A full replay of good segments, one damaged in the middle and anything after it delivers what lies before the damage and fails with a checksum error |
| GroupCommits.AcknowledgedCommitsSurvive | crates/flushdb-wal/src/group_commit.rs:117-210 | After any run and a crash at any cut, replay returns what the opening found plus a prefix of the submitted entries in channel order, numbered consecutively, with every acknowledged commit in it, rotations included |
| GroupCommits.OpeningFindsTheLog | crates/flushdb-wal/src/wal_writer.rs:20-67 | Opening a log continues the numbering exactly after what a replay returns |
| GroupCommits.SkippingIsInvisible | crates/flushdb-wal/src/wal_reader.rs:52-77 | In every log that openings, appends, rotations, failed writes and crashes build, replay from a minimum is the filtered full replay |
| CommitLoop.GroupCommitLoop.RunOnce | crates/flushdb-wal/src/group_commit.rs:125-210 | One round of the loop is a run of the single file steps of the model over the commits it collected, a torn write, a failed rotation and a failed sync included, and acknowledges exactly when all succeeded |
| CommitLoop.GroupCommitLoop.Collect | crates/flushdb-wal/src/group_commit.rs:151-169 | A round takes the first commits of the channel in order, as long as they stay below the byte limit and the interval is not over, and stops for no other reason than these or an empty channel |
| CommitLoop.RotatesWhenFull | crates/flushdb-wal/src/wal_writer.rs:82-109 | A round begins a new segment if and only if the batch brought the current one to its target size, and leaves everything synced |
| CommitLoop.TotalSizeIsEncoded | crates/flushdb-wal/src/group_commit.rs:125-169 | The bytes a batch is measured by are the bytes it takes on disk |
| DirtySegments.DirtySegmentTracker.RecordWrite | crates/flushdb-wal/src/dirty_tracker.rs:23-33 | The write is recorded with the highest sequence per segment and generation |
| DirtySegments.DirtySegmentTracker.MarkGenerationFlushed | crates/flushdb-wal/src/dirty_tracker.rs:35-50 | The generation is forgotten everywhere and the segments it was the last to pin are reported in ascending order |
| DirtySegments.ReportedIsClean | crates/flushdb-wal/src/dirty_tracker.rs:35-57 | A segment is reported exactly when the flush made it clean |
| DirtySegments.PinnedUntilFlushed | crates/flushdb-wal/src/dirty_tracker.rs:35-50 | A recorded generation pins its segment through every flush of another generation |
| DirtySegments.RecordsHighest | crates/flushdb-wal/src/dirty_tracker.rs:23-33 | Of the writes recorded for a segment and generation the highest sequence is kept, and other segments and generations are left alone |
| Recovery.RecoverLoop | crates/flushdb-engine/src/recovery.rs:27-99 | The replay loop rebuilds the memtable, skips repeated tokens and computes the next sequence as specified |
| RecoveryInvariant.NoUnflushedEntryIsRemoved | crates/flushdb-wal/src/wal_manager.rs:100-127 | In every run of the first lifetime without misplaced tracker entries a removed segment holds only entries that are in a table, so every other entry is in a live segment |
| Retention.MisplacedIsLost | crates/flushdb-wal/src/wal_manager.rs:50-59 | A write recorded after the rotation it caused is lost by some continuation of flushes and cleanups when its segment is recorded for other generations only |
| Retention.RetentionIff | crates/flushdb-wal/src/wal_manager.rs:50-127 | In every run no unflushed entry can be lost, at any point and however the engine goes on without writes, if and only if no admitted write is recorded after its rotation while its segment is recorded for other generations only |
| RecoveryTheorems.FirstCrashRecovery | crates/flushdb-engine/src/recovery.rs:27-99 | After any run of puts and deletes and a crash between any two steps, a logged write not yet in the memtable included, recovery succeeds and continues the sequence; a point read answers as before if and only if the last flushed write is not one that a block boundary hid and a live segment brings back, or the two versions show the same |
| RecoveryTheorems.HiddenWriteResurfaces | crates/flushdb-engine/src/recovery.rs:57-91 | A run of two puts of one key, freeze and flush whose read returns the first value before the crash and the second after recovery |
| RecoveryTheorems.RecoverReportsDamage | crates/flushdb-engine/src/recovery.rs:57-91 | A log whose last segment is damaged in the middle is not recovered in part; recovery fails |
| RecoveryTheorems.RecoveryKnowsTokens | crates/flushdb-engine/src/recovery.rs:57-91 | After recovery the tokens of all writes that are in no table are known again, and besides only that of the last flushed write |
| RecoveryTheorems.RepeatsAreSkipped | crates/flushdb-engine/src/recovery.rs:57-91 | A write that the log holds twice with one token is replayed once |
| RecoveryTheorems.MisplacedRecordLosesAWrite | crates/flushdb-wal/src/wal_manager.rs:50-59 | A run in which a record made after a racing rotation lets the segment of an unflushed write be removed |
| CoalescedFetches.Group | crates/flushdb-engine/src/cache/coalescing.rs:95-109 | The grouping loop cuts the misses into contiguous runs, in order and without loss, no two of which could be one |
| CoalescedFetches.SliceOfRun | crates/flushdb-engine/src/cache/coalescing.rs:122-155 | Slicing a run read in one piece gives each block as a read of its own gives it |
| CoalescedFetches.CoalescingFetcher.FetchBlocks | crates/flushdb-engine/src/cache/coalescing.rs:58-172 | An answer is the individually read blocks of all requests in block-index order, the cache still agrees with the file, and readable blocks are answered |

## Left out

- `put_batch`: the batch is logged under one generation and inserted with assigned sequence numbers; single puts and deletes are modelled.
- `Engine::get` with a limited read budget, which may stop early; reads are those of `ReadPath::point_read` and `range_read`.
- Range deletes once flushed: no refinement is claimed for them, only the exact condition under which a read honours them.
- `prune_old_manifests`, and managers that submit an update before they ever loaded a manifest; recovery always loads first.
- The BatchSync mode of the group commit loop, and logs after segments were removed and the directory reopened; the second and later lifetimes of an engine, where log and memtable numbers differ.
- GroupCommits.AcknowledgedCommitsSurvive: field lengths fit their prefixes and fewer than 2^64 - 1 entries are logged; at that bound the model's writer stops where the counter would overflow.
- SstFiles.FileIsASortedMap: block sizes, part sizes and counts fit the 32- and 64-bit fields that hold them, since the writer casts without a check.
- RecoveryTheorems.FirstCrashRecovery: tokens are distinct, no range deletes, first lifetime; a token reused after its first use was flushed would be skipped by replay.
- CoalescedFetches.CoalescingFetcher.FetchBlocks: an offset of the index has one size, as in every written file; cache keys across run fragments are not modelled.
- BlockCodec.BlockBuilder.AddEntry: the idempotency tokens collected for the dedup block are not tracked, as no read consults them.
- SstFiles.WriteFile: the dedup block is an opaque byte string given to the writer, as no read consults it.
- EngineObject.Engine.Write: the log append and its failure are not part of this write path; `Recovery` models the append, the tracker entry and the memtable insert as steps of their own, and `GroupCommits` the failures of the log.
- Blob references decode to empty values and are never written.
- Base64 forms of page tokens, JSON forms of manifests, paths, S3 and file system clients, gRPC handlers other than the paging loop, configuration, metrics, size estimation, pinned metadata, continuity tracking and partition life cycles.
- `multi_get`, which is a loop of point reads.
