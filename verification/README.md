# A verified model of the LevelDB engine and nanopb as vendored under `ios-game/Pods`

This project models the storage engine that the game vendors, and proves that it reads back what was
written: through memtables, seven levels of tables, background compactions, snapshots, crashes and
recovery, down to the bytes of logs, manifests and blocks. It also models nanopb's encoder and decoder.

Line numbers refer to the vendored copies. `dafny verify dfyconfig.toml` checks everything.

## What it says

**Reads are reads of a map.** `Database` is a state machine: memtables, levels, logs, a manifest with its
records, snapshots, a compaction that runs in the background, garbage collection, crash and reopening.
`DatabaseReads.RunsReadMap` states that after any run every read at the last sequence or at a live
snapshot returns what a plain map held at that sequence. Levels are sorted by internal key: a user key
may be split over several files. Flushes interleave with running compactions. `DatabaseIteration` says
the same of iterators, and `DbIter` and `Merger` prove the two cursor classes, direction switches
included. `HeldReads` lets a Get or an iterator keep the memtables and the version it started from while
the run goes on, garbage collection included: it still reads the map as of its sequence.

**Two hypotheses, and why.** No compaction or move picks the newer part of a split user key without the
older, and no flush lands inside the range of an output of a running manual compaction. This copy keeps
neither. It may cut an output between two versions of one user key (`db/db_impl.cc:898-904`,
`db/db_impl.cc:965-973`) and later pick one of the two files (`db/version_set.cc:1258-1264`,
`db/version_set.cc:1377-1387`): `StaleRuns.SplitKeyGivesStaleRead` is such a run, made of picks and cuts
that the code makes, for all payloads that fill an output. `SplitKeys.MoveIsSafeExactly` and
`SplitKeys.CompactionIsSafeExactly` are the exact conditions for one move and one compaction. And the
inputs of a manual compaction may leave a gap: `StaleRuns.FlushIntoGapLosesRead` is a run in which a
memtable is flushed into it (a build with assertions stops in `SaveTo`, `db/version_set.cc:732-745`), and
`FlushReads.FlushReadsExactly` the exact condition. Automatic compactions have no gap
(`RunningCompaction.NoGapMayFlush`). The first hypothesis always holds where no output splits a user key
(`UnsplitRuns.UnsplitRunsReadMap`), so in runs that start compactions only while no snapshot is alive
(`UnsplitRuns.UndisturbedRunsReadMap`).

**What is compacted, and where outputs end.** `CompactionInputs.GrowsExactly` says when the inputs of a
compaction grow, in files and bytes of the levels, and `CompactionCuts.StopsExactly` before which keys an
output is closed because of the grandparents: no output comes to lie over more than 20 MB of them
(`CompactionCuts.OutputsOverlapLittle`). `Ranges.FlushLevelIsDeepest` says how deep a flush goes, and
`DatabaseInvariant.DeleteLeavesNoGarbage` what garbage collection leaves.

**The manifest replays.** In every run, folding the snapshot record and the edits logged since gives the
current version (`DatabaseReads.ReplayRebuildsVersion`): numbers are never given twice and files only move
down. `ManifestRecords.CrashedManifestRecovers` carries this to the bytes of the manifest file, torn in the
middle of the next edit.

**Writers commit serially.** `GroupCommit` models the writer queue thread by thread, with failures of
the log append and of the sync. `SerialCommit` proves that grouping is invisible, that completion is
first in, first out and final, and that a crash loses no synchronous write that was acknowledged. Its
log holds the bytes of write batches (`WriteBatches`), and the last theorem goes through the log file
format. `BatchGroups.GroupReaches` says in bytes how far a group reaches, and
`SyncFailures.FailedSyncStopsWrites` that nothing is acknowledged behind a failed sync.

**The log survives being cut.** `LogFormat` gives the format and the reader for arbitrary bytes;
`LogWriting` and `LogReading` are the two classes; `LogRoundTrip.TruncatedLogYieldsWholeRecords` says
what any prefix of a log reads as. `LogSoundness` speaks of arbitrary files: what is used stands in the
file with its checksum (`LogSoundness.PiecesAreFragments`), records are exactly the whole runs of such
fragments (`LogSoundness.RecordsAreWholeRuns`), and every byte of a fragment ends in a record, in a report
or in the record that the file breaks off (`LogSoundness.NothingIsLostSilently`).
`VersionEdits.ManifestRoundTrip` carries this over to version edits.
`VersionEdits.ReusedEditKeepsPointers` records that `VersionEdit::Clear` (`db/version_edit.cc:26-39`)
leaves the compaction pointers in place.

**Readers need no lock.** `SkipLists` is the list with its bottom-up linking; `ConcurrentSkipList`
interleaves one writer with any number of readers, load by load and store by store, and proves that
every level stays a sorted sublist of the one below and that each of the three searches answers for the
moment of its last load.

**Tables find what was added.** `Blocks` goes from entries to prefix-compressed bytes and back by
`Next`, `Prev` and `Seek`; `TableFiles` proves that the shortened index keys lead every lookup to the
right block; `TwoLevelIterators` walks the concatenation; `Bloom` and `FilterBlocks` never hide a key, and
`TableFilters` puts the filter in front of a lookup.
`TableFiles.BoundsAloneMissEntries` shows why the separator's exact form matters.

**The cache agrees with itself.** `HandleTables` is the chained hash table with its resizing, and
`LruCaches` keeps table, list, charges and reference counts in agreement, deletes every handle once and
evicts no more than it must.

**nanopb writes what it sized and reads what it wrote.** `PbEncode` proves the two passes equal for every
descriptor tree, so that the error "submsg size changed" cannot occur; `PbIStream` is the decoder with
its substreams and field iterator, proved against the recursive specification in `PbDecode`;
`PbRoundTrip.MessageRoundTrip` is the round trip, and `PbAnyInput` speaks of arbitrary input.
`PbMessages.RequiredFieldsCame` and `PbMessages.RequiredKeysCame` say when arbitrary bytes are accepted, and
`PbMessages` what becomes of fields that come more than once; `PbWire.MessageKeys` is what goes on the wire.
`PbRoundTrip.DecodesIfTerminated` is the exact condition: a string that fills its buffer encodes without
decoding.

## Reading order

| file | module | contents |
|---|---|---|
| `common.dfy`, `internal_keys.dfy`, `bytewise.dfy` | Common, InternalKeys, Bytewise | order of internal keys, lookup in a sorted run, the bytewise comparator |
| `version.dfy`, `ranges.dfy` | Version, Ranges | a version and the searches in it |
| `compaction_inputs.dfy`, `compaction.dfy`, `compaction_cuts.dfy` | CompactionInputs, CompactionWork, CompactionCuts | what is compacted, what survives, and where outputs end |
| `builder.dfy`, `manifest.dfy`, `version_edit.dfy`, `manifest_records.dfy` | Builder, Manifests, VersionEdits, ManifestRecords | version edits and the manifest |
| `tables.dfy`, `running.dfy` | Tables, RunningCompaction | how versions change, and compactions that run meanwhile |
| `database.dfy`, `database_invariant.dfy`, `recovery.dfy` | Database, DatabaseInvariant, DatabaseRecovery | the state machine and its invariant |
| `database_reads.dfy`, `unsplit.dfy`, `database_iteration.dfy`, `held_reads.dfy` | DatabaseReads, UnsplitRuns, DatabaseIteration, HeldReads | what readers see |
| `split_keys.dfy`, `flush_reads.dfy`, `coded_runs.dfy`, `stale_runs.dfy` | SplitKeys, FlushReads, CodedRuns, StaleRuns | exact conditions, and runs that go wrong without them |
| `internal_iterator.dfy`, `db_iter.dfy`, `merger.dfy` | InternalIterators, DbIter, Merger | cursors |
| `coding.dfy`, `crc32c.dfy`, `log_*.dfy`, `write_batch.dfy` | Coding, Crc32c, LogFormat, LogWriting, LogReading, LogRoundTrip, LogSoundness, WriteBatches | bytes |
| `batch_group.dfy`, `group_commit.dfy`, `serial_commit.dfy`, `sync_failures.dfy` | BatchGroups, GroupCommit, SerialCommit, SyncFailures | the writer queue |
| `skip_list.dfy`, `skip_list_readers.dfy` | SkipLists, ConcurrentSkipList | the memtable's list and its readers |
| `block.dfy`, `table.dfy`, `two_level_iterator.dfy`, `bloom.dfy`, `filter_block.dfy`, `table_filter.dfy` | Blocks, TableFiles, TwoLevelIterators, Bloom, FilterBlocks, TableFilters | inside a table file |
| `handle_table.dfy`, `lru_cache.dfy` | HandleTables, LruCaches | the cache |
| `pb_fields.dfy`, `pb_encode.dfy`, `pb_decode.dfy`, `pb_istream.dfy`, `pb_round_trip.dfy`, `pb_any_input.dfy`, `pb_messages.dfy`, `pb_wire.dfy` | PbFields, PbEncode, PbDecode, PbIStream, PbRoundTrip, PbAnyInput, PbMessages, PbWire | nanopb |

## Model

| member | source | states |
|---|---|---|
| `InternalKeys.LookupFindsNewest` | ios-game/Pods/leveldb-library/db/memtable.cc:108-143 | one seek at (key, s) in a sorted run finds the newest entry of the key with sequence at most s, or shows that there is none |
| `Bytewise.RankIsAnOrderEmbedding` | ios-game/Pods/leveldb-library/util/comparator.cc:25-27 | byte strings embed into the reals in comparator order, injectively: reals are faithful user keys |
| `Bytewise.FindShortestSeparator` | ios-game/Pods/leveldb-library/util/comparator.cc:29-51 | the shortened key is never longer, lies in [start, limit) when start precedes limit; it is start with the byte raised where the two part by more than one, and start itself otherwise |
| `Bytewise.FindShortSuccessor` | ios-game/Pods/leveldb-library/util/comparator.cc:53-65 | the result follows the key and no key that follows it is shorter, except that exactly the runs of 0xff are left alone |
| `Bytewise.ShortestSeparator` | ios-game/Pods/leveldb-library/db/dbformat.cc:68-85 | an index key between two internal keys keeps their order under the internal comparator |
| `Bytewise.ShortSuccessor` | ios-game/Pods/leveldb-library/db/dbformat.cc:87-99 | the last index key of a table is at or after the last internal key |
| `Version.FindFile` | ios-game/Pods/leveldb-library/db/version_set.cc:77-96 | binary search returns the first file whose largest key is at or after the key |
| `Version.LevelProbeFindsNewest` | ios-game/Pods/leveldb-library/db/version_set.cc:362-377 | on sorted disjoint files, probing the single file found by binary search gives the newest visible entry of the whole level |
| `Version.ProbeLevelsFindsNewest` | ios-game/Pods/leveldb-library/db/version_set.cc:341-416 | level 0 newest file first, then one file per level, stopping at the first hit: the newest visible entry of the version, given that newer data sits above older |
| `Version.Get` | ios-game/Pods/leveldb-library/db/version_set.cc:323-420 | the loop over levels and candidate files returns what the level-by-level probe specifies |
| `Ranges.SomeFileOverlapsRange` | ios-game/Pods/leveldb-library/db/version_set.cc:112-147 | binary search over disjoint files, or the scan over others, says exactly whether some file meets the range, open ends included |
| `Ranges.GetOverlappingInputs` | ios-game/Pods/leveldb-library/db/version_set.cc:522-563 | terminates; above level 0 exactly the files meeting the range; at level 0 exactly those meeting the least range that contains the request and every file it meets |
| `Ranges.FlushLevelIsClear` | ios-game/Pods/leveldb-library/db/version_set.cc:493-519 | a flush level below 0 meets no file at its own or any shallower level |
| `Ranges.FlushLevelIsDeepest` | ios-game/Pods/leveldb-library/db/version_set.cc:493-519 | which level it is, in files and bytes: as deep as level 2 while neither the level nor the next meets the range and at most 20 MB two levels further down do |
| `Ranges.SizesAdd` | ios-game/Pods/leveldb-library/db/version_set.cc:49-55 | the bytes of files put together are the sums of theirs |
| `Ranges.PickLevelForMemTableOutput` | ios-game/Pods/leveldb-library/db/version_set.cc:493-519 | the loop stops at the level that the overlap and grandparent rules determine |
| `CompactionInputs.GapLetsRangeThrough` | ios-game/Pods/leveldb-library/db/version_set.cc:1243-1295 | inputs without a gap are exactly those that no foreign range can hide inside |
| `CompactionInputs.LeftoverBeside` | ios-game/Pods/leveldb-library/db/version_set.cc:1297-1362 | files of level + 1 that are not inputs have all inputs on one and the same side, split user keys or not |
| `CompactionInputs.SetupOtherInputs` | ios-game/Pods/leveldb-library/db/version_set.cc:1297-1362 | exactly the inputs that the expansion rule and its byte limit give; they stay legal, keep what was picked, and gain no gap; grandparents are the files meeting the range; user keys may be split over files |
| `CompactionInputs.GrowsExactly` | ios-game/Pods/leveldb-library/db/version_set.cc:1297-1362 | when inputs grow: all files of the level that meet the first inputs of both levels (at level 0 their closure) are taken if and only if they are more, stay below 50 MB with the files of level + 1, and meet no further file of level + 1; otherwise exactly the first ones |
| `CompactionInputs.GrandparentsAre` | ios-game/Pods/leveldb-library/db/version_set.cc:1342-1347 | the grandparents are exactly the files two levels down that meet the hull of all inputs, in order |
| `CompactionInputs.PickCompaction` | ios-game/Pods/leveldb-library/db/version_set.cc:1243-1295 | exactly the inputs picked from the first file: legal, without a gap, whatever user keys are split over files |
| `CompactionInputs.PickStartsExactly` | ios-game/Pods/leveldb-library/db/version_set.cc:1281-1290 | an automatic compaction starts from its first file alone, at level 0 from all files of the closure of its range |
| `CompactionInputs.FileAfterPointer` | ios-game/Pods/leveldb-library/db/version_set.cc:1257-1268 | the first file that ends after the compaction pointer, or the first of the level when none does |
| `CompactionInputs.CompactRange` | ios-game/Pods/leveldb-library/db/version_set.cc:1364-1397 | nothing to do exactly when no file meets the request; otherwise exactly the files of the range, cut short at the target size and expanded, which are legal inputs |
| `CompactionInputs.RangeStartsExactly` | ios-game/Pods/leveldb-library/db/version_set.cc:1370-1388 | above level 0 a manual compaction starts from the shortest run of the files meeting the request that reaches 2 MB, or all of them |
| `CompactionInputs.RangeStartsAtZero` | ios-game/Pods/leveldb-library/db/version_set.cc:1370-1388 | at level 0 it starts from all files of the closure of the request |
| `CompactionWork.Compaction.IsBaseLevelForKey` | ios-game/Pods/leveldb-library/db/version_set.cc:1434-1453 | the cursor that only moves forward agrees with a full scan of levels L+2 and deeper for ascending keys |
| `CompactionWork.KeptCharacterised` | ios-game/Pods/leveldb-library/db/db_impl.cc:906-940 | an entry survives exactly when it is newer than the oldest snapshot, or the newest of its key at that snapshot and not a deletion marker with nothing below |
| `CompactionWork.DroppingPreservesAnswers` | ios-game/Pods/leveldb-library/db/db_impl.cc:906-940 | the drop rules change no answer at or after the oldest snapshot |
| `CompactionWork.OneEntryPerKey` | ios-game/Pods/leveldb-library/db/db_impl.cc:868-872 | with no older snapshot alive a compaction keeps at most one entry of a key |
| `CompactionWork.Compaction.ShouldStopBefore` | ios-game/Pods/leveldb-library/db/version_set.cc:1456-1479 | the cursor over the grandparents answers and moves as the one that `CompactionCuts.StopsExactly` speaks of |
| `CompactionCuts.StopsExactly` | ios-game/Pods/leveldb-library/db/version_set.cc:1456-1479 | over any ascending run of keys: stop at a key if and only if the grandparents that end before it, but not before the key of the last stop or the first key, hold more than 20 MB |
| `CompactionWork.OutputsAreKept` | ios-game/Pods/leveldb-library/db/db_impl.cc:894-973 | wherever outputs end, together they hold exactly the surviving entries |
| `CompactionWork.OutputsEndOnlyWhereTheyMust` | ios-game/Pods/leveldb-library/db/db_impl.cc:894-973 | every output but the last has reached the target size or would overlap too much, and no proper part of one had |
| `CompactionCuts.OutputsOverlapLittle` | ios-game/Pods/leveldb-library/db/db_impl.cc:898-904 | no output comes to lie over more than 20 MB of grandparents: those that end between its first and its last entry |
| `CompactionCuts.OutputsEndForSize` | ios-game/Pods/leveldb-library/db/db_impl.cc:898-973 | an output that ended below the target size was followed by a key that brought the grandparents since the last stop over 20 MB |
| `CompactionWork.DoCompactionWork` | ios-game/Pods/leveldb-library/db/db_impl.cc:855-976 | the loop, with the two drop rules, the size test and ShouldStopBefore, leaves exactly the specified files; together they hold the surviving entries in order |
| `Builder.SaveLevelMembers` | ios-game/Pods/leveldb-library/db/version_set.cc:702-764 | a saved level holds exactly the base and added files that are not deleted |
| `Builder.SaveTo` | ios-game/Pods/leveldb-library/db/version_set.cc:702-748 | the interleaving loop merges base and added files in order and drops the deleted ones |
| `Builder.RecoverRebuildsVersion` | ios-game/Pods/leveldb-library/db/version_set.cc:896-1009 | at one level: folding the snapshot record and all later edits, then saving once, gives the files that installing every edit gave, provided no number is added again |
| `Builder.ReAddedNumberDiverges` | ios-game/Pods/leveldb-library/db/version_set.cc:656-699 | without that proviso the two differ: a witness for every pair of such files |
| `Manifests.LogKeepsTrack` | ios-game/Pods/leveldb-library/db/version_set.cc:811-894 | logging an edit with the version it makes keeps the manifest on track: numbers are fresh at every level, files only move down, a number names one table |
| `Manifests.ReplayGivesVersion` | ios-game/Pods/leveldb-library/db/version_set.cc:896-1009 | hence replaying all levels of the manifest gives the version, with nothing left to assume |
| `Tables.AddTable` | ios-game/Pods/leveldb-library/db/db_impl.cc:457-501 | placing the table of a memtable at an allowed level keeps levels in order and extends what the tables answer for |
| `Tables.MoveTable` | ios-game/Pods/leveldb-library/db/db_impl.cc:686-703 | a trivial move changes no answer, if no file left at its level goes on with the last user key of the moved one |
| `RunningCompaction.StartIsOk` | ios-game/Pods/leveldb-library/db/db_impl.cc:855-875 | a compaction whose picks divide no user key starts with its inputs oldest in their place and its outputs fitting between the files left, wherever they are cut |
| `RunningCompaction.FlushKeepsRunning` | ios-game/Pods/leveldb-library/db/db_impl.cc:885-895 | a memtable flushed inside a running compaction leaves it sound, unless it lands at the output level inside the range of an output |
| `RunningCompaction.NoGapMayFlush` | ios-game/Pods/leveldb-library/db/version_set.cc:493-519 | where the inputs leave no gap, as in automatic compactions, every flush fits |
| `RunningCompaction.FlushFitsExactly` | ios-game/Pods/leveldb-library/db/db_impl.cc:885-895 | the output level stays in order if and only if the flushed table lies apart from every output |
| `FlushReads.FlushReadsExactly` | ios-game/Pods/leveldb-library/db/db_impl.cc:885-895 | once the compaction has finished, every read finds the newest entry if and only if the flushed table lies apart from every output |
| `FlushReads.EntryIsLost` | ios-game/Pods/leveldb-library/db/version_set.cc:77-96 | what a table inside the range of an output holds is not found, although every level is split at the key as binary search needs it |
| `RunningCompaction.RestIsNewerAtBase` | ios-game/Pods/leveldb-library/db/db_impl.cc:926-935 | the argument for dropping a deletion marker: for a key with nothing deeper, everything outside the inputs is newer, whatever was flushed meanwhile |
| `RunningCompaction.FinishKeepsTables` | ios-game/Pods/leveldb-library/db/db_impl.cc:834-853 | replacing inputs by outputs keeps every answer at or after the oldest snapshot, outputs that split a user key included |
| `DatabaseInvariant.LogAppendKeeps` | ios-game/Pods/leveldb-library/db/db_impl.cc:1190-1202 | appending a group to the log keeps the invariant |
| `DatabaseInvariant.MemApplyKeeps` | ios-game/Pods/leveldb-library/db/db_impl.cc:1200-1213 | inserting it with consecutive sequence numbers keeps the invariant |
| `DatabaseInvariant.SwitchKeeps` | ios-game/Pods/leveldb-library/db/db_impl.cc:1322-1344 | the memtable switch keeps the invariant, new log number included |
| `DatabaseInvariant.FlushKeeps` | ios-game/Pods/leveldb-library/db/db_impl.cc:503-534 | a flush moves the memtable into a table and lets go of its log in one edit; inside a running compaction it only has to fit between the outputs |
| `DatabaseInvariant.MoveKeeps` | ios-game/Pods/leveldb-library/db/db_impl.cc:686-703 | a trivial move that divides no user key keeps the invariant, manifest included |
| `DatabaseInvariant.StartKeeps` | ios-game/Pods/leveldb-library/db/db_impl.cc:855-875 | starting a compaction whose picks divide no user key keeps the invariant |
| `DatabaseInvariant.FinishKeeps` | ios-game/Pods/leveldb-library/db/db_impl.cc:834-853 | finishing it keeps the invariant, manifest included |
| `DatabaseInvariant.SnapshotsKeep` | ios-game/Pods/leveldb-library/db/snapshot.h:41-57 | taking and releasing snapshots in any order keeps the list sorted and the invariant |
| `DatabaseInvariant.SnapshotsAreCounted` | ios-game/Pods/leveldb-library/db/snapshot.h:33-60 | the list holds exactly the snapshots taken and not yet released, and what a compaction may drop is bounded by the oldest of them, or the last sequence when there is none |
| `DatabaseInvariant.DeleteKeeps` | ios-game/Pods/leveldb-library/db/db_impl.cc:218-272 | garbage collection removes no table or log that a reader or recovery needs |
| `DatabaseInvariant.DeleteLeavesNoGarbage` | ios-game/Pods/leveldb-library/db/db_impl.cc:218-272 | and leaves nothing else: exactly the logs of the two memtables, and exactly the tables of the version, of a running compaction, and those pinned |
| `DatabaseRecovery.ReplayedLogsCover` | ios-game/Pods/leveldb-library/db/db_impl.cc:309-339 | the logs numbered at or above the manifest log number hold exactly the writes that are in no table |
| `DatabaseRecovery.RecoveredSequence` | ios-game/Pods/leveldb-library/db/db_impl.cc:412-417 | the recovered last sequence is that of the last logged write |
| `DatabaseRecovery.ReplayExtendsTables` | ios-game/Pods/leveldb-library/db/db_impl.cc:362-455 | cutting replayed records into memtables anywhere and writing each at level 0 extends the tables to the whole history |
| `DatabaseRecovery.ReopenKeeps` | ios-game/Pods/leveldb-library/db/db_impl.cc:274-360 | crash and recovery, which replays the manifest and the logs, bring back the version and the invariant with every logged write |
| `DatabaseRecovery.ReopenIsEnabled` | ios-game/Pods/leveldb-library/db/db_impl.cc:274-360 | from every state a crash may find, recovery can go through: the tables of the replayed manifest are on disk and the logs it counts are there |
| `DatabaseReads.HistoryIsMap` | ios-game/Pods/leveldb-library/db/db_impl.cc:1077-1122 | newest visible entry over the history is lookup in a plain map |
| `DatabaseReads.GetReadsMap` | ios-game/Pods/leveldb-library/db/db_impl.cc:1077-1122 | in every state satisfying the invariant, Get at any promised sequence returns what the plain map held then |
| `DatabaseReads.RunsReadMap` | ios-game/Pods/leveldb-library/db/db_impl.cc:655-738 | main theorem over whole runs: writes, switches, flushes inside compactions, moves, compactions, snapshots, garbage collection, crashes and reopenings in any order leave every read correct, if no pick divides a user key and no flush lands inside the range of an output of a manual compaction |
| `DatabaseReads.ReplayRebuildsVersion` | ios-game/Pods/leveldb-library/db/version_set.cc:896-1009 | in every run replaying the manifest gives the current version, its levels in order, and recovery is possible |
| `UnsplitRuns.UnsplitRunsReadMap` | ios-game/Pods/leveldb-library/db/db_impl.cc:655-738 | runs whose outputs split no user key read correctly whatever is picked |
| `UnsplitRuns.StartWithoutSnapshots` | ios-game/Pods/leveldb-library/db/db_impl.cc:868-872 | a compaction started while no snapshot is alive splits no user key |
| `UnsplitRuns.UndisturbedRunsReadMap` | ios-game/Pods/leveldb-library/db/db_impl.cc:655-738 | hence runs that compact only then read correctly, however outputs are cut and whatever is picked |
| `DatabaseReads.CrashKeepsWrites` | ios-game/Pods/leveldb-library/db/db_impl.cc:274-360 | a crash at any point of a run keeps every acknowledged write and every read correct |
| `SplitKeys.MoveIsSafeExactly` | ios-game/Pods/leveldb-library/db/version_set.cc:1258-1264 | moving one file down keeps all reads correct if and only if the next file of its level does not go on with its last user key |
| `SplitKeys.CompactionIsSafeExactly` | ios-game/Pods/leveldb-library/db/version_set.cc:1243-1397 | a compaction over any legal inputs keeps all reads at or after the oldest snapshot correct if and only if no file left behind comes to answer in place of its inputs |
| `SplitKeys.WholeKeysHideNothing` | ios-game/Pods/leveldb-library/db/version_set.cc:1243-1397 | a compaction whose picks divide no user key meets that condition |
| `StaleRuns.SplitKeyGivesStaleRead` | ios-game/Pods/leveldb-library/db/version_set.cc:1373-1388 | a run of the code, picks and cuts included, that ends with Get returning an overwritten value: two large versions of a key fill an output each, and the first is compacted alone |
| `StaleRuns.SomeSplit` | ios-game/Pods/leveldb-library/table/table_builder.cc:92-121 | payloads and table sizes as that run needs them exist |
| `StaleRuns.FlushIntoGapLosesRead` | ios-game/Pods/leveldb-library/db/db_impl.cc:885-895 | a run of the code that ends with Get missing what was just written: a flush into the gap of a manual compaction |
| `DbIter.LiveListIsVisibleMap` | ios-game/Pods/leveldb-library/db/db_iter.cc:173-203 | the list the iterator moves on is sorted by key and holds exactly the answers of point lookups |
| `DbIter.DBIter.Next` | ios-game/Pods/leveldb-library/db/db_iter.cc:146-171 | leaves the iterator one place forward of the list of live keys, from either direction |
| `DbIter.DBIter.Prev` | ios-game/Pods/leveldb-library/db/db_iter.cc:205-230 | leaves the iterator one place back of the list of live keys, from either direction |
| `DbIter.DBIter.Seek` | ios-game/Pods/leveldb-library/db/db_iter.cc:274-286 | leaves the iterator at the first key not before the target of the list of live keys, or invalid when there is none |
| `DbIter.DBIter.SeekToFirst` | ios-game/Pods/leveldb-library/db/db_iter.cc:288-297 | leaves the iterator at the first place of the list of live keys, or invalid when there is none |
| `DbIter.DBIter.SeekToLast` | ios-game/Pods/leveldb-library/db/db_iter.cc:299-304 | leaves the iterator at the last place of the list of live keys, or invalid when there is none |
| `DbIter.DBIter.FindNextUserEntry` | ios-game/Pods/leveldb-library/db/db_iter.cc:173-203 | skips exactly the entries that are too new, overwritten or deleted |
| `DbIter.DBIter.FindPrevUserEntry` | ios-game/Pods/leveldb-library/db/db_iter.cc:232-272 | scans back to the newest visible value of the previous live key and saves it |
| `Merger.MergingIterator.Next` | ios-game/Pods/leveldb-library/table/merger.cc:59-83 | moves to the next position of the sorted union of the children, whatever the direction before |
| `Merger.MergingIterator.Prev` | ios-game/Pods/leveldb-library/table/merger.cc:85-112 | moves to the previous position of the sorted union of the children, whatever the direction before |
| `Merger.MergingIterator.Seek` | ios-game/Pods/leveldb-library/table/merger.cc:51-57 | moves to the first entry not before the target of the sorted union of the children, whatever the direction before |
| `Merger.MergingIterator.SeekToFirst` | ios-game/Pods/leveldb-library/table/merger.cc:35-41 | moves to the first entry of the sorted union of the children, whatever the direction before |
| `Merger.MergingIterator.SeekToLast` | ios-game/Pods/leveldb-library/table/merger.cc:43-49 | moves to the last entry of the sorted union of the children, whatever the direction before |
| `DatabaseIteration.RunsMerge` | ios-game/Pods/leveldb-library/db/version_set.cc:225-241 | memtables, level-0 tables and concatenated levels are sorted runs with no entry in two of them, and together hold everything stored |
| `DatabaseIteration.IteratorReadsMap` | ios-game/Pods/leveldb-library/db/db_impl.cc:1124-1134 | a database iterator at sequence s runs over exactly the plain map as of s, in key order |
| `HeldReads.HeldGetReadsMap` | ios-game/Pods/leveldb-library/db/db_impl.cc:1077-1122 | a Get that keeps the memtables and the version of one state may look at them in any later one, whatever is written, flushed, moved, compacted and deleted in between: it returns what the map held at its sequence |
| `HeldReads.HeldIteratorReadsMap` | ios-game/Pods/leveldb-library/db/db_impl.cc:1020-1064 | the list an iterator moves over stays the map as of its sequence in every later state |
| `HeldReads.HeldTablesStay` | ios-game/Pods/leveldb-library/db/version_set.cc:1137-1148 | the tables of a version that is held stay on disk, as long as files are removed knowing of it |
| `HeldReads.NumbersStayTaken` | ios-game/Pods/leveldb-library/db/db_impl.cc:216-283 | and no later table, and no output being written, takes one of their numbers |
| `Coding.UnrolledVarint` | ios-game/Pods/leveldb-library/util/coding.cc:47-73 | the hand-unrolled 32-bit encoder writes what the loop writes |
| `Coding.GetVarintPtr` | ios-game/Pods/leveldb-library/util/coding.cc:112-158 | the decoding loop reads at most 5 (or 10) bytes of any input and truncates as the word does |
| `Coding.VarintFails` | ios-game/Pods/leveldb-library/util/coding.cc:112-158 | it fails if and only if none of the bytes it may read is a last one |
| `Coding.Varint64RoundTrip` | ios-game/Pods/leveldb-library/util/coding.cc:81-158 | every 64-bit number is read back from its varint, whatever follows |
| `Coding.SliceRoundTrip` | ios-game/Pods/leveldb-library/util/coding.cc:98-192 | a length-prefixed slice is read back, whatever follows |
| `Crc32c.UnmaskOfMask` | ios-game/Pods/leveldb-library/util/crc32c.h:31-40 | Unmask(Mask(x)) = x |
| `Crc32c.MaskOfUnmask` | ios-game/Pods/leveldb-library/util/crc32c.h:31-40 | Mask(Unmask(x)) = x |
| `Crc32c.MaskRotates` | ios-game/Pods/leveldb-library/util/crc32c.h:24-34 | masking rotates the word by 15 bits and adds the constant |
| `LogWriting.LogWriter.AddRecord` | ios-game/Pods/leveldb-library/db/log_writer.cc:27-73 | with only a block offset, appends exactly the padded, typed and checksummed fragments of the record |
| `LogWriting.LogWriter.EmitPhysicalRecord` | ios-game/Pods/leveldb-library/db/log_writer.cc:75-100 | appends one header and payload inside the block |
| `LogReading.LogReader.ReadPhysicalRecord` | ios-game/Pods/leveldb-library/db/log_reader.cc:181-263 | with its block buffer, for any file: the next physical record, end of file or bad record, and exactly the corruption reports; what that is, `LogSoundness.WhatIsRead` says |
| `LogReading.LogReader.ReadRecord` | ios-game/Pods/leveldb-library/db/log_reader.cc:59-164 | for any file: the next assembled record, or the end, with exactly the reports of the assembly rules |
| `LogReading.ReadWholeLog` | ios-game/Pods/leveldb-library/db/db_impl.cc:405-432 | the recovery loop yields all records and reports of the file |
| `LogSoundness.WhatIsRead` | ios-game/Pods/leveldb-library/db/log_reader.cc:181-263 | for any file: block ends too short for a header are passed over, and at the next header the announced payload is read if and only if it ends in its block and the fragment is, byte for byte, the one written for it, checksum included; otherwise the rest of the block is dropped, with the report said |
| `LogSoundness.PiecesAreFragments` | ios-game/Pods/leveldb-library/db/log_reader.cc:218-263 | for any file: whatever is read as a fragment stands in the file with its length, type and checksum |
| `LogSoundness.DamageIsReported` | ios-game/Pods/leveldb-library/db/log_reader.cc:226-244 | a fragment is read if its checksum is right, and dropped and reported as "checksum mismatch" with the rest of its block if not |
| `LogSoundness.ChangedByteIsCaught` | ios-game/Pods/leveldb-library/db/log_reader.cc:226-244 | a fragment whose type or payload was changed behind its checksum is not used, unless the sums agree |
| `LogSoundness.RecordsAreWholeRuns` | ios-game/Pods/leveldb-library/db/log_reader.cc:59-164 | for any file: the records are the concatenated payloads of exactly the runs FULL or FIRST MIDDLE* LAST among its fragments, in file order |
| `LogSoundness.OutcomesStand` | ios-game/Pods/leveldb-library/db/log_reader.cc:181-263 | and those fragments stand in the file one behind the other |
| `LogSoundness.NothingIsLostSilently` | ios-game/Pods/leveldb-library/db/log_reader.cc:59-164 | bytes are conserved: the fragments and what was dropped with damaged ones add up to the records, what is reported, and the unfinished record at the end, as long as no fragment has one of the two types that the reader uses as return codes |
| `LogRoundTrip.RecordReads` | ios-game/Pods/leveldb-library/db/log_reader.cc:59-164 | a record wholly in a file is read back whatever follows it |
| `LogRoundTrip.TornRecordIsEnd` | ios-game/Pods/leveldb-library/db/log_reader.cc:199-225 | a file that ends anywhere inside a record ends there without a report |
| `LogRoundTrip.TruncatedLogYieldsWholeRecords` | ios-game/Pods/leveldb-library/db/log_reader.cc:59-263 | a log cut off at any byte yields exactly the records it holds completely, in order, and no corruption report |
| `LogRoundTrip.WholeLogYieldsAllRecords` | ios-game/Pods/leveldb-library/db/log_reader.cc:59-263 | the whole file yields all records |
| `WriteBatches.ImageRoundTrip` | ios-game/Pods/leveldb-library/db/write_batch.cc:42-80 | a batch is iterated back completely, and accepted exactly when its count fits a signed word |
| `WriteBatches.CutBatchIsRefused` | ios-game/Pods/leveldb-library/db/write_batch.cc:42-80 | a batch cut off anywhere is refused, with the error named, and hands over exactly its whole operations |
| `WriteBatches.UnknownTagIsRefused` | ios-game/Pods/leveldb-library/db/write_batch.cc:71-73 | a tag that is neither of the two ends the batch with an error |
| `WriteBatches.WriteBatch.Add` | ios-game/Pods/leveldb-library/db/write_batch.cc:98-109 | Put and Delete append one operation and count it |
| `WriteBatches.WriteBatch.Append` | ios-game/Pods/leveldb-library/db/write_batch.cc:141-145 | appends the operations of another batch |
| `WriteBatches.WriteBatch.SetSequence` | ios-game/Pods/leveldb-library/db/write_batch.cc:94-96 | turns the batch into the log record of its operations |
| `WriteBatches.InsertInto` | ios-game/Pods/leveldb-library/db/write_batch.cc:111-134 | for any bytes: the operations before the first bad one are added with consecutive sequence numbers, and the status says what was wrong |
| `BatchGroups.GroupReaches` | ios-game/Pods/leveldb-library/db/db_impl.cc:1237-1282 | how far a group reaches, in bytes: a front write of up to 128 KB takes along every following batch while they add at most 128 KB, a larger one while the group stays within 1 MB, and no synchronous write joins a front write that is not; exactly these |
| `BatchGroups.BuildBatchGroup` | ios-game/Pods/leveldb-library/db/db_impl.cc:1237-1282 | returns that group with its operations in queue order, disturbing no caller's batch |
| `GroupCommit.StepKeepsShape` | ios-game/Pods/leveldb-library/db/db_impl.cc:1162-1233 | writers stand in arrival order, everybody before the front is done, and only the front may do more than wait |
| `SerialCommit.GroupIsSerial` | ios-game/Pods/leveldb-library/db/db_impl.cc:1181-1214 | committing a group is committing its members one by one, for every outcome |
| `SerialCommit.StepKeepsInv` | ios-game/Pods/leveldb-library/db/db_impl.cc:1162-1233 | every step of every thread keeps order, serial effect and sync coverage |
| `SerialCommit.RunsCommitSerially` | ios-game/Pods/leveldb-library/db/db_impl.cc:1162-1233 | in every run, between groups, sequence number, memtable and log replay are those of the same writes carried out singly in arrival order |
| `SerialCommit.SequencesAreContiguous` | ios-game/Pods/leveldb-library/db/db_impl.cc:1179-1213 | without failures sequence numbers are contiguous and the log replays to the memtable |
| `SerialCommit.OutcomesAreFinal` | ios-game/Pods/leveldb-library/db/db_impl.cc:1216-1225 | a writer completes exactly once and in FIFO order |
| `SerialCommit.OnlyFrontWrites` | ios-game/Pods/leveldb-library/db/db_impl.cc:1186-1213 | only the front writer touches log, memtable and last sequence |
| `SerialCommit.FrontCanMove` | ios-game/Pods/leveldb-library/db/db_impl.cc:1227-1230 | the queue never gets stuck |
| `SerialCommit.SyncedWritesSurvive` | ios-game/Pods/leveldb-library/db/db_impl.cc:1192-1199 | after a crash that cuts the log file anywhere behind its synced records, replay holds every synchronous write reported as applied and everything before it |
| `SyncFailures.FailedSyncStopsWrites` | ios-game/Pods/leveldb-library/db/db_impl.cc:1186-1213 | once a sync has failed, no write behind it is acknowledged: each fails with its group or is refused |
| `SkipLists.SkipList.FindGreaterOrEqual` | ios-game/Pods/leveldb-library/db/skiplist.h:261-281 | returns the first node at or after the key, and for every level in use the place where the key belongs |
| `SkipLists.SkipList.FindLessThan` | ios-game/Pods/leveldb-library/db/skiplist.h:283-302 | returns the last node before the key, or the head |
| `SkipLists.SkipList.FindLast` | ios-game/Pods/leveldb-library/db/skiplist.h:304-322 | returns the last node, or the head |
| `SkipLists.SkipList.Insert` | ios-game/Pods/leveldb-library/db/skiplist.h:336-370 | adds exactly the new key, and the list is coherent again |
| `SkipLists.Publish` | ios-game/Pods/leveldb-library/db/skiplist.h:364-369 | storing the link to the new node at one level adds it there and disturbs no other level: the list is coherent after every single store |
| `ConcurrentSkipList.StepsAreDefined` | ios-game/Pods/leveldb-library/db/skiplist.h:148-175 | in every interleaving the links that are loaded and stored exist and have been written |
| `ConcurrentSkipList.StepKeepsInv` | ios-game/Pods/leveldb-library/db/skiplist.h:336-370 | every load of a reader and every store of the writer keeps the invariant, and nodes only come in |
| `ConcurrentSkipList.LevelsStayNested` | ios-game/Pods/leveldb-library/db/skiplist.h:363-369 | at every moment of every run each level is a sorted sublist of the one below |
| `ConcurrentSkipList.SearchIsLinearizable` | ios-game/Pods/leveldb-library/db/skiplist.h:261-281 | in any interleaving each of the three searches answers for the nodes in the list at the moment of its last load, stale height loads included |
| `ConcurrentSkipList.PublishedKeyIsFound` | ios-game/Pods/leveldb-library/db/skiplist.h:372-380 | a key in the list at some moment is found by every search for it that ends later |
| `VersionEdits.EditRoundTrip` | ios-game/Pods/leveldb-library/db/version_edit.cc:41-210 | every edit with levels below seven is read back completely from its record |
| `VersionEdits.CutRecordIsRefused` | ios-game/Pods/leveldb-library/db/version_edit.cc:109-210 | a record cut inside a field is refused, and the whole fields before it have been taken |
| `VersionEdits.StrangeFieldIsRefused` | ios-game/Pods/leveldb-library/db/version_edit.cc:99-203 | so is one with an unknown tag or a level that does not exist |
| `VersionEdits.FilesAreSet` | ios-game/Pods/leveldb-library/db/version_edit.cc:171-195 | whatever fields a record holds, exactly the files it names are deleted, as a sorted set, and added |
| `VersionEdits.LastOneCounts` | ios-game/Pods/leveldb-library/db/version_edit.cc:122-169 | of a number that comes more than once the last one counts |
| `VersionEdits.ReusedEditKeepsPointers` | ios-game/Pods/leveldb-library/db/version_edit.cc:26-39 | reading into a used edit after Clear restores the new edit exactly when the used one had no compaction pointers, which Clear leaves in place |
| `VersionEdits.VersionEdit.EncodeTo` | ios-game/Pods/leveldb-library/db/version_edit.cc:41-86 | appends exactly the fields that are present, in record order |
| `VersionEdits.VersionEdit.DecodeFrom` | ios-game/Pods/leveldb-library/db/version_edit.cc:109-210 | for any bytes: the fields before the first bad one are set, and the outcome says what was wrong |
| `VersionEdits.ManifestRoundTrip` | ios-game/Pods/leveldb-library/db/version_set.cc:933-975 | a manifest cut off anywhere is read as exactly the edits whose records it holds completely, each restored |
| `ManifestRecords.ManifestFileRebuildsVersion` | ios-game/Pods/leveldb-library/db/version_set.cc:896-1009 | from bytes: a manifest file torn in the middle of the next edit decodes without a report, and folding the records gives the version and its counters |
| `ManifestRecords.DiskExists` | ios-game/Pods/leveldb-library/db/version_edit.h:55-70 | a number names one table, so all tables that a manifest mentions can be on disk at once |
| `ManifestRecords.CrashedManifestRecovers` | ios-game/Pods/leveldb-library/db/version_set.cc:811-1009 | in every run, whatever edit a crash interrupts, the manifest file brings back the version of that moment |
| `TableFiles.TableBuilder.Add` | ios-game/Pods/leveldb-library/table/table_builder.cc:92-121 | appends the entry; the waiting index entry of the previous block gets the comparator's separator, and a full block is written |
| `TableFiles.TableBuilder.Finish` | ios-game/Pods/leveldb-library/table/table_builder.cc:199-239 | the finished table holds exactly the added entries, each block under its index key, the last under the short successor |
| `TableFiles.SeekThroughIndex` | ios-game/Pods/leveldb-library/table/table.cc:226-247 | seeking the index, then the block, lands on the first entry of the whole table at or after the target, or just behind the block when that entry opens the next one |
| `TableFiles.SeekByIndex` | ios-game/Pods/leveldb-library/table/two_level_iterator.cc:91-96 | index and data seek, followed by skipping, is the seek on the concatenated blocks |
| `TableFiles.InternalGet` | ios-game/Pods/leveldb-library/table/table.cc:226-256 | one index seek and one block seek answer a lookup exactly as a scan of all added entries does, also when a filter spares the block |
| `TableFiles.BehindBlock` | ios-game/Pods/leveldb-library/table/table.cc:236-243 | when the block has nothing at or after the target, no later block holds the user key |
| `TableFiles.BoundsAloneMissEntries` | ios-game/Pods/leveldb-library/db/dbformat.cc:68-85 | an index key that merely lies between two blocks would lose an entry: why separators of internal keys take the largest sequence |
| `TwoLevelIterators.TwoLevelIterator.Seek` | ios-game/Pods/leveldb-library/table/two_level_iterator.cc:91-96 | leaves the iterator at the first entry not before the target of the concatenation of all blocks, empty blocks skipped |
| `TwoLevelIterators.TwoLevelIterator.SeekToFirst` | ios-game/Pods/leveldb-library/table/two_level_iterator.cc:98-103 | leaves the iterator at the first entry of the concatenation of all blocks, empty blocks skipped |
| `TwoLevelIterators.TwoLevelIterator.SeekToLast` | ios-game/Pods/leveldb-library/table/two_level_iterator.cc:105-110 | leaves the iterator at the last entry of the concatenation of all blocks, empty blocks skipped |
| `TwoLevelIterators.TwoLevelIterator.Next` | ios-game/Pods/leveldb-library/table/two_level_iterator.cc:112-116 | leaves the iterator one entry forward of the concatenation of all blocks, empty blocks skipped |
| `TwoLevelIterators.TwoLevelIterator.Prev` | ios-game/Pods/leveldb-library/table/two_level_iterator.cc:118-123 | leaves the iterator one entry back of the concatenation of all blocks, empty blocks skipped |
| `TwoLevelIterators.NewIterator` | ios-game/Pods/leveldb-library/table/table.cc:220-224 | every table that a builder finished can be iterated |
| `TwoLevelIterators.ReadBack` | ios-game/Pods/leveldb-library/table/two_level_iterator.cc:98-149 | the iterator over a finished table yields exactly the added entries, in order |
| `Blocks.ShortcutAgrees` | ios-game/Pods/leveldb-library/table/block.cc:53-75 | the one-byte shortcut of the entry header reads what the three varint decoders read |
| `Blocks.EntryRoundTrip` | ios-game/Pods/leveldb-library/table/block_builder.cc:91-106 | the header and bytes of an entry are read back whatever follows |
| `Blocks.BlockBuilder.Add` | ios-game/Pods/leveldb-library/table/block_builder.cc:73-107 | appends the entry, sharing exactly the longest common prefix with its predecessor, and nothing at the restart points that come every interval |
| `Blocks.BlockBuilder.Finish` | ios-game/Pods/leveldb-library/table/block_builder.cc:63-71 | the image of exactly the added entries and their restart offsets |
| `Blocks.DecodeAt` | ios-game/Pods/leveldb-library/table/block.cc:226-253 | at the offset of any entry, with the key before it, the entry is parsed and the next offset is that of its successor |
| `Blocks.ImageParses` | ios-game/Pods/leveldb-library/table/block.cc:18-37 | a finished block is accepted and its restart count and entry area are found |
| `Blocks.BlockIter.ParseNextKey` | ios-game/Pods/leveldb-library/table/block.cc:226-253 | takes the next entry from the bytes and keeps the restart index |
| `Blocks.BlockIter.Next` | ios-game/Pods/leveldb-library/table/block.cc:139-142 | moves one entry forward |
| `Blocks.BlockIter.Prev` | ios-game/Pods/leveldb-library/table/block.cc:144-163 | moves one entry back, by rescanning from a restart point |
| `Blocks.BlockIter.Seek` | ios-game/Pods/leveldb-library/table/block.cc:165-203 | binary search over the restarts and a scan land on the first key not before the target |
| `Blocks.BlockIter.SeekToFirst` | ios-game/Pods/leveldb-library/table/block.cc:205-208 | moves to the first entry |
| `Blocks.BlockIter.SeekToLast` | ios-game/Pods/leveldb-library/table/block.cc:210-215 | moves to the last entry |
| `Bloom.BloomFilterPolicy.CreateFilter` | ios-game/Pods/leveldb-library/util/bloom.cc:35-59 | sets exactly the bits that the keys probe, and appends the number of probes |
| `Bloom.BloomFilterPolicy.KeyMayMatch` | ios-game/Pods/leveldb-library/util/bloom.cc:61-87 | answers exactly whether all probed bits are set, with the short and reserved cases |
| `Bloom.FilterNeverHides` | ios-game/Pods/leveldb-library/util/bloom.cc:35-87 | a key that a filter was made from may match it, whatever the hash |
| `Bloom.MatchesExactly` | ios-game/Pods/leveldb-library/util/bloom.cc:35-87 | a filter matches a key if and only if each of its probes falls on a probe of some key the filter was made from |
| `Bloom.ProbesAreSpaced` | ios-game/Pods/leveldb-library/util/bloom.cc:48-57 | the probes are equally spaced, by the hash rotated by 17 bits |
| `Bloom.OtherEncodings` | ios-game/Pods/leveldb-library/util/bloom.cc:61-76 | what is too short matches nothing, and what asks for more than 30 probes matches everything |
| `FilterBlocks.FilterBlockBuilder.StartBlock` | ios-game/Pods/leveldb-library/table/filter_block.cc:22-28 | closes filters up to the one for the new offset |
| `FilterBlocks.FilterBlockBuilder.GenerateFilter` | ios-game/Pods/leveldb-library/table/filter_block.cc:52-75 | turns the pending keys, cut out of one string, into the next filter |
| `FilterBlocks.FilterBlockBuilder.Finish` | ios-game/Pods/leveldb-library/table/filter_block.cc:36-50 | the block holds one filter for every 2 KB of file, made from the keys added under that offset |
| `FilterBlocks.KeyMayMatch` | ios-game/Pods/leveldb-library/table/filter_block.cc:95-109 | finds the filter by the offset array, with the malformed cases |
| `FilterBlocks.DamagedBlockMatches` | ios-game/Pods/leveldb-library/table/filter_block.cc:77-109 | a block too short for its offset array hides nothing |
| `FilterBlocks.BlockNeverHides` | ios-game/Pods/leveldb-library/table/filter_block.cc:22-109 | a block made of stored filters matches every key of the group of an offset |
| `FilterBlocks.FilterTable` | ios-game/Pods/leveldb-library/table/filter_block.cc:22-109 | for every run (StartBlock AddKey*)* Finish with non-decreasing offsets, the reader may match every key at the offset it was added behind |
| `TableFilters.BuildFilter` | ios-game/Pods/leveldb-library/table/table_builder.cc:92-137 | the filter block of a table may match each key at the offset of its block |
| `TableFilters.FilteredGet` | ios-game/Pods/leveldb-library/table/table.cc:226-256 | asking the filter first never changes what a lookup finds |
| `HandleTables.HandleTable.Lookup` | ios-game/Pods/leveldb-library/util/cache.cc:58-60 | the chained table looks names up as a map does |
| `HandleTables.HandleTable.Insert` | ios-game/Pods/leveldb-library/util/cache.cc:62-76 | adds or replaces, returns what was replaced, and grows when needed |
| `HandleTables.HandleTable.Remove` | ios-game/Pods/leveldb-library/util/cache.cc:78-86 | removes one name and returns its handle |
| `HandleTables.HandleTable.Resize` | ios-game/Pods/leveldb-library/util/cache.cc:107-131 | rehashing to the least power of two, from 4 on, that holds the handles moves every handle to its new chain and changes no lookup |
| `HandleTables.HomeIsRemainder` | ios-game/Pods/leveldb-library/util/cache.cc:92-131 | masking the hash picks the chain of its remainder: names spread over all of them |
| `LruCaches.LRUCache.Unref` | ios-game/Pods/leveldb-library/util/cache.cc:186-194 | the last reference frees the handle, takes its charge off and calls its deleter once |
| `LruCaches.LRUCache.Lookup` | ios-game/Pods/leveldb-library/util/cache.cc:209-218 | the handle gets one more reference and becomes the newest |
| `LruCaches.LRUCache.Release` | ios-game/Pods/leveldb-library/util/cache.cc:220-223 | gives back one reference; deletes the handle exactly when it was the last |
| `LruCaches.LRUCache.Enter` | ios-game/Pods/leveldb-library/util/cache.cc:230-246 | a new handle with two references becomes the newest and takes the name over from an older one |
| `LruCaches.LRUCache.Evict` | ios-game/Pods/leveldb-library/util/cache.cc:248-253 | drops exactly as many of the oldest handles as needed, and ends within capacity or with an empty list |
| `LruCaches.LRUCache.Insert` | ios-game/Pods/leveldb-library/util/cache.cc:225-256 | enters, replaces and evicts in one call; handles in the hands of clients stay what they are |
| `LruCaches.LRUCache.Erase` | ios-game/Pods/leveldb-library/util/cache.cc:258-265 | forgets the name; clients keep their handles |
| `LruCaches.EvictsNoMoreThanNeeded` | ios-game/Pods/leveldb-library/util/cache.cc:248-253 | with one eviction fewer the cache would still be over its capacity |
| `LruCaches.Replaced` | ios-game/Pods/leveldb-library/util/cache.cc:242-246 | replacing a handle of the same name keeps list, table and reference counts in agreement |
| `LruCaches.Freed` | ios-game/Pods/leveldb-library/util/cache.cc:186-194 | freeing at the last reference keeps them in agreement, and every handle ever made is alive or deleted once |
| `PbFields.FieldIter.Next` | ios-game/Pods/nanopb/pb_common.c:20-76 | the next field or back to the first, with the count of required fields before it |
| `PbFields.FieldIter.Find` | ios-game/Pods/nanopb/pb_common.c:78-97 | from wherever the iterator is, one round finds a field exactly when some field has the tag |
| `PbEncode.OStream.EncodeVarint` | ios-game/Pods/nanopb/pb_encode.c:494-514 | writes the varint of any number, or refuses when it does not fit |
| `PbEncode.OStream.WritePacked` | ios-game/Pods/nanopb/pb_encode.c:129-167 | the length written in front of a packed array is that of its items, computed or counted |
| `PbEncode.OStream.WriteArray` | ios-game/Pods/nanopb/pb_encode.c:116-201 | packed where the type allows, one tag an item otherwise; refused beyond the array size |
| `PbWire.ArrayEncodes` | ios-game/Pods/nanopb/pb_encode.c:116-201 | an array is refused if and only if it has more items than its field holds or one that cannot be encoded |
| `PbEncode.OStream.EncodeSubmessage` | ios-game/Pods/nanopb/pb_encode.c:600-648 | the sizing pass equals the bytes written: the size never changes between the passes |
| `PbEncode.OStream.Encode` | ios-game/Pods/nanopb/pb_encode.c:451-473 | done exactly when the contents can be encoded and fit; then precisely the bytes of the message are appended, or counted |
| `PbWire.MessageKeys` | ios-game/Pods/nanopb/pb_encode.c:451-473 | read by keys alone, an encoded message is the present fields in the order of the descriptor, under their own wire types, an array of numbers packed in one and any other with a key for each item |
| `PbEncode.GetEncodedSize` | ios-game/Pods/nanopb/pb_encode.c:480-489 | the size of what any large enough buffer receives |
| `PbIStream.IStream.DecodeVarint` | ios-game/Pods/nanopb/pb_decode.c:173-229 | for any bytes: at most 5 (or 10) are read and the word keeps the low bits; on failure the stream is empty exactly when the input was that short |
| `PbIStream.IStream.MakeSubstream` | ios-game/Pods/nanopb/pb_decode.c:322-335 | gives a length-prefixed part of the stream away, exactly when it is all there |
| `PbIStream.IStream.Skip` | ios-game/Pods/nanopb/pb_decode.c:277-287 | skips a field of any wire type |
| `PbIStream.IStream.DecodeSubmessage` | ios-game/Pods/nanopb/pb_decode.c:1334-1356 | decodes on top of what is there, or of the defaults in an array, and goes on behind the submessage |
| `PbIStream.IStream.DecodePackedArray` | ios-game/Pods/nanopb/pb_decode.c:373-403 | appends all items or fails, never beyond the array size |
| `PbIStream.IStream.DecodeField` | ios-game/Pods/nanopb/pb_decode.c:356-429 | sets has, count or which and the value as the specification says |
| `PbIStream.IStream.Decode` | ios-game/Pods/nanopb/pb_decode.c:852-953 | for any bytes, with iterator, substreams and required-field bits: accepts and fills in exactly what the recursive specification does |
| `PbIStream.IStream.DecodeInit` | ios-game/Pods/nanopb/pb_decode.c:955-967 | pb_decode: the same on memory set to its defaults |
| `PbMessages.RequiredFieldsCame` | ios-game/Pods/nanopb/pb_decode.c:852-953 | for any bytes: a message is accepted if and only if every field can be read and each required field came |
| `PbMessages.RequiredKeysCame` | ios-game/Pods/nanopb/pb_decode.c:876-950 | the same with a plain list of tags and wire types read from the bytes: each required tag is in it |
| `PbMessages.SubmessagesNeedRequired` | ios-game/Pods/nanopb/pb_decode.c:1334-1356 | the same for submessages of any depth, whatever they are read into |
| `PbMessages.DataIsTaken` | ios-game/Pods/nanopb/pb_decode.c:1262-1379 | bytes, strings and arrays of fixed length are taken exactly when they fit, strings up to their first zero and fixed lengths also empty, as zeros |
| `PbMessages.NumbersAreTaken` | ios-game/Pods/nanopb/pb_decode.c:1165-1222 | an unsigned number is taken exactly when it fits, and a signed field below 64 bits looks at the low 32 bits only |
| `PbMessages.LastOneStays` | ios-game/Pods/nanopb/pb_decode.c:356-429 | of a field that comes again the last one stays, whatever was in memory |
| `PbMessages.ItemsAreAppended` | ios-game/Pods/nanopb/pb_decode.c:370-403 | items, packed or one by one, are appended if and only if all of them find room |
| `PbMessages.FieldsConcatenate` | ios-game/Pods/nanopb/pb_decode.c:866-923 | messages one after the other are read on top of each other |
| `PbMessages.SubmessagePartsMerge` | ios-game/Pods/nanopb/pb_decode.c:1334-1356 | a submessage in two parts is read as the submessage of both, if the first can stand alone |
| `PbIStream.Complete` | ios-game/Pods/nanopb/pb_decode.c:925-950 | running the iterator to its end counts the required fields, and all of them must have been seen |
| `PbIStream.SetToDefaults` | ios-game/Pods/nanopb/pb_decode.c:763-846 | every field is at its default |
| `PbFields.DefaultsAre` | ios-game/Pods/nanopb/pb_decode.c:763-846 | at its default a field has its initial value, a submessage its own defaults, and nothing optional is present, no item counted, no member of a union chosen |
| `PbRoundTrip.SignedRoundTrip` | ios-game/Pods/nanopb/pb_decode.c:1165-1200 | signed numbers of every width come back, zigzag or not |
| `PbRoundTrip.ValueRoundTrip` | ios-game/Pods/nanopb/pb_decode.c:1165-1379 | a value of any type, submessages included, is read back whatever follows |
| `PbRoundTrip.PackedRoundTrip` | ios-game/Pods/nanopb/pb_decode.c:373-403 | a packed array is read back item by item |
| `PbRoundTrip.RestoredMessageIsSame` | ios-game/Pods/nanopb/pb_decode.c:763-846 | setting what is absent to its defaults keeps every present field |
| `PbRoundTrip.MessageRoundTrip` | ios-game/Pods/nanopb/pb_decode.c:852-967 | decoding what was encoded restores all present fields, for every static descriptor tree and valid contents |
| `PbRoundTrip.DecodesIfTerminated` | ios-game/Pods/nanopb/pb_decode.c:1299-1332 | what was encoded decodes if and only if every string present, in submessages, arrays and unions too, ends inside its buffer |
| `PbAnyInput.FieldsAreGood` | ios-game/Pods/nanopb/pb_decode.c:852-953 | decoding any bytes into valid memory leaves it valid: no array or buffer is overrun, no union misread |
| `PbAnyInput.DecodedEncodesAgain` | ios-game/Pods/nanopb/pb_decode.c:852-967 | what was decoded from any input can be encoded, and decodes again to the same present fields |
| `PbRoundTrip.UnknownFieldIsSkipped` | ios-game/Pods/nanopb/pb_decode.c:876-906 | an encoded field of any type whose tag the descriptor does not know is passed over, wherever it comes, and changes nothing |

## Left out

- User keys are reals and values are strings in the database model; `Bytewise` gives the embedding for byte strings, and any countable total order has one.
- Sequence numbers stay below the maximum that fits a packed key (`LogsGroup`); at a billion writes a second that takes two years.
- Log records of the database model are batches, not bytes; a record cut off by a crash is the subject of `LogRoundTrip`. The writer-queue model keeps all additions in one list, without memtable switches.
- Errors of reading and writing files, and corrupt tables, in the database model; failures of the log append and the sync are in the writer-queue model, where a failed append leaves no record.
- Which level and first file an automatic compaction picks (scores, seek statistics) is an arbitrary choice. `RunsReadMap` also allows any legal inputs and any cut of the outputs; `CodedRuns.AsCoded` ties both to the code for the runs in `StaleRuns`. Table sizes come from an arbitrary function, as block encoding is modelled elsewhere; the two runs only use that a payload of 4 KB is written at once, uncompressed, and that tables without payload are small.
- RunsReadMap: assumes that picks hold whole user keys, and that flushes inside a manual compaction fit between its outputs, because the code guarantees neither and reads fail without them; `SplitKeys` and `FlushReadsExactly` give the exact conditions.
- The numbers of a compaction's outputs are handed out when it starts; a flush in between takes a later one, where the source may give it one in the middle. Only freshness matters below level 0.
- Compaction pointers and the comparator name are not part of the database's edits; `VersionEdits` has them.
- The database's state machine is on values: its steps are the stretches between releases of the mutex, and condition variables are guards of steps. Memory ordering is not modelled; loads and stores of the skip list are atomic steps.
- Blocks of a table are sequences of entries there; that their bytes read back is the subject of `Blocks`. Block handles, trailers, the footer, compression, the table cache and mmap are not part of this model. When a block is full, and what the comparator makes of index keys, are arbitrary functions that keep to what `Bytewise` proves of the comparator.
- `Blocks.BlockIter` reads blocks that a builder wrote; its corruption branch for damaged entries is not modelled.
- The number of probes of a bloom filter is computed with 69/100 in integers instead of 0.69 in floating point, then clamped to 1 to 30.
- The chains of the hash table and the circular list of the cache are sequences, not linked nodes; the sixteen shards and `NewId` are left out, as each call touches one shard.
- The log reader starts at offset 0 and always verifies checksums, as `LogSoundness.WhatIsRead` states; the checksum function is arbitrary.
- RequiredKeysCame: assumes that known fields come with their own wire types, which the decoder does not check (`nanopb/pb_decode.c:356-429`); `RequiredFieldsCame` needs no such condition.
- Comparator names, the CURRENT file, info logs and the lock file.
- nanopb fields are static: callbacks, extensions, pointer fields and optional fields without a has member are left out. A structure is a map from fields to slots instead of memory with offsets, and a decoded structure is returned instead of filled in place.
- Sound: descriptors have fewer than 32 required fields a message; with exactly 32 the final test shifts a 32-bit word by 32 (`nanopb/pb_decode.c:946-948`), which C leaves undefined.
- MessageRoundTrip: the encoded message is below 4 GB, since lengths are read as 32-bit numbers (`nanopb/pb_decode.c:322-335`).
- `repair.cc`, `c.cc`, the environment, and the app itself.
