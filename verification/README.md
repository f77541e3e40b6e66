# A model of the storage engine and the message codec

The repository vendors, under `TakeItLogin/Pods`, the storage engine LevelDB and the protocol buffer
codec nanopb, which hold its hard code. This project models the two in Dafny and proves what their
callers rely on:

- the engine, a log-structured merge tree that writes, flushes, compacts, forgets and crashes, answers
  every read as a plain versioned map would, or the exact condition under which it does not;
- whatever was done before, a crash at any byte of the current log, or of an edit in the manifest,
  leaves files that open again with a prefix of what was written and every record that was whole;
- concurrent writers are committed in queue order, once each, and readers of the memtable are not
  disturbed by the writer;
- every format (log, batch, block, filter, table, manifest, message) reads back what was written, and
  every index and filter agrees with looking through everything.

`dafny verify dfyconfig.toml` checks the whole project.

## How it is laid out

The entry points to read first:

- `Db.dfy`: `DbImpl`, the database as an object. A ghost field holds the history of all writes; every
  method keeps the invariant `Valid`, and `Get`, `SurvivesCrash`, `SurvivesTornLog` say what follows.
  `DbSteps.dfy` has its steps on values, `TornLogs.dfy` what a lost tail of the log leaves, and
  `DiskBytes.dfy` the same in bytes: `CrashAtAnyByte`.
- `FileDbs.dfy`: `FileDb`, the same object together with the bytes of its manifest and logs. Its
  invariant holds from creation or opening on through every step; `AfterCrash` and `Reopen` say that
  what a crash leaves opens again.
- `LiveDbs.dfy`: `LiveDb`, that with skip lists for its memtables and the linked list of snapshots. A
  batch is logged, inserted entry by entry and published; `Get` is right at any moment of it.
- `Keys.dfy`, `Lsm.dfy`: entries, internal key order, what a read means, what it is for a store to be
  structured (tiers newer above older) and faithful (reads like its history). `LsmSteps`, `InFlight`,
  `Install`, `FlushGaps`: steps on such stores, also around a compaction that is under way.
- `Version`, `Selection`: choosing inputs. `Merge`, `Compaction`, `CompactionReads`: merging and
  dropping. `Builder`, `Edits`, `Manifest`, `VersionEdits`: versions and edits. `Durable`, `Recovery`:
  disk and recovery. `Search`, `Scan`: reads through the levels, and scans.
- `Iterators`, `Merger`, `TwoLevel`, `DbIter`: the iterator stack. `SkipLists`, `MemTables`: the
  memtable, with the writer's stores between the reader's loads. `WriteQueue`, `Writers`: group commit
  as steps of any number of threads.
- `Coding`, `KeyOrder`, `LogFormat`, `Log`, `LogRoundTrip`, `LogReplay`, `WriteBatches`, `Blocks`,
  `BlockReader`, `Bloom`, `FilterPolicies`, `FilterBlocks`, `Tables`, `TableBuilders`, `TableReaders`,
  `TableFormats`, `TableFiles`: the formats, up to a table file that is built, opened and searched
  (`TableFiles.BuildOpenGet`).
- `Rings`, `Snapshots`, `HandleTables`, `Caches`: linked lists, the hash table, the LRU cache.
- `Protos` to `ProtoRoundTrip`: message descriptors, encoder, decoder, round trips; `ProtoFormat` is the
  wire format by itself, `ProtoRoom` says that nothing is stored beyond the structure.
- `Limits.dfy`: three stores on which the engine does not keep what it should.

Conventions. Code that changes fields is a class or a method with a loop, proved against a function;
what the function means is proved in lemmas beside it. What a writer and a reader, or a loop and its
specification, take from one definition is stated once more apart from it: formats in numbers and bits
(the lemmas whose names end in `Layout`, `Byte`, `Bits`, and `LogFormat`, `ProtoFormat`), rules with
quantifiers over files, entries and keys (`Db.BatchIsRead`, `Db.InstallMoves`,
`Db.DbImpl.LiveTablesAre`, `Compaction.KeptSurvive`, `WriteQueue.GroupEnds`,
`ProtoMessages.RequiredArePresent`). Sizes, thresholds, random heights and hash and
checksum functions are parameters: no result depends on them. Lemmas carry `{:induction false}`; where
a proof is by induction, it is written out. A few predicates with quantifiers are *sealed*: `P(x)` is
defined as `PSeal(n, x)`, which recurs on the counter `n` and is the real body at 0. The recursion
computes nothing. It keeps the solver from unfolding `P` where `P` is only handed on, and the lemma
`OpenP` (or `PSealOpens`) says that `P` and its body are the same where the body is needed.

## Model

| member | source | states |
|---|---|---|
| `Keys.LowerBoundSplits` | TakeItLogin/Pods/leveldb-library/db/dbformat.cc:51-67 | on a sorted sequence an entry is before `k` in the internal order exactly when its index is below the lower bound of `k` |
| `Keys.NewestExists` | TakeItLogin/Pods/leveldb-library/db/db_impl.cc:1100-1145 | among the entries of a key visible at a snapshot there is one with the greatest sequence number |
| `Keys.ReadIsDefined` | TakeItLogin/Pods/leveldb-library/db/db_impl.cc:1100-1145 | with distinct sequence numbers a read at a snapshot has exactly one answer: the value of the newest visible entry, or nothing if there is none or it is a deletion |
| `Keys.HistoryReads` | TakeItLogin/Pods/leveldb-library/db/db_impl.cc:1100-1145 | reading the set of all operations gives the same as replaying them, up to the snapshot, into a map |
| `Lsm.FaithfulAnswer` | TakeItLogin/Pods/leveldb-library/db/db_impl.cc:1100-1145 | in a structured store that is faithful from `horizon` on, a read at any snapshot not before it answers as the map of all operations does |
| `Lsm.TableGetFinds` | TakeItLogin/Pods/leveldb-library/db/memtable.cc:100-134 | the first entry at or after the look-up key, if its user key matches, is the newest visible entry of that key; otherwise there is none |
| `LsmSteps.WriteStep` | TakeItLogin/Pods/leveldb-library/db/db_impl.cc:1185-1256 | an insertion with the next sequence number keeps the order of the tiers (newer above older), adds exactly that entry, and keeps the store faithful to the longer history |
| `LsmSteps.SwitchStep` | TakeItLogin/Pods/leveldb-library/db/db_impl.cc:1346-1366 | making the memtable immutable keeps the structure and the contents |
| `LsmSteps.EditStep` | TakeItLogin/Pods/leveldb-library/db/version_set.cc:801-884 | moving files from one tier to a deeper level keeps the structure, if what stays above the target is newer than what was moved |
| `LsmSteps.FlushStep` | TakeItLogin/Pods/leveldb-library/db/db_impl.cc:491-533 | the immutable memtable as a new file at any level it may land on: the structure is kept and no entry is lost or added |
| `Db.LaterWritesAreInvisible` | TakeItLogin/Pods/leveldb-library/db/db_impl.cc:1166-1169 | a read at a snapshot does not see any operation with a greater sequence number, whatever else comes after |
| `Db.BatchIsRead` | TakeItLogin/Pods/leveldb-library/db/write_batch.cc:121-137 | after any history, what is read of a key after a batch is what the last operation of the batch on that key says, and what was read before if there is none |
| `Db.DbImpl.constructor` | TakeItLogin/Pods/leveldb-library/db/db_impl.cc:1474-1515 | opening any recoverable disk gives a valid database whose history is the whole history of the disk, with an empty memtable; numbers go on after the greater of the manifest's and the logs', so that those of lost operations are not used again |
| `Db.DbImpl.Write` | TakeItLogin/Pods/leveldb-library/db/db_impl.cc:1185-1256 | the operations get consecutive numbers after the last one and are appended to the history; from then on the last operation on a key decides what is read of it, a put its value and a delete nothing, and any other key reads as before; invariant, faithfulness and crash safety are kept; nothing else changes |
| `Db.DbImpl.Get` | TakeItLogin/Pods/leveldb-library/db/db_impl.cc:1100-1145 | the read path through memtable, immutable memtable and every level answers exactly what the history says at the given snapshot, or at the last write |
| `Db.DbImpl.GetSnapshot` | TakeItLogin/Pods/leveldb-library/db/db_impl.cc:1166-1169 | the snapshot is the last sequence number, and stays among the live ones |
| `Db.DbImpl.ReleaseSnapshot` | TakeItLogin/Pods/leveldb-library/db/db_impl.cc:1171-1174 | just that one snapshot leaves the list; the horizon does not go back |
| `Db.DbImpl.SwitchMemTable` | TakeItLogin/Pods/leveldb-library/db/db_impl.cc:1346-1366 | the memtable becomes immutable and a new empty log begins; the history is unchanged, and what was a live log is now what a lost tail cannot touch |
| `Db.DbImpl.CompactMemTable` | TakeItLogin/Pods/leveldb-library/db/db_impl.cc:535-566 | the immutable memtable becomes one file, on a level between 0 and 2, and no other file changes; history, reads and disk stay right whatever runs beside it, and a compaction under way stays sound if and only if the flush does not fall into a gap of its output level, which a caller can tell before |
| `Db.DbImpl.PickAutomatic` | TakeItLogin/Pods/leveldb-library/db/version_set.cc:1270-1322 | the chosen inputs are sound, connected, at the asked level, and hold the picked file; the compaction remembers the oldest live snapshot |
| `Db.DbImpl.PickManual` | TakeItLogin/Pods/leveldb-library/db/version_set.cc:1464-1500 | there is something to compact exactly when some file of the level meets the range; the inputs are sound, and at level 0 hold every such file |
| `Db.DbImpl.TrivialMove` | TakeItLogin/Pods/leveldb-library/db/db_impl.cc:718-733 | a single input without parents moves one level down as it is; every read answers as before |
| `Db.DbImpl.DoCompactionWork` | TakeItLogin/Pods/leveldb-library/db/db_impl.cc:878-1048 | just the outputs are pending and new on disk, with new numbers; an entry of the input files is in an output exactly if no newer entry of its key is old enough for every snapshot, and it is not an old enough tombstone whose key no deeper file's range has; the store that readers see is untouched |
| `Db.DbImpl.InstallCompactionResults` | TakeItLogin/Pods/leveldb-library/db/db_impl.cc:860-876 | at the two levels inputs leave and outputs arrive, every other file stays, and no output is pending any more; the invariant is always kept; the store still reads like its history if and only if no tombstone resurfaces a value, and the same, separately, for the store without its memtable |
| `Db.DbImpl.RemoveObsoleteFiles` | TakeItLogin/Pods/leveldb-library/db/db_impl.cc:223-278 | exactly the logs not below the log number stay, and exactly those tables whose number a file of the current version, of a pinned one or of the one a compaction began with has, or an output not yet installed; what recovery replays is the same |
| `Db.DbImpl.LiveTablesAre` | TakeItLogin/Pods/leveldb-library/db/db_impl.cc:223-243 | which table numbers are live, file by file |
| `Db.DbImpl.LiveTablesThere` | TakeItLogin/Pods/leveldb-library/db/db_impl.cc:223-278 | no table that a version, an iterator or a compaction needs is ever missing |
| `Db.DbImpl.PinVersion` | TakeItLogin/Pods/leveldb-library/db/db_impl.cc:1062-1087 | an iterator holds on to the current version, whose tables are then not deleted |
| `Db.DbImpl.UnpinVersion` | TakeItLogin/Pods/leveldb-library/db/db_impl.cc:1052-1059 | just that version is let go |
| `Db.DbImpl.SurvivesCrash` | TakeItLogin/Pods/leveldb-library/db/db_impl.cc:280-369 | whenever the object can be seen, also beside a compaction that a flush has upset, the disk alone recovers the whole history |
| `Db.DbImpl.SurvivesTornLog` | TakeItLogin/Pods/leveldb-library/db/db_impl.cc:371-489 | in every such state, if only the first `m` records of the current log survive, the disk that is left, with the manifest as it is, recovers exactly the history up to those records |
| `Db.CommitBatch` | TakeItLogin/Pods/leveldb-library/db/db_impl.cc:1206-1236 | first the log record, then the memtable: the batch goes to both with the same numbers, the four parts of the invariant carry over to the longer history, and every key reads as the last operation on it says |
| `Db.CoreGet` | TakeItLogin/Pods/leveldb-library/db/db_impl.cc:1100-1145 | the search of memtables and levels answers what the history says |
| `Db.Reopen` | TakeItLogin/Pods/leveldb-library/db/db_impl.cc:280-369 | recovery and a new log: from any recoverable disk to a store that mirrors the new disk, with the same history and no number used twice |
| `Db.FlushVersion` | TakeItLogin/Pods/leveldb-library/db/db_impl.cc:491-533 | the version after a flush differs by one file at the level that was picked, and keeps the store and its reads; a compaction under way stays sound if and only if the flush avoids its gaps |
| `Db.MoveVersion` | TakeItLogin/Pods/leveldb-library/db/db_impl.cc:718-733 | the version after a trivial move has that one file one level lower, and reads are kept |
| `Db.ResultsVersion` | TakeItLogin/Pods/leveldb-library/db/db_impl.cc:860-876 | the version after an installation is the old one without the inputs and with the outputs; reads are kept exactly if the job is not unsafe |
| `Db.InstallMoves` | TakeItLogin/Pods/leveldb-library/db/db_impl.cc:860-876 | installing the outputs, file by file: inputs leave their two levels, outputs are at the lower one, and that is all |
| `Db.MoveMoves` | TakeItLogin/Pods/leveldb-library/db/db_impl.cc:718-733 | a trivial move, file by file: the one input is a level lower |
| `Db.FlushMoves` | TakeItLogin/Pods/leveldb-library/db/db_impl.cc:535-566 | a flush, file by file: one more at the level picked |
| `Db.AutomaticJob` | TakeItLogin/Pods/leveldb-library/db/version_set.cc:1270-1322 | the job of the picked file is sound and connected, and holds that file |
| `Db.ManualJob` | TakeItLogin/Pods/leveldb-library/db/version_set.cc:1464-1500 | a job exists exactly when some file meets the range; it is sound for the current version |
| `Db.MergeInputs` | TakeItLogin/Pods/leveldb-library/db/db_impl.cc:878-1048 | the job gets outputs whose numbers are new and were written to disk, with just the entries that are to be kept; store and job stay sound |
| `DbSteps.CrashSafe` | TakeItLogin/Pods/leveldb-library/db/db_impl.cc:280-369 | a sound store that reads like its history is recoverable from its files alone |
| `DbSteps.EmptyIsRecoverable` | TakeItLogin/Pods/leveldb-library/db/db_impl.cc:182-212 | the disk of a new database recovers the empty history |
| `DbSteps.OpenStep` | TakeItLogin/Pods/leveldb-library/db/db_impl.cc:280-369 | after recovery and the switch to a new log and manifest entry, the store is sound and reads like the recovered history |
| `DbSteps.WriteKeeps` | TakeItLogin/Pods/leveldb-library/db/db_impl.cc:1206-1236 | log record and memtable insertions of one batch keep a store sound and faithful |
| `DbSteps.SwitchKeeps` | TakeItLogin/Pods/leveldb-library/db/db_impl.cc:1346-1366 | a switched memtable and a new log keep it so |
| `DbSteps.FlushKeeps` | TakeItLogin/Pods/leveldb-library/db/db_impl.cc:535-566 | a flush to any level it may land on keeps it so |
| `DbSteps.FlushKeepsJob` | TakeItLogin/Pods/leveldb-library/db/db_impl.cc:908-918 | a compaction under way survives a flush in its middle if and only if the flush does not land in a gap between the inputs at the output level |
| `DbSteps.ConnectedAvoidsGaps` | TakeItLogin/Pods/leveldb-library/db/version_set.cc:1403-1462 | connected inputs, as every automatic compaction has them, leave no gap to fall into |
| `DbSteps.DropKeeps` | TakeItLogin/Pods/leveldb-library/db/db_impl.cc:515-526 | an empty memtable is dropped without a file |
| `DbSteps.JobStarts` | TakeItLogin/Pods/leveldb-library/db/version_set.cc:1403-1462 | freshly selected inputs make a sound job |
| `DbSteps.MergeKeeps` | TakeItLogin/Pods/leveldb-library/db/db_impl.cc:878-1048 | writing outputs that hold the kept entries keeps store and job sound |
| `DbSteps.InstallKeeps` | TakeItLogin/Pods/leveldb-library/db/db_impl.cc:860-876 | installing the outputs of a sound job always keeps the store sound |
| `DbSteps.InstallReads` | TakeItLogin/Pods/leveldb-library/db/db_impl.cc:860-876 | after the installation the store reads like its history if and only if the job was not unsafe |
| `DbSteps.ClosedParentsInstallSafely` | TakeItLogin/Pods/leveldb-library/db/version_set.cc:1403-1462 | a check on the inputs that is sufficient, not necessary: if no file left at the output level shares a user key with an input, the job is not unsafe (the exact condition is in `DbSteps.InstallReads`) |
| `DbSteps.MoveKeeps` | TakeItLogin/Pods/leveldb-library/db/db_impl.cc:718-733 | a trivial move keeps the store sound and faithful |
| `DbSteps.DeleteKeeps` | TakeItLogin/Pods/leveldb-library/db/db_impl.cc:223-278 | deleting obsolete files keeps the store sound |
| `DbSteps.ReadAnswers` | TakeItLogin/Pods/leveldb-library/db/db_impl.cc:1100-1145 | what a search of such a store finds is what its history says |
| `Version.FindFile` | TakeItLogin/Pods/leveldb-library/db/version_set.cc:88-106 | binary search: the first file whose largest key is not before the key |
| `Version.OverlapsMeans` | TakeItLogin/Pods/leveldb-library/db/version_set.cc:108-120 | a file meets a range exactly if some user key is in both |
| `Version.SomeFileOverlapsRange` | TakeItLogin/Pods/leveldb-library/db/version_set.cc:122-157 | true exactly when some file meets the range, with or without open ends, for sorted levels and for level 0 |
| `Version.GetOverlappingInputs` | TakeItLogin/Pods/leveldb-library/db/version_set.cc:519-559 | the files that meet the range; at level 0 the least range closed under overlap, found by restarting |
| `Version.GrowthIsCovered` | TakeItLogin/Pods/leveldb-library/db/version_set.cc:519-559 | a level-0 range only grows to the end of a file that meets it |
| `Version.FindLargestKey` | TakeItLogin/Pods/leveldb-library/db/version_set.cc:1326-1341 | the largest key of some files |
| `Version.FindSmallestBoundaryFile` | TakeItLogin/Pods/leveldb-library/db/version_set.cc:1344-1362 | the file with the smallest start among those that continue the user key of `k` after it; nothing exactly if there is none |
| `Version.AddBoundaryInputs` | TakeItLogin/Pods/leveldb-library/db/version_set.cc:1378-1401 | the selection grows until no file of the level continues its last user key, stays a run of the level and stays connected |
| `Selection.GetRange` | TakeItLogin/Pods/leveldb-library/db/version_set.cc:1205-1227 | the least range of user keys that holds the files |
| `Selection.NothingOlder` | TakeItLogin/Pods/leveldb-library/db/version_set.cc:1364-1377 | once no file continues the last key of a selection, no file left behind holds an older entry of a selected user key |
| `Selection.Extend` | TakeItLogin/Pods/leveldb-library/db/version_set.cc:1378-1401 | any selection extends to one that leaves nothing older behind, by files that each continue the last key so far |
| `Selection.ChainIsLeast` | TakeItLogin/Pods/leveldb-library/db/version_set.cc:1378-1401 | no smaller extension leaves nothing older behind |
| `Selection.GrownIsConnected` | TakeItLogin/Pods/leveldb-library/db/version_set.cc:519-559 | a connected selection grown by overlap is connected |
| `Selection.Expand` | TakeItLogin/Pods/leveldb-library/db/version_set.cc:1403-1462 | growing the inputs at the level keeps them and leaves nothing older behind |
| `Selection.SetupOtherInputs` | TakeItLogin/Pods/leveldb-library/db/version_set.cc:1403-1462 | the final inputs are a closed selection of the level, with every file of the next level that meets their range; they are the least such selection around the first inputs, or, where that is allowed, a larger one that needs no more files of the next level |
| `Selection.CloseInputs` | TakeItLogin/Pods/leveldb-library/db/version_set.cc:1403-1412 | the least closed selection around the first inputs, and the parents that meet its range |
| `Selection.Widen` | TakeItLogin/Pods/leveldb-library/db/version_set.cc:1413-1446 | more files of the level, only where that is allowed and the number of parents stays the same |
| `Selection.PickCompaction` | TakeItLogin/Pods/leveldb-library/db/version_set.cc:1270-1322 | the same from one picked file, at level 0 from the least range around it that no file straddles, and the inputs are connected |
| `Selection.CompactRange` | TakeItLogin/Pods/leveldb-library/db/version_set.cc:1464-1500 | there are inputs exactly when some file meets the range; they come of what meets it: at level 0 of all that meet the least closed range, below of a prefix, as the size limit says |
| `Selection.RangeInputs` | TakeItLogin/Pods/leveldb-library/db/version_set.cc:1464-1490 | what a manual compaction starts with |
| `Merge.MergeTwoSorted` | TakeItLogin/Pods/leveldb-library/table/merger.cc:55-79 | the merge of two sorted sequences without a common key is sorted |
| `Merge.MergeTwoElements` | TakeItLogin/Pods/leveldb-library/table/merger.cc:55-79 | and holds exactly the entries of both |
| `Merge.MergeAllSorted` | TakeItLogin/Pods/leveldb-library/db/version_set.cc:1237-1268 | the same for any number of inputs: sorted |
| `Merge.MergeAllElements` | TakeItLogin/Pods/leveldb-library/db/version_set.cc:1237-1268 | and complete |
| `InFlight.InputsShareNoKey` | TakeItLogin/Pods/leveldb-library/db/version_set.cc:1237-1268 | no internal key is in two inputs of a compaction |
| `InFlight.InputsMerge` | TakeItLogin/Pods/leveldb-library/db/version_set.cc:1237-1268 | so the merged input is sorted and holds exactly the entries of the input files |
| `Compaction.CompactionState.IsBaseLevelForKey` | TakeItLogin/Pods/leveldb-library/db/version_set.cc:1533-1552 | asked in key order, the pointers that only move forward answer exactly whether any deeper level can hold the key |
| `Compaction.Decide` | TakeItLogin/Pods/leveldb-library/db/db_impl.cc:930-963 | one turn of the loop, with the user key and sequence number it remembers, drops an entry exactly when the two drop rules say so of the whole input |
| `Compaction.HiddenMeansCovered` | TakeItLogin/Pods/leveldb-library/db/db_impl.cc:946-948 | rule (A) drops an entry exactly when a newer entry of its user key is visible to every snapshot |
| `Compaction.KeptSurvive` | TakeItLogin/Pods/leveldb-library/db/db_impl.cc:930-963 | both rules in terms of the inputs as a set: an entry is dropped exactly if a newer one of its key is at or below the smallest snapshot, or it is a tombstone at or below it and the range of no file two or more levels down has its key |
| `Compaction.KeptSorted` | TakeItLogin/Pods/leveldb-library/db/db_impl.cc:878-1048 | what is kept is still sorted |
| `Compaction.DoCompactionWork` | TakeItLogin/Pods/leveldb-library/db/db_impl.cc:878-1048 | the outputs hold the kept entries in order, are not empty, and are numbered on from the first free number, and two that follow each other are in one file just if neither limit says that it ends between them; an entry is kept exactly if neither rule, stated of the whole input, drops it |
| `CompactionReads.OneReadKept` | TakeItLogin/Pods/leveldb-library/db/db_impl.cc:930-963 | if no tombstone resurfaces a value, one read at a snapshot not before the oldest live one answers the same before and after |
| `CompactionReads.CompactionKeepsReadsExactly` | TakeItLogin/Pods/leveldb-library/db/db_impl.cc:930-963 | all such reads answer the same before and after if and only if no dropped tombstone was the newest entry of a key that has an older value outside the inputs |
| `InFlight.PendingStarts` | TakeItLogin/Pods/leveldb-library/db/version_set.cc:1403-1462 | newly chosen inputs are in place: everything newer than them is above or aside |
| `InFlight.ConnectedHasNoGap` | TakeItLogin/Pods/leveldb-library/db/version_set.cc:1403-1462 | connected inputs have no gap that a file could be in |
| `InFlight.PendingAfterFlush` | TakeItLogin/Pods/leveldb-library/db/db_impl.cc:908-918 | after a flush in the middle of a compaction the inputs are still in place if and only if the flush did not land in one of their gaps at the output level |
| `FlushGaps.OutsideGapsIsBeside` | TakeItLogin/Pods/leveldb-library/db/db_impl.cc:908-918 | a file outside the gaps is beside every output |
| `FlushGaps.SpanningIsNotBeside` | TakeItLogin/Pods/leveldb-library/db/db_impl.cc:908-918 | an output with entries on both sides of the flushed file is not |
| `FlushGaps.InstallAroundFlushExactly` | TakeItLogin/Pods/leveldb-library/db/db_impl.cc:860-876 | the levels after the installation are sorted and disjoint if and only if the flushed file is beside every output |
| `Install.InstallStep` | TakeItLogin/Pods/leveldb-library/db/db_impl.cc:860-876 | installing the outputs of any compaction keeps the structure of the store, whatever was flushed meanwhile |
| `Install.InstallIsFaithfulExactly` | TakeItLogin/Pods/leveldb-library/db/db_impl.cc:860-876 | it keeps the store faithful if and only if nothing resurfaces |
| `Install.ResurfacedIsOlder` | TakeItLogin/Pods/leveldb-library/db/version_set.cc:1364-1401 | what resurfaces is older than the tombstone that hid it |
| `Install.OnlyParentsResurface` | TakeItLogin/Pods/leveldb-library/db/version_set.cc:1403-1462 | it can only come from a file of the output level that was left out although it shares a user key with an input, and both files are given |
| `Install.ClosedParentsAreSafe` | TakeItLogin/Pods/leveldb-library/db/version_set.cc:1403-1462 | without such a file nothing resurfaces |
| `Limits.BoundaryParentIsUnsafe` | TakeItLogin/Pods/leveldb-library/db/version_set.cc:1403-1462 | a structured, faithful store and inputs as SetupOtherInputs chooses them, with which a deleted value comes back: the input list of the output level gets no boundary files |
| `Limits.FlushIntoGapOverlaps` | TakeItLogin/Pods/leveldb-library/db/db_impl.cc:908-918 | a structured, faithful store, a manual compaction and a flush in its middle after which two files of a level overlap |
| `Limits.HiddenOnlyByMemtable` | TakeItLogin/Pods/leveldb-library/db/db_impl.cc:860-876 | a structured, faithful store and a job that is not unsafe for it but is for the store without its memtable: a newer write hides the value that comes back |
| `Builder.SortedListingIsUnique` | TakeItLogin/Pods/leveldb-library/db/version_set.cc:650-692 | a set of files has only one listing in the builder's order |
| `Builder.InsertFile` | TakeItLogin/Pods/leveldb-library/db/version_set.cc:689-690 | std::set insertion: the order is kept and exactly that file is added |
| `Builder.VersionBuilder.constructor` | TakeItLogin/Pods/leveldb-library/db/version_set.cc:619-626 | a builder on a version stands for that version |
| `Builder.VersionBuilder.Apply` | TakeItLogin/Pods/leveldb-library/db/version_set.cc:650-692 | one edit applied: at each level the deletions first, then the additions |
| `Builder.VersionBuilder.ApplyAddition` | TakeItLogin/Pods/leveldb-library/db/version_set.cc:667-691 | a new file is taken in and is no longer deleted |
| `Builder.VersionBuilder.SaveTo` | TakeItLogin/Pods/leveldb-library/db/version_set.cc:695-738 | each level of the new version is sorted and holds exactly the files that all edits together leave |
| `Builder.SaveLevel` | TakeItLogin/Pods/leveldb-library/db/version_set.cc:695-738 | base files and added files in one pass: sorted, with exactly the files not deleted |
| `Builder.AddSmaller` | TakeItLogin/Pods/leveldb-library/db/version_set.cc:706-713 | the base files before the next added file come first, and all of them |
| `Builder.MaybeAddFile` | TakeItLogin/Pods/leveldb-library/db/version_set.cc:741-754 | the next file in order is taken or, if deleted, dropped |
| `Edits.PickLevelForMemTableOutput` | TakeItLogin/Pods/leveldb-library/db/version_set.cc:491-516 | the level a flush lands on: 0 if level 0 meets its range, else as deep as nothing meets it, at most 2, and no deeper than the first crowded grandparent |
| `Edits.FlushLandsOnce` | TakeItLogin/Pods/leveldb-library/db/version_set.cc:491-516 | that level is determined by the version, the file and the size limits |
| `Edits.ClearMeetsNothing` | TakeItLogin/Pods/leveldb-library/db/version_set.cc:491-516 | no file down to that level meets the flushed one |
| `Edits.NewVersion` | TakeItLogin/Pods/leveldb-library/db/version_set.cc:801-884 | the version that LogAndApply makes has each level sorted, with exactly the files the edit leaves |
| `Edits.MakeEditIsLevelEdit` | TakeItLogin/Pods/leveldb-library/db/version_set.cc:1525-1531 | deleting the inputs by number and adding the outputs removes exactly the inputs and adds exactly the outputs |
| `Edits.FlushEditIsLevelEdit` | TakeItLogin/Pods/leveldb-library/db/db_impl.cc:515-526 | a flush edit adds exactly one file |
| `Manifest.RecoverVersion` | TakeItLogin/Pods/leveldb-library/db/version_set.cc:886-1011 | reading back edit records gives the levels that replaying them one by one gives |
| `Manifest.SnapshotOf` | TakeItLogin/Pods/leveldb-library/db/version_set.cc:1088-1116 | the first record of a manifest adds exactly the files of the version |
| `Manifest.SnapshotFirst` | TakeItLogin/Pods/leveldb-library/db/version_set.cc:1088-1116 | replaying it and more edits is replaying the edits on that version |
| `Manifest.LiveIsReplay` | TakeItLogin/Pods/leveldb-library/db/version_set.cc:801-884 | every version made by LogAndApply is the replay of all edits so far |
| `Manifest.RecoveredIsLive` | TakeItLogin/Pods/leveldb-library/db/version_set.cc:886-1011 | what recovery reads from snapshot record and edits is, file by file and in the same order, the last version that was live |
| `Durable.MirrorIsRecoverable` | TakeItLogin/Pods/leveldb-library/db/db_impl.cc:280-369 | a disk that mirrors a store recovers its history |
| `Durable.MirrorWrite` | TakeItLogin/Pods/leveldb-library/db/db_impl.cc:1206-1236 | a log record with the batch that goes to the memtable keeps the mirror |
| `Durable.MirrorSwitch` | TakeItLogin/Pods/leveldb-library/db/db_impl.cc:1346-1366 | so does a new log with a new memtable |
| `Durable.MirrorFlush` | TakeItLogin/Pods/leveldb-library/db/db_impl.cc:550-564 | and a manifest whose log number moves past the flushed log |
| `Durable.KeptLogsReplayAlike` | TakeItLogin/Pods/leveldb-library/db/db_impl.cc:223-278 | the logs below the log number are never replayed |
| `Durable.MirrorDelete` | TakeItLogin/Pods/leveldb-library/db/db_impl.cc:223-278 | so they can be deleted |
| `Recovery.InsertInto` | TakeItLogin/Pods/leveldb-library/db/db_impl.cc:418-439 | one record enters the memtable in order, and the last sequence number follows |
| `Recovery.FlushRecovered` | TakeItLogin/Pods/leveldb-library/db/db_impl.cc:491-533 | a memtable that fills up during recovery goes to level 0 as a file; no entry is lost |
| `Recovery.RecoverRecord` | TakeItLogin/Pods/leveldb-library/db/db_impl.cc:418-453 | one more record replayed, and the memtable is written out then just if it is full: the store holds exactly what was replayed so far |
| `Recovery.RecoverLogFile` | TakeItLogin/Pods/leveldb-library/db/db_impl.cc:371-489 | the same for a whole log, and the memtable is written out at its end |
| `Recovery.ReplayOneLog` | TakeItLogin/Pods/leveldb-library/db/db_impl.cc:345-362 | the next log is replayed unless the manifest covers it, and its own number is not given out again |
| `Recovery.ReplayLogs` | TakeItLogin/Pods/leveldb-library/db/db_impl.cc:320-369 | the same for all logs not below the log number, oldest first |
| `Recovery.RecoverLogs` | TakeItLogin/Pods/leveldb-library/db/db_impl.cc:280-369 | recovery from any recoverable disk ends in a structured store faithful to the whole history; the last sequence number is the greater of the manifest's and the history's; file numbers are unused, and bounded by the records replayed; only level 0 has grown |
| `Recovery.MarkFileNumberUsed` | TakeItLogin/Pods/leveldb-library/db/version_set.cc:1044-1048 | file numbers given out later are above every number that was seen |
| `Recovery.LastIsNewest` | TakeItLogin/Pods/leveldb-library/db/db_impl.cc:345-369 | the greatest number that the replay has seen, or that the manifest had, is the greater of the manifest's and the last of the history |
| `TornLogs.BaseStructured` | TakeItLogin/Pods/leveldb-library/db/db_impl.cc:371-489 | without its memtable a store is structured for the history up to the last switch |
| `TornLogs.HorizonBeyond` | TakeItLogin/Pods/leveldb-library/db/db_impl.cc:1166-1169 | past the last operation any horizon is as good as any other |
| `TornLogs.SurvivingPrefix` | TakeItLogin/Pods/leveldb-library/db/db_impl.cc:371-489 | the records that survive are a prefix of the history since the last switch |
| `TornLogs.RefilledStore` | TakeItLogin/Pods/leveldb-library/db/db_impl.cc:371-489 | the records that survive, in an empty memtable over the other tiers, make a store faithful to that prefix |
| `TornLogs.EditKeepsBase` | TakeItLogin/Pods/leveldb-library/db/version_set.cc:801-884 | an edit that records the last sequence number leaves what a lost tail cannot touch |
| `TornLogs.BaseInstall` | TakeItLogin/Pods/leveldb-library/db/db_impl.cc:860-876 | the store without its memtable still reads like its part of the history after an installation if and only if the job is not unsafe for that store |
| `TornLogs.ClosedParentsKeepBase` | TakeItLogin/Pods/leveldb-library/db/version_set.cc:1403-1462 | enough for that, not necessary: no file left at the output level shares a user key with an input |
| `TornLogs.TornLogRecovers` | TakeItLogin/Pods/leveldb-library/db/db_impl.cc:371-489 | whatever number of records of the current log survive, the disk that the crash leaves (the manifest may know of a later sequence number than is left) recovers the history up to them: nothing reordered, nothing from the middle lost |
| `DiskBytes.BatchIsCommit` | TakeItLogin/Pods/leveldb-library/db/write_batch.cc:121-137 | the batch in a log record is the entries that the commit numbered |
| `DiskBytes.TextReadsBack` | TakeItLogin/Pods/leveldb-library/db/write_batch.cc:121-137 | the values of the store stand for the bytes of the log one to one |
| `DiskBytes.OpsAreRead` | TakeItLogin/Pods/leveldb-library/db/write_batch.cc:121-137 | what is read of a key, in bytes, after the operations of a batch is what the last of them on that key says |
| `DiskBytes.CommitIsRead` | TakeItLogin/Pods/leveldb-library/db/db_impl.cc:1206-1236 | so does a commit of them move every read |
| `DiskBytes.CutLogDecodes` | TakeItLogin/Pods/leveldb-library/db/db_impl.cc:371-489 | a log file cut off at any byte decodes to the batches of exactly the records that are whole |
| `DiskBytes.CutManifestDecodes` | TakeItLogin/Pods/leveldb-library/db/version_set.cc:886-1011 | a manifest cut off at any byte decodes to exactly the edits whose records are whole |
| `DiskBytes.UnfinishedEditIsForgotten` | TakeItLogin/Pods/leveldb-library/db/version_set.cc:801-884 | a crash anywhere inside the write of an edit leaves the manifest as it was before it |
| `DiskBytes.FindsOnce` | TakeItLogin/Pods/leveldb-library/db/version_set.cc:886-1011 | the bytes of manifest and logs determine the disk that recovery finds |
| `DiskBytes.WrittenIsFound` | TakeItLogin/Pods/leveldb-library/db/version_set.cc:886-1011 | recovery finds what was written |
| `DiskBytes.ManifestReadsBack` | TakeItLogin/Pods/leveldb-library/db/version_set.cc:886-1011 | the manifest alone gives back its edits |
| `DiskBytes.LogsReadBack` | TakeItLogin/Pods/leveldb-library/db/db_impl.cc:371-489 | and every log its batches |
| `DiskBytes.CommitIsWritten` | TakeItLogin/Pods/leveldb-library/db/db_impl.cc:1206-1236 | a commit appends just its record to the bytes of the current log |
| `DiskBytes.NewLogIsWritten` | TakeItLogin/Pods/leveldb-library/db/db_impl.cc:1346-1366 | a switch adds an empty log file |
| `DiskBytes.EditIsWritten` | TakeItLogin/Pods/leveldb-library/db/version_set.cc:801-884 | LogAndApply appends just its record to the bytes of the manifest |
| `DiskBytes.KeptLogsAreLast` | TakeItLogin/Pods/leveldb-library/db/db_impl.cc:223-278 | the logs kept are the last ones |
| `DiskBytes.DeletionIsWritten` | TakeItLogin/Pods/leveldb-library/db/db_impl.cc:223-278 | deleting the others leaves the files as they should be |
| `DiskBytes.CutIsTorn` | TakeItLogin/Pods/leveldb-library/db/db_impl.cc:371-489 | cutting the bytes of the current log at any `k` is the same to recovery as keeping its first `m` records, where `m` counts the records within `k` bytes |
| `DiskBytes.CrashAtAnyByte` | TakeItLogin/Pods/leveldb-library/db/db_impl.cc:280-369 | for every state of the database object and every byte its current log may be cut at: byte-level manifest and log replay find exactly one disk, and that disk recovers a prefix of the history with every record that was whole |
| `FileDbs.CreatedIsFound` | TakeItLogin/Pods/leveldb-library/db/db_impl.cc:182-212 | the bytes of the manifest of a new database are found as the empty disk, which recovers the empty history |
| `FileDbs.ReadFiles` | TakeItLogin/Pods/leveldb-library/db/version_set.cc:886-1011 | reading manifest and logs gives the one disk that the bytes determine |
| `FileDbs.RecordDoesTheSame` | TakeItLogin/Pods/leveldb-library/db/version_set.cc:801-884 | the record of an edit, with its deletions as a set, does to every level what the edit does |
| `FileDbs.LiveAreTables` | TakeItLogin/Pods/leveldb-library/db/version_set.cc:886-1011 | every file that the manifest leaves is the table of its number |
| `FileDbs.NewTablesAreUnseen` | TakeItLogin/Pods/leveldb-library/db/db_impl.cc:491-533 | tables with new numbers change nothing of what the manifest says so far |
| `FileDbs.OpenedIsRecovered` | TakeItLogin/Pods/leveldb-library/db/version_set.cc:1088-1116 | the two records of a new manifest, the version that was read and what recovery added, read back as the opened database |
| `FileDbs.FileDb.constructor` | TakeItLogin/Pods/leveldb-library/db/db_impl.cc:1474-1515 | opening from bytes: any files whose disk is recoverable give a valid object that has the whole history, and files that hold what it has on disk |
| `FileDbs.Create` | TakeItLogin/Pods/leveldb-library/db/db_impl.cc:182-212 | so does opening where there is nothing yet, with the empty history, in which no key has a value |
| `FileDbs.FileDb.Write` | TakeItLogin/Pods/leveldb-library/db/db_impl.cc:1206-1236 | a commit appends its one record to the bytes of the current log; object and files agree again; of every key, in bytes, is now read what the last operation on it says |
| `FileDbs.FileDb.SwitchMemTable` | TakeItLogin/Pods/leveldb-library/db/db_impl.cc:1346-1366 | the files gain an empty log; object and files agree again |
| `FileDbs.FileDb.LogAndApply` | TakeItLogin/Pods/leveldb-library/db/version_set.cc:801-884 | the record of the edit that led to the current version is appended to the manifest, which then reads back as that version |
| `FileDbs.FileDb.CompactMemTable` | TakeItLogin/Pods/leveldb-library/db/db_impl.cc:535-566 | one new table and the record that adds it, or of no change if the memtable is empty; object and files agree again |
| `FileDbs.FileDb.PickAutomatic` | TakeItLogin/Pods/leveldb-library/db/version_set.cc:1270-1322 | choosing inputs leaves object and files in agreement |
| `FileDbs.FileDb.PickManual` | TakeItLogin/Pods/leveldb-library/db/version_set.cc:1464-1500 | the same for a range, with inputs exactly if some file meets it |
| `FileDbs.FileDb.TrivialMove` | TakeItLogin/Pods/leveldb-library/db/db_impl.cc:718-733 | the record of the move; object and files agree again |
| `FileDbs.FileDb.DoCompactionWork` | TakeItLogin/Pods/leveldb-library/db/db_impl.cc:878-1048 | the output tables are there before any record speaks of them |
| `FileDbs.FileDb.InstallCompactionResults` | TakeItLogin/Pods/leveldb-library/db/db_impl.cc:860-876 | the record of inputs out and outputs in; object and files agree again, and reads are kept exactly if the job is not unsafe |
| `FileDbs.FileDb.RemoveObsoleteFiles` | TakeItLogin/Pods/leveldb-library/db/db_impl.cc:223-278 | exactly the log files that recovery would replay and the tables that are live stay; object and files agree again |
| `FileDbs.FileDb.AfterCrash` | TakeItLogin/Pods/leveldb-library/db/db_impl.cc:280-369 | what a crash leaves that cuts the current log at any byte, at any moment of any run, can be opened, with the history up to the last record that was whole |
| `FileDbs.FileDb.AfterCrashInEdit` | TakeItLogin/Pods/leveldb-library/db/version_set.cc:801-884 | the same when the crash came at any byte of an edit's record in the manifest |
| `FileDbs.FileDb.Reopen` | TakeItLogin/Pods/leveldb-library/db/db_impl.cc:1474-1515 | and opening it again gives a valid object with that history, the whole history if nothing was cut, from which the run can go on |
| `LiveDbs.FindsAlike` | TakeItLogin/Pods/leveldb-library/db/memtable.cc:100-134 | a read up to a sequence number finds the same in two memtables that agree up to there |
| `LiveDbs.PartAgrees` | TakeItLogin/Pods/leveldb-library/db/db_impl.cc:1213-1236 | whatever part of a logged batch is in the memtable, reads up to the last published number see no difference |
| `LiveDbs.PartGrows` | TakeItLogin/Pods/leveldb-library/db/write_batch.cc:121-137 | the next entry of the batch is not there yet, and goes to its place |
| `LiveDbs.LiveDb.constructor` | TakeItLogin/Pods/leveldb-library/db/db_impl.cc:1474-1515 | a database that was just opened, with an empty skip list and no snapshots |
| `LiveDbs.LiveDb.Commit` | TakeItLogin/Pods/leveldb-library/db/db_impl.cc:1206-1215 | the record of the batch is in the bytes of the log before anything of it is in the memtable, and reads move as its operations say |
| `LiveDbs.LiveDb.InsertNext` | TakeItLogin/Pods/leveldb-library/db/write_batch.cc:121-137 | one entry of the batch enters the skip list; a read before or after it is right |
| `LiveDbs.LiveDb.InsertInto` | TakeItLogin/Pods/leveldb-library/db/db_impl.cc:1223-1236 | all of them do, and then the last sequence number moves on: skip list and history agree |
| `LiveDbs.LiveDb.Publish` | TakeItLogin/Pods/leveldb-library/db/db_impl.cc:1236-1236 | once the whole batch is in, it becomes visible at once |
| `LiveDbs.LiveDb.Write` | TakeItLogin/Pods/leveldb-library/db/db_impl.cc:1185-1256 | a whole write: one record in the bytes of the log, its entries in the skip list, its numbers published; of every key, in bytes, is now read what the last operation on it says |
| `LiveDbs.LiveDb.Get` | TakeItLogin/Pods/leveldb-library/db/db_impl.cc:1100-1145 | a read through skip lists and levels, at any time: in the middle of a batch, with stores of the writer between its loads; it answers what the history says at the snapshot or at what is published |
| `LiveDbs.LiveDb.GetValue` | TakeItLogin/Pods/leveldb-library/db/db_impl.cc:1100-1145 | the same for a key in bytes: the value in bytes, or nothing |
| `LiveDbs.LiveDb.AskMem` | TakeItLogin/Pods/leveldb-library/db/memtable.cc:100-134 | the skip list answers for the memtable of the model, although a batch may be on its way into it |
| `LiveDbs.LiveDb.GetSnapshot` | TakeItLogin/Pods/leveldb-library/db/db_impl.cc:1166-1169 | the linked list has one more snapshot, the newest, at the last sequence number |
| `LiveDbs.LiveDb.ReleaseSnapshot` | TakeItLogin/Pods/leveldb-library/db/db_impl.cc:1171-1174 | just that node leaves the list |
| `LiveDbs.LiveDb.SmallestSnapshot` | TakeItLogin/Pods/leveldb-library/db/db_impl.cc:890-894 | what a compaction must respect is at the front of the list |
| `LiveDbs.LiveDb.SwitchMemTable` | TakeItLogin/Pods/leveldb-library/db/db_impl.cc:1346-1366 | the skip list becomes the immutable one, and a new one begins with a new log |
| `LiveDbs.LiveDb.CompactMemTable` | TakeItLogin/Pods/leveldb-library/db/db_impl.cc:535-566 | the contents of the immutable skip list are the new table, and it is given up |
| `LiveDbs.LiveDb.InstallCompactionResults` | TakeItLogin/Pods/leveldb-library/db/db_impl.cc:860-876 | an installation leaves memtables and snapshots in agreement, and reads are kept exactly if the job is not unsafe |
| `Search.SearchLevelZero` | TakeItLogin/Pods/leveldb-library/db/version_set.cc:282-324 | newest file first, the search of level 0 finds the newest visible entry of the key at level 0 |
| `Search.SearchSorted` | TakeItLogin/Pods/leveldb-library/db/version_set.cc:282-324 | in a deeper level one file decides |
| `Search.VersionGet` | TakeItLogin/Pods/leveldb-library/db/version_set.cc:326-421 | level by level, the first answer is the newest visible entry of the key in the whole version |
| `Search.StoreGet` | TakeItLogin/Pods/leveldb-library/db/db_impl.cc:1100-1145 | with memtable and immutable memtable first, the newest visible entry of the whole store |
| `Merger.MergeAllIsMerge` | TakeItLogin/Pods/leveldb-library/table/merger.cc:55-79 | the merge of mergeable sequences is a merge of them |
| `Merger.SmallestIsNext` | TakeItLogin/Pods/leveldb-library/table/merger.cc:148-161 | the least of the children's next entries is the next of the merge |
| `Merger.LargestIsPrevious` | TakeItLogin/Pods/leveldb-library/table/merger.cc:163-176 | the greatest of their last entries is the previous one |
| `Merger.StepMovesOne` | TakeItLogin/Pods/leveldb-library/table/merger.cc:55-79 | one step along the merge moves exactly one child by one |
| `Merger.SeekCutsAll` | TakeItLogin/Pods/leveldb-library/table/merger.cc:47-53 | seeking every child is seeking the merge |
| `Merger.MergingIterator.SeekToFirst` | TakeItLogin/Pods/leveldb-library/table/merger.cc:31-37 | at the first entry of the merge |
| `Merger.MergingIterator.SeekToLast` | TakeItLogin/Pods/leveldb-library/table/merger.cc:39-45 | at the last entry of the merge |
| `Merger.MergingIterator.Seek` | TakeItLogin/Pods/leveldb-library/table/merger.cc:47-53 | at the lower bound of the target in the merge |
| `Merger.MergingIterator.Next` | TakeItLogin/Pods/leveldb-library/table/merger.cc:55-79 | one entry further in the merge, in either direction so far |
| `Merger.MergingIterator.Prev` | TakeItLogin/Pods/leveldb-library/table/merger.cc:81-108 | one entry back in the merge, in either direction so far |
| `Merger.MergingIterator.TurnForward` | TakeItLogin/Pods/leveldb-library/table/merger.cc:63-75 | every other child is placed at its first entry after the current one |
| `Merger.MergingIterator.TurnBackward` | TakeItLogin/Pods/leveldb-library/table/merger.cc:89-103 | every other child is placed at its last entry before the current one |
| `Merger.MergingIterator.FindSmallest` | TakeItLogin/Pods/leveldb-library/table/merger.cc:148-161 | with the children at their next entries, the merge position is where they are cut |
| `Merger.MergingIterator.FindLargest` | TakeItLogin/Pods/leveldb-library/table/merger.cc:163-176 | the same backwards |
| `TwoLevel.ConcatSorted` | TakeItLogin/Pods/leveldb-library/table/two_level_iterator.cc:82-87 | blocks that are sorted and divided by index keys are sorted as one sequence |
| `TwoLevel.SeekThroughIndex` | TakeItLogin/Pods/leveldb-library/table/two_level_iterator.cc:82-87 | the lower bound in the whole is the lower bound in the block that the index leads to |
| `TwoLevel.TwoLevelIterator.SeekToFirst` | TakeItLogin/Pods/leveldb-library/table/two_level_iterator.cc:89-94 | at the first entry of all blocks |
| `TwoLevel.TwoLevelIterator.SeekToLast` | TakeItLogin/Pods/leveldb-library/table/two_level_iterator.cc:96-101 | at the last entry of all blocks |
| `TwoLevel.TwoLevelIterator.Seek` | TakeItLogin/Pods/leveldb-library/table/two_level_iterator.cc:82-87 | at the lower bound of the target in all blocks, empty ones passed over |
| `TwoLevel.TwoLevelIterator.Next` | TakeItLogin/Pods/leveldb-library/table/two_level_iterator.cc:103-107 | one entry further, across blocks |
| `TwoLevel.TwoLevelIterator.Prev` | TakeItLogin/Pods/leveldb-library/table/two_level_iterator.cc:109-113 | one entry back, across blocks |
| `TwoLevel.TwoLevelIterator.SkipEmptyDataBlocksForward` | TakeItLogin/Pods/leveldb-library/table/two_level_iterator.cc:115-126 | empty blocks are skipped without moving in the whole sequence |
| `TwoLevel.TwoLevelIterator.SkipEmptyDataBlocksBackward` | TakeItLogin/Pods/leveldb-library/table/two_level_iterator.cc:128-139 | the same backwards |
| `DbIter.ShownIsRead` | TakeItLogin/Pods/leveldb-library/db/db_iter.cc:168-198 | what an iterator at a snapshot shows is what a read of that key gives |
| `DbIter.ReadIsShown` | TakeItLogin/Pods/leveldb-library/db/db_iter.cc:168-198 | whatever a read gives is shown, at one place |
| `DbIter.DBIter.SeekToFirst` | TakeItLogin/Pods/leveldb-library/db/db_iter.cc:283-292 | nothing shown is before it |
| `DbIter.DBIter.SeekToLast` | TakeItLogin/Pods/leveldb-library/db/db_iter.cc:294-299 | nothing shown is after it |
| `DbIter.DBIter.Seek` | TakeItLogin/Pods/leveldb-library/db/db_iter.cc:269-281 | the first shown user key not before the target |
| `DbIter.DBIter.Next` | TakeItLogin/Pods/leveldb-library/db/db_iter.cc:141-166 | on to a later shown key, with none shown in between, whichever direction it came from; invalid exactly if there is none |
| `DbIter.DBIter.Prev` | TakeItLogin/Pods/leveldb-library/db/db_iter.cc:200-225 | back to an earlier shown key, with none shown in between; invalid exactly if there is none |
| `DbIter.DBIter.FindNextUserEntry` | TakeItLogin/Pods/leveldb-library/db/db_iter.cc:168-198 | the forward scan stops at the first entry from here on that is to be shown, tombstones and older entries skipped |
| `DbIter.DBIter.JudgeEntry` | TakeItLogin/Pods/leveldb-library/db/db_iter.cc:168-198 | one turn of the forward scan: it stops exactly at an entry that is to be shown, and otherwise knows what to skip from then on |
| `DbIter.DBIter.FindPrevUserEntry` | TakeItLogin/Pods/leveldb-library/db/db_iter.cc:227-267 | the backward scan stops past the nearest key with a shown entry, and keeps that entry |
| `Scan.LevelIndexOk` | TakeItLogin/Pods/leveldb-library/db/version_set.cc:230-252 | a level's file list, by largest keys, is a sound index of its entries |
| `Scan.ChildrenMerge` | TakeItLogin/Pods/leveldb-library/db/db_impl.cc:1062-1087 | the children of the internal iterator can be merged, and hold together exactly what is in the store |
| `Scan.ScanShowsHistory` | TakeItLogin/Pods/leveldb-library/db/db_impl.cc:1062-1087 | a scan at a snapshot shows a key with a value if and only if the history has that value for it at the snapshot |
| `SkipLists.SplitIsLowerBound` | TakeItLogin/Pods/leveldb-library/db/skiplist.h:262-281 | where a list splits by a key is the lower bound of its entries |
| `SkipLists.PublishKeeps` | TakeItLogin/Pods/leveldb-library/db/skiplist.h:362-367 | storing the link to a filled node keeps every list sorted and nested |
| `SkipLists.PublishContents` | TakeItLogin/Pods/leveldb-library/db/skiplist.h:362-367 | at level 0 that store is what inserts the entry, and no other store changes the contents |
| `SkipLists.StillStanding` | TakeItLogin/Pods/leveldb-library/db/skiplist.h:262-281 | whatever the writer stored in between, a search that stood in a list still stands in it |
| `SkipLists.Successor` | TakeItLogin/Pods/leveldb-library/db/skiplist.h:207-211 | a node's link at level 0 leads to the first entry after its own |
| `SkipLists.LevelsNest` | TakeItLogin/Pods/leveldb-library/db/skiplist.h:337-368 | at every moment of an insertion each list is within the one below |
| `SkipLists.SkipList.constructor` | TakeItLogin/Pods/leveldb-library/db/skiplist.h:324-335 | an empty list |
| `SkipLists.SkipList.FindGreaterOrEqual` | TakeItLogin/Pods/leveldb-library/db/skiplist.h:262-281 | with any stores of the writer between its loads, the search ends at the first entry not before the key in the list as it then is; without them it leaves the last nodes before the key at every level |
| `SkipLists.SkipList.FindLessThan` | TakeItLogin/Pods/leveldb-library/db/skiplist.h:285-302 | likewise the last node before the key |
| `SkipLists.SkipList.FindLast` | TakeItLogin/Pods/leveldb-library/db/skiplist.h:305-322 | likewise the last node |
| `SkipLists.SkipList.Step` | TakeItLogin/Pods/leveldb-library/db/skiplist.h:337-368 | one store of the writer, whichever is due |
| `SkipLists.SkipList.Run` | TakeItLogin/Pods/leveldb-library/db/skiplist.h:337-368 | any number of such steps |
| `SkipLists.SkipList.Begin` | TakeItLogin/Pods/leveldb-library/db/skiplist.h:337-344 | an insertion begins exactly if the key is not there yet |
| `SkipLists.SkipList.RaiseHeight` | TakeItLogin/Pods/leveldb-library/db/skiplist.h:346-359 | a greater height is stored; no list changes |
| `SkipLists.SkipList.MakeNode` | TakeItLogin/Pods/leveldb-library/db/skiplist.h:361-361 | a new node that no list holds |
| `SkipLists.SkipList.Fill` | TakeItLogin/Pods/leveldb-library/db/skiplist.h:362-365 | its own link is set before anyone can reach it |
| `SkipLists.SkipList.Publish` | TakeItLogin/Pods/leveldb-library/db/skiplist.h:362-367 | the release store: at level 0 the entry is now in the list |
| `SkipLists.SkipList.Insert` | TakeItLogin/Pods/leveldb-library/db/skiplist.h:337-368 | the contents are the old ones with the entry at its place |
| `SkipLists.SkipList.Contains` | TakeItLogin/Pods/leveldb-library/db/skiplist.h:371-378 | true exactly if the key is there |
| `SkipLists.Iterator.Next` | TakeItLogin/Pods/leveldb-library/db/skiplist.h:207-211 | the first entry after the current one, among those there at the load |
| `SkipLists.Iterator.Prev` | TakeItLogin/Pods/leveldb-library/db/skiplist.h:214-222 | the last entry before the current one; nowhere if there is none |
| `SkipLists.Iterator.Seek` | TakeItLogin/Pods/leveldb-library/db/skiplist.h:225-227 | the first entry not before the target |
| `SkipLists.Iterator.SeekToFirst` | TakeItLogin/Pods/leveldb-library/db/skiplist.h:230-232 | the first entry |
| `SkipLists.Iterator.SeekToLast` | TakeItLogin/Pods/leveldb-library/db/skiplist.h:235-240 | the last entry; nowhere if there is none |
| `MemTables.NewerEntriesUnseen` | TakeItLogin/Pods/leveldb-library/db/memtable.cc:100-134 | entries above a snapshot do not change what a read at it finds |
| `MemTables.MemTable.Add` | TakeItLogin/Pods/leveldb-library/db/memtable.cc:75-98 | the entry goes to its place |
| `MemTables.MemTable.Get` | TakeItLogin/Pods/leveldb-library/db/memtable.cc:100-134 | a read answers as the table stood when it began, whatever newer entries are inserted while it runs |
| `WriteQueue.GroupIsGroup` | TakeItLogin/Pods/leveldb-library/db/db_impl.cc:1260-1306 | the requests up to the last one taken form a group: batches only, within the size limit, no sync request under a leader that does not sync |
| `WriteQueue.OpsAppend` | TakeItLogin/Pods/leveldb-library/db/db_impl.cc:1260-1306 | the operations of requests, one queue after another |
| `WriteQueue.OpsOfOne` | TakeItLogin/Pods/leveldb-library/db/db_impl.cc:1260-1306 | those of one request are its batch, of a compaction request none |
| `WriteQueue.SizeUpToIs` | TakeItLogin/Pods/leveldb-library/db/db_impl.cc:1260-1306 | the size that limits a group: the bytes of all its operations, and 12 for each batch |
| `WriteQueue.GroupEnds` | TakeItLogin/Pods/leveldb-library/db/db_impl.cc:1260-1306 | where a group ends and why: no sync request with a front that is not, no batch past 1 MB or, if the first has at most 128 KB, past 128 KB more than it; the next request would break one of these |
| `WriteQueue.BuildBatchGroup` | TakeItLogin/Pods/leveldb-library/db/db_impl.cc:1260-1306 | the group is a prefix of the queue, holds all its operations in order, keeps within the limits in bytes, and the next request could not have joined |
| `WriteQueue.FinishSyncs` | TakeItLogin/Pods/leveldb-library/db/db_impl.cc:1213-1225 | every sync request of a committed group is in a record that was synced |
| `WriteQueue.InsertEnds` | TakeItLogin/Pods/leveldb-library/db/write_batch.cc:121-137 | after the memtable inserter the memtable holds exactly the operations of the log, with the same numbers |
| `Writers.GroupFor` | TakeItLogin/Pods/leveldb-library/db/db_impl.cc:1260-1306 | the group of the front writer and its last member |
| `Writers.WriterQueue.Join` | TakeItLogin/Pods/leveldb-library/db/db_impl.cc:1185-1192 | a writer queues up behind all others, at any time |
| `Writers.WriterQueue.Wake` | TakeItLogin/Pods/leveldb-library/db/db_impl.cc:1193-1198 | a writer that tests its condition returns if it was committed, leads if it is at the front, and sleeps otherwise |
| `Writers.WriterQueue.Group` | TakeItLogin/Pods/leveldb-library/db/db_impl.cc:1203-1205 | the leader takes a maximal group within the limits |
| `Writers.WriterQueue.AppendToLog` | TakeItLogin/Pods/leveldb-library/db/db_impl.cc:1206-1222 | one record for the whole group, numbered on from the last sequence number, synced if the leader asked for it |
| `Writers.WriterQueue.InsertIntoMem` | TakeItLogin/Pods/leveldb-library/db/db_impl.cc:1223-1225 | the same operations with the same numbers go to the memtable |
| `Writers.WriterQueue.Finish` | TakeItLogin/Pods/leveldb-library/db/db_impl.cc:1236-1256 | the last sequence number moves on, the group leaves, its members are done and signalled, the new front is signalled |
| `Writers.WriterQueue.FinishCompaction` | TakeItLogin/Pods/leveldb-library/db/db_impl.cc:1203-1256 | a request without a batch commits nothing and leaves alone |
| `Writers.WriterQueue.PopGroup` | TakeItLogin/Pods/leveldb-library/db/db_impl.cc:1239-1248 | the loop at the end takes exactly the group off the queue, and marks and signals every other member |
| `Writers.WriterQueue.Leave` | TakeItLogin/Pods/leveldb-library/db/db_impl.cc:1239-1256 | the whole end of Write, with the signal to the new front |
| `Writers.WriterQueue.OneLeader` | TakeItLogin/Pods/leveldb-library/db/db_impl.cc:1193-1205 | at most one writer is past the wait, and it is at the front and not done |
| `Writers.WriterQueue.LeadersAndMembers` | TakeItLogin/Pods/leveldb-library/db/db_impl.cc:1239-1248 | every writer that left was either a leader or marked done by one, never both |
| `Writers.WriterQueue.ReturnsOnce` | TakeItLogin/Pods/leveldb-library/db/db_impl.cc:1193-1198 | no writer returns twice, and none before its request has left the queue |
| `Writers.WriterQueue.SomeoneIsAwake` | TakeItLogin/Pods/leveldb-library/db/db_impl.cc:1239-1253 | no lost wake-up: while some writer has not returned, some writer is awake that can go on |
| `Writers.WriterQueue.Committed` | TakeItLogin/Pods/leveldb-library/db/db_impl.cc:1185-1256 | between groups, log and memtable hold exactly the operations of the requests that left, in queue order and numbered without a gap, and every sync request was synced |
| `WriteBatches.ParseOpRoundTrip` | TakeItLogin/Pods/leveldb-library/db/write_batch.cc:42-80 | one encoded operation parses back, whatever follows |
| `WriteBatches.ParseOpsRoundTrip` | TakeItLogin/Pods/leveldb-library/db/write_batch.cc:42-80 | so do all |
| `WriteBatches.HandledRep` | TakeItLogin/Pods/leveldb-library/db/write_batch.cc:42-80 | iterating over the bytes of a batch hands out exactly its operations, and the count agrees |
| `WriteBatches.RepLayout` | TakeItLogin/Pods/leveldb-library/db/write_batch.cc:5-14 | in numbers: eight bytes of sequence number, four of count, the least significant first, then the operations |
| `WriteBatches.OpLayout` | TakeItLogin/Pods/leveldb-library/db/write_batch.cc:98-109 | 1, key and value for a put, 0 and a key for a delete, each after its length |
| `WriteBatches.OpsLayout` | TakeItLogin/Pods/leveldb-library/db/write_batch.cc:98-109 | the operations follow each other in order |
| `WriteBatches.WriteBatch.Clear` | TakeItLogin/Pods/leveldb-library/db/write_batch.cc:35-38 | an empty batch of 12 bytes |
| `WriteBatches.WriteBatch.Count` | TakeItLogin/Pods/leveldb-library/db/write_batch.cc:82-84 | the number of operations |
| `WriteBatches.WriteBatch.Sequence` | TakeItLogin/Pods/leveldb-library/db/write_batch.cc:90-92 | the sequence number |
| `WriteBatches.WriteBatch.SetSequence` | TakeItLogin/Pods/leveldb-library/db/write_batch.cc:94-96 | a new sequence number, the same operations |
| `WriteBatches.WriteBatch.Put` | TakeItLogin/Pods/leveldb-library/db/write_batch.cc:98-103 | one more operation, the last |
| `WriteBatches.WriteBatch.Delete` | TakeItLogin/Pods/leveldb-library/db/write_batch.cc:105-109 | one more operation, the last |
| `WriteBatches.WriteBatch.Append` | TakeItLogin/Pods/leveldb-library/db/write_batch.cc:144-148 | the operations of the other batch follow |
| `WriteBatches.WriteBatch.Iterate` | TakeItLogin/Pods/leveldb-library/db/write_batch.cc:42-80 | the loop over the bytes of any batch, damaged ones too, calls the handler as the parser says and ends in the same status |
| `WriteBatches.WriteBatch.InsertInto` | TakeItLogin/Pods/leveldb-library/db/write_batch.cc:121-142 | the operations get consecutive numbers from the batch's own on |
| `Log.AppendedRecord` | TakeItLogin/Pods/leveldb-library/db/log_writer.cc:34-80 | the bytes of a log with one more record are the old bytes and that record's, at the block offset reached |
| `LogFormat.CutIs` | TakeItLogin/Pods/leveldb-library/db/log_writer.cc:43-78 | the pieces are the record, the first as long as there is room, the others but the last as long as a block allows |
| `LogFormat.LaidWhole` | TakeItLogin/Pods/leveldb-library/db/log_writer.cc:43-78 | a record that fits in its block is one fragment, of type 1 |
| `Log.PhysicalLayout` | TakeItLogin/Pods/leveldb-library/db/log_writer.cc:82-108 | a fragment in numbers: four bytes of masked checksum over type and payload, two of length, the least significant first, type, payload |
| `Log.RecordLayout` | TakeItLogin/Pods/leveldb-library/db/log_writer.cc:34-80 | wherever in a block it begins, a record is written as the format has it in numbers |
| `Log.Writer.AddRecord` | TakeItLogin/Pods/leveldb-library/db/log_writer.cc:34-80 | the writer appends exactly the bytes of one record: in numbers, a record that fits in the rest of its block of 32768 bytes is checksum, two bytes of length, the type 1 and the data; another is cut into fragments of type 2, then 3, and last 4, all but the last up to the end of a block, after zeros where fewer than seven bytes are left |
| `Log.Writer.EmitFragment` | TakeItLogin/Pods/leveldb-library/db/log_writer.cc:43-78 | one turn of the loop: the trailer if no header fits, and one fragment as long as fits |
| `Log.Writer.SwitchBlock` | TakeItLogin/Pods/leveldb-library/db/log_writer.cc:44-54 | a trailer too short for a header is filled with zeros |
| `Log.Writer.EmitPhysicalRecord` | TakeItLogin/Pods/leveldb-library/db/log_writer.cc:82-108 | header and payload |
| `Log.Reader.ReadPhysicalRecord` | TakeItLogin/Pods/leveldb-library/db/log_reader.cc:189-271 | the buffered reader finds what the file has at that position: the next record, the end, or a bad one that is reported or not |
| `Log.Reader.ParseBuffer` | TakeItLogin/Pods/leveldb-library/db/log_reader.cc:216-269 | the same within one block: length, type, checksum |
| `Log.HeaderIsJudged` | TakeItLogin/Pods/leveldb-library/db/log_reader.cc:189-271 | in numbers, of any header in any file: too long for its block, at the end of the file or not, empty, with a wrong checksum, or a record; and which of these are reported |
| `Log.Reader.Absorb` | TakeItLogin/Pods/leveldb-library/db/log_reader.cc:91-171 | every combination of record type and fragment state: what is done with the record, and what counts as dropped |
| `Log.Reader.ReadFragment` | TakeItLogin/Pods/leveldb-library/db/log_reader.cc:75-172 | one turn of the loop; the rest of the file gives the rest of the record |
| `Log.Reader.ReadRecord` | TakeItLogin/Pods/leveldb-library/db/log_reader.cc:56-174 | the next logical record from any position of any file, damaged ones too, and what was reported on the way; a record that is returned is in the file from there on: fragments one right after the other, of the right types, each within a block and with the right checksum |
| `Log.YieldedIsHeld` | TakeItLogin/Pods/leveldb-library/db/log_reader.cc:189-271 | whatever the file, what is returned was written: no record is made up of damaged fragments |
| `LogRoundTrip.PhysicalReadsBack` | TakeItLogin/Pods/leveldb-library/db/log_reader.cc:189-271 | a physical record is read back if it is whole, and is the end of the file if it is cut |
| `LogRoundTrip.FragmentsReadBack` | TakeItLogin/Pods/leveldb-library/db/log_reader.cc:56-174 | a record of any number of fragments is read back if it is whole, and silently dropped if it is cut |
| `LogRoundTrip.WholeIsExact` | TakeItLogin/Pods/leveldb-library/db/log_reader.cc:56-174 | a record counts as whole exactly when its last byte is within the file |
| `LogRoundTrip.PrefixReadsBack` | TakeItLogin/Pods/leveldb-library/db/log_reader.cc:56-174 | a log cut off at any byte reads back as exactly the records that are whole, with nothing reported |
| `LogRoundTrip.LogReadsBack` | TakeItLogin/Pods/leveldb-library/db/log_reader.cc:56-174 | a whole log reads back as all its records |
| `LogRoundTrip.BlockStartReads` | TakeItLogin/Pods/leveldb-library/db/log_reader.cc:91-271 | whatever is damaged before it, the reader does not go past a whole record that begins with a block without returning it |
| `LogRoundTrip.BlockStartIsFound` | TakeItLogin/Pods/leveldb-library/db/log_reader.cc:189-271 | so it is among the records of the file: damage is lost up to the end of its block only |
| `LogReplay.ReplayLog` | TakeItLogin/Pods/leveldb-library/db/db_impl.cc:418-453 | the recovery loop over any file applies the batches of the records that the reader yields |
| `LogReplay.RecordsApply` | TakeItLogin/Pods/leveldb-library/db/db_impl.cc:418-453 | replaying the records of commits gives all operations, numbered from 1 without a gap |
| `LogReplay.CutLogReplaysPrefix` | TakeItLogin/Pods/leveldb-library/db/db_impl.cc:418-453 | a log cut off at any byte replays as a prefix of the committed operations, with every record that was whole |
| `Coding.FixedRoundTrip` | TakeItLogin/Pods/leveldb-library/util/coding.cc:9-33 | a little-endian number of any width decodes to itself |
| `Coding.Fixed32RoundTrip` | TakeItLogin/Pods/leveldb-library/util/coding.cc:9-19 | the same at 32 bits |
| `Coding.Fixed64RoundTrip` | TakeItLogin/Pods/leveldb-library/util/coding.cc:21-33 | the same at 64 bits |
| `Coding.FixedByte` | TakeItLogin/Pods/leveldb-library/util/coding.cc:9-33 | bit for bit: byte `i` holds the eight bits from `8 * i` on |
| `Coding.Fixed32Layout` | TakeItLogin/Pods/leveldb-library/util/coding.cc:9-18 | the four bytes of a word, the least significant first |
| `Coding.FixedIsOnlyForm` | TakeItLogin/Pods/leveldb-library/util/coding.cc:9-33 | no other bytes decode to the number |
| `Coding.VarintByte` | TakeItLogin/Pods/leveldb-library/util/coding.cc:47-96 | bit for bit: byte `i` holds the seven bits from `7 * i` on, and in its highest bit whether more bytes follow |
| `Coding.VarintIsShortest` | TakeItLogin/Pods/leveldb-library/util/coding.cc:47-96 | no more bytes than it takes |
| `Coding.EncodeVarint32` | TakeItLogin/Pods/leveldb-library/util/coding.cc:47-73 | the five cases write the base-128 form of the number |
| `Coding.EncodeVarint64` | TakeItLogin/Pods/leveldb-library/util/coding.cc:81-90 | so does the loop |
| `Coding.VarintLength` | TakeItLogin/Pods/leveldb-library/util/coding.cc:103-110 | the length of that form |
| `Coding.GetVarint` | TakeItLogin/Pods/leveldb-library/util/coding.cc:112-128 | the number at the head of any input, within a number of bytes, cut to a width |
| `Coding.ReadGroups` | TakeItLogin/Pods/leveldb-library/util/coding.cc:112-157 | the decoding loop |
| `Coding.GetVarint32Reads` | TakeItLogin/Pods/leveldb-library/util/coding.cc:112-140 | on any bytes: nothing is read exactly if the first five, or all there are, have the mark that more follow |
| `Coding.GetVarint32Bits` | TakeItLogin/Pods/leveldb-library/util/coding.cc:112-140 | and otherwise the first byte without the mark ends the number, whose bits are those of the bytes |
| `Coding.GetVarint64Reads` | TakeItLogin/Pods/leveldb-library/util/coding.cc:142-170 | the same for ten bytes |
| `Coding.GetVarint64Bits` | TakeItLogin/Pods/leveldb-library/util/coding.cc:142-170 | and 64 bits |
| `Coding.VarintRoundTrip` | TakeItLogin/Pods/leveldb-library/util/coding.cc:142-157 | an encoded number reads back, whatever follows it |
| `Coding.GetVarint32RoundTrip` | TakeItLogin/Pods/leveldb-library/util/coding.cc:130-140 | the same at 32 bits, and what follows is left |
| `Coding.GetVarint64RoundTrip` | TakeItLogin/Pods/leveldb-library/util/coding.cc:159-169 | the same at 64 bits |
| `Coding.LengthPrefixedRoundTrip` | TakeItLogin/Pods/leveldb-library/util/coding.cc:181-191 | a length-prefixed string reads back |
| `Coding.MaskRoundTrip` | TakeItLogin/Pods/leveldb-library/util/crc32c.h:29-39 | unmasking undoes masking, for every 32-bit checksum |
| `Coding.UnmaskRoundTrip` | TakeItLogin/Pods/leveldb-library/util/crc32c.h:29-39 | and the other way round: every word is the mask of one checksum |
| `Coding.MaskRotates` | TakeItLogin/Pods/leveldb-library/util/crc32c.h:22-33 | bit for bit, a checksum is stored rotated right by 15, plus 0xa282ead8 |
| `KeyOrder.LessIsTransitive` | TakeItLogin/Pods/leveldb-library/util/comparator.cc:25-27 | the bytewise order is transitive |
| `KeyOrder.LessIsTotal` | TakeItLogin/Pods/leveldb-library/util/comparator.cc:25-27 | and total |
| `KeyOrder.Compare` | TakeItLogin/Pods/leveldb-library/include/leveldb/slice.h:101-111 | the comparison has the sign of the order |
| `KeyOrder.FindShortestSeparator` | TakeItLogin/Pods/leveldb-library/util/comparator.cc:29-50 | `start` is kept exactly if the byte where the two differ cannot be incremented below the limit's; else the result is strictly between, the shortest that is, and the least of that length |
| `KeyOrder.FindShortSuccessor` | TakeItLogin/Pods/leveldb-library/util/comparator.cc:52-64 | kept exactly if all bytes are 0xff; else the shortest string after it, and the least of that length |
| `KeyOrder.IKeyTransitive` | TakeItLogin/Pods/leveldb-library/db/dbformat.cc:51-67 | the order of internal keys is transitive |
| `KeyOrder.IKeyTotal` | TakeItLogin/Pods/leveldb-library/db/dbformat.cc:51-67 | and a strict total order |
| `KeyOrder.StoredKeyRoundTrip` | TakeItLogin/Pods/leveldb-library/db/dbformat.h:165-177 | a stored internal key parses back into user key, sequence number and type |
| `KeyOrder.StoredLayout` | TakeItLogin/Pods/leveldb-library/db/dbformat.cc:14-23 | in numbers: the user key, then eight bytes of tag, the least significant first |
| `KeyOrder.ParseLayout` | TakeItLogin/Pods/leveldb-library/db/dbformat.h:165-175 | of any bytes: the type is the eighth byte from the end, 0 or 1, or the key is refused; after it come the bytes of the sequence number |
| `KeyOrder.InternalSeparator` | TakeItLogin/Pods/leveldb-library/db/dbformat.cc:69-86 | replaced exactly if the user key got shorter; never before `start`, strictly before `limit`; a replacement is the least of the shortest user keys between the two, with the greatest tag as a number |
| `KeyOrder.InternalSuccessor` | TakeItLogin/Pods/leveldb-library/db/dbformat.cc:88-101 | replaced exactly if the user key got shorter; never before the key; a replacement is the least of the shortest user keys after it, with the greatest tag as a number |
| `KeyOrder.RankOrders` | TakeItLogin/Pods/leveldb-library/util/comparator.cc:25-27 | byte strings embed into the numbers between 0 and 1 with their order, so that user keys may be numbers elsewhere in the model |
| `KeyOrder.StoredOrder` | TakeItLogin/Pods/leveldb-library/db/dbformat.cc:51-67 | the order of stored internal keys is the order that the store uses |
| `Blocks.CommonLength` | TakeItLogin/Pods/leveldb-library/table/block_builder.cc:78-84 | the number of leading bytes shared |
| `Blocks.EntryLayout` | TakeItLogin/Pods/leveldb-library/table/block_builder.cc:71-105 | in numbers: how many bytes of the key the one before it has too, how many follow, the length of the value; then these bytes |
| `Blocks.FixedAllLayout` | TakeItLogin/Pods/leveldb-library/table/block_builder.cc:60-69 | the restart array is four bytes a number, the least significant first |
| `Blocks.BlockBuilder.ShareOrRestart` | TakeItLogin/Pods/leveldb-library/table/block_builder.cc:78-89 | a full run starts a restart point that shares nothing; else what is shared with the previous key |
| `Blocks.BlockBuilder.EmitEntry` | TakeItLogin/Pods/leveldb-library/table/block_builder.cc:90-99 | one entry, prefix left out |
| `Blocks.BlockBuilder.Add` | TakeItLogin/Pods/leveldb-library/table/block_builder.cc:72-106 | the buffer holds the encoding of one more entry |
| `Blocks.BlockBuilder.Finish` | TakeItLogin/Pods/leveldb-library/table/block_builder.cc:62-70 | entries, restart array, number of restarts |
| `Blocks.BlockBuilder.Reset` | TakeItLogin/Pods/leveldb-library/table/block_builder.cc:47-54 | an empty block |
| `BlockReader.ReadEntry` | TakeItLogin/Pods/leveldb-library/table/block.cc:54-74 | the fast path for three one-byte numbers decodes as the general one does, on any bytes |
| `BlockReader.EntryReads` | TakeItLogin/Pods/leveldb-library/table/block.cc:54-74 | an encoded entry decodes, whatever follows |
| `BlockReader.StepReads` | TakeItLogin/Pods/leveldb-library/table/block.cc:224-251 | from a restart point, or with the previous key in hand, the next entry is parsed with its whole key |
| `BlockReader.FinishedBlockParses` | TakeItLogin/Pods/leveldb-library/table/block.cc:19-40 | what Finish writes splits into data and restart array again |
| `BlockReader.BuiltIsReadable` | TakeItLogin/Pods/leveldb-library/table/block.cc:19-40 | every block that a builder can be in the middle of is readable, for every restart interval |
| `BlockReader.FinishedHolds` | TakeItLogin/Pods/leveldb-library/table/block_builder.cc:62-70 | what a builder finishes parses as a block of its entries, as long as sizes fit 32 bits |
| `BlockReader.SeekIn` | TakeItLogin/Pods/leveldb-library/table/block.cc:163-201 | an iterator made on the bytes of a block finds the first pair at or after the target |
| `BlockReader.BuildThenSeek` | TakeItLogin/Pods/leveldb-library/table/block.cc:163-201 | a block that is built, parsed and searched gives what a search of its entries would, for any order and restart interval |
| `BlockReader.BlockIter.ParseNextKey` | TakeItLogin/Pods/leveldb-library/table/block.cc:224-251 | on to the next entry, false at the end |
| `BlockReader.BlockIter.SeekToFirst` | TakeItLogin/Pods/leveldb-library/table/block.cc:203-206 | at the first entry |
| `BlockReader.BlockIter.SeekToLast` | TakeItLogin/Pods/leveldb-library/table/block.cc:208-213 | at the last entry |
| `BlockReader.BlockIter.Next` | TakeItLogin/Pods/leveldb-library/table/block.cc:137-140 | one entry further |
| `BlockReader.BlockIter.Prev` | TakeItLogin/Pods/leveldb-library/table/block.cc:142-161 | one entry back, by way of a restart point |
| `BlockReader.BlockIter.Seek` | TakeItLogin/Pods/leveldb-library/table/block.cc:163-201 | binary search over restart points and a scan end at the lower bound of the target |
| `BlockReader.BlockIter.ScanForward` | TakeItLogin/Pods/leveldb-library/table/block.cc:192-200 | from any entry not after it, the scan ends at the lower bound |
| `Bloom.ProbesSet` | TakeItLogin/Pods/leveldb-library/util/bloom.cc:43-53 | adding a key sets exactly the bits it probes |
| `Bloom.DeltaRotates` | TakeItLogin/Pods/leveldb-library/util/bloom.cc:37-55 | bit for bit, the step between probes is the hash value rotated right by 17 |
| `Bloom.ProbeIs` | TakeItLogin/Pods/leveldb-library/util/bloom.cc:37-55 | the probes in closed form: the hash value plus a multiple of that step |
| `Bloom.AddKey` | TakeItLogin/Pods/leveldb-library/util/bloom.cc:43-53 | the probing loop does that |
| `Bloom.CreateFilter` | TakeItLogin/Pods/leveldb-library/util/bloom.cc:28-54 | the filter has the size, the bits and the number of probes that it should |
| `Bloom.FilterBits` | TakeItLogin/Pods/leveldb-library/util/bloom.cc:28-54 | a bit is set if and only if some key probes it |
| `Bloom.KeyMayMatch` | TakeItLogin/Pods/leveldb-library/util/bloom.cc:56-80 | for a filter of two bytes or more: true exactly if its last byte, the number of probes, is above 30, or the bits of all these probes are set; false for a shorter one |
| `Bloom.AddedMayMatch` | TakeItLogin/Pods/leveldb-library/util/bloom.cc:56-80 | no key that was added is ever ruled out, for every hash function |
| `FilterPolicies.PolicyIsSound` | TakeItLogin/Pods/leveldb-library/db/dbformat.cc:105-119 | the policy that strips tags from internal keys never rules out an added user key |
| `FilterPolicies.StoredUserKey` | TakeItLogin/Pods/leveldb-library/db/dbformat.h:92-96 | stripping a stored key gives its user key |
| `FilterPolicies.BloomNeverHides` | TakeItLogin/Pods/leveldb-library/db/dbformat.cc:105-119 | a filter block over a Bloom policy never rules out a key that was added for that block offset, under any tag |
| `FilterBlocks.FilterBlockBuilder.StartBlock` | TakeItLogin/Pods/leveldb-library/table/filter_block.cc:21-27 | filters up to the 2 KB range of the new block are finished; keys added before stay where they belong |
| `FilterBlocks.FilterBlockBuilder.AddKey` | TakeItLogin/Pods/leveldb-library/table/filter_block.cc:29-33 | the key is registered for the offset of the current block |
| `FilterBlocks.FilterBlockBuilder.GenerateFilter` | TakeItLogin/Pods/leveldb-library/table/filter_block.cc:51-75 | the pending keys become the next filter |
| `FilterBlocks.FilterBlockBuilder.Finish` | TakeItLogin/Pods/leveldb-library/table/filter_block.cc:35-49 | the filter block, in which every key is in the filter of its block's range; keys still pending become one last filter |
| `FilterBlocks.SplitKeys` | TakeItLogin/Pods/leveldb-library/table/filter_block.cc:59-66 | the flattened keys are cut apart as they were put together |
| `FilterBlocks.KeyMayMatch` | TakeItLogin/Pods/leveldb-library/table/filter_block.cc:90-104 | the reader's answer on any bytes: from the filter the offset leads to, no for an empty filter, or yes where there is none |
| `FilterBlocks.FilterIsAsked` | TakeItLogin/Pods/leveldb-library/table/filter_block.cc:77-104 | for a block at an offset, what is asked is the filter of the keys of its 2 KB |
| `FilterBlocks.FilterReadsBack` | TakeItLogin/Pods/leveldb-library/table/filter_block.cc:77-104 | in a finished filter block every offset leads to the bytes of its filter |
| `FilterBlocks.FilterNeverHides` | TakeItLogin/Pods/leveldb-library/table/filter_block.cc:90-104 | for every sound policy, a finished filter block never rules out a key it was given |
| `TableBuilders.TableBuilder.Add` | TakeItLogin/Pods/leveldb-library/table/table_builder.cc:94-123 | one more entry, the last; the block is written out then just if it is full; index, blocks and filter stay in step |
| `TableBuilders.TableBuilder.AddEntry` | TakeItLogin/Pods/leveldb-library/table/table_builder.cc:102-117 | the same before the block is perhaps flushed |
| `TableBuilders.TableBuilder.AddIndexEntry` | TakeItLogin/Pods/leveldb-library/table/table_builder.cc:102-109 | the index key of the last block lies between that block and the entry to come |
| `TableBuilders.TableBuilder.Flush` | TakeItLogin/Pods/leveldb-library/table/table_builder.cc:125-139 | a block that is not empty goes to the file, and the filter moves on to the next offset |
| `TableBuilders.TableBuilder.WriteBlock` | TakeItLogin/Pods/leveldb-library/table/table_builder.cc:141-196 | the block is at the old offset; the file grows by its size and the trailer (the bytes are in `TableFiles`) |
| `TableBuilders.TableBuilder.Finish` | TakeItLogin/Pods/leveldb-library/table/table_builder.cc:198-253 | the blocks hold exactly the entries added, in order; the index divides them; the filter block rules out none of them |
| `TableBuilders.TableBuilder.AddLastIndexEntry` | TakeItLogin/Pods/leveldb-library/table/table_builder.cc:229-238 | the last block gets an index key not before its last key |
| `TableBuilders.FinishedFilter` | TakeItLogin/Pods/leveldb-library/table/table_builder.cc:206-210 | the finished filter block answers yes for every key of every block at that block's offset |
| `TableBuilders.BuildTable` | TakeItLogin/Pods/leveldb-library/db/builder.cc:17-80 | a table of any ascending entries, cut into blocks anywhere: complete, indexed, and with a filter that hides nothing |
| `TableReaders.InternalGet` | TakeItLogin/Pods/leveldb-library/table/table.cc:216-244 | with index, filter and block search on lists of entries, exactly the first entry at or after the key is reported, if it has the same user key (on the bytes: `TableFiles.GetInFile`) |
| `TableReaders.ReportIsFound` | TakeItLogin/Pods/leveldb-library/table/table.cc:216-244 | whatever searches the index, asks the filter and searches the block: what is reported is what a search of the whole table would find |
| `TableReaders.FoundIsFirst` | TakeItLogin/Pods/leveldb-library/table/table.cc:216-244 | searching the blocks is searching all entries in one sequence |
| `TableReaders.BuildThenGet` | TakeItLogin/Pods/leveldb-library/table/table.cc:216-244 | end to end: what a built table reports for a key is the first of the entries at or after it, with or without a filter |
| `Tables.IndexDivides` | TakeItLogin/Pods/leveldb-library/table/table_builder.cc:102-109 | every index key is not before its block and before every later one; a shortened one also has a lesser user key |
| `Tables.SeekBlock` | TakeItLogin/Pods/leveldb-library/table/table.cc:232-232 | the lower bound in a block |
| `Tables.SeekIndex` | TakeItLogin/Pods/leveldb-library/table/table.cc:220-221 | the first index key not before the target |
| `Tables.FoundInBlock` | TakeItLogin/Pods/leveldb-library/table/table.cc:216-244 | only the block that the index leads to can hold the entry |
| `Tables.TableIsTwoLevel` | TakeItLogin/Pods/leveldb-library/table/table.cc:210-214 | a table's index and blocks are what the two-level iterator needs |
| `TableFormats.HandleRoundTrip` | TakeItLogin/Pods/leveldb-library/table/format.cc:15-29 | a block handle reads back, whatever follows it |
| `TableFormats.FooterRoundTrip` | TakeItLogin/Pods/leveldb-library/table/format.cc:31-62 | the two handles of a footer read back |
| `TableFormats.FooterLayout` | TakeItLogin/Pods/leveldb-library/table/format.cc:33-41 | in numbers: both handles, zeros up to 40 bytes, and the eight bytes that end every table |
| `TableFormats.BlockReadsBack` | TakeItLogin/Pods/leveldb-library/table/format.cc:64-139 | a block reads back wherever it is in the file, compressed or not, checksum verified or not |
| `TableFormats.RawBlockLayout` | TakeItLogin/Pods/leveldb-library/table/table_builder.cc:141-194 | in numbers: the contents, type 0, or 1 for a block that compression made an eighth smaller, and four bytes of masked checksum over both |
| `TableFormats.ReadIsSound` | TakeItLogin/Pods/leveldb-library/table/format.cc:64-141 | on any file: a block is read exactly if it is whole, of a known type, can be uncompressed and, where that is asked for, has the right checksum; what is read is its contents |
| `TableFormats.PlainBlockReadsBack` | TakeItLogin/Pods/leveldb-library/table/format.cc:64-139 | so does a block that is never compressed |
| `TableFormats.BlockStays` | TakeItLogin/Pods/leveldb-library/table/format.cc:64-139 | appending to the file leaves its blocks readable |
| `TableFiles.InOrderAscends` | TakeItLogin/Pods/leveldb-library/db/dbformat.cc:51-67 | keys in the internal order are in order as they are stored |
| `TableFiles.StoredBound` | TakeItLogin/Pods/leveldb-library/db/dbformat.cc:51-67 | and a lower bound among them is one among the internal keys |
| `TableFiles.IndexInOrder` | TakeItLogin/Pods/leveldb-library/table/table_builder.cc:102-109 | the index keys are in order, so that the index block can be searched |
| `TableFiles.FileTableBuilder.constructor` | TakeItLogin/Pods/leveldb-library/table/table_builder.cc:65-70 | an empty table file; every entry of its index block is a restart point |
| `TableFiles.FileTableBuilder.Add` | TakeItLogin/Pods/leveldb-library/table/table_builder.cc:94-123 | one more entry, the last; file, blocks and index block stay in step, and a block is written out just if it has reached its size, as what is read back at its handle has |
| `TableFiles.FileTableBuilder.AddIndexed` | TakeItLogin/Pods/leveldb-library/table/table_builder.cc:102-117 | the index entry that was waiting goes to the index block with the handle of its block |
| `TableFiles.FileTableBuilder.WriteBlock` | TakeItLogin/Pods/leveldb-library/table/table_builder.cc:141-194 | the file grows by a block that reads back at the handle given |
| `TableFiles.FileTableBuilder.WriteDataBlock` | TakeItLogin/Pods/leveldb-library/table/table_builder.cc:141-194 | the bytes of a data block read back as its entries, and the builder starts an empty one |
| `TableFiles.FileTableBuilder.WriteFilter` | TakeItLogin/Pods/leveldb-library/table/table_builder.cc:206-210 | the filter reads back |
| `TableFiles.FileTableBuilder.WriteMeta` | TakeItLogin/Pods/leveldb-library/table/table_builder.cc:212-226 | the metaindex reads back as the name and the handle of the filter |
| `TableFiles.FileTableBuilder.WriteIndex` | TakeItLogin/Pods/leveldb-library/table/table_builder.cc:228-240 | the index block reads back as index keys and handles |
| `TableFiles.FileTableBuilder.Flush` | TakeItLogin/Pods/leveldb-library/table/table_builder.cc:125-139 | the block being filled goes to the file |
| `TableFiles.FileTableBuilder.Finish` | TakeItLogin/Pods/leveldb-library/table/table_builder.cc:198-253 | the file holds the table: footer, index, metaindex, filter and every block at its handle, with exactly the entries added |
| `TableFiles.OpenTable` | TakeItLogin/Pods/leveldb-library/table/table.cc:38-82 | opening a file that holds a table gives its index block, and its filter exactly if the name is the reader's |
| `TableFiles.ReadMeta` | TakeItLogin/Pods/leveldb-library/table/table.cc:84-134 | the filter is found through the metaindex exactly under its name |
| `TableFiles.SeekHandle` | TakeItLogin/Pods/leveldb-library/table/table.cc:216-222 | the index block leads to the handle of the first block whose key is not before the sought one |
| `TableFiles.SeekInBlock` | TakeItLogin/Pods/leveldb-library/table/table.cc:155-208 | the block's bytes lead to its first entry at or after the key |
| `TableFiles.GetInFile` | TakeItLogin/Pods/leveldb-library/table/table.cc:216-244 | InternalGet on bytes: what is reported under the sought user key is exactly what a search of the whole table would find |
| `TableFiles.BuildFile` | TakeItLogin/Pods/leveldb-library/db/builder.cc:17-80 | the file that is built of any ascending entries holds a complete table of them |
| `TableFiles.BuildOpenGet` | TakeItLogin/Pods/leveldb-library/table/table.cc:216-244 | end to end in bytes: built, opened and asked for any key, with any compression, filter policy and verification, a table answers what a search of its entries would |
| `VersionEdits.BodyRoundTrip` | TakeItLogin/Pods/leveldb-library/db/version_edit.cc:107-205 | each kind of field parses back |
| `VersionEdits.FieldLayout` | TakeItLogin/Pods/leveldb-library/db/version_edit.cc:14-85 | in numbers: the tag of each kind of field and the order of its parts |
| `VersionEdits.FieldsRoundTrip` | TakeItLogin/Pods/leveldb-library/db/version_edit.cc:107-205 | so does any sequence of fields |
| `VersionEdits.SetInsertOk` | TakeItLogin/Pods/leveldb-library/db/version_edit.h:74-76 | std::set insertion keeps the order and adds exactly one element |
| `VersionEdits.EditRoundTrip` | TakeItLogin/Pods/leveldb-library/db/version_edit.cc:41-85 | decoding an encoded edit into a cleared one gives the edit if and only if no compaction pointers were left in it; those left come first |
| `VersionEdits.LeftOverPointerStays` | TakeItLogin/Pods/leveldb-library/db/version_edit.cc:26-39 | an edit with one compaction pointer left in it, into which an encoded edit does not decode to itself |
| `VersionEdits.VersionEdit.Clear` | TakeItLogin/Pods/leveldb-library/db/version_edit.cc:26-39 | everything but the compaction pointers is cleared |
| `VersionEdits.VersionEdit.DeleteFile` | TakeItLogin/Pods/leveldb-library/db/version_edit.h:74-76 | just that file is deleted as well |
| `VersionEdits.VersionEdit.EncodeTo` | TakeItLogin/Pods/leveldb-library/db/version_edit.cc:41-85 | the bytes of the fields in their order |
| `VersionEdits.VersionEdit.DecodeFrom` | TakeItLogin/Pods/leveldb-library/db/version_edit.cc:107-205 | on any bytes: the fields up to the first malformed one, on top of what Clear left, and the status |
| `Rings.UnlinkKeeps` | TakeItLogin/Pods/leveldb-library/util/cache.cc:239-242 | unlinking an entry leaves the ring of the others |
| `Rings.AppendKeeps` | TakeItLogin/Pods/leveldb-library/util/cache.cc:244-250 | appending puts it before the head, as the newest |
| `Rings.UnlinkElsewhere` | TakeItLogin/Pods/leveldb-library/util/cache.cc:239-242 | another ring is not touched by that |
| `Rings.AppendElsewhere` | TakeItLogin/Pods/leveldb-library/util/cache.cc:244-250 | nor by this |
| `Snapshots.SnapshotList.Empty` | TakeItLogin/Pods/leveldb-library/db/snapshot.h:46-46 | true exactly if there is no live snapshot |
| `Snapshots.SnapshotList.Oldest` | TakeItLogin/Pods/leveldb-library/db/snapshot.h:47-50 | the least of the live numbers |
| `Snapshots.SnapshotList.Newest` | TakeItLogin/Pods/leveldb-library/db/snapshot.h:51-54 | the greatest of the live numbers |
| `Snapshots.SnapshotList.New` | TakeItLogin/Pods/leveldb-library/db/snapshot.h:57-70 | one more, the newest |
| `Snapshots.SnapshotList.Delete` | TakeItLogin/Pods/leveldb-library/db/snapshot.h:79-86 | just that one leaves, wherever in the list |
| `HandleTables.PutKeeps` | TakeItLogin/Pods/leveldb-library/util/cache.cc:78-92 | linking an entry where a search ended keeps every bucket a chain |
| `HandleTables.CutKeeps` | TakeItLogin/Pods/leveldb-library/util/cache.cc:94-102 | so does unlinking one |
| `HandleTables.PushKeeps` | TakeItLogin/Pods/leveldb-library/util/cache.cc:122-146 | so does pushing one to the front of a bucket |
| `HandleTables.RehashStep` | TakeItLogin/Pods/leveldb-library/util/cache.cc:128-141 | moving one entry keeps old and new buckets apart and complete together |
| `HandleTables.RehashDone` | TakeItLogin/Pods/leveldb-library/util/cache.cc:122-146 | at the end the new buckets hold exactly the old entries |
| `HandleTables.HandleTable.FindPointer` | TakeItLogin/Pods/leveldb-library/util/cache.cc:114-120 | a pointer to the link that leads to the entry of that name, or to the end of its bucket |
| `HandleTables.HandleTable.Lookup` | TakeItLogin/Pods/leveldb-library/util/cache.cc:74-76 | what the map from names to entries says |
| `HandleTables.HandleTable.Insert` | TakeItLogin/Pods/leveldb-library/util/cache.cc:78-92 | the map has the entry under its name; the one it replaces is given back; buckets are added only when there are more entries than buckets |
| `HandleTables.HandleTable.Remove` | TakeItLogin/Pods/leveldb-library/util/cache.cc:94-102 | the map without the name; the entry removed is given back |
| `HandleTables.HandleTable.Resize` | TakeItLogin/Pods/leveldb-library/util/cache.cc:122-146 | more buckets, the least power of two from 4 on that is enough for one entry each, and the same map |
| `Caches.RefStep` | TakeItLogin/Pods/leveldb-library/util/cache.cc:217-223 | one more reference; an entry that only the cache had moves to the in-use list |
| `Caches.UnrefStep` | TakeItLogin/Pods/leveldb-library/util/cache.cc:225-237 | one less; an entry that only the cache has left moves to the new end of the LRU list, one that nobody has is deleted, once |
| `Caches.ReleaseStep` | TakeItLogin/Pods/leveldb-library/util/cache.cc:261-264 | what a count of one or two says when a client lets go: one exactly if no other client and not the cache has the entry, two exactly if only the cache keeps it |
| `Caches.DropStep` | TakeItLogin/Pods/leveldb-library/util/cache.cc:307-316 | the entry leaves list and books, its charge too |
| `Caches.AdmitStep` | TakeItLogin/Pods/leveldb-library/util/cache.cc:283-288 | the cache's own reference, the in-use list, and the charge |
| `Caches.LRUCache.constructor` | TakeItLogin/Pods/leveldb-library/util/cache.cc:197-203 | an empty cache of that capacity |
| `Caches.LRUCache.Ref` | TakeItLogin/Pods/leveldb-library/util/cache.cc:217-223 | only that count and list place change |
| `Caches.LRUCache.Unref` | TakeItLogin/Pods/leveldb-library/util/cache.cc:225-237 | the same, with the deletion at the last reference |
| `Caches.LRUCache.FinishErase` | TakeItLogin/Pods/leveldb-library/util/cache.cc:307-316 | an entry out of the table leaves its list and gives up the cache's reference |
| `Caches.LRUCache.Lookup` | TakeItLogin/Pods/leveldb-library/util/cache.cc:252-259 | the entry of that name, with one more reference for the client; it is no longer evictable |
| `Caches.LRUCache.Release` | TakeItLogin/Pods/leveldb-library/util/cache.cc:261-264 | one reference less; the entry is evictable, as the newest, or deleted, when the client's was the last |
| `Caches.LRUCache.Erase` | TakeItLogin/Pods/leveldb-library/util/cache.cc:318-321 | the name is gone; the entry is deleted exactly if no client has it |
| `Caches.LRUCache.EvictOldest` | TakeItLogin/Pods/leveldb-library/util/cache.cc:293-300 | the oldest entry that no client has leaves, and is deleted |
| `Caches.LRUCache.Admit` | TakeItLogin/Pods/leveldb-library/util/cache.cc:283-288 | the entry is found under its name; what was there under that name leaves |
| `Caches.LRUCache.EvictToFit` | TakeItLogin/Pods/leveldb-library/util/cache.cc:293-300 | eviction, oldest first, stops as soon as usage fits the capacity, or nothing can be evicted |
| `Caches.LRUCache.Insert` | TakeItLogin/Pods/leveldb-library/util/cache.cc:266-303 | the client has the new entry; it is cached unless the capacity is 0; usage fits or nothing is evictable; only entries that no client has were evicted, and exactly those were lost |
| `Caches.LRUCache.Prune` | TakeItLogin/Pods/leveldb-library/util/cache.cc:323-333 | every entry that no client has leaves, and no other |
| `Caches.LRUCache.Destroy` | TakeItLogin/Pods/leveldb-library/util/cache.cc:205-215 | without clients, every entry ever made is deleted exactly once |
| `ProtoIter.RequiredNumbersDiffer` | TakeItLogin/Pods/nanopb/pb_common.c:20-76 | different required fields have different numbers |
| `ProtoIter.RequiredNumbered` | TakeItLogin/Pods/nanopb/pb_common.c:20-76 | every number below the total is that of a required field |
| `ProtoIter.RequiredCounts` | TakeItLogin/Pods/nanopb/pb_common.c:16-45 | the number of a required field is how many there are before it |
| `ProtoIter.FieldIter.Begin` | TakeItLogin/Pods/nanopb/pb_common.c:8-18 | at the first field, if there is one |
| `ProtoIter.FieldIter.Next` | TakeItLogin/Pods/nanopb/pb_common.c:20-76 | at the next field, or at the first again |
| `ProtoIter.FieldIter.Find` | TakeItLogin/Pods/nanopb/pb_common.c:78-95 | at a field with the tag exactly if there is one; else where it was |
| `ProtoEncoder.VarintBytes` | TakeItLogin/Pods/nanopb/pb_encode.c:608-628 | the loop writes the base-128 form |
| `ProtoFormat.BlankIsZero` | TakeItLogin/Pods/nanopb/pb_encode.c:240-337 | a field that is not optional is left out exactly if its payload is 0, or empty: for a submessage, if nothing of it is sent |
| `ProtoFormat.MessageSpelled` | TakeItLogin/Pods/nanopb/pb_encode.c:528-553 | whatever the message, its encoding is, in numbers, what the wire format says: tag times 8 plus one of the wire types 0, 1, 2 and 5, and a payload, in which negative numbers are in two's complement or zig-zag |
| `ProtoEncoder.OStream.Write` | TakeItLogin/Pods/nanopb/pb_encode.c:103-124 | succeeds exactly if there is room; then exactly these bytes are appended, or counted |
| `ProtoEncoder.OStream.EncodeVarint` | TakeItLogin/Pods/nanopb/pb_encode.c:608-628 | the same for a number |
| `ProtoEncoder.OStream.EncodeTag` | TakeItLogin/Pods/nanopb/pb_encode.c:669-673 | the same for a field header |
| `ProtoEncoder.OStream.EncodeString` | TakeItLogin/Pods/nanopb/pb_encode.c:709-715 | the same for a length-prefixed string |
| `ProtoEncoder.OStream.EncodeNumber` | TakeItLogin/Pods/nanopb/pb_encode.c:769-850 | the same for every numeric type |
| `ProtoEncoder.OStream.EncodeValue` | TakeItLogin/Pods/nanopb/pb_encode.c:769-912 | the same for a value of any type, unless it is too large for its field |
| `ProtoEncoder.OStream.EncodeSubmessage` | TakeItLogin/Pods/nanopb/pb_encode.c:717-765 | sized first, then written: the two passes always agree, and the bytes are length and message |
| `ProtoEncoder.OStream.EncodeArray` | TakeItLogin/Pods/nanopb/pb_encode.c:147-236 | packed or one header an item |
| `ProtoEncoder.OStream.EncodePacked` | TakeItLogin/Pods/nanopb/pb_encode.c:162-205 | the length in front is that of what follows |
| `ProtoEncoder.PackedSize` | TakeItLogin/Pods/nanopb/pb_encode.c:169-189 | 4 or 8 bytes an item, or counted: the length of the items |
| `ProtoEncoder.OStream.EncodeField` | TakeItLogin/Pods/nanopb/pb_encode.c:341-426 | required, optional, singular, repeated or one of a union |
| `ProtoEncoder.OStream.Encode` | TakeItLogin/Pods/nanopb/pb_encode.c:528-550 | a whole message: success exactly if every value fits and there is room, and then exactly the encoding is appended |
| `ProtoEncoder.OStream.EncodeTurn` | TakeItLogin/Pods/nanopb/pb_encode.c:528-550 | one turn of the loop: an error only if some value does not fit its field or the message the room; otherwise exactly this field's encoding is appended |
| `ProtoEncoder.GetEncodedSize` | TakeItLogin/Pods/nanopb/pb_encode.c:567-576 | the length of the encoding, exactly |
| `ProtoWire.Varint32RoundTrip` | TakeItLogin/Pods/nanopb/pb_decode.c:187-247 | the 32-bit decoder reads what the encoder writes |
| `ProtoMessages.DefaultSlotsOk` | TakeItLogin/Pods/nanopb/pb_decode.c:839-922 | the default values make a well-formed message |
| `ProtoMessages.StoredOk` | TakeItLogin/Pods/nanopb/pb_decode.c:406-483 | storing a value keeps a message well-formed: one member of a union at most, arrays within bounds |
| `ProtoMessages.DecodeMessage` | TakeItLogin/Pods/nanopb/pb_decode.c:928-1076 | whatever the bytes, the result is a well-formed message or an error, and decoding ends |
| `ProtoMessages.RequiredArePresent` | TakeItLogin/Pods/nanopb/pb_decode.c:1033-1073 | whatever the bytes: a message is accepted exactly if each of its fields can be read and the tag of each of the first 64 required fields is among them |
| `ProtoRoom.DefaultsInRoom` | TakeItLogin/Pods/nanopb/pb_decode.c:839-922 | the defaults fit the structure, if each does |
| `ProtoRoom.MessageStaysInRoom` | TakeItLogin/Pods/nanopb/pb_decode.c:928-1076 | whatever is decoded on top of a message that fits its structure fits it: no array grows past its bound, no string or byte string past its buffer, at any depth |
| `ProtoRoom.DecodedIsInRoom` | TakeItLogin/Pods/nanopb/pb_decode.c:1078-1090 | so pb_decode never stores beyond the structure, whatever the bytes are |
| `ProtoRoom.NumberIsRead` | TakeItLogin/Pods/nanopb/pb_decode.c:1369-1415 | a number from the wire that does not fit the variable is refused, any other is stored |
| `ProtoRoom.SignedIsRead` | TakeItLogin/Pods/nanopb/pb_decode.c:1332-1367 | a signed number from the wire: 64 bits for a variable of 8 bytes, the low 32 bits for a smaller one, refused if that does not fit it |
| `ProtoRoom.BlobIsRead` | TakeItLogin/Pods/nanopb/pb_decode.c:1434-1504 | a byte string needs four bytes more than it has, a string one; without them it is refused |
| `ProtoDecoder.IStream.Read` | TakeItLogin/Pods/nanopb/pb_decode.c:87-137 | succeeds exactly if that many bytes are left; then gives them |
| `ProtoDecoder.IStream.DecodeVarint32` | TakeItLogin/Pods/nanopb/pb_decode.c:187-247 | the loop reads the number, or fails, as the reading of the whole input says |
| `ProtoDecoder.IStream.DecodeVarint` | TakeItLogin/Pods/nanopb/pb_decode.c:255-275 | the same for 64 bits |
| `ProtoDecoder.IStream.SkipVarintBytes` | TakeItLogin/Pods/nanopb/pb_decode.c:278-287 | past one number |
| `ProtoDecoder.IStream.Skip` | TakeItLogin/Pods/nanopb/pb_decode.c:321-331 | past a value of any wire type |
| `ProtoDecoder.IStream.DecodeTag` | TakeItLogin/Pods/nanopb/pb_decode.c:298-319 | tag and wire type; the end of the input, or a tag of 0, ends the message |
| `ProtoDecoder.IStream.MakeSubstream` | TakeItLogin/Pods/nanopb/pb_decode.c:372-385 | a substream of exactly the length read; the parent goes on behind it; an error if the input is shorter |
| `ProtoDecoder.IStream.CloseSubstream` | TakeItLogin/Pods/nanopb/pb_decode.c:387-400 | the parent goes on behind the substream, however much of it was read |
| `ProtoDecoder.IStream.DecodeNumberField` | TakeItLogin/Pods/nanopb/pb_decode.c:1321-1432 | every numeric type, with the overflow checks |
| `ProtoDecoder.IStream.DecodeValue` | TakeItLogin/Pods/nanopb/pb_decode.c:1321-1551 | a value of any type |
| `ProtoDecoder.IStream.DecodeSubmessage` | TakeItLogin/Pods/nanopb/pb_decode.c:1506-1528 | a submessage, merged into what is there unless the field is repeated |
| `ProtoDecoder.IStream.DecodePackedItems` | TakeItLogin/Pods/nanopb/pb_decode.c:420-452 | a packed array, an error as soon as it is full |
| `ProtoDecoder.IStream.DecodeStaticField` | TakeItLogin/Pods/nanopb/pb_decode.c:406-483 | one field by its rule |
| `ProtoDecoder.IStream.DecodeOneField` | TakeItLogin/Pods/nanopb/pb_decode.c:960-1024 | a field of the descriptor is stored and marked as seen, any other is skipped |
| `ProtoDecoder.IStream.DecodeNoinit` | TakeItLogin/Pods/nanopb/pb_decode.c:928-1076 | the loop with its bit marks decodes as the recursive reading of the bytes does; it succeeds exactly if each field can be read and the tag of each of the first 64 required fields is there |
| `ProtoDecoder.IStream.DecodeAll` | TakeItLogin/Pods/nanopb/pb_decode.c:1078-1090 | the same on top of the defaults; what is decoded fits the structure |
| `ProtoDecoder.RequiredPresent` | TakeItLogin/Pods/nanopb/pb_decode.c:1033-1073 | true exactly if every required field that is kept track of was seen |
| `ProtoRoundTrip.ZigZagRoundTrip` | TakeItLogin/Pods/nanopb/pb_decode.c:1272-1284 | zig-zag decoding undoes the encoding, for every 64-bit number |
| `ProtoRoundTrip.NumberRoundTrip` | TakeItLogin/Pods/nanopb/pb_decode.c:1321-1432 | every number of every type and width reads back |
| `ProtoRoundTrip.SkipRoundTrip` | TakeItLogin/Pods/nanopb/pb_decode.c:321-331 | a decoder that does not know a field passes over just its value |
| `ProtoRoundTrip.KeptOk` | TakeItLogin/Pods/nanopb/pb_decode.c:928-1076 | what arrives of a message with another descriptor is well-formed |
| `ProtoRoundTrip.ZeroKept` | TakeItLogin/Pods/nanopb/pb_encode.c:240-337 | what the encoder leaves out because it is zero is what the decoder puts there by default |
| `ProtoRoundTrip.MessageTrip` | TakeItLogin/Pods/nanopb/pb_decode.c:928-1076 | an encoded message decodes with any descriptor that agrees on the shared fields, at any depth: field by field, or an error exactly if a string that is wanted fills its buffer or a field that is required was not sent |
| `ProtoRoundTrip.RoundTrip` | TakeItLogin/Pods/nanopb/pb_decode.c:1078-1090 | the same for the whole of pb_decode: fields the receiver does not know are skipped, fields the sender does not know keep their defaults, all others arrive, unless a wanted string fills its buffer or one of the first 64 required fields, at any depth that is sent, is unknown to the sender |
| `ProtoRoundTrip.MissingIsRefused` | TakeItLogin/Pods/nanopb/pb_decode.c:1033-1073 | a message from a sender without one of the first 64 fields that the receiver requires is refused |
| `ProtoRoundTrip.RoomEnough` | TakeItLogin/Pods/nanopb/pb_decode.c:1471-1504 | with the sender's own descriptor nothing is missing, and only the strings matter |
| `ProtoRoundTrip.AgreeSelf` | TakeItLogin/Pods/nanopb/pb_common.c:78-95 | every descriptor agrees with itself |
| `ProtoRoundTrip.KeptAlike` | TakeItLogin/Pods/nanopb/pb_decode.c:1078-1090 | with the same descriptor everything is kept, up to the default values of absent fields |
| `ProtoRoundTrip.SelfRoundTrip` | TakeItLogin/Pods/nanopb/pb_decode.c:1078-1090 | a message decodes to itself with the sender's descriptor, or is refused exactly if some string fills its buffer |
| `ProtoRoundTrip.FullStringIsRefused` | TakeItLogin/Pods/nanopb/pb_decode.c:1471-1504 | a message that encodes and is refused by the decoder for the same descriptor |

## Findings

Where the code does not meet what is expected of it; the code is modelled as it is, a lemma names an
input, and another one the exact condition.

- A deleted value can come back. `SetupOtherInputs` looks for boundary files at the inputs' level only
  (`version_set.cc:1407`, `1422`), not at the output level. If the output level splits a user key over
  two files and only the first is an input, a tombstone is dropped that still hid the value in the
  second. Input: `Limits.BoundaryParentIsUnsafe`. Exact condition: `DbSteps.InstallReads`, and
  `Db.DbImpl.InstallCompactionResults`; where the value can come from: `Install.OnlyParentsResurface`. A
  check on the inputs that is sufficient, though not necessary: `DbSteps.ClosedParentsInstallSafely`.
- A compaction that is safe for readers may still not be safe for a crash. What is in the memtable can
  hide a value that resurfaces below it; if the crash then takes the tail of the log, the value is back
  (`db_impl.cc:860-876` installs without a look at the memtable). Input: `Limits.HiddenOnlyByMemtable`.
  Exact condition: `TornLogs.BaseInstall`, which is that of the first finding for the store without its
  memtable. The same check on the inputs is sufficient: `TornLogs.ClosedParentsKeepBase`.
- A flush in the middle of a compaction can make two files of a level overlap. `DoCompactionWork`
  flushes the memtable between two entries (`db_impl.cc:908-918`), and the flush may land at the output
  level, in a gap between the inputs of a manual compaction, which an output then spans. Input:
  `Limits.FlushIntoGapOverlaps`. Exact conditions: `InFlight.PendingAfterFlush`, `DbSteps.FlushKeepsJob`
  and `Db.DbImpl.CompactMemTable` for the compaction under way, `FlushGaps.InstallAroundFlushExactly`
  for the levels after it. Automatic compactions have no such gaps: `DbSteps.ConnectedAvoidsGaps`.
- A string that fills its buffer is encoded but not decoded. `pb_enc_string` looks for the end of the
  string within the buffer, `pb_dec_string` wants one byte more than the string has
  (`pb_decode.c:1471-1504`). Input: `ProtoRoundTrip.FullStringIsRefused`. Exact condition:
  `ProtoRoundTrip.RoundTrip` and `ProtoRoundTrip.SelfRoundTrip`.
- `VersionEdit::Clear` keeps the compaction pointers (`version_edit.cc:26-39`), so decoding into an edit
  that was in use gives more than was encoded. Input: `VersionEdits.LeftOverPointerStays`. Exact
  condition: `VersionEdits.EditRoundTrip`.

## Left out

Contracts that say less than the code does, or ask for more:

- DbSteps.FlushKeepsJob: says when a compaction under way stays sound beside a flush; what an unsound one then installs is in `FlushGaps`, and `Db.DbImpl.InstallCompactionResults` is for sound ones only.
- Db.DbImpl.Get: asks for a snapshot not before the horizon, which every live snapshot is; the code does not say what a released snapshot reads.
- Db.DbImpl.Write: is one step, on a memtable that is a sequence; `LiveDbs.LiveDb.Write` has the steps of a group's leader on a skip list. Sequence numbers stay below 2^56, as the format demands: nothing in the code counts them.
- Db.DbImpl.GetSnapshot: keeps the live snapshots as a sequence; `LiveDbs.LiveDb.GetSnapshot` has the linked list.
- LiveDbs.LiveDb.Write: is called by one leader at a time; that there is one, with the operations of its group, is in `Writers`, whose queue is not joined to it.
- LiveDbs.LiveDb.Get: a writer's stores within one insertion may be of any newer entry, and then the run of the model ends with that read; without them (`steps` is 0) it goes on. Snapshots are taken, and compactions chosen, between batches.
- Db.DbImpl.PickAutomatic: the level and the file are arbitrary choices; scores, seek counts and compaction pointers, which make them, are left out.
- Db.DbImpl.RemoveObsoleteFiles: does not model descriptor, temporary and lock files.
- Selection.CompactRange: the size limit cuts the list of files at an arbitrary place, since file sizes are left out.
- Selection.SetupOtherInputs: whether to expand, when sizes would allow it, is an arbitrary choice.
- Edits.PickLevelForMemTableOutput: whether the overlap with grandparents is too much is an arbitrary function of the level.
- Compaction.DoCompactionWork: where outputs are cut is arbitrary, and their numbers follow each other; keys that do not parse, which are kept, are left out.
- Compaction.Decide: leaves out keys that do not parse.
- Recovery.RecoverLogs: does not reuse the last log (`reuse_logs`), and takes logs without errors; the file number mark that VersionSet::Recover sets and then overwrites is left out.
- LogReplay.ReplayLog: ignores errors in the log, which is what happens without `paranoid_checks`.
- Log.Reader.ReadRecord: reads from the start of the file; skipping to an initial offset is left out. Damage in the middle of a file is modelled as to what is returned and how often it is reported, not in bytes dropped.
- DiskBytes.CrashAtAnyByte: is about files that are as they should be, which `FileDbs.FileDb` keeps through every step; the current log is cut, the manifest is cut in `FileDbs.FileDb.AfterCrashInEdit`.
- FileDbs.FileDb.Write: operations that a log record can hold, with keys and values below 4 GB.
- FileDbs.FileDb.CompactMemTable: file numbers stay below 2^64, which the code does not check, as they do in every step that writes an edit.
- FileDbs.FileDb.constructor: asks that no number up to 2^64 is reached by what recovery may give out; table files are looked up by number, and their bytes are in `TableFiles`; what a table's builder reports of its size and range, and so what stands in the manifest, is arbitrary; compaction pointers are not written; a new log or manifest takes effect in one step, so that `CURRENT` is left out.
- Merger.MergingIterator.Next: the children have no key in common, which sequence numbers give; `Iterators.EntryIter` stands for any child.
- DbIter.DBIter.Next: keys that do not parse are left out, as is the sampling of reads; a branch that no state reaches is left out.
- BlockReader.BlockIter.Seek: on blocks that a builder made; the corruption branches of the iterator, and offsets that wrap around at 32 bits, are left out.
- TableFiles.OpenTable: is for files that hold a table; errors in other files (`Corruption`) are modelled in `TableFormats.ReadBlock` and `TableFormats.DecodeFooter` only.
- TableBuilders.TableBuilder.Finish: a filter block of 4 GB or more, whose offsets do not fit, may hide keys, so that `FilterSound` is promised below that size only.
- TableFiles.BuildOpenGet: promises its answer where the file and its index block are below 4 GB and each entry, with a full block before it, is too: block offsets and lengths are 32-bit numbers. One table is read at a time, without the block cache.
- TableReaders.InternalGet: is on lists of entries; `TableFiles.GetInFile` is the same on the bytes of a file.
- SkipLists.SkipList.FindGreaterOrEqual: loads and stores are sequentially consistent, and nodes are indices into a sequence that only grows.
- Writers.WriterQueue.Group: the wait inside MakeRoomForWrite, which lets other writers queue up, is that of any other step; its delays and errors are left out.
- WriteQueue.BuildBatchGroup: the sizes that limit a group are those of the encoded batches, without their wrap-around at 2^64.
- HandleTables.HandleTable.Resize: doubles a number that does not wrap around at 2^32.
- Caches.LRUCache.Insert: one of the 16 shards; the fields of a handle are split over table, links and books.
- VersionEdits.EditRoundTrip: all fields of an edit are one record here; the store's edits, in `Builder`, hold file contents instead of sizes and ranges, and `DiskBytes` connects the two.
- Coding.EncodeVarint64: takes any natural number, where the code has 64 bits.
- KeyOrder.RankOrders: is why user keys can be numbers in the store's modules; only their order is used.
- ProtoRoundTrip.RoundTrip: for encodings below 4 GB, which is all that a length prefix can say.
- ProtoMessages.DecodeMessage: fields of static size only: no callbacks, extensions, pointers or fixed-count arrays. Varints longer than the encoder writes them are read as 32-bit arithmetic has it, without the wrap-around of the bit position.
- ProtoEncoder.OStream.EncodeField: leaves out pointer fields and fixed-count arrays.
- ProtoEncoder.OStream.Encode: leaves out extension fields.
- ProtoDecoder.IStream.DecodeNoinit: leaves out extensions and fixed-count arrays.
- ProtoIter.FieldIter.Find: a tag of 0 with a wire type, on a message type without fields, is left out.
- ProtoDecoder.RequiredPresent: the bits of the words are a sequence of booleans.

Not modelled at all:

- I/O errors, background errors, shutdown, repair, statistics, logging, file names, the environment.
- The checksum and hash functions themselves, and Snappy, which are parameters; comparators other than the bytewise one.
- Field offsets in C structures, `size_t` and `pb_size_t` wrap-around, `PB_WITHOUT_64BIT`.
- The app's own Swift code, which holds no state worth a proof, and the other vendored libraries.
