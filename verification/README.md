# LevelDB engine and nanopb codec

A Dafny model of the two pieces of native code this repository carries: the LevelDB storage engine
(`TimeCapsule/Pods/leveldb-library`) and the nanopb Protocol Buffers codec (`TimeCapsule/Pods/nanopb`).
To verify the project, run `dafny verify dfyconfig.toml` in this directory.

## What is modelled

**The store.** `Entries` defines the meaning of a database: a set of entries (user key, sequence
number, put or deletion, value), read as a multi-version map, where a lookup at a snapshot returns the
newest entry at or below it. `Versions`, `Store`, `Overlap`, `Selection`, `Picking`, `VersionBuilder`,
`CompactionWork` and `Manifest` are the searches, input selections, drop rules and replays of
`version_set.cc` and `db_impl.cc`, as loops and classes proved against that map. `Engine` puts them
together as a state machine over memory and disk (write, memtable switch, flush, table building,
compaction, trivial move, snapshots, pinned versions, garbage collection, crash and recovery), and
`DbImpls` is the database object whose methods perform those steps in place. `EngineRuns` states the
theorems about every run, `EngineHistory` that a reader at any snapshot finds the last write before it, and `EngineTorn` and `TornFiles` what is left when a crash also cuts off the end of the log, at any byte.
`QueuedWrites` keeps the queue of writers in step with the engine, `ReadYourWrites` says in bytes what
readers then find. `ChoiceUnique` shows that a trigger or a range decides a compaction completely,
`CompactionRules` what its outputs keep, and `OutputCuts` where they end.

**Iterators.** `MergingIterator`, `DbIterator` and `TwoLevelIterator` are the bidirectional cursors;
each is a position in one sorted sequence under any mix of moves. `DatabaseIterator` puts the runs of a
database under them and says what the user then sees.

**Memory structures.** `SkipLists` (linked towers, with every intermediate state of an insertion),
`LruHandles` and `LruCaches` (chained hash table, two intrusive lists, reference counts), `Snapshots`
(circular list).

**Formats.** `Coding`, `LogFormat`/`LogReader`/`LogRoundTrip`, `EditCodec`/`ManifestLog`,
`BlockFormat`/`BlockReader`, `ByteOrder`/`TableFormat`, `Filters`/`FilterBlocks`/`FilteredTables`,
`BlockLookup`/`TableFiles` (whole table files, written and read back),
`WriteBatches`/`GroupCommit`: byte for byte, for all inputs where the code handles all inputs.
`FileFormats` and, for nanopb, `ProtoFormat` give the formats once more in plain numerals, apart from
encoder and decoder. `LogSoundness` is about files the writer did not write.

**nanopb.** `ProtoFields` describes static fields and messages, `ProtoEncoder` the sizing and writing
passes, `ProtoDecoder`/`ProtoStreams` the decoder with its substreams and circular field iterator,
`ProtoRoundTrip` and `ProtoSafety` what they do together.

## Where the code falls short of its promise

* `SetupOtherInputs` closes the inputs of the compacted level under boundary files, but not those it
  takes from the next level. If the newest visible entry of a key is a deletion that the compaction
  drops, and an older value of that key sits in a next-level file outside the inputs, the value comes
  back. `StoreSteps.CompactionExact` and `EngineRuns.CarefulIsExact` give the exact condition,
  `Resurrection.DeletedValueComesBack` a complete run in which it happens, with the compactions
  `CompactRange` returns and the levels the flushes are given (`Resurrection.CompactionsForced`,
  `Resurrection.FlushLevelsForced`), and `StoreSteps.CleanParentsResurrectNothing` the closure under
  which it cannot. Theorems about reads over whole runs therefore speak of careful runs; those about
  the LSM order, durability and recovery speak of all runs.
* `VersionEdit::Clear` keeps the compaction pointers, so decoding into a used edit is not a round trip
  (`EditCodec.RoundTripIff`; `EditCodec.StalePointerStays` is the smallest case). The engine decodes
  each record into an edit of its own.
* A writer without a batch asks for a memtable switch. Queued behind another writer it is taken into
  that writer's group and completes without a switch: `GroupCommit.MissesSwitchIff` says exactly when,
  `GroupCommit.SwitchIsMissed` is a queue of two in which it happens.
* The nanopb encoder accepts a string that fills its buffer without a terminator, the decoder does not
  (`ProtoRoundTrip.RoundTripIff`, with `ProtoRoundTrip.FullStringIsRefused` as an instance).
* A message type without fields takes a field numbered 0 for the terminator of its own descriptor and
  reads a bool. `ProtoDecoder.UnknownFieldSkippedIff` says when that differs from skipping the field,
  `ProtoDecoder.FieldZeroIsMisread` shows an input for which it does.

## Conventions

User keys of the engine are reals: only their order matters, and `ByteOrder` embeds the default
bytewise order into them. An entry's value is a string. A file's metadata carries the entries its
table serves. Checksum, bloom hash and size estimates are parameters, so every statement holds for any
choice of them; tower heights, the sizes of tables and memtable limits are parameters as well.
Background work runs in atomic steps against the current version.

## Model

| member | source | states |
|---|---|---|
| Keys.SeekSkipsTooNew | TimeCapsule/Pods/leveldb-library/db/dbformat.h:55-67 | Seeking a user key at a snapshot with the value type as the seek type skips exactly the entries of that key whose sequence number is above the snapshot. |
| Keys.LessTotal | TimeCapsule/Pods/leveldb-library/db/dbformat.cc:47-63 | Two internal keys that neither precedes compare equal only if they are equal. |
| Keys.LessByNumbers | TimeCapsule/Pods/leveldb-library/db/dbformat.cc:47-63 | An internal key comes first by its user key, then by the larger sequence number, then as a value before a deletion. |
| Entries.NewestExists | TimeCapsule/Pods/leveldb-library/db/memtable.cc:101-135 | A set of entries with unique internal keys has a newest visible entry for a key as soon as it has a visible one. |
| Entries.ViewOfNewest | TimeCapsule/Pods/leveldb-library/db/db_impl.cc:1110-1155 | The multi-version map answers with the value of the newest visible entry, or with absence if that is a deletion. |
| Entries.ProbeAnswers | TimeCapsule/Pods/leveldb-library/db/memtable.cc:101-135 | One seek in a sorted run and one comparison of user keys give the answer of the whole run: the value, a deletion, or nothing visible, each exactly when it is right. |
| Entries.LayerAnswer | TimeCapsule/Pods/leveldb-library/db/db_impl.cc:1110-1155 | A hit or a deletion in an upper layer, whose entries are newer, is the answer of both layers together. |
| Entries.LayerAbsent | TimeCapsule/Pods/leveldb-library/db/db_impl.cc:1110-1155 | If the upper layer sees nothing, the answer of the lower layer is the answer of both. |
| Versions.FindFile | TimeCapsule/Pods/leveldb-library/db/version_set.cc:87-105 | The binary search returns the first file whose largest key is at or after the key, or the number of files. |
| Versions.OverlappingNewestFirst | TimeCapsule/Pods/leveldb-library/db/version_set.cc:281-302 | Exactly the level-0 files whose user-key range holds the key, newest first. |
| Versions.SearchLevel0 | TimeCapsule/Pods/leveldb-library/db/version_set.cc:281-302 | Stopping at the first hit among the overlapping level-0 files gives the answer of all entries of level 0. |
| Versions.SearchSortedLevel | TimeCapsule/Pods/leveldb-library/db/version_set.cc:303-322 | Looking into the one file found by binary search gives the answer of the whole sorted level. |
| Versions.Get | TimeCapsule/Pods/leveldb-library/db/version_set.cc:324-400 | The search through the levels, stopping at the first hit, gives the newest entry at or below the snapshot over everything the version stores. |
| Store.LayeredGet | TimeCapsule/Pods/leveldb-library/db/db_impl.cc:1110-1155 | Memtable, then immutable memtable, then version: the result is the multi-version map of everything stored anywhere, at the snapshot. |
| Store.InsertSorted | TimeCapsule/Pods/leveldb-library/db/memtable.cc:76-99 | Adding an entry with a new internal key keeps the run sorted and adds just that entry. |
| Store.WriteKeepsLayers | TimeCapsule/Pods/leveldb-library/db/db_impl.cc:1195-1268 | New entries in the memtable keep the layer order and are exactly what is stored in addition. |
| Store.SwitchKeepsLayers | TimeCapsule/Pods/leveldb-library/db/db_impl.cc:1356-1376 | Making the memtable immutable keeps the layer order and what is stored. |
| Overlap.SomeFileOverlapsRange | TimeCapsule/Pods/leveldb-library/db/version_set.cc:121-157 | True exactly when some file meets the range, by a scan for level 0 and by binary search for sorted levels. |
| Overlap.GetOverlappingInputs | TimeCapsule/Pods/leveldb-library/db/version_set.cc:498-538 | In a sorted level the files that meet the range; in level 0, through the restart loop, the least set of files that covers the range and is closed under overlap. |
| Overlap.LeastClosedCover | TimeCapsule/Pods/leveldb-library/db/version_set.cc:518-536 | A range that was only widened when a file forced it selects a subset of every overlap-closed set of files that covers the query. |
| Selection.GetRange | TimeCapsule/Pods/leveldb-library/db/version_set.cc:1182-1204 | The smallest and the largest internal key of a non-empty list of files. |
| Selection.FindSmallestBoundaryFile | TimeCapsule/Pods/leveldb-library/db/version_set.cc:1324-1343 | The file with the smallest first key among those that start after the given key and share its user key, or none if there is none. |
| Selection.AddBoundaryInputs | TimeCapsule/Pods/leveldb-library/db/version_set.cc:1355-1378 | The inputs grow by a chain of boundary files until no later file of the level shares the user key of the last input. |
| Selection.ChainSelectable | TimeCapsule/Pods/leveldb-library/db/version_set.cc:1355-1378 | After the chain, what stays behind in the level is newer than the inputs, for every user key they share. |
| Picking.TryExpand | TimeCapsule/Pods/leveldb-library/db/version_set.cc:1405-1428 | The inputs grow to the files of the level in the range of all inputs, closed under boundary files, exactly if those are more, stay below 25 file sizes together with the next-level inputs, and meet as many next-level files; else they stay as they are. The next-level files do not change. |
| Picking.ExpansionKeepsInputs | TimeCapsule/Pods/leveldb-library/db/version_set.cc:1405-1410 | Widening to the range of all inputs never loses an input. |
| Picking.SetupOtherInputs | TimeCapsule/Pods/leveldb-library/db/version_set.cc:1380-1440 | The inputs are the given files closed under boundary files, grown exactly when an expansion is due; they are selectable and without repetition, everything left in their level is newer, the next-level inputs are the files that meet the user-key range before the expansion, the grandparents those that meet the range of all inputs, and the compaction pointer is the largest input key. |
| Picking.Finalize | TimeCapsule/Pods/leveldb-library/db/version_set.cc:1026-1062 | The level furthest past its limit, in files for level 0 and in bytes below it, the shallowest one among equals, and never the last level. |
| Picking.DueTrigger | TimeCapsule/Pods/leveldb-library/db/version_set.cc:1247-1287 | Nothing is due exactly when no level is past its limit and no file has had too many seeks; a level past its limit goes first, and it has files. |
| Picking.PickCompaction | TimeCapsule/Pods/leveldb-library/db/version_set.cc:1247-1298 | The compaction its trigger leads to: it grows, as SetupOtherInputs has it, from the sought file or the first file past the compaction pointer, wrapping around, and at level 0 from the least closed set of files around it. |
| Picking.StartFile | TimeCapsule/Pods/leveldb-library/db/version_set.cc:1262-1275 | The first file whose largest key is past the pointer, else the first of the level. |
| Picking.CompactRange | TimeCapsule/Pods/leveldb-library/db/version_set.cc:1442-1484 | No compaction exactly when no file meets the range; else the one that grows from the least closed cover of the range at level 0, or from the meeting files up to the one with which the size limit is reached. |
| Picking.SizePrefix | TimeCapsule/Pods/leveldb-library/db/version_set.cc:1456-1470 | The shortest prefix of files whose sizes reach the limit, or all of them. |
| Picking.OverlapInLevel | TimeCapsule/Pods/leveldb-library/db/version_set.cc:464-468 | True exactly when a file of the level meets the user-key range. |
| Picking.PickLevelForMemTableOutput | TimeCapsule/Pods/leveldb-library/db/version_set.cc:470-495 | Level 0 for a table that meets level 0; else the first level above 2 whose next level holds a file in the range or after which more than ten file sizes meet it, or 2. |
| Picking.LevelChoiceUnique | TimeCapsule/Pods/leveldb-library/db/version_set.cc:470-495 | Version, key range and file size decide the level completely. |
| Picking.AloneGoesDeep | TimeCapsule/Pods/leveldb-library/db/version_set.cc:470-495 | A table that meets no file of the version goes to level 2. |
| Picking.ChosenMeetsNothing | TimeCapsule/Pods/leveldb-library/db/version_set.cc:470-495 | A table given a level below 0 meets no file of that level or above it. |
| Picking.ScoreByNumbers | TimeCapsule/Pods/leveldb-library/db/version_set.cc:1026-1062 | A level is due by its files over four at level 0, by its bytes over ten megabytes at level 1, and over ten times as many at each level after it. |
| ChoiceUnique.PicksUnique | TimeCapsule/Pods/leveldb-library/db/version_set.cc:1247-1298 | In a valid version a trigger leads to one compaction only: inputs, grandparents and pointer. |
| ChoiceUnique.RangeNoneIff | TimeCapsule/Pods/leveldb-library/db/version_set.cc:1442-1448 | A manual compaction has nothing to do exactly when no file of the level meets its range. |
| ChoiceUnique.RangeUnique | TimeCapsule/Pods/leveldb-library/db/version_set.cc:1442-1484 | In a valid version level, range and size limit decide a manual compaction completely. |
| ChoiceUnique.SetUpUnique | TimeCapsule/Pods/leveldb-library/db/version_set.cc:1380-1440 | The files SetupOtherInputs is given decide the whole compaction. |
| VersionBuilder.InsertFileMembers | TimeCapsule/Pods/leveldb-library/db/version_set.cc:577-596 | Insertion into the ordered set of added files keeps their order and adds just the file. |
| VersionBuilder.Builder.Apply | TimeCapsule/Pods/leveldb-library/db/version_set.cc:628-669 | The next version gets exactly the files of the old one that the edit does not delete, and those it adds; an addition undoes an earlier deletion of its number. |
| VersionBuilder.Builder.SaveTo | TimeCapsule/Pods/leveldb-library/db/version_set.cc:672-715 | Merging base and added files per level yields the file set in order of smallest key. |
| VersionBuilder.MergeLevel | TimeCapsule/Pods/leveldb-library/db/version_set.cc:676-697 | The merge of two sorted file lists is sorted and holds exactly the files of both that are not deleted. |
| VersionBuilder.UpperBound | TimeCapsule/Pods/leveldb-library/db/version_set.cc:684-689 | The first base file that comes after the added file. |
| VersionBuilder.EditedUnique | TimeCapsule/Pods/leveldb-library/db/version_set.cc:628-730 | An edit and a version determine the next version: the same files in the same order. |
| Manifest.FoldsUnique | TimeCapsule/Pods/leveldb-library/db/version_set.cc:777-860 | The edits of a manifest lead to one version only. |
| Manifest.Recover | TimeCapsule/Pods/leveldb-library/db/version_set.cc:862-987 | Replaying all edits through one Builder from the empty version gives the version that one Builder per edit installed, with the last recorded numbers; it fails exactly when one of the three numbers was never recorded. |
| CompactionWork.BaseLevelProbe.IsBaseLevelForKey | TimeCapsule/Pods/leveldb-library/db/version_set.cc:1510-1529 | For increasing keys the moving cursors answer exactly whether no file two or more levels down spans the key. |
| CompactionWork.ShouldDrop | TimeCapsule/Pods/leveldb-library/db/db_impl.cc:955-985 | An entry is dropped exactly when an earlier entry of its key in the run is at or below the smallest snapshot, or it is a deletion at or below it and no file two or more levels down spans its key. |
| CompactionWork.DoCompactionWork | TimeCapsule/Pods/leveldb-library/db/db_impl.cc:887-1040 | The outputs hold exactly the entries the drop rules keep, read off keys and sequence numbers, in files that are sorted, disjoint and consecutively numbered, cut exactly where ShouldStopBefore or the size limit says. |
| CompactionWork.UnmarkedIsOneOutput | TimeCapsule/Pods/leveldb-library/db/db_impl.cc:928-1010 | Without a reason to stop there is at most one output. |
| OutputCuts.StopProbe.ShouldStopBefore | TimeCapsule/Pods/leveldb-library/db/version_set.cc:1531-1554 | For increasing keys: stop exactly if the files two levels down that ended since the last stop, or since the first key, have more bytes than the limit. |
| OutputCuts.StopsInTime | TimeCapsule/Pods/leveldb-library/db/version_set.cc:1531-1554 | Since the last stop at most the limit in bytes has ended two levels down, so no output meets much more. |
| CompactionRules.OutputsByNumbers | TimeCapsule/Pods/leveldb-library/db/db_impl.cc:955-985 | In every reachable compaction step: an entry is in the outputs exactly when it is an input, no input of its key with a larger sequence number is at or below the smallest snapshot, and it is not a deletion at or below that snapshot whose key no file two or more levels down spans. |
| CompactionRules.DeletedKeyVanishes | TimeCapsule/Pods/leveldb-library/db/db_impl.cc:960-975 | A key whose newest entry is a deletion every reader sees, with all its entries among the inputs and no file further down spanning it, has no entry left. |
| CompactionViews.CompactionKeepsView | TimeCapsule/Pods/leveldb-library/db/db_impl.cc:944-985 | Dropping entries keeps the lookup of a key at every snapshot at or above the smallest one, unless an older entry is left behind at the next level. |
| CompactionViews.ResurrectionIsVisible | TimeCapsule/Pods/leveldb-library/db/version_set.cc:1380-1391 | When the newest visible entry is a dropped deletion and an older value of its key stays behind, the smallest snapshot reads that value after the compaction and nothing before. |
| CompactionViews.CompactionKeepsViewsIff | TimeCapsule/Pods/leveldb-library/db/db_impl.cc:899-1009 | A compaction keeps every readable view if and only if it resurrects nothing. |
| StoreSteps.AddKeepsVersion | TimeCapsule/Pods/leveldb-library/db/db_impl.cc:500-542 | A table of newer entries may be added at a level that PickLevelForMemTableOutput allows: levels stay sorted and disjoint, and shallower levels newer. |
| StoreSteps.FlushKeepsLayers | TimeCapsule/Pods/leveldb-library/db/db_impl.cc:544-575 | A flush keeps the layer order and everything stored. |
| StoreSteps.InstallKeepsLayers | TimeCapsule/Pods/leveldb-library/db/db_impl.cc:869-885 | Installing a compaction keeps the layer order, adds nothing, and loses nothing if the outputs hold all input entries (as in a trivial move). |
| StoreSteps.CompactionExact | TimeCapsule/Pods/leveldb-library/db/db_impl.cc:869-1009 | For the version as a whole: all readable views survive a compaction if and only if no older value of a dropped deletion is left in the next level. |
| StoreSteps.CleanParentsResurrectNothing | TimeCapsule/Pods/leveldb-library/db/version_set.cc:1380-1391 | If the next-level inputs are themselves cut at a user-key boundary, as AddBoundaryInputs would make them, nothing is resurrected. |
| Install.InstallMembers | TimeCapsule/Pods/leveldb-library/db/version_set.cc:1502-1508 | The installed version is the old one with the inputs replaced by the outputs at the next level. |
| Install.InstallKeepsVersion | TimeCapsule/Pods/leveldb-library/db/db_impl.cc:869-885 | Levels from 1 on stay sorted and disjoint and ages stay ordered when well-chosen inputs are replaced by their outputs. |
| EngineReads.StoreNext | TimeCapsule/Pods/leveldb-library/db/db_impl.cc:544-575 | Every step but a crash keeps layers and history consistent; only writes and compactions change what is stored. |
| EngineReads.ReadsNext | TimeCapsule/Pods/leveldb-library/db/db_impl.cc:697-776 | A careful step keeps what every live reader sees equal to the written history. |
| EngineReads.CarelessBreaksReads | TimeCapsule/Pods/leveldb-library/db/db_impl.cc:869-1009 | A compaction from a state with right reads leaves them right if and only if it resurrects nothing. |
| EngineReads.SnapshotsNext | TimeCapsule/Pods/leveldb-library/db/snapshot.h:46-86 | Snapshots stay in order and at or below the last sequence number, so the first is the smallest. |
| EngineSafety.WriteKeepsDurable | TimeCapsule/Pods/leveldb-library/db/db_impl.cc:1195-1268 | A write appended to the log before the memtable keeps disk and memory in step. |
| EngineSafety.SwitchKeepsDurable | TimeCapsule/Pods/leveldb-library/db/db_impl.cc:1356-1376 | A new log keeps the retained logs equal to both memtables. |
| EngineSafety.FlushKeepsDurable | TimeCapsule/Pods/leveldb-library/db/db_impl.cc:544-575 | After a flush the manifest's log number can move past the old logs: their entries are in a table of its version. |
| EngineSafety.CompactKeepsDurable | TimeCapsule/Pods/leveldb-library/db/db_impl.cc:869-885 | An install keeps every table of the manifest's version on disk and every file number added to a level at most once. |
| EngineSafety.MoveKeepsDurable | TimeCapsule/Pods/leveldb-library/db/db_impl.cc:727-734 | A trivial move keeps the manifest replayable although the same file number is added again, at a deeper level. |
| EngineSafety.CollectKeepsDurable | TimeCapsule/Pods/leveldb-library/db/db_impl.cc:222-287 | Removing obsolete files never removes a log or a table that recovery, a live version or a pending output needs. |
| EngineRecovery.LogHoldsMemory | TimeCapsule/Pods/leveldb-library/db/db_impl.cc:289-378 | The logs from the manifest's log number on hold exactly the entries of both memtables, in sequence order, and end at the last sequence number. |
| EngineRecovery.RecoverRebuilds | TimeCapsule/Pods/leveldb-library/db/db_impl.cc:380-498 | Level-0 tables of the replayed logs, added to the manifest's version, give a valid version with everything that was stored. |
| EngineRecovery.NewManifest | TimeCapsule/Pods/leveldb-library/db/version_set.cc:1064-1092 | The snapshot record followed by the recovery edit replays to the recovered version. |
| EngineRecovery.RecoverKeeps | TimeCapsule/Pods/leveldb-library/db/db_impl.cc:289-498 | A crash and recovery, with any split of the logs into tables, re-establishes the invariants and keeps everything stored and the last sequence number. |
| EngineRuns.InvNext | TimeCapsule/Pods/leveldb-library/db/db_impl.cc:544-575 | Every step, crash and recovery included, keeps the invariant of the engine. |
| EngineRuns.RunKeepsInv | TimeCapsule/Pods/leveldb-library/db/db_impl.cc:697-776 | The LSM and durability invariants hold in every state of every run. |
| EngineRuns.RunReads | TimeCapsule/Pods/leveldb-library/db/db_impl.cc:1110-1155 | In every state of every careful run all live readers see the newest value ever written at or below their snapshot. |
| EngineRuns.CarefulIsExact | TimeCapsule/Pods/leveldb-library/db/db_impl.cc:899-1009 | In a run, each compaction keeps the reads right if and only if it is careful. |
| EngineRuns.ReadAt | TimeCapsule/Pods/leveldb-library/db/db_impl.cc:1110-1155 | Get in a state of a careful run returns the value the written history has at the snapshot. |
| EngineHistory.StampView | TimeCapsule/Pods/leveldb-library/db/db_impl.cc:1206-1268 | After operations are written under the next sequence numbers, each key shows what its last operation leaves, or what it showed before. |
| EngineHistory.WriteShows | TimeCapsule/Pods/leveldb-library/db/db_impl.cc:1206-1268 | A write step of the engine changes what the history shows of each key as its operations say. |
| EngineHistory.RunIsItsWrites | TimeCapsule/Pods/leveldb-library/db/db_impl.cc:1195-1268 | In every state of every run the history is all operations written so far, numbered from 1 on, across flushes, compactions and crashes. |
| EngineHistory.HistoryIsLastWrite | TimeCapsule/Pods/leveldb-library/db/db_impl.cc:1110-1155 | The history of a run at sequence number p is what the first p operations leave of each key. |
| EngineHistory.ReaderSeesLastWrite | TimeCapsule/Pods/leveldb-library/db/db_impl.cc:1110-1155 | In a careful run every reader finds, at its snapshot p, exactly what the first p operations written leave. |
| EngineRuns.CrashLosesNothing | TimeCapsule/Pods/leveldb-library/db/db_impl.cc:289-498 | Over all runs a crash and recovery loses no acknowledged write and keeps the last sequence number. |
| EngineRuns.SnapshotsSplitNoWrite | TimeCapsule/Pods/leveldb-library/db/db_impl.cc:1195-1268 | In no state of any run can a reader read at a sequence number strictly inside those of a write. |
| EngineRuns.ViewStays | TimeCapsule/Pods/leveldb-library/db/db_impl.cc:1110-1155 | What the written history shows at a sequence number it shows there in every later state of the run. |
| EngineRuns.RecoveryPossible | TimeCapsule/Pods/leveldb-library/db/db_impl.cc:1478-1521 | Every reachable database can be reopened. |
| Resurrection.DeletedValueComesBack | TimeCapsule/Pods/leveldb-library/db/version_set.cc:1380-1391 | A run of writes, a snapshot, three flushes and two compactions after which a deleted key reads as its old value. |
| Resurrection.Level1Chosen | TimeCapsule/Pods/leveldb-library/db/version_set.cc:1380-1440 | A level with one file is a well-chosen input set together with the next-level files that meet it. |
| Resurrection.CompactionsForced | TimeCapsule/Pods/leveldb-library/db/version_set.cc:1442-1484 | Whatever CompactRange returns on an open range in the two versions of that run, it is the compaction of the run: the same inputs, grandparents and pointer. |
| Resurrection.FlushLevelsForced | TimeCapsule/Pods/leveldb-library/db/version_set.cc:470-495 | Whatever PickLevelForMemTableOutput returns for the three flushes of that run, it is the level the run flushes to. |
| EngineTorn.RunCovered | TimeCapsule/Pods/leveldb-library/db/db_impl.cc:289-378 | In every state of every run, what was written after the last manifest record is in memory, and the memtable has the newest part of what was written. |
| EngineTorn.TornRecovery | TimeCapsule/Pods/leveldb-library/db/db_impl.cc:289-498 | A crash that loses the last batches of the current log: recovery rebuilds all that was stored but for those batches, which are the newest ones, in a state that satisfies the engine's invariant. |
| EngineTorn.TornReads | TimeCapsule/Pods/leveldb-library/db/db_impl.cc:1110-1155 | After such a recovery lookups read what the crashed database held just before the first lost batch. |
| TornFiles.PrefixTears | TimeCapsule/Pods/leveldb-library/db/log_reader.cc:189-271 | Any byte prefix of the current log file reads as the records of its complete batches, without a report. |
| TornFiles.TornFileRecovery | TimeCapsule/Pods/leveldb-library/db/db_impl.cc:289-498 | In any state of any run: from any byte prefix of the current log file recovery rebuilds all that was stored but for the batches the cut did not spare, which are the newest. |
| LogRecovery.RecoverLogFile | TimeCapsule/Pods/leveldb-library/db/db_impl.cc:380-498 | Replaying a log into memtables, written out exactly when full and at the end, yields level-0 tables of these consecutive runs of its entries under increasing numbers, and the largest sequence number. |
| LogRecovery.RecoverLogs | TimeCapsule/Pods/leveldb-library/db/db_impl.cc:323-371 | The logs from the manifest's log number on, in order, become such tables, log by log. |
| DbImpls.DBImpl.constructor | TimeCapsule/Pods/leveldb-library/db/db_impl.cc:181-211 | A new database is the initial state of the engine. |
| DbImpls.DBImpl.Get | TimeCapsule/Pods/leveldb-library/db/db_impl.cc:1110-1155 | The multi-version map of what is stored and, where reads are right, of the whole history. |
| DbImpls.DBImpl.Write | TimeCapsule/Pods/leveldb-library/db/db_impl.cc:1214-1247 | One record in the log, the entries in the memtable, the sequence advanced: a write step of the engine. |
| DbImpls.DBImpl.MakeRoomForWrite | TimeCapsule/Pods/leveldb-library/db/db_impl.cc:1318-1380 | Room exactly when nothing forces a switch and the memtable is not full; else it waits for the flush or for level 0, or switches memtables. |
| DbImpls.DBImpl.SwitchMemTable | TimeCapsule/Pods/leveldb-library/db/db_impl.cc:1356-1376 | A new log number, a new memtable, the old one immutable: a switch step. |
| DbImpls.DBImpl.LogAndApply | TimeCapsule/Pods/leveldb-library/db/version_set.cc:777-860 | The version becomes the edited one and the manifest gains the edit with its numbers filled in. |
| DbImpls.DBImpl.WriteLevel0Table | TimeCapsule/Pods/leveldb-library/db/db_impl.cc:500-542 | Nothing for an empty memtable; else a table of its entries under a new number, and exactly the level PickLevelForMemTableOutput decides for its key range. |
| DbImpls.DBImpl.CompactMemTable | TimeCapsule/Pods/leveldb-library/db/db_impl.cc:544-575 | A flush step of the engine, with a table at the level decided for its key range, or without one for an empty memtable. |
| DbImpls.MakeInput | TimeCapsule/Pods/leveldb-library/db/version_set.cc:1214-1245 | The input entries of a compaction in key order. |
| DbImpls.DBImpl.BuildOutput | TimeCapsule/Pods/leveldb-library/db/db_impl.cc:795-867 | An output table under a new number, protected while pending. |
| DbImpls.DBImpl.InstallCompactionResults | TimeCapsule/Pods/leveldb-library/db/db_impl.cc:869-885 | A compaction step of the engine. |
| DbImpls.DBImpl.MoveFile | TimeCapsule/Pods/leveldb-library/db/db_impl.cc:727-734 | A move step of the engine. |
| DbImpls.DBImpl.DoCompaction | TimeCapsule/Pods/leveldb-library/db/db_impl.cc:887-1057 | Steps of the engine that end with the compaction of the chosen inputs, whose outputs are kept and cut by the rules at the oldest snapshot. |
| DbImpls.DBImpl.BackgroundCompaction | TimeCapsule/Pods/leveldb-library/db/db_impl.cc:697-776 | The immutable memtable first, else exactly the compaction its trigger leads to, with the file it points at among the inputs, done as a move exactly if one file meets nothing in the next level and at most ten file sizes in the level after it. |
| DbImpls.DBImpl.BackgroundManualCompaction | TimeCapsule/Pods/leveldb-library/db/db_impl.cc:700-749 | Done exactly when no file of the level meets the range; else the compaction CompactRange decides, never a trivial move, and what is left of the range: every file that meets the range was compacted or meets the rest. |
| DbImpls.DBImpl.GetSnapshot | TimeCapsule/Pods/leveldb-library/db/db_impl.cc:1176-1179 | Takes the last sequence number: a snapshot step. |
| DbImpls.DBImpl.ReleaseSnapshot | TimeCapsule/Pods/leveldb-library/db/db_impl.cc:1181-1184 | A release step. |
| DbImpls.DBImpl.RefVersion | TimeCapsule/Pods/leveldb-library/db/version_set.cc:453-453 | The current version stays live: a pin step. |
| DbImpls.DBImpl.UnrefVersion | TimeCapsule/Pods/leveldb-library/db/version_set.cc:455-462 | One live version less: an unpin step. |
| DbImpls.DBImpl.AddLiveFiles | TimeCapsule/Pods/leveldb-library/db/version_set.cc:1144-1154 | The pending outputs and the file numbers of the current and of every referenced version. |
| DbImpls.DBImpl.RemoveObsoleteFiles | TimeCapsule/Pods/leveldb-library/db/db_impl.cc:222-287 | A collection step of the engine. |
| DbImpls.RecoverPlan | TimeCapsule/Pods/leveldb-library/db/db_impl.cc:289-378 | From manifest and logs alone: the base version, the recovered tables, one for each memtable the logs fill, the new version and the largest sequence number. |
| DbImpls.DBImpl.Reopen | TimeCapsule/Pods/leveldb-library/db/db_impl.cc:1478-1521 | A crash-and-recover step of the engine that restores everything stored. |
| DbImpls.LeadsReached | TimeCapsule/Pods/leveldb-library/db/db_impl.cc:697-776 | Any calls of the database object stay within runs of the engine. |
| Snapshots.SnapshotList.Oldest | TimeCapsule/Pods/leveldb-library/db/snapshot.h:47-50 | The first node has the smallest sequence number of all live snapshots. |
| Snapshots.SnapshotList.Newest | TimeCapsule/Pods/leveldb-library/db/snapshot.h:51-54 | The last node has the largest. |
| Snapshots.SnapshotList.New | TimeCapsule/Pods/leveldb-library/db/snapshot.h:57-70 | Links a node before the head; the list stays circular and in order. |
| Snapshots.SnapshotList.Delete | TimeCapsule/Pods/leveldb-library/db/snapshot.h:79-86 | Unlinks just that node; the list stays circular and in order. |
| Snapshots.SnapshotList.Empty | TimeCapsule/Pods/leveldb-library/db/snapshot.h:46-46 | True exactly when no snapshot is live. |
| DatabaseIterator.LevelIndexed | TimeCapsule/Pods/leveldb-library/db/version_set.cc:168-227 | A sorted level, walked by the largest keys of its files, is what the two-level iterator asks of an index and its blocks. |
| DatabaseIterator.ChildrenCollected | TimeCapsule/Pods/leveldb-library/db/db_impl.cc:1072-1097 | Memtable, immutable memtable, level-0 tables and one concatenation per deeper level are sorted runs without a common key that hold just what is stored. |
| DatabaseIterator.IterationPossible | TimeCapsule/Pods/leveldb-library/db/db_impl.cc:1072-1097 | The runs under the merging iterator always have a merged run. |
| DatabaseIterator.IteratorShowsHistory | TimeCapsule/Pods/leveldb-library/db/db_impl.cc:1157-1167 | In every state of every careful run, an iterator at a live snapshot or the last sequence number stops, once each, at just the keys with a value in the written history, with that value. |
| DatabaseIterator.IteratorStays | TimeCapsule/Pods/leveldb-library/db/db_impl.cc:1072-1097 | While an iterator's version stays pinned, its tables stay on disk and it goes on showing the history up to its sequence number, whatever the run does meanwhile. |
| MergingIterator.MergeExists | TimeCapsule/Pods/leveldb-library/table/merger.cc:15-176 | Sorted runs without a common key have one merged run. |
| MergingIterator.Merger.FindSmallest | TimeCapsule/Pods/leveldb-library/table/merger.cc:148-161 | With every child at its first entry from a position on, the child with the smallest key stands at that position. |
| MergingIterator.Merger.FindLargest | TimeCapsule/Pods/leveldb-library/table/merger.cc:163-176 | With every child at its last entry before a position, the child with the largest key stands right before it. |
| MergingIterator.Merger.TurnForward | TimeCapsule/Pods/leveldb-library/table/merger.cc:58-76 | Going forward after going backward, every other child is moved to its first key after the current one. |
| MergingIterator.Merger.TurnBackward | TimeCapsule/Pods/leveldb-library/table/merger.cc:84-104 | Going backward after going forward, every other child is moved to its last key before the current one. |
| MergingIterator.Merger.SeekToFirst | TimeCapsule/Pods/leveldb-library/table/merger.cc:31-37 | The first position of the merged run. |
| MergingIterator.Merger.SeekToLast | TimeCapsule/Pods/leveldb-library/table/merger.cc:39-45 | The last position of the merged run. |
| MergingIterator.Merger.Seek | TimeCapsule/Pods/leveldb-library/table/merger.cc:47-53 | The first position of the merged run at or after the target. |
| MergingIterator.Merger.Next | TimeCapsule/Pods/leveldb-library/table/merger.cc:55-79 | The next position of the merged run, whatever the direction before. |
| MergingIterator.Merger.Prev | TimeCapsule/Pods/leveldb-library/table/merger.cc:81-108 | The previous position of the merged run, whatever the direction before. |
| DbIterator.LiveIsView | TimeCapsule/Pods/leveldb-library/db/db_iter.cc:177-207 | The live positions of a merged run are, one per user key, exactly the keys with a value at the sequence number, with the value a lookup returns. |
| DbIterator.NextPrevInverse | TimeCapsule/Pods/leveldb-library/db/db_iter.cc:141-234 | Prev after Next and Next after Prev return to the same live key. |
| DbIterator.DbIter.FindNextUserEntry | TimeCapsule/Pods/leveldb-library/db/db_iter.cc:177-207 | The first live position from the current one on, past the skipped user key. |
| DbIterator.DbIter.FindPrevUserEntry | TimeCapsule/Pods/leveldb-library/db/db_iter.cc:236-276 | The last live position before the current one, with its value saved. |
| DbIterator.DbIter.Next | TimeCapsule/Pods/leveldb-library/db/db_iter.cc:141-175 | The next live key, also right after moving backward. |
| DbIterator.DbIter.Prev | TimeCapsule/Pods/leveldb-library/db/db_iter.cc:209-234 | The previous live key, also right after moving forward. |
| DbIterator.DbIter.Seek | TimeCapsule/Pods/leveldb-library/db/db_iter.cc:278-290 | The first live key at or after the target. |
| DbIterator.DbIter.SeekToFirst | TimeCapsule/Pods/leveldb-library/db/db_iter.cc:292-301 | The first live key. |
| DbIterator.DbIter.SeekToLast | TimeCapsule/Pods/leveldb-library/db/db_iter.cc:303-308 | The last live key. |
| TwoLevelIterator.SeekLands | TimeCapsule/Pods/leveldb-library/table/two_level_iterator.cc:82-87 | Seeking the index and then its block lands where a seek in all entries lands, or before an empty rest of blocks. |
| TwoLevelIterator.TwoLevel.SkipEmptyDataBlocksForward | TimeCapsule/Pods/leveldb-library/table/two_level_iterator.cc:115-126 | Blocks without entries are skipped up to the next entry of the table. |
| TwoLevelIterator.TwoLevel.SkipEmptyDataBlocksBackward | TimeCapsule/Pods/leveldb-library/table/two_level_iterator.cc:128-139 | Blocks without entries are skipped back to the previous entry of the table. |
| TwoLevelIterator.TwoLevel.Seek | TimeCapsule/Pods/leveldb-library/table/two_level_iterator.cc:82-87 | The first entry of the concatenated blocks at or after the target. |
| TwoLevelIterator.TwoLevel.SeekToFirst | TimeCapsule/Pods/leveldb-library/table/two_level_iterator.cc:89-94 | The first entry of all blocks. |
| TwoLevelIterator.TwoLevel.SeekToLast | TimeCapsule/Pods/leveldb-library/table/two_level_iterator.cc:96-101 | The last entry of all blocks. |
| TwoLevelIterator.TwoLevel.Next | TimeCapsule/Pods/leveldb-library/table/two_level_iterator.cc:103-107 | The next entry across block borders. |
| TwoLevelIterator.TwoLevel.Prev | TimeCapsule/Pods/leveldb-library/table/two_level_iterator.cc:109-113 | The previous entry across block borders. |
| SkipLists.SkipList.FindGreaterOrEqual | TimeCapsule/Pods/leveldb-library/db/skiplist.h:260-281 | The node a linear scan finds first at or after the key, and on every level the last node before it. |
| SkipLists.SkipList.FindLessThan | TimeCapsule/Pods/leveldb-library/db/skiplist.h:283-302 | The node a linear scan finds last before the key. |
| SkipLists.SkipList.FindLast | TimeCapsule/Pods/leveldb-library/db/skiplist.h:304-322 | The last node. |
| SkipLists.SkipList.Contains | TimeCapsule/Pods/leveldb-library/db/skiplist.h:370-378 | True exactly when an entry with the key is in the list. |
| SkipLists.SkipList.LinkBottom | TimeCapsule/Pods/leveldb-library/db/skiplist.h:360-367 | Once the bottom link is made the contents are the old ones plus the entry in its place, and the list is valid as it stands. |
| SkipLists.SkipList.LinkLevel | TimeCapsule/Pods/leveldb-library/db/skiplist.h:360-367 | After each further link every level is still a sorted sublist of the one below. |
| SkipLists.SkipList.Insert | TimeCapsule/Pods/leveldb-library/db/skiplist.h:336-368 | The contents gain the entry in its place, in a tower of just the given height; all old nodes stay with their heights. |
| SkipLists.ListIterator.Next | TimeCapsule/Pods/leveldb-library/db/skiplist.h:206-210 | The following node. |
| SkipLists.ListIterator.Prev | TimeCapsule/Pods/leveldb-library/db/skiplist.h:212-221 | The preceding node, found by a search for the last one below. |
| SkipLists.ListIterator.Seek | TimeCapsule/Pods/leveldb-library/db/skiplist.h:223-226 | The first node at or after the target. |
| SkipLists.MemTable.Add | TimeCapsule/Pods/leveldb-library/db/memtable.cc:76-99 | The memtable's entries gain the new one in its place. |
| SkipLists.MemTable.Get | TimeCapsule/Pods/leveldb-library/db/memtable.cc:101-135 | The answer of one probe into the sorted entries. |
| LruHandles.HandleTable.Lookup | TimeCapsule/Pods/leveldb-library/util/cache.cc:75-77 | The entry with the key and hash, or none exactly when there is none. |
| LruHandles.HandleTable.Insert | TimeCapsule/Pods/leveldb-library/util/cache.cc:79-93 | The table gains the handle and loses and returns the one with the same key, if any; it grows exactly when it has more handles than buckets. |
| LruHandles.HandleTable.Remove | TimeCapsule/Pods/leveldb-library/util/cache.cc:95-102 | The table loses exactly the handle with the key, which is returned. |
| LruHandles.HandleTable.FindPointer | TimeCapsule/Pods/leveldb-library/util/cache.cc:115-121 | The link to the matching handle of the bucket's chain, or to its end. |
| LruHandles.MaskIsModulo | TimeCapsule/Pods/leveldb-library/util/cache.cc:116-116 | Masking a hash with a power of two less one is taking the remainder. |
| LruHandles.HandleTable.NewLength | TimeCapsule/Pods/leveldb-library/util/cache.cc:123-127 | The smallest power of two from 4 on that is at least the number of handles. |
| LruHandles.HandleTable.Resize | TimeCapsule/Pods/leveldb-library/util/cache.cc:123-147 | Rehashing keeps exactly the same handles and makes the length that power of two. |
| LruHandles.LruRemove | TimeCapsule/Pods/leveldb-library/util/cache.cc:240-243 | Unlinks one handle from its circular list and keeps the order of the others. |
| LruHandles.HandleList.Append | TimeCapsule/Pods/leveldb-library/util/cache.cc:245-251 | Links a handle as the newest entry of the list. |
| LruCaches.LRUCache.Ref | TimeCapsule/Pods/leveldb-library/util/cache.cc:218-224 | A cached entry with no client moves to the in-use list; the client count grows by one. |
| LruCaches.LRUCache.Unref | TimeCapsule/Pods/leveldb-library/util/cache.cc:226-238 | The last reference runs the deleter, once; the last client reference of a cached entry moves it to the end of the LRU list. |
| LruCaches.LRUCache.Lookup | TimeCapsule/Pods/leveldb-library/util/cache.cc:253-260 | The cached entry with the key, now held by the client and off the LRU list, or none exactly when there is none; the order of all other entries stays. |
| LruCaches.LRUCache.Release | TimeCapsule/Pods/leveldb-library/util/cache.cc:262-265 | One client reference less; the deleter runs exactly when no reference is left. |
| LruCaches.LRUCache.Insert | TimeCapsule/Pods/leveldb-library/util/cache.cc:267-305 | The in-use list loses an entry with the same key and gains the new one; the idle list loses an entry with the same key, which is deleted, and then the shortest prefix, oldest first, that brings the usage within capacity; with capacity 0 nothing is cached. |
| LruCaches.LRUCache.FinishErase | TimeCapsule/Pods/leveldb-library/util/cache.cc:308-317 | An entry taken out of the table leaves its list and the usage sum, and is deleted once unless a client holds it. |
| LruCaches.LRUCache.EvictOldest | TimeCapsule/Pods/leveldb-library/util/cache.cc:295-302 | The entry released first is evicted and its deleter runs. |
| LruCaches.LRUCache.EvictToCapacity | TimeCapsule/Pods/leveldb-library/util/cache.cc:295-302 | A prefix of the idle entries is evicted, oldest first, no longer than the capacity asks for. |
| LruCaches.LRUCache.Erase | TimeCapsule/Pods/leveldb-library/util/cache.cc:319-322 | The entry with the key leaves its list, the order of the others stays; it is deleted at once exactly when it was idle. |
| LruCaches.LRUCache.Prune | TimeCapsule/Pods/leveldb-library/util/cache.cc:324-334 | All idle entries are deleted, oldest first, and no other. |
| Coding.Fixed32RoundTrip | TimeCapsule/Pods/leveldb-library/util/coding.cc:9-13 | A 32-bit number comes back from its four bytes. |
| Coding.Fixed64RoundTrip | TimeCapsule/Pods/leveldb-library/util/coding.cc:15-19 | A 64-bit number comes back from its eight bytes. |
| Coding.UnfixedRoundTrip | TimeCapsule/Pods/leveldb-library/util/coding.h:55-113 | Any bytes come back from the number they stand for, which is below 256 to their count. |
| Coding.FixedByte | TimeCapsule/Pods/leveldb-library/util/coding.h:54-80 | Byte i of a fixed-width number is its i-th base-256 digit. |
| Coding.VarintByte | TimeCapsule/Pods/leveldb-library/util/coding.cc:21-64 | Byte i of a varint is its i-th base-128 digit, with the top bit set on all bytes but the last. |
| Coding.Varint32RoundTrip | TimeCapsule/Pods/leveldb-library/util/coding.cc:86-114 | A 32-bit varint is decoded to its number and leaves what follows it. |
| Coding.Varint64RoundTrip | TimeCapsule/Pods/leveldb-library/util/coding.cc:116-143 | A 64-bit varint is decoded to its number and leaves what follows it. |
| Coding.PutVarint32 | TimeCapsule/Pods/leveldb-library/util/coding.cc:21-53 | The five-way case split writes the same bytes as the loop. |
| Coding.PutVarint64 | TimeCapsule/Pods/leveldb-library/util/coding.cc:55-70 | Seven bits per byte, low bits first, the last byte below 128. |
| Coding.ReadVarint32 | TimeCapsule/Pods/leveldb-library/util/coding.cc:86-114 | The decoder with its one-byte fast path: at most five bytes, cut to 32 bits. |
| Coding.ReadVarint64 | TimeCapsule/Pods/leveldb-library/util/coding.cc:116-143 | The decoder: at most ten bytes, cut to 64 bits. |
| Coding.LengthPrefixedRoundTrip | TimeCapsule/Pods/leveldb-library/util/coding.cc:72-75 | A length-prefixed string comes back and leaves what follows it. |
| Coding.ReadLengthPrefixed | TimeCapsule/Pods/leveldb-library/util/coding.cc:155-164 | The string, or failure exactly when the length or the bytes are missing. |
| LogFormat.Writer.AddRecord | TimeCapsule/Pods/leveldb-library/db/log_writer.cc:34-80 | A record becomes a first, middle and last fragment, or a full one, never across a block, with zeros where no header fits. |
| LogFormat.EncodeAllExtend | TimeCapsule/Pods/leveldb-library/db/log_writer.cc:34-80 | A file of records grows by the encoding of one more record at its offset. |
| LogReader.Reader.ReadPhysicalRecord | TimeCapsule/Pods/leveldb-library/db/log_reader.cc:189-271 | For any file whatever: one fragment, end of file, or a bad record, and what is reported; a checksummed fragment whose type is the number of one of these results counts as that result. |
| LogReader.Reader.ReadRecord | TimeCapsule/Pods/leveldb-library/db/log_reader.cc:56-174 | For any file whatever: the next reassembled record, and what is reported. |
| LogSoundness.AllIsChecked | TimeCapsule/Pods/leveldb-library/db/log_reader.cc:56-174 | From any file whatever, every record the reader returns is put together in order from fragments that stand in the file with the right checksum: one of type 1, or types 2, 3, ..., 3, 4. |
| LogSoundness.LogicalIsChecked | TimeCapsule/Pods/leveldb-library/db/log_reader.cc:56-174 | The same for one record, from any state of the reader. |
| LogSoundness.BadSkipsBlock | TimeCapsule/Pods/leveldb-library/db/log_reader.cc:189-271 | A reported fragment takes the rest of its block with it. |
| LogSoundness.TypedCodes | TimeCapsule/Pods/leveldb-library/db/log_reader.h:67-79 | Types 5 and 6 are taken for the end of the file and for a bad record. |
| FileFormats.FirstFragment | TimeCapsule/Pods/leveldb-library/db/log_writer.cc:32-110 | The bytes of a record's next fragment in numerals: trailer of zeros, checksum, length, type 1 to 4, payload, and what follows. |
| FileFormats.ThreeBlocks | TimeCapsule/Pods/leveldb-library/db/log_writer.cc:32-110 | A record over three blocks has fragments of types 2, 3 and 4 at the starts of the blocks. |
| LogRoundTrip.LogicalRead | TimeCapsule/Pods/leveldb-library/db/log_reader.cc:56-174 | Fragments of one record, with or without a torn tail, are reassembled or end the log. |
| LogRoundTrip.TornTail | TimeCapsule/Pods/leveldb-library/db/log_reader.cc:189-271 | Reading any byte prefix of a log gives exactly the records that are complete in it, and reports no corruption. |
| LogRoundTrip.RoundTrip | TimeCapsule/Pods/leveldb-library/db/log_writer.cc:34-108 | Reading a whole log gives back all records, of any lengths. |
| EditCodec.VersionEdit.EncodeTo | TimeCapsule/Pods/leveldb-library/db/version_edit.cc:41-84 | The bytes of the fields that are set, then pointers, deletions in set order and additions. |
| EditCodec.VersionEdit.DecodeFrom | TimeCapsule/Pods/leveldb-library/db/version_edit.cc:105-203 | For any input: the fields up to the first bad one, and how parsing ends. |
| EditCodec.VersionEdit.Clear | TimeCapsule/Pods/leveldb-library/db/version_edit.cc:26-39 | Everything but the compaction pointers is cleared. |
| EditCodec.VersionEdit.AddFile | TimeCapsule/Pods/leveldb-library/db/version_edit.h:63-71 | The list of new files gains the file at its end; nothing else changes. |
| EditCodec.VersionEdit.RemoveFile | TimeCapsule/Pods/leveldb-library/db/version_edit.h:74-76 | The ordered set of deletions gains the pair. |
| EditCodec.ParseFieldRoundTrip | TimeCapsule/Pods/leveldb-library/db/version_edit.cc:105-192 | Each field comes back from its bytes. |
| FileFormats.FieldLayout | TimeCapsule/Pods/leveldb-library/db/version_edit.cc:41-84 | The tag and the bytes of each field of an edit, in numerals. |
| FileFormats.NumbersLayout | TimeCapsule/Pods/leveldb-library/db/version_edit.cc:41-63 | The numbers that are set, in the order of their writing. |
| FileFormats.OtherTagsRefused | TimeCapsule/Pods/leveldb-library/db/version_edit.cc:119-200 | An edit with any other tag is refused. |
| EditCodec.DecodeEncode | TimeCapsule/Pods/leveldb-library/db/version_edit.cc:26-203 | Decoding an encoded edit into a used one restores every field; the pointers follow the ones left behind. |
| EditCodec.RoundTripIff | TimeCapsule/Pods/leveldb-library/db/version_edit.cc:26-39 | Decoding restores the edit if and only if the target held no compaction pointers. |
| EditCodec.StalePointerStays | TimeCapsule/Pods/leveldb-library/db/version_edit.cc:26-39 | Decoding the empty edit into a cleared one that held a pointer leaves the pointer there. |
| EditCodec.DecodedIsEncodable | TimeCapsule/Pods/leveldb-library/db/version_edit.cc:86-203 | Whatever bytes are parsed, the resulting edit can be encoded again. |
| ManifestLog.WriteEdit | TimeCapsule/Pods/leveldb-library/db/version_set.cc:817-832 | Appending an encoded edit makes the manifest file the records of one more edit. |
| ManifestLog.ReadManifest | TimeCapsule/Pods/leveldb-library/db/version_set.cc:902-945 | The edits up to the first corruption or wrong comparator. |
| ManifestLog.TornManifest | TimeCapsule/Pods/leveldb-library/db/version_set.cc:902-945 | Any byte prefix of a manifest reads back as the edits complete in it. |
| ManifestLog.Recover | TimeCapsule/Pods/leveldb-library/db/version_set.cc:862-987 | From any byte prefix of the manifest file: the version and the numbers after its last complete edit. |
| BlockFormat.BlockBuilder.Add | TimeCapsule/Pods/leveldb-library/table/block_builder.cc:71-105 | The block's entries gain the pair; keys share prefixes between restart points. |
| BlockFormat.BlockBuilder.Finish | TimeCapsule/Pods/leveldb-library/table/block_builder.cc:61-69 | Prefix-compressed entries, restart offsets and their count. |
| BlockFormat.BlockBuilder.Reset | TimeCapsule/Pods/leveldb-library/table/block_builder.cc:46-53 | An empty block again. |
| FileFormats.SharedIsLongest | TimeCapsule/Pods/leveldb-library/table/block_builder.cc:71-86 | At a restart point nothing of a key is shared, elsewhere as much as it has in common with the one before. |
| FileFormats.EntryLayout | TimeCapsule/Pods/leveldb-library/table/block_builder.cc:88-97 | An entry: shared, unshared and value length, the rest of the key, the value. |
| FileFormats.BlockLayout | TimeCapsule/Pods/leveldb-library/table/block_builder.cc:61-69 | A block ends in the offsets of its restart points and their number. |
| BlockReader.EntryDecodes | TimeCapsule/Pods/leveldb-library/table/block.cc:55-75 | Every entry header of a finished block decodes to its three lengths. |
| BlockReader.BlockIter.ParseNextKey | TimeCapsule/Pods/leveldb-library/table/block.cc:225-252 | From an entry's offset and the key before it: the entry's key and value, and the restart index it belongs to. |
| BlockReader.BlockIter.SeekToFirst | TimeCapsule/Pods/leveldb-library/table/block.cc:204-207 | The first pair. |
| BlockReader.BlockIter.SeekToLast | TimeCapsule/Pods/leveldb-library/table/block.cc:209-214 | The last pair. |
| BlockReader.BlockIter.Next | TimeCapsule/Pods/leveldb-library/table/block.cc:138-141 | The next pair. |
| BlockReader.BlockIter.Prev | TimeCapsule/Pods/leveldb-library/table/block.cc:143-162 | The immediate predecessor, through the restart point before it. |
| BlockReader.BlockIter.Seek | TimeCapsule/Pods/leveldb-library/table/block.cc:164-202 | Binary search over the restart points and a scan land on the first key at or after the target. |
| BlockReader.BlockIter.Scan | TimeCapsule/Pods/leveldb-library/table/block.cc:204-252 | Iterating a finished block yields exactly the pairs added. |
| ByteOrder.BelowIsOrder | TimeCapsule/Pods/leveldb-library/util/comparator.cc:27-29 | Bytewise comparison is a strict total order. |
| ByteOrder.RankOrder | TimeCapsule/Pods/leveldb-library/util/comparator.cc:27-29 | Bytewise order embeds in the reals, which the engine uses for user keys. |
| ByteOrder.RankInjective | TimeCapsule/Pods/leveldb-library/util/comparator.cc:27-29 | Different keys have different ranks. |
| ByteOrder.FindShortestSeparator | TimeCapsule/Pods/leveldb-library/util/comparator.cc:31-52 | The start cut behind the first difference with that byte one larger where this leaves it below limit, else start itself. |
| ByteOrder.FindShortSuccessor | TimeCapsule/Pods/leveldb-library/util/comparator.cc:54-65 | The key cut behind its first byte that is not 0xff, which grows by one; the key itself if all bytes are 0xff. |
| TableFormat.KeyRoundTrip | TimeCapsule/Pods/leveldb-library/db/dbformat.h:171-184 | Parsing an appended internal key gives back user key, sequence and type. |
| FileFormats.KeyLayout | TimeCapsule/Pods/leveldb-library/db/dbformat.cc:13-25 | A stored key is the user key, one byte of type, and seven of sequence number, low byte first. |
| TableFormat.KeyBelowIsLess | TimeCapsule/Pods/leveldb-library/db/dbformat.cc:47-63 | Comparing stored keys is the order of internal keys the engine uses. |
| TableFormat.FindShortestInternalSeparator | TimeCapsule/Pods/leveldb-library/db/dbformat.cc:65-82 | The shortened user key with the largest tag if it is really shorter, else start: at or after start, before limit, and unless it is start of an earlier user key than limit. |
| TableFormat.FindShortInternalSuccessor | TimeCapsule/Pods/leveldb-library/db/dbformat.cc:84-97 | The shortened user key with the largest tag if it is really shorter, else the key itself. |
| TableFormat.TableBuilder.Add | TimeCapsule/Pods/leveldb-library/table/table_builder.cc:94-123 | The table's entries gain the pair; the delayed index entry separates the last block from it. |
| TableFormat.TableBuilder.Flush | TimeCapsule/Pods/leveldb-library/table/table_builder.cc:125-139 | The data block becomes a block of the table. |
| TableFormat.TableBuilder.Finish | TimeCapsule/Pods/leveldb-library/table/table_builder.cc:198-253 | Every block has an index key at or after its last key and before the next block. |
| TableFormat.OneBlockEnough | TimeCapsule/Pods/leveldb-library/table/table.cc:214-242 | The block the index points at answers a lookup for the whole table. |
| FilteredTables.FilteredBuilder.Add | TimeCapsule/Pods/leveldb-library/table/table_builder.cc:94-123 | The pair joins the open block, its user key the filter of the block's offset, and the index gains the key of a block that waited for it. |
| FilteredTables.FilteredBuilder.Flush | TimeCapsule/Pods/leveldb-library/table/table_builder.cc:125-139 | The open block is finished at its offset and the filter moves on to the next one. |
| FilteredTables.FilteredBuilder.Finish | TimeCapsule/Pods/leveldb-library/table/table_builder.cc:198-238 | Index and filter block are complete: every entry's user key is in the filter for its block's offset. |
| FilteredTables.NothingRuledOut | TimeCapsule/Pods/leveldb-library/table/filter_block.cc:77-104 | The filter block of a table, read back from its bytes, rules out no user key of a block at that block's offset. |
| BlockLookup.EncodedIsOrder | TimeCapsule/Pods/leveldb-library/db/dbformat.cc:47-63 | The comparator on stored keys is a strict total order of byte strings. |
| BlockLookup.EncodedIsLess | TimeCapsule/Pods/leveldb-library/db/dbformat.cc:47-63 | On keys that parse the comparator is the order of the engine. |
| BlockLookup.SeekPair | TimeCapsule/Pods/leveldb-library/table/block.cc:164-202 | A seek in any bytes ends at an error, past the end or at a pair; in a finished block at the first pair at or after the target. |
| BlockLookup.BlockGet | TimeCapsule/Pods/leveldb-library/db/version_set.cc:247-280 | What a point lookup finds in the bytes of a data block is what it finds among the entries. |
| TableFiles.HandleRoundTrip | TimeCapsule/Pods/leveldb-library/table/format.cc:16-31 | A block handle comes back from its bytes. |
| TableFiles.FooterRoundTrip | TimeCapsule/Pods/leveldb-library/table/format.cc:33-63 | The footer has 48 bytes, from which both handles come back. |
| FileFormats.TrailerLayout | TimeCapsule/Pods/leveldb-library/table/table_builder.cc:172-193 | Behind a block stand the type 0 and the checksum of both. |
| FileFormats.FooterLayout | TimeCapsule/Pods/leveldb-library/table/format.cc:31-41 | A footer has 48 bytes, metaindex and index handle first and the magic number last. |
| TableFiles.ReadBack | TimeCapsule/Pods/leveldb-library/table/format.cc:66-100 | A block read at the handle it was written under, with or without checking its checksum, is the block written. |
| TableFiles.NewTableFile | TimeCapsule/Pods/leveldb-library/table/table_builder.cc:56-61 | A builder for an empty file, with the filter's first block started at offset 0. |
| TableFiles.TableFileBuilder.AppendBlock | TimeCapsule/Pods/leveldb-library/table/table_builder.cc:141-193 | The open block's bytes and trailer end the file; its handle waits for an index entry. |
| TableFiles.TableFileBuilder.Add | TimeCapsule/Pods/leveldb-library/table/table_builder.cc:94-123 | The entries of the file gain the pair, in the bytes of the open block, which is written exactly when its finished size reaches the limit. |
| TableFiles.TableFileBuilder.Flush | TimeCapsule/Pods/leveldb-library/table/table_builder.cc:125-139 | The open block is in the file under its handle; nothing else changes. |
| TableFiles.TableFileBuilder.Finish | TimeCapsule/Pods/leveldb-library/table/table_builder.cc:198-253 | The file is a table with all entries added: data blocks, filter block, metaindex, index and footer, each where its handle says. |
| TableFiles.Open | TimeCapsule/Pods/leveldb-library/table/table.cc:38-80 | A finished file opens, with its filter exactly if that of the options is the one it was written with. |
| TableFiles.ReadMeta | TimeCapsule/Pods/leveldb-library/table/table.cc:82-128 | The filter block found through the metaindex rules out no key of a block; without it there is no filter. |
| TableFiles.Table.InternalGet | TimeCapsule/Pods/leveldb-library/table/table.cc:214-242 | From the bytes of the file: one seek in the index block, one filter probe and at most one data block give the answer of a search of all entries. |
| TableFiles.FinishAndOpen | TimeCapsule/Pods/leveldb-library/table/table_builder.cc:198-253 | What was added is what is found: a finished file opens to a table of all entries added. |
| Filters.BloomFilterPolicy.CreateFilter | TimeCapsule/Pods/leveldb-library/util/bloom.cc:28-54 | Appends a bit array of the size the key count asks for, in which exactly the probed bits of the keys are set, and the probe count. |
| Filters.DeltaIsRotation | TimeCapsule/Pods/leveldb-library/util/bloom.cc:43-48 | The step between probes is the hash rotated right by 17 bits, bit by bit. |
| Filters.KeyMayMatch | TimeCapsule/Pods/leveldb-library/util/bloom.cc:56-80 | For any filter bytes: what the probe loop decides. |
| Filters.FilterMatches | TimeCapsule/Pods/leveldb-library/util/bloom.cc:28-80 | Every key a filter was made of matches it. |
| FilterBlocks.FilterBlockBuilder.StartBlock | TimeCapsule/Pods/leveldb-library/table/filter_block.cc:21-27 | One filter per 2 KB of offsets, empty ones for gaps. |
| FilterBlocks.FilterBlockBuilder.AddKey | TimeCapsule/Pods/leveldb-library/table/filter_block.cc:29-33 | The key is gathered for the current block offset. |
| FilterBlocks.FilterBlockBuilder.GenerateFilter | TimeCapsule/Pods/leveldb-library/table/filter_block.cc:51-75 | One filter over the gathered keys, or an empty one. |
| FilterBlocks.FilterBlockBuilder.Finish | TimeCapsule/Pods/leveldb-library/table/filter_block.cc:35-49 | The filters, their offsets, the start of the offset array and the base. |
| FileFormats.FilterBlockLayout | TimeCapsule/Pods/leveldb-library/table/filter_block.cc:31-48 | A filter block ends in the offsets of its filters, the offset of that array, and 11. |
| FilterBlocks.FilterBlockReader.KeyMayMatch | TimeCapsule/Pods/leveldb-library/table/filter_block.cc:90-104 | For any block bytes: which filter is consulted and what follows. |
| FilterBlocks.NoFalseNegatives | TimeCapsule/Pods/leveldb-library/table/filter_block.cc:21-104 | A key added for an offset is never ruled out at that offset. |
| FilterBlocks.BaseIsShift | TimeCapsule/Pods/leveldb-library/table/filter_block.cc:15-16 | Shifting by 11 is dividing by 2048. |
| WriteBatches.WalkRoundTrip | TimeCapsule/Pods/leveldb-library/db/write_batch.cc:42-80 | Walking encoded updates gives them back in order. |
| FileFormats.BatchLayout | TimeCapsule/Pods/leveldb-library/db/write_batch.cc:5-15 | The bytes of a batch: eight of sequence number, four of count, and per update a 1 with key and value or a 0 with the key. |
| FileFormats.OtherRecordsStop | TimeCapsule/Pods/leveldb-library/db/write_batch.cc:43-82 | A record with any other tag ends the walk with an error. |
| WriteBatches.WriteBatch.Add | TimeCapsule/Pods/leveldb-library/db/write_batch.cc:98-109 | The batch gains the update, in bytes and in count. |
| WriteBatches.WriteBatch.Append | TimeCapsule/Pods/leveldb-library/db/write_batch.cc:144-148 | The batch gains the updates of the other one. |
| WriteBatches.WriteBatch.SetSequence | TimeCapsule/Pods/leveldb-library/db/write_batch.cc:94-96 | Only the sequence number changes. |
| WriteBatches.WriteBatch.Iterate | TimeCapsule/Pods/leveldb-library/db/write_batch.cc:42-80 | For any bytes: the updates handled and the outcome; for a batch, its updates. |
| GroupCommit.BuildBatchGroup | TimeCapsule/Pods/leveldb-library/db/db_impl.cc:1270-1316 | The longest front part of the queue that may be committed together, its updates in queue order; no sync writer joins a non-sync group. |
| GroupCommit.GroupIsSequential | TimeCapsule/Pods/leveldb-library/db/db_impl.cc:1195-1268 | Committing two batches as one is committing them one after the other. |
| GroupCommit.WriteQueue.Enqueue | TimeCapsule/Pods/leveldb-library/db/db_impl.cc:1195-1205 | The writer waits at the end of the queue. |
| GroupCommit.WriteQueue.Commit | TimeCapsule/Pods/leveldb-library/db/db_impl.cc:1206-1268 | The log gains one record, the batch of the group's updates under the next unused sequence numbers, and memory its entries; each writer of the group, and no other, completes, once, and the memtable is switched exactly when the front writer asks for it. |
| GroupCommit.WriteQueue.GetSnapshot | TimeCapsule/Pods/leveldb-library/db/db_impl.cc:1176-1179 | The snapshot is the last published sequence number. |
| GroupCommit.WriteQueue.SnapshotSplitsNoBatch | TimeCapsule/Pods/leveldb-library/db/db_impl.cc:1214-1247 | Whatever was committed, no snapshot taken from the queue sees a part of any writer's batch. |
| GroupCommit.CompletedBehindFrontIff | TimeCapsule/Pods/leveldb-library/db/db_impl.cc:1279-1312 | Which writers behind the front one complete with it: those inside the longest joinable front part, if the front writer has a batch. |
| GroupCommit.MissesSwitchIff | TimeCapsule/Pods/leveldb-library/db/db_impl.cc:1206-1212 | A writer without a batch completes without the switch it asks for if and only if it stands behind a front writer with a batch, inside that writer's group. |
| GroupCommit.QueuedNullIsAbsorbed | TimeCapsule/Pods/leveldb-library/db/db_impl.cc:1279-1312 | A writer with neither batch nor sync, alone behind one with a batch, is taken into its group. |
| GroupCommit.SwitchIsMissed | TimeCapsule/Pods/leveldb-library/db/db_impl.cc:1195-1268 | Two writers, the second one asking for a switch: both complete, and there was no switch. |
| QueuedWrites.CommitInStep | TimeCapsule/Pods/leveldb-library/db/db_impl.cc:1206-1268 | Each commit of the queue is one write step of the engine, of the updates its log record decodes to, in a database that goes on mirroring the queue, and whatever map of byte strings readers found there they find with these updates applied; a request for a switch alone writes nothing. |
| ReadYourWrites.MemoryShows | TimeCapsule/Pods/leveldb-library/db/db_impl.cc:1206-1268 | A reader of the queue's memory finds, key by key in bytes, exactly the map that the accepted updates make: the value of the last put, nothing after a deletion. |
| ReadYourWrites.LastWriteIsApplied | TimeCapsule/Pods/leveldb-library/db/write_batch.cc:116-130 | Putting sets a key of the map and deleting removes it, whatever else is written. |
| ReadYourWrites.WriteIsApplied | TimeCapsule/Pods/leveldb-library/db/db_impl.cc:1206-1268 | A write of the engine changes the map its history shows by just these updates. |
| ReadYourWrites.StoredShows | TimeCapsule/Pods/leveldb-library/db/db_impl.cc:1110-1155 | As long as reads are right, what is stored shows the same map. |
| ReadYourWrites.TextInjective | TimeCapsule/Pods/leveldb-library/db/db_impl.cc:1110-1155 | Different values are shown differently. |
| QueuedWrites.StaysMirrored | TimeCapsule/Pods/leveldb-library/db/db_impl.cc:1356-1376 | Between commits any other step but a crash keeps queue and database in step, a switch with a new log. |
| ProtoFields.AllDefaultIsDefaults | TimeCapsule/Pods/nanopb/pb_encode.c:240-337 | A message that passes the zero test is the one decoding starts from. |
| ProtoWire.Varint32RoundTrip | TimeCapsule/Pods/nanopb/pb_decode.c:187-252 | A 32-bit varint is decoded to its number and leaves what follows it. |
| ProtoWire.ZigZagRoundTrip | TimeCapsule/Pods/nanopb/pb_encode.c:630-639 | Signed numbers map one to one to even and odd unsigned ones, and back. |
| ProtoWire.NumberRoundTrip | TimeCapsule/Pods/nanopb/pb_decode.c:1345-1428 | A number in the range of its field survives encoding and the casts of the decoder. |
| ProtoEncoder.OStream.Write | TimeCapsule/Pods/nanopb/pb_encode.c:103-124 | Succeeds exactly when the bytes fit; a stream never goes past its maximum, and a sizing stream only counts. |
| ProtoEncoder.OStream.EncodeValue | TimeCapsule/Pods/nanopb/pb_encode.c:55-68 | The bytes of a value of any kind; fails exactly when it overflows its field or the stream. |
| ProtoEncoder.OStream.EncodeArray | TimeCapsule/Pods/nanopb/pb_encode.c:147-236 | Packed whenever possible, behind one tag and the size; else item by item. |
| ProtoEncoder.OStream.EncodeField | TimeCapsule/Pods/nanopb/pb_encode.c:341-426 | What is written for a field of each rule. |
| ProtoEncoder.OStream.Encode | TimeCapsule/Pods/nanopb/pb_encode.c:528-550 | A sizing stream counts exactly the bytes a writing stream takes; writing succeeds exactly when nothing overflows and those bytes fit. |
| ProtoEncoder.OStream.EncodeSubmessage | TimeCapsule/Pods/nanopb/pb_encode.c:717-765 | The size pass and the write pass agree at every depth, so a submessage never changes size. |
| ProtoFormat.FieldStarts | TimeCapsule/Pods/nanopb/pb_encode.c:669-707 | Whatever is written for a field starts with eight times its tag plus 0, 1, 2 or 5 according to its kind, as a varint. |
| ProtoFormat.FirstByteOfField | TimeCapsule/Pods/nanopb/pb_encode.c:669-707 | For tags below 16 that sum is the first byte. |
| ProtoFormat.NotWrittenIff | TimeCapsule/Pods/nanopb/pb_encode.c:240-428 | Nothing is written exactly for an absent value, an empty array, and a singular zero or empty string. |
| ProtoFormat.FixedNumberBytes | TimeCapsule/Pods/nanopb/pb_encode.c:641-667 | Fixed-width numbers are written low byte first. |
| ProtoFormat.SignedNumberBytes | TimeCapsule/Pods/nanopb/pb_encode.c:583-639 | Zigzag numbers are the varint of 2n or -2n - 1; a plain negative number is the varint of its 64-bit complement. |
| ProtoFormat.Fixed32Field | TimeCapsule/Pods/nanopb/pb_encode.c:669-707 | A 32-bit field with tag 1 starts with the byte 0x0D. |
| ProtoStreams.FieldIter.Next | TimeCapsule/Pods/nanopb/pb_common.c:29-85 | The next field, or back to the first; the count of required fields keeps up. |
| ProtoStreams.FieldIter.Find | TimeCapsule/Pods/nanopb/pb_common.c:87-104 | From any position once around: the field with the tag, or none exactly when there is none. |
| ProtoStreams.IStream.ReadVarint32 | TimeCapsule/Pods/nanopb/pb_decode.c:187-247 | For any bytes: the number, overflow or a missing byte. |
| ProtoStreams.IStream.ReadVarint64 | TimeCapsule/Pods/nanopb/pb_decode.c:255-275 | For any bytes: at most ten of them, cut to 64 bits. |
| ProtoStreams.IStream.ReadTag | TimeCapsule/Pods/nanopb/pb_decode.c:298-319 | Field number and wire type; a zero ends the message. |
| ProtoStreams.IStream.Skip | TimeCapsule/Pods/nanopb/pb_decode.c:321-331 | A field of any wire type is skipped whole. |
| ProtoStreams.IStream.MakeSubstream | TimeCapsule/Pods/nanopb/pb_decode.c:372-385 | The substream has just the announced bytes, the stream what lies behind them. |
| ProtoStreams.IStream.CloseSubstream | TimeCapsule/Pods/nanopb/pb_decode.c:387-400 | The stream goes on right behind the substream, however much of it was read. |
| ProtoStreams.IStream.ReadSlot | TimeCapsule/Pods/nanopb/pb_decode.c:406-483 | For any bytes: what a field of each rule becomes. |
| ProtoStreams.IStream.ReadFields | TimeCapsule/Pods/nanopb/pb_decode.c:952-1030 | For any bytes: the loop takes the fields in order and stops at the end of the input or at a tag of zero, with the values merged so far and the set of the required fields seen. |
| ProtoStreams.IStream.ReadMessage | TimeCapsule/Pods/nanopb/pb_decode.c:934-1082 | For any bytes: the fields merged in order, unknown ones skipped, failure if a required one is missing. |
| ProtoStreams.IStream.ReadNewMessage | TimeCapsule/Pods/nanopb/pb_decode.c:1084-1096 | The same from the default values. |
| ProtoFormat.SkipFixed | TimeCapsule/Pods/nanopb/pb_decode.c:321-331 | Wire type 5 takes four bytes, wire type 1 eight, and types 3, 4 and from 6 on are refused. |
| ProtoFormat.SkipNumber | TimeCapsule/Pods/nanopb/pb_decode.c:321-331 | Wire type 0 takes the bytes from 128 on and the first one below. |
| ProtoFormat.SkipString | TimeCapsule/Pods/nanopb/pb_decode.c:321-331 | Wire type 2 takes a length and that many bytes. |
| ProtoFormat.NumbersTaken | TimeCapsule/Pods/nanopb/pb_decode.c:1345-1430 | Which numbers a field of each kind and size takes, for what, and that all others are refused. |
| ProtoFormat.RequiredIffRead | TimeCapsule/Pods/nanopb/pb_decode.c:1020-1082 | A message is taken exactly if its fields can be read and every one of the first 64 required fields is among them. |
| ProtoFormat.UnknownFixed32IsSkipped | TimeCapsule/Pods/nanopb/pb_decode.c:990-994 | A message type with one bool skips an unknown 32-bit field in front of it as four bytes. |
| ProtoDecoder.UnknownFieldSkippedIff | TimeCapsule/Pods/nanopb/pb_decode.c:966-995 | A field the message type does not have is skipped as its wire type says, except that a type without fields takes number 0 for its own terminator: then exactly if skipping and reading a bool fail alike or end alike. |
| ProtoDecoder.FieldZeroIsMisread | TimeCapsule/Pods/nanopb/pb_common.c:87-104 | Three bytes, a length-delimited field numbered 0: skipping it reaches the end of the input, but a message type without fields fails to decode them. |
| ProtoRoundTrip.MessageBack | TimeCapsule/Pods/nanopb/pb_decode.c:934-1082 | Decoding the bytes of a message, submessages, packed arrays and oneofs included, gives it back unless a string fills its buffer, and fails then. |
| ProtoRoundTrip.RoundTripIff | TimeCapsule/Pods/nanopb/pb_decode.c:1487-1523 | Decoding what was encoded restores the message if and only if every string leaves room for its terminator. |
| ProtoRoundTrip.FullStringIsRefused | TimeCapsule/Pods/nanopb/pb_decode.c:1487-1523 | A one-field message whose string fills its buffer is encoded, and its bytes are refused. |
| ProtoSafety.MessageSound | TimeCapsule/Pods/nanopb/pb_decode.c:406-483 | Merging any bytes overflows no array, byte field or string. |
| ProtoSafety.DecodedSurvives | TimeCapsule/Pods/nanopb/pb_decode.c:1084-1096 | Whatever bytes decode, the message can be encoded, and decoding that encoding gives it again. |

## Left out

- A flush that runs inside a compaction: `DoCompactionWork` may flush the immutable memtable between two entries; flush and compaction are separate steps here.
- Loss of an unsynced log tail as a step of a run: in the crash step of a run every appended log record survives; `EngineTorn` and `TornFiles` have the loss of the end of the current log, at any byte, as a crash that ends a run.
- Condition variables, the mutex and memory orderings: readers of a skip list see it between two links, not within one; a stale maximal height is not modelled.
- I/O errors, the background error, `paranoid_checks`, `reuse_logs`, repair, and the checks for missing files when a database is opened.
- DbImpls.DBImpl.Write: takes the operations of one batch; the queue of writers and the bytes of the batch are `GroupCommit` and `WriteBatches`, which `QueuedWrites` ties to the write step, and it requires that sequence numbers are not exhausted.
- DbImpls.DBImpl.MakeRoomForWrite: is one turn of the waiting loop; the one-millisecond slowdown is not modelled.
- DbImpls.DBImpl.RemoveObsoleteFiles: keeps and removes logs and tables; old manifests, temporary files and the files that are always kept are not modelled.
- DbImpls.MakeInput: collects the input entries directly; that the merging iterator yields them in this order is `MergingIterator`.
- CompactionWork.DoCompactionWork: which entries fill an output table is a parameter, and the smallest snapshot is below the largest sequence number.
- Picking.PickCompaction: the seek statistics and read sampling that name a file are not modelled; scores are reals, where the code has doubles.
- VersionBuilder.Builder.Apply: requires that an edit adds no file number its level already has; the code accepts one. That no edit of the engine does so is part of `EngineDurable.ManifestOk`, kept by every step.
- Manifest.Recover: previous log numbers and compaction pointers are not replayed into the version; `EditCodec` has them as fields.
- DbIterator.DbIter.Next: internal keys are well formed; corrupt ones, which the code skips with an error status, and read sampling are not modelled.
- LogReader.Reader.ReadRecord: starts at offset 0; resynchronising at a later initial offset is not modelled.
- BlockReader.BlockIter.Seek: promises a result for finished blocks only; for other bytes the iterator is only kept within its bounds, and the 32-bit sum of the lengths in an entry header is unbounded.
- Resurrection.DeletedValueComesBack: the cut between the outputs of its first compaction is one the model leaves open; the code makes it for values long enough to fill the output file.
- MergingIterator.Merger.Seek: its children are cursors over sorted runs; that blocks, two-level iterators and skip lists behave as such cursors is what their own modules prove.
- FilteredTables.NothingRuledOut: requires that the filter block is shorter than 4 GB, as its 32-bit offsets do.
- TableFormat.TableBuilder.Add: has entries for blocks; the bytes are those of TableFiles.TableFileBuilder.Add, and so for TableFormat.TableBuilder.Flush and TableFormat.TableBuilder.Finish.
- TableFormat.TableBuilder.Flush: see TableFormat.TableBuilder.Add.
- TableFormat.TableBuilder.Finish: see TableFormat.TableBuilder.Add.
- TableFiles.TableFileBuilder.Add: no compression; of I/O errors only a file past 2 to the 64 bytes.
- TableFiles.Open: promises for files a builder wrote, with blocks shorter than 4 GB; the block cache of `Table::BlockReader` is not modelled.
- LruCaches.LRUCache.Insert: one shard; the sharding by hash and the destructor are not modelled.
- Filters.BloomFilterPolicy.CreateFilter: the hash is a parameter, taken modulo 32 bits.
- GroupCommit.WriteQueue.Commit: a log write error, which fails the whole group, is not modelled, and a switch is counted; the switch itself is `DbImpls.DBImpl.SwitchMemTable`.
- SkipLists.SkipList.Insert: random heights are a parameter from 1 to 12, and arena placement is not modelled.
- ProtoStreams.IStream.ReadMessage: messages are values, not structs in memory; the bits of the seen required fields are a set; callbacks, extensions, pointer fields, fixed-count arrays, non-zero default values and builds without 64-bit numbers are not modelled.
- ProtoEncoder.OStream.Encode: sizes below 2 to the 64, as in memory; streams with user callbacks are not modelled.
- The app's own Swift code, `env_posix.cc`, the loggers, the C bindings and `dumpfile.cc`: user interface, wrappers and reporting.
