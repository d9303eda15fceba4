# A verified model of LevelDB's storage engine and nanopb's codec

The iOS application in this repository stores and ships its data through two vendored C and C++
libraries: LevelDB, a log-structured merge tree, and nanopb, a table-driven protobuf codec. This
project models their hard code in Dafny and proves what each part is for. Run `dafny verify
dfyconfig.toml` to check it.

**The log-structured merge tree.** A database is a memtable, an immutable memtable, seven levels of
files, live snapshots and a last sequence number. `History` is the plain view: the list of writes, some of
which a crash may have lost, replayed to a map. `Lsm` is the state machine of writes, rotations, flushes, trivial moves,
compactions, snapshots and releases. Its main theorem, `RunExact`, says when every read of a run, at
a live snapshot or now, is that of the replayed history: if and only if each compaction was harmless
in the state it started from. `Database` is the same as a class whose methods run the algorithms of
the other modules (`Version`, `VersionGet`, `Merger`, `DbIter`, `CompactionInputs`,
`CompactionPick`, `CompactionWork`, `VersionBuilder`), each proved against its own specification and
shown to be a step of the machine.

The code's choice of compaction inputs closes only the inputs of the upper level under shared
boundary user keys. A step may therefore leave out a file of the next level that shares a user key
with an input file, and a dropped tombstone may uncover an old value there. `CompactExact` gives the
exact condition under which one compaction is right, `RunExact` that of a whole run, and
`LsmExample` a run of eleven steps from the empty database whose last compaction brings a deleted
key back. `GuardSuffices` shows one condition to be enough: no user key crosses a boundary between
an input file and a file left out. Levels whose user keys never cross file boundaries meet it.

**The database and its files.** `Durable` follows the log files and the descriptor along every run,
synced and unsynced writes, log switches and edits; `FileNumbers` keeps the edits apart. `Opening`
is the opening of a directory, `Crash` what it finds after a crash: exactly a prefix of the history,
with every synced write, if and only if the older of two logs lost nothing or nothing of the newer
one is left. `CrashHole` is a run in which that fails: switching to a new log does not sync the old
one, so a later synced write can survive an earlier unsynced one. `LevelRecover` and `Restart` go on
to the store that is opened, which is in order again over the history that is left, and `Sessions`
to runs with any number of crashes: what is on disk stays in the history for good. `RestartTotal` shows
that every crash has such a continuation while file numbers last. `LsmTables` is the part about the
tables alone.

**Files.** `Log` and `LogRoundTrip` treat the log with torn tails, `WriteBatch` and `Recovery` what
is replayed from it, `VersionEdit` and `Manifest` the descriptor, `Block`, `FilterBlock`, `Bloom`,
`KeyOrder`, `Table` and `TableBuilder` the tables, from the blocks to the footer from which a table
is opened, `TwoLevelIterator` the iterator over an index and its blocks, `Crc` the strided checksum.
`TableFile` joins the bytes to the tree: what a lookup or an iterator finds in a table file is what the
models above find in the run of entries that was added to it.

**Structures in memory.** `SkipList` is published pointer by pointer, with readers that interleave,
and `MemTable` shows that its bottom level spells the sorted run that the database works with;
`HandleTable` and `Lru` are the cache; `GroupCommit` is the writer queue.

**nanopb.** `PbCommon` holds descriptor tables, messages and the field iterator; `PbEncode` the
sizing and writing passes; `PbDecode` what decoding means, and `PbIStream` the loops that do it;
`PbRoundTrip` proves that a message comes back. A string that fills its buffer exactly is accepted
by the encoder and refused by the decoder (`FullBufferIsRefused`); the round trip is stated with
that as its exact condition.

User keys are used only through their comparator, and every countable total order embeds in the
reals, so a user key is a `real` in the tree and a byte string in the file formats; `KeyOrder`
proves the embedding for byte strings and for encoded internal keys.

Where documentation and code differ, the code is followed. The comment above `AddBoundaryInputs`
explains why no file that continues the inputs' largest user key may be left out; the code sees to
that in the upper level only, as above. The header of `pb_field_iter_find` promises false for an
absent number; in an empty table the number 0 is found at the terminator, and the model decodes
accordingly.

## Model

| member | source | states |
|---|---|---|
| Lsm.RunRefinesHistory | ChatAppTFS/Pods/leveldb-library/db/db_impl.cc:491-566 | In every state of every run of writes, memtable rotations, flushes, trivial moves, compactions, snapshots and releases whose compactions so far were harmless, every level is well ordered and every read at a live snapshot or at the last sequence number equals the replayed history of writes |
| Lsm.RunExact | ChatAppTFS/Pods/leveldb-library/db/db_impl.cc:688-767 | For every run, whatever inputs its compactions chose: all reads in all its states are those of the replayed history if and only if each compaction was harmless in the state it started from, that is, no tombstone it dropped uncovers an older value in a file left out |
| Lsm.NextExact | ChatAppTFS/Pods/leveldb-library/db/db_impl.cc:688-767 | Each single step keeps the invariant behind that, a compaction if and only if it is harmless; after one that is not, some live read is wrong |
| Lsm.CompactExact | ChatAppTFS/Pods/leveldb-library/db/db_impl.cc:878-1036 | A compaction keeps the invariant if and only if no dropped tombstone leaves an older entry of its key visible in the files left out of the inputs; the condition looks at the state before the step |
| Lsm.ResurrectedIsSplit | ChatAppTFS/Pods/leveldb-library/db/version_set.cc:1403-1462 | Such an entry can only lie in a file of the next level that was left out while a file of the inputs holds the same user key |
| Lsm.GuardSuffices | ChatAppTFS/Pods/leveldb-library/db/version_set.cc:1403-1462 | When no user key is split that way, the compaction is harmless |
| LsmExample.CompactionResurrects | ChatAppTFS/Pods/leveldb-library/db/version_set.cc:1403-1462 | It happens: a run from the empty database, both flushes at the level the placement rule prefers, whose last step compacts inputs that the choice rules allow; every read was right before it, and a deleted key reads its old value after it |
| Lsm.FlushInv | ChatAppTFS/Pods/leveldb-library/db/db_impl.cc:491-566 | Installing a flushed memtable at any level the placement rule allows keeps the invariant |
| Lsm.MoveInv | ChatAppTFS/Pods/leveldb-library/db/db_impl.cc:718-734 | A trivial move keeps the invariant |
| Lsm.WriteInv | ChatAppTFS/Pods/leveldb-library/db/db_impl.cc:1185-1256 | A batch of any length, inserted operation by operation, keeps the invariant |
| Database.Database.Write | ChatAppTFS/Pods/leveldb-library/db/db_impl.cc:1185-1256 | The write is a step of the model: the batch enters the memtable at consecutive sequence numbers |
| Database.Database.SwitchMemTable | ChatAppTFS/Pods/leveldb-library/db/db_impl.cc:1310-1370 | Rotation is a step of the model |
| Database.Database.CompactMemTable | ChatAppTFS/Pods/leveldb-library/db/db_impl.cc:535-566 | Building the table, picking its level and installing it is a flush step, or a discard of an empty memtable |
| Database.Database.RunCompaction | ChatAppTFS/Pods/leveldb-library/db/db_impl.cc:688-767 | For any inputs that the choice rules allow: the trivial move, or merging, dropping, cutting outputs and installing them, is a move or compaction step of the model, and the invariant stays if and only if that step is harmless |
| Database.Database.BackgroundCompaction | ChatAppTFS/Pods/leveldb-library/db/db_impl.cc:688-767 | Picking from any file of any level and then moving or merging is a step of the model with that file among its inputs |
| Database.Database.ManualCompaction | ChatAppTFS/Pods/leveldb-library/db/db_impl.cc:688-767 | Nothing happens if and only if no file of the level overlaps the range; otherwise it is a compaction step |
| Database.Database.GetSnapshot | ChatAppTFS/Pods/leveldb-library/db/db_impl.cc:1166-1169 | The snapshot is the last sequence number, and becomes live |
| Database.Database.ReleaseSnapshot | ChatAppTFS/Pods/leveldb-library/db/db_impl.cc:1171-1174 | Releasing is a step of the model |
| Database.Database.Get | ChatAppTFS/Pods/leveldb-library/db/db_impl.cc:1100-1145 | Memtable, immutable memtable and version in turn give exactly the value of the replayed history at the snapshot |
| Database.Database.NewIterator | ChatAppTFS/Pods/leveldb-library/db/db_impl.cc:1062-1087 | The iterator ranges over exactly the live pairs of the replayed history at its snapshot, in strictly ascending key order |
| Database.IteratorStays | ChatAppTFS/Pods/leveldb-library/db/db_impl.cc:1067-1087 | Whatever is written later to the memtable that an iterator shares, the live pairs at its sequence number stay the same, and so does what the history says of it |
| Database.Database.ChildRuns | ChatAppTFS/Pods/leveldb-library/db/db_impl.cc:1062-1087 | Memtables, level-0 files and concatenated levels are sorted runs without a common internal key, and together hold every entry |
| Database.ReadsAsExpected | ChatAppTFS/Pods/leveldb-library/db/db_impl.cc:1100-1145 | The replayed history is the answer the entries give |
| Database.LiveIsExpected | ChatAppTFS/Pods/leveldb-library/db/db_iter.cc:168-198 | A sorted run of all entries shows a pair if and only if the replayed history maps that key to that value |
| Database.BuildTable | ChatAppTFS/Pods/leveldb-library/db/builder.cc:17-77 | A nonempty memtable becomes a file with its bounds; an empty one becomes none |
| Database.SearchMemTable | ChatAppTFS/Pods/leveldb-library/db/memtable.cc:100-134 | One seek finds the newest visible entry of a key, or shows there is none |
| History.AddOperation | ChatAppTFS/Pods/leveldb-library/db/write_batch.cc:115-148 | Adding the entry of one more operation makes all readers see the longer history |
| History.AddLost | ChatAppTFS/Pods/leveldb-library/db/db_impl.cc:364-366 | A sequence number whose operation a crash lost leaves every answer as it is |
| View.NewestExists | ChatAppTFS/Pods/leveldb-library/db/dbformat.cc:51-67 | Of the visible entries of a key one is the newest |
| View.AnswerIsUnique | ChatAppTFS/Pods/leveldb-library/db/db_impl.cc:1100-1145 | A set of entries gives one answer to a read |
| View.RunNewest | ChatAppTFS/Pods/leveldb-library/db/memtable.cc:100-134 | In a sorted run the first entry at or after the lookup key is the newest visible one of that key, if it has that key at all |
| DbFormat.LessIsLexicographic | ChatAppTFS/Pods/leveldb-library/db/dbformat.cc:51-67 | The comparison by user key and packed tag is user key ascending, then sequence number descending, then type, and it is total |
| DbFormat.LookupKeyBound | ChatAppTFS/Pods/leveldb-library/db/dbformat.cc:121-138 | Before a lookup key lie the smaller user keys, and the invisible entries of its own |
| DbFormat.InsertAtSorted | ChatAppTFS/Pods/leveldb-library/db/memtable.cc:75-98 | Inserting a new key at its lower bound keeps a run sorted |
| DbFormat.SortedUnique | ChatAppTFS/Pods/leveldb-library/db/dbformat.cc:51-67 | A sorted run is determined by the set of its entries |
| MemTable.MemTable.Add | ChatAppTFS/Pods/leveldb-library/db/memtable.cc:75-98 | One node more in the skip list is, read along the bottom level, the insertion into the sorted run that the database model makes; the history of stores goes on one store at a time |
| MemTable.MemTable.Get | ChatAppTFS/Pods/leveldb-library/db/memtable.cc:100-134 | A seek in the skip list finds the newest visible entry of the key, or shows there is none |
| Version.FindFile | ChatAppTFS/Pods/leveldb-library/db/version_set.cc:88-106 | Binary search for the first file whose largest key is at or after the target |
| Version.SomeFileOverlapsRange | ChatAppTFS/Pods/leveldb-library/db/version_set.cc:122-157 | True if and only if some file overlaps the range, for disjoint sorted files by one binary search |
| Version.OverlapIsFirst | ChatAppTFS/Pods/leveldb-library/db/version_set.cc:122-157 | In a sorted level only the first file at or after the lower bound needs to be looked at |
| Version.GetOverlappingInputs | ChatAppTFS/Pods/leveldb-library/db/version_set.cc:519-559 | The files overlapping the bounds; on level 0, despite the restarts, the bounds of the least range that contains the request and wholly contains every file it overlaps |
| Version.PickLevelForMemTableOutput | ChatAppTFS/Pods/leveldb-library/db/version_set.cc:491-516 | A level with no overlap at it or above it, and no shallower than it need be |
| VersionGet.SearchTable | ChatAppTFS/Pods/leveldb-library/db/version_set.cc:326-421 | A table search finds the newest visible entry of a key in that file, or none |
| VersionGet.SearchLevel0 | ChatAppTFS/Pods/leveldb-library/db/version_set.cc:349-364 | Newest file first with early exit finds the newest visible entry over all of level 0 |
| VersionGet.SearchSortedLevel | ChatAppTFS/Pods/leveldb-library/db/version_set.cc:365-381 | One binary-searched file stands for the whole level |
| VersionGet.Get | ChatAppTFS/Pods/leveldb-library/db/version_set.cc:326-421 | Level by level with early exit, the newest visible entry over all files of all levels |
| VersionGet.FirstLevelWins | ChatAppTFS/Pods/leveldb-library/db/version_set.cc:326-421 | An entry found in a level is newer than any in a deeper one |
| Merger.MergingIterator.SeekToFirst | ChatAppTFS/Pods/leveldb-library/table/merger.cc:31-37 | The merged cursor stands on the first entry |
| Merger.MergingIterator.SeekToLast | ChatAppTFS/Pods/leveldb-library/table/merger.cc:39-45 | The merged cursor stands on the last entry |
| Merger.MergingIterator.Seek | ChatAppTFS/Pods/leveldb-library/table/merger.cc:47-53 | The merged cursor stands on the first entry at or after the target |
| Merger.MergingIterator.Next | ChatAppTFS/Pods/leveldb-library/table/merger.cc:55-79 | One step forward in the sorted merge of all children, whichever way the last step went |
| Merger.MergingIterator.Prev | ChatAppTFS/Pods/leveldb-library/table/merger.cc:81-108 | One step back in it, or off its front, whichever way the last step went |
| Merger.SmallestIsCut | ChatAppTFS/Pods/leveldb-library/table/merger.cc:148-161 | With every child at the same cut of the merge, the smallest child key is the merge's next entry |
| Merger.CutAdvance | ChatAppTFS/Pods/leveldb-library/table/merger.cc:55-79 | Moving the current child one on moves the cut one on |
| Merger.CutRetreat | ChatAppTFS/Pods/leveldb-library/table/merger.cc:81-108 | Moving it one back moves the cut one back |
| InternalIterator.MergeExists | ChatAppTFS/Pods/leveldb-library/table/merger.cc:14-25 | Sorted runs without a common key have a sorted merge of exactly their entries |
| InternalIterator.MakeMergingIterator | ChatAppTFS/Pods/leveldb-library/table/merger.cc:179-189 | The merging iterator over the runs has all their entries, and starts invalid |
| InternalIterator.ShortcutsAgree | ChatAppTFS/Pods/leveldb-library/table/merger.cc:179-189 | Without children the merge is empty, and with one it is that child's run, so what NewMergingIterator returns then moves as the merging iterator would |
| InternalIterator.LevelRunSorted | ChatAppTFS/Pods/leveldb-library/db/version_set.cc:222-246 | The files of a sorted level, one after the other, are one sorted run |
| TwoLevelIterator.TwoLevelIterator.SeekToFirst | ChatAppTFS/Pods/leveldb-library/table/two_level_iterator.cc:89-94 | The first entry of the concatenated blocks, empty blocks skipped |
| TwoLevelIterator.TwoLevelIterator.SeekToLast | ChatAppTFS/Pods/leveldb-library/table/two_level_iterator.cc:96-101 | The last entry of the concatenated blocks |
| TwoLevelIterator.TwoLevelIterator.Seek | ChatAppTFS/Pods/leveldb-library/table/two_level_iterator.cc:82-87 | The first entry at or after the target over all blocks |
| TwoLevelIterator.TwoLevelIterator.Next | ChatAppTFS/Pods/leveldb-library/table/two_level_iterator.cc:103-107 | One entry on, across block ends and empty blocks |
| TwoLevelIterator.TwoLevelIterator.Prev | ChatAppTFS/Pods/leveldb-library/table/two_level_iterator.cc:109-113 | One entry back, or off the front |
| TwoLevelIterator.TwoLevelIterator.SkipEmptyDataBlocksForward | ChatAppTFS/Pods/leveldb-library/table/two_level_iterator.cc:115-126 | From the end of a block to the same place in the concatenation |
| TwoLevelIterator.TwoLevelIterator.SkipEmptyDataBlocksBackward | ChatAppTFS/Pods/leveldb-library/table/two_level_iterator.cc:128-139 | From before the front of a block to the entry before it |
| TwoLevelIterator.NewConcatenatingIterator | ChatAppTFS/Pods/leveldb-library/db/version_set.cc:222-228 | Over a sorted level: a cursor over all its entries, in order |
| DbIter.DBIter.FindNextUserEntry | ChatAppTFS/Pods/leveldb-library/db/db_iter.cc:168-198 | Stops on the next entry to be shown: the newest visible one of a key that is not deleted, none passed over |
| DbIter.DBIter.FindPrevUserEntry | ChatAppTFS/Pods/leveldb-library/db/db_iter.cc:227-267 | Stops on the previous entry to be shown, none passed over |
| DbIter.DBIter.Next | ChatAppTFS/Pods/leveldb-library/db/db_iter.cc:141-166 | One step forward in the list of live pairs, after a change of direction too |
| DbIter.DBIter.Prev | ChatAppTFS/Pods/leveldb-library/db/db_iter.cc:200-225 | One step back in that list, or off its front, after a change of direction too |
| DbIter.DBIter.Seek | ChatAppTFS/Pods/leveldb-library/db/db_iter.cc:269-281 | The first live pair at or after the target |
| DbIter.DBIter.SeekToFirst | ChatAppTFS/Pods/leveldb-library/db/db_iter.cc:283-292 | The first live pair |
| DbIter.DBIter.SeekToLast | ChatAppTFS/Pods/leveldb-library/db/db_iter.cc:294-299 | The last live pair |
| DbIter.DBIter.ShowsLivePair | ChatAppTFS/Pods/leveldb-library/db/db_iter.cc:63-71 | When valid, key and value are the live pair at the position; invalid means past the end |
| DbIter.LiveIsAnswer | ChatAppTFS/Pods/leveldb-library/db/db_iter.cc:168-198 | A pair is live if and only if reading its key at the snapshot answers with its value |
| DbIter.LiveAscends | ChatAppTFS/Pods/leveldb-library/db/db_iter.cc:168-198 | Live pairs have strictly ascending, hence distinct, keys |
| DbIter.LiveStays | ChatAppTFS/Pods/leveldb-library/db/db_iter.cc:166-205 | Entries that a reader does not see, wherever they come to stand, leave its live pairs as they are |
| CompactionInputs.FindLargestKey | ChatAppTFS/Pods/leveldb-library/db/version_set.cc:1326-1340 | The largest key of the files |
| CompactionInputs.FindSmallestBoundaryFile | ChatAppTFS/Pods/leveldb-library/db/version_set.cc:1344-1362 | The first file that continues the largest user key with older entries, if there is one |
| CompactionInputs.AddBoundaryInputs | ChatAppTFS/Pods/leveldb-library/db/version_set.cc:1378-1401 | Terminates, adds nothing but boundary files, and leaves none: no file of the level holds an older entry of the inputs' largest user key |
| CompactionInputs.SetupOtherInputs | ChatAppTFS/Pods/leveldb-library/db/version_set.cc:1403-1462 | The inputs hold what was asked for, its boundary files and all overlapping files of the next level; the expansion is taken only if the next level gives no more files and the sizes stay in bounds |
| CompactionInputs.ChainIsSlice | ChatAppTFS/Pods/leveldb-library/db/version_set.cc:1378-1401 | Boundary files extend a run of consecutive files of a sorted level |
| CompactionInputs.ClosedHasNoBoundary | ChatAppTFS/Pods/leveldb-library/db/version_set.cc:1378-1401 | A closed choice of level-0 files has no boundary files |
| CompactionInputs.RangeTakesOverlap | ChatAppTFS/Pods/leveldb-library/db/version_set.cc:1403-1462 | The files overlapping the joint range include every file overlapping an input |
| CompactionPick.PickCompaction | ChatAppTFS/Pods/leveldb-library/db/version_set.cc:1270-1322 | For any file of any level: inputs as a compaction needs them, that file among them |
| CompactionPick.CompactRange | ChatAppTFS/Pods/leveldb-library/db/version_set.cc:1464-1495 | Nothing if and only if no file overlaps; otherwise proper inputs, on level 0 all overlapping files |
| CompactionPick.CutAtLimit | ChatAppTFS/Pods/leveldb-library/db/version_set.cc:1476-1487 | The shortest nonempty prefix whose size reaches the limit |
| CompactionPick.MakeInputIterator | ChatAppTFS/Pods/leveldb-library/db/version_set.cc:1237-1268 | A merging iterator over exactly the entries of the inputs |
| CompactionWork.DropRulesExact | ChatAppTFS/Pods/leveldb-library/db/db_impl.cc:929-963 | The drop rules preserve every read at or above the smallest snapshot, of outputs with untouched files against inputs with untouched files, if and only if no dropped tombstone uncovers an entry of the untouched files |
| CompactionWork.NothingResurrected | ChatAppTFS/Pods/leveldb-library/db/db_impl.cc:929-963 | Given that, every answer at every snapshot at or above the smallest stays |
| CompactionWork.KeptSorted | ChatAppTFS/Pods/leveldb-library/db/db_impl.cc:878-1036 | What is kept is sorted |
| CompactionWork.MaxSnapshotDropsAll | ChatAppTFS/Pods/leveldb-library/db/db_impl.cc:929-963 | With a smallest snapshot at the maximal sequence number everything would be dropped, so the drop rules need it below |
| CompactionWork.BaseLevelCursor.IsBaseLevelForKey | ChatAppTFS/Pods/leveldb-library/db/version_set.cc:1533-1552 | The cursor that only moves forward answers as a full scan of the deeper levels, for ascending keys |
| CompactionWork.GrandparentCursor.ShouldStopBefore | ChatAppTFS/Pods/leveldb-library/db/version_set.cc:1554-1576 | Passes exactly the grandparents that end before the key, and stops when those passed since the last stop exceed the limit |
| CompactionWork.DropState.ShouldDrop | ChatAppTFS/Pods/leveldb-library/db/db_impl.cc:929-963 | The running variables give the drop rules as stated over the whole sorted input |
| CompactionWork.HandleEntry | ChatAppTFS/Pods/leveldb-library/db/db_impl.cc:901-999 | One round of the loop writes the entry or drops it |
| CompactionWork.DoCompactionWork | ChatAppTFS/Pods/leveldb-library/db/db_impl.cc:878-1036 | The outputs together hold exactly the kept entries in order, are nonempty, and have right bounds and fresh ascending numbers |
| CompactionWork.CompactionOutputs.Finish | ChatAppTFS/Pods/leveldb-library/db/db_impl.cc:811-858 | The open output becomes a file; nothing written is lost |
| LevelReplace.ReplaceKeepsVersionOk | ChatAppTFS/Pods/leveldb-library/db/db_impl.cc:860-876 | Replacing the inputs by the outputs keeps every level sorted and disjoint and keeps newer entries of a key above older ones |
| LevelReplace.InstalledIsReplaced | ChatAppTFS/Pods/leveldb-library/db/db_impl.cc:860-876 | Installing the edit with the deletions and the outputs is that replacement |
| LevelReplace.OutputsSorted | ChatAppTFS/Pods/leveldb-library/db/db_impl.cc:786-858 | Files cut anywhere from a sorted run form a sorted level |
| LevelReplace.LeftOutIsApart | ChatAppTFS/Pods/leveldb-library/db/version_set.cc:1403-1462 | A file of the next level that is left out lies wholly before or wholly after all inputs |
| LevelFlush.FlushKeepsVersionOk | ChatAppTFS/Pods/leveldb-library/db/version_set.cc:491-516 | A new file at a level the placement rule allows keeps the version well ordered |
| LsmCompact.LeftOutSplitsKey | ChatAppTFS/Pods/leveldb-library/db/version_set.cc:1403-1462 | An entry left out that shares its user key with the inputs shares it across a file boundary |
| LsmCompact.LeftOutIsSafe | ChatAppTFS/Pods/leveldb-library/db/version_set.cc:1403-1462 | An entry left out with a key of the inputs is newer, or lies deeper than the drop rule looks, or its key is split |
| VersionBuilder.Builder.Apply | ChatAppTFS/Pods/leveldb-library/db/version_set.cc:658-692 | Deletions and additions of one edit enter the sets; an added file is no longer deleted |
| VersionBuilder.Builder.SaveTo | ChatAppTFS/Pods/leveldb-library/db/version_set.cc:695-739 | Every level is the base and the added files, merged in order, less the deleted ones |
| VersionBuilder.MaybeAddFile | ChatAppTFS/Pods/leveldb-library/db/version_set.cc:741-754 | A deleted file is left out, another goes at the end in order |
| VersionBuilder.InstallEdit | ChatAppTFS/Pods/leveldb-library/db/version_set.cc:801-884 | One edit installed: exactly the old files less the deleted plus the added |
| VersionBuilder.BatchMembers | ChatAppTFS/Pods/leveldb-library/db/version_set.cc:886-1011 | After any list of edits installed one by one, a file is there if and only if it was there or was added, and was not deleted |
| VersionBuilder.ReplayEdits | ChatAppTFS/Pods/leveldb-library/db/version_set.cc:886-1011 | All edits in one builder give the version that installing them one by one gives, when no number is added twice to a level |
| VersionEdit.EncodeTo | ChatAppTFS/Pods/leveldb-library/db/version_edit.cc:41-85 | Writes the encoding of the edit's fields |
| VersionEdit.DecodeFrom | ChatAppTFS/Pods/leveldb-library/db/version_edit.cc:107-205 | Reads fields until nothing is left, or reports what is wrong |
| VersionEdit.FieldRoundTrip | ChatAppTFS/Pods/leveldb-library/db/version_edit.cc:41-205 | Any field is read back, whatever follows it |
| VersionEdit.EditRoundTrip | ChatAppTFS/Pods/leveldb-library/db/version_edit.cc:41-205 | Decoding the encoding of an edit gives it back |
| Manifest.VersionSet.LogAndApply | ChatAppTFS/Pods/leveldb-library/db/version_set.cc:801-884 | The new version is the edit applied to the old one, its compaction pointers override the old ones, and the descriptor as it now is replays to that version, those pointers, the same log numbers and sequence number, and a next file number above it |
| Manifest.VersionSet.WriteSnapshot | ChatAppTFS/Pods/leveldb-library/db/version_set.cc:1088-1116 | A new descriptor starts with one record that describes the whole version, compaction pointers included |
| Manifest.SnapshotIsChain | ChatAppTFS/Pods/leveldb-library/db/version_set.cc:1088-1116 | Replaying the snapshot record on nothing gives the version it was made of |
| Manifest.ExtendChain | ChatAppTFS/Pods/leveldb-library/db/version_set.cc:801-884 | Each further edit record extends the replay |
| Manifest.ScanDescriptor | ChatAppTFS/Pods/leveldb-library/db/version_set.cc:924-960 | All edits of the file up to its torn end, or the first error: a report of the log reader or a record that does not decode, whichever comes first |
| Manifest.Recover | ChatAppTFS/Pods/leveldb-library/db/version_set.cc:886-1011 | The version after the last edit and the last numbers recorded, or the error the code reports |
| Manifest.TornDescriptorScans | ChatAppTFS/Pods/leveldb-library/db/version_set.cc:924-960 | A descriptor cut off anywhere gives exactly the edits whose last byte survived |
| Manifest.RecoverTorn | ChatAppTFS/Pods/leveldb-library/db/version_set.cc:886-1011 | From the bytes of a descriptor cut off anywhere, recovery returns the version, the pointers and the numbers after the last edit that survived whole; from the whole descriptor, the state that LogAndApply left |
| Manifest.PointersTwice | ChatAppTFS/Pods/leveldb-library/db/version_set.cc:650-656 | Pointers saved in a snapshot that already has the changes of the first edit stay the same when that edit is replayed |
| Manifest.SnapshotRestores | ChatAppTFS/Pods/leveldb-library/db/version_set.cc:1095-1102 | Replaying the pointers that a snapshot saves gives all pointers back, unset ones unset |
| Log.Writer.AddRecord | ChatAppTFS/Pods/leveldb-library/db/log_writer.cc:34-80 | Appends the fragments of the record, block trailers filled with zeros, from any position in a block |
| Log.Writer.EmitPhysicalRecord | ChatAppTFS/Pods/leveldb-library/db/log_writer.cc:82-108 | Appends checksum, length, type and payload |
| Log.Reader.ReadPhysicalRecord | ChatAppTFS/Pods/leveldb-library/db/log_reader.cc:189-271 | Returns the physical record at the reader's position, with the same position after it and the same reports, despite the block buffer |
| Log.Reader.ReadRecord | ChatAppTFS/Pods/leveldb-library/db/log_reader.cc:56-175 | Puts fragments together as the position-based reading does, and reports the same |
| Log.StoredCrcReadsBack | ChatAppTFS/Pods/leveldb-library/db/log_writer.cc:82-108 | A stored number unmasks to the checksum of some bytes if and only if it is the number stored for them |
| LogRoundTrip.EmitReads | ChatAppTFS/Pods/leveldb-library/db/log_reader.cc:56-175 | A record written at any block offset is read back whole, or not at all if it is cut |
| LogRoundTrip.SurvivedExactly | ChatAppTFS/Pods/leveldb-library/db/log_reader.cc:56-175 | A record counts as surviving if and only if its last byte lies before the cut |
| LogRoundTrip.TornLogReadsBack | ChatAppTFS/Pods/leveldb-library/db/log_reader.cc:56-271 | For any records and any cut, reading returns exactly the surviving records in order and reports nothing |
| WriteBatch.Batch.Add | ChatAppTFS/Pods/leveldb-library/db/write_batch.cc:98-109 | Put and Delete: one more record and the count one up, in the image of the longer list |
| WriteBatch.Batch.Append | ChatAppTFS/Pods/leveldb-library/db/write_batch.cc:144-148 | The image of both lists of updates, one after the other |
| WriteBatch.Batch.SetSequence | ChatAppTFS/Pods/leveldb-library/db/write_batch.cc:94-96 | Only the sequence number changes |
| WriteBatch.Iterate | ChatAppTFS/Pods/leveldb-library/db/write_batch.cc:42-80 | The calls made to the handler and the error ended with, for any bytes |
| WriteBatch.BatchRoundTrip | ChatAppTFS/Pods/leveldb-library/db/write_batch.cc:42-111 | Iterating over a batch gives back its updates in order, without error |
| Recovery.RecoverLogFile | ChatAppTFS/Pods/leveldb-library/db/db_impl.cc:390-488 | Replays any log file, with any damage, in paranoid mode or not |
| Recovery.TornLogRecovers | ChatAppTFS/Pods/leveldb-library/db/db_impl.cc:390-488 | From a log of batches cut off anywhere: exactly the surviving batches, at their sequence numbers, the memtables written out on the way sorted and each older than the next, and the largest sequence number |
| Recovery.CrashIsAPrefix | ChatAppTFS/Pods/leveldb-library/db/db_impl.cc:390-488 | Together with the entries that had reached tables, what is recovered answers every read as the history of writes up to the last surviving batch |
| Recovery.LoggedMembers | ChatAppTFS/Pods/leveldb-library/db/write_batch.cc:115-148 | The entries that a stretch of the history leaves behind are exactly those of its operations that are not lost, at their sequence numbers |
| LsmTables.FlushTables | ChatAppTFS/Pods/leveldb-library/db/db_impl.cc:535-566 | The tables alone, which answer as the flushed part of the history, answer as a longer part after a flush |
| LsmTables.CompactTables | ChatAppTFS/Pods/leveldb-library/db/db_impl.cc:878-1036 | A compaction that uncovers nothing in the tables keeps what the tables alone answer |
| LsmTables.CompactTablesExact | ChatAppTFS/Pods/leveldb-library/db/db_impl.cc:878-1036 | A compaction keeps every answer of the tables alone, at the smallest snapshot and above, if and only if it is harmless in the tables |
| LsmTables.TablesExact | ChatAppTFS/Pods/leveldb-library/db/db_impl.cc:878-1036 | After a compaction the database is in order and its tables still answer as what was flushed if and only if it was harmless in the tables |
| LsmTables.TablesHarmlessIsHarmless | ChatAppTFS/Pods/leveldb-library/db/db_impl.cc:929-963 | What a compaction uncovers beside the memtables it uncovers in the tables alone |
| LsmTables.GuardSufficesForTables | ChatAppTFS/Pods/leveldb-library/db/version_set.cc:1403-1462 | When no user key is split across a file left out, nothing is uncovered in the tables either |
| FileNumbers.StepAdds | ChatAppTFS/Pods/leveldb-library/db/version_set.h:191-194 | The files that a flush or compaction adds have new numbers and a moved file comes from the level above, so its edit adds no number twice to a level and none that its level has |
| FileNumbers.NotAddedAgain | ChatAppTFS/Pods/leveldb-library/db/version_set.cc:886-1011 | As long as every number in the descriptor was given out and no file was added to a level below its own, such an edit adds no number to a level to which any earlier edit added it |
| FileNumbers.AddedAboveStill | ChatAppTFS/Pods/leveldb-library/db/version_set.cc:801-884 | Installing such an edit keeps it so that no file was added to a level below its own |
| Durable.RunKeepsFiles | ChatAppTFS/Pods/leveldb-library/db/db_impl.cc:1185-1370 | In every state of every run of synced and unsynced writes, log switches, edits, snapshots and releases with harmless compactions: each memtable is what its log file holds, the descriptor replays to the current version, names the oldest log needed and never adds a file number twice to a level, and the tables answer as the history before that log |
| Durable.RunFilesExact | ChatAppTFS/Pods/leveldb-library/db/db_impl.cc:1185-1370 | And all that holds in every state of a run if and only if each of its compactions is harmless in the tables |
| Durable.StoreNextExact | ChatAppTFS/Pods/leveldb-library/db/db_impl.cc:1185-1370 | Each step of the database with its files keeps that invariant, a compaction if and only if it is harmless in the tables |
| Durable.EditStoreInv | ChatAppTFS/Pods/leveldb-library/db/db_impl.cc:535-566 | One logged edit keeps all that; an edit that ends a memtable makes its log unneeded |
| Durable.EditApplies | ChatAppTFS/Pods/leveldb-library/db/version_set.cc:801-811 | What a flush, move or compaction hands to LogAndApply meets what that demands, and adds no file number to a level again |
| Durable.ApplyStep | ChatAppTFS/Pods/leveldb-library/db/version_set.cc:801-884 | LogAndApply of a step's edit, on a version set that serves the database, is that step of the database with its files |
| Durable.WriteStoreInv | ChatAppTFS/Pods/leveldb-library/db/db_impl.cc:1206-1226 | A batch in the log and in the memtable keeps all that |
| Opening.NewDB | ChatAppTFS/Pods/leveldb-library/db/db_impl.cc:182-212 | The descriptor of a new database is one record of its first edit |
| Opening.Reopen | ChatAppTFS/Pods/leveldb-library/db/db_impl.cc:280-369 | From any directory, with or without a descriptor: the error, missing tables included, or the version, its compaction pointers and numbers, what the needed logs replay to in order, and the largest sequence number |
| Crash.CrashIsPrefixExactly | ChatAppTFS/Pods/leveldb-library/db/db_impl.cc:280-369 | Whatever the two logs lost past what was synced, the opened database holds exactly a prefix of the history if and only if the older log lost no operation or none of the newer one is left |
| Crash.OpenAfterCrash | ChatAppTFS/Pods/leveldb-library/db/db_impl.cc:280-369 | After a crash in any state of a run, opening from the bytes that are left, whatever older logs are still there, succeeds, keeps every synced batch, and, without such a hole, reads every key at the recovered sequence number as that prefix |
| Crash.OpenMidEdit | ChatAppTFS/Pods/leveldb-library/db/version_set.cc:841-871 | After a crash while an edit is being written, the database opens as before the step or as after it |
| Crash.ObsoleteLogsSkipped | ChatAppTFS/Pods/leveldb-library/db/db_impl.cc:335-341 | Log files older than the one the descriptor names make no difference |
| CrashHole.UnsyncedLogLeavesHole | ChatAppTFS/Pods/leveldb-library/db/db_impl.cc:1346-1366 | Holes happen: a run of an unsynced write, a switch of logs, which syncs nothing, and a synced write, and a cut after which the database opens with the second write and without the first, so as no prefix of the history |
| Crash.SyncedAreLeft | ChatAppTFS/Pods/leveldb-library/db/db_impl.cc:1206-1226 | A cut past the synced length loses no synced batch |
| LevelRecover.TablesAdded | ChatAppTFS/Pods/leveldb-library/db/db_impl.cc:479-533 | The tables of the replayed memtables, all added to level 0 by one edit, give a version in order that holds the old tables and those memtables |
| Restart.StoreMems | ChatAppTFS/Pods/leveldb-library/db/db_impl.cc:412-488 | The memtables replayed from both logs are sorted, each older than the next, and newer than all tables |
| Restart.LeftIsRight | ChatAppTFS/Pods/leveldb-library/db/db_impl.cc:364-366 | What is recovered reads, from the recovered sequence number on, as the history in which what was cut off counts as lost |
| Restart.StoreReady | ChatAppTFS/Pods/leveldb-library/db/db_impl.cc:280-369 | After a crash in any state, with or without a hole, what Recover finds is all that Open relies on, for the history that is left |
| Restart.RestartStoreInv | ChatAppTFS/Pods/leveldb-library/db/db_impl.cc:1474-1515 | The database that Open then starts, with the recovered tables, a new log and a new descriptor, is in order again over the history that is left |
| Restart.OpenStore | ChatAppTFS/Pods/leveldb-library/db/db_impl.cc:1483-1502 | LogAndApply on the recovered version set, which writes a snapshot and the edit into a new descriptor, gives that database |
| Restart.OldLogsObsolete | ChatAppTFS/Pods/leveldb-library/db/db_impl.cc:358-361 | Marking the replayed logs as used gives the new log a larger number than theirs, so those that a crash left behind make no difference to the store that was opened |
| Restart.NewDbStarts | ChatAppTFS/Pods/leveldb-library/db/db_impl.cc:293-302 | Without a descriptor and logs, what NewDB wrote opens as the empty database from which runs start |
| RestartTotal.OpenEditExists | ChatAppTFS/Pods/leveldb-library/db/db_impl.cc:491-533 | Whatever was replayed, there are tables for its memtables, with numbers that no file has, and an edit that adds them with a new log, as long as file numbers stay below 64 bits |
| RestartTotal.CrashHasSuccessor | ChatAppTFS/Pods/leveldb-library/db/db_impl.cc:1474-1515 | After a crash in any state in order, with any cut the crash may leave, Open has a database to start |
| Sessions.TurnExact | ChatAppTFS/Pods/leveldb-library/db/db_impl.cc:1474-1515 | A step keeps the database with its files in order, a compaction if and only if it is harmless in the tables, and so does any crash followed by Open |
| Sessions.CrashCanCome | ChatAppTFS/Pods/leveldb-library/db/db_impl.cc:1474-1515 | From any state in order, and for any cut of its logs past what was synced, a turn exists in which the crash leaves just that and Open brings a state in order again |
| Sessions.CrashesKeepOrder | ChatAppTFS/Pods/leveldb-library/db/db_impl.cc:1474-1515 | In every state of every run with any number of crashes, each followed by Open, and with harmless compactions, the invariant holds and every live read equals the replayed history |
| Sessions.OnDiskForever | ChatAppTFS/Pods/leveldb-library/db/db_impl.cc:1206-1226 | Over any such run, an operation that is in a table or in a synced batch stays in the history, at its sequence number, from then on |
| Sessions.SyncWriteLasts | ChatAppTFS/Pods/leveldb-library/db/db_impl.cc:1206-1226 | Each operation of a synced write is in the history of every later state, whatever crashes came between |
| Sessions.CrashOnlyLoses | ChatAppTFS/Pods/leveldb-library/db/db_impl.cc:280-369 | A crash changes the history only by losing operations that were not on disk |
| Crc.ExtendStrided | ChatAppTFS/Pods/leveldb-library/util/crc32c.cc:276-377 | For every buffer, length and alignment the four-stride loop returns the byte-at-a-time checksum |
| Crc.FourBytes | ChatAppTFS/Pods/leveldb-library/util/crc32c.cc:276-377 | Absorbing a little-endian word is four steps of zero bytes after an exclusive or |
| Crc.StrideAdvances | ChatAppTFS/Pods/leveldb-library/util/crc32c.cc:276-377 | The stride tables advance a word by sixteen zero bytes |
| Crc.CombineRotates | ChatAppTFS/Pods/leveldb-library/util/crc32c.cc:276-377 | The four running words, rotated, stand for the same checksum |
| Crc.ExtendAppend | ChatAppTFS/Pods/leveldb-library/util/crc32c.cc:276-377 | Extending over one buffer and then another is extending over both |
| Crc.MaskRoundTrip | ChatAppTFS/Pods/leveldb-library/util/crc32c.h:29-40 | Unmasking undoes masking |
| Crc.UnmaskRoundTrip | ChatAppTFS/Pods/leveldb-library/util/crc32c.h:29-40 | Masking undoes unmasking |
| Coding.EncodeVarint32 | ChatAppTFS/Pods/leveldb-library/util/coding.cc:47-73 | The five branches write the base-128 digits |
| Coding.EncodeVarint64 | ChatAppTFS/Pods/leveldb-library/util/coding.cc:81-96 | The loop writes the base-128 digits |
| Coding.VarintRoundTrip | ChatAppTFS/Pods/leveldb-library/util/coding.cc:81-169 | A varint is read back, whatever follows it |
| Coding.VarintCut | ChatAppTFS/Pods/leveldb-library/util/coding.cc:112-169 | A varint cut short is not read |
| Coding.PrefixedBack | ChatAppTFS/Pods/leveldb-library/util/coding.cc:98-190 | A length-prefixed slice is read back, whatever follows it |
| SkipList.SearchIsLinearizable | ChatAppTFS/Pods/leveldb-library/db/skiplist.h:262-281 | A search whose steps interleave with the single stores of any number of inserts ends between the right two nodes of the bottom chain as it was at its last load, and no key of an earlier moment is missing from that chain |
| SkipList.SearchStepOk | ChatAppTFS/Pods/leveldb-library/db/skiplist.h:262-281 | One load keeps the search at or before the key, on any well-linked memory |
| SkipList.PublishKeeps | ChatAppTFS/Pods/leveldb-library/db/skiplist.h:361-367 | One pointer store at one level leaves every chain sorted and every level a sublist of the level below |
| SkipList.PublishSplices | ChatAppTFS/Pods/leveldb-library/db/skiplist.h:361-367 | That store puts the node at its place in the chain |
| SkipList.SkipList.FindGreaterOrEqual | ChatAppTFS/Pods/leveldb-library/db/skiplist.h:262-281 | The node at or after the key, and the predecessor at every level |
| SkipList.SkipList.FindLessThan | ChatAppTFS/Pods/leveldb-library/db/skiplist.h:285-304 | The last node before the key |
| SkipList.SkipList.FindLast | ChatAppTFS/Pods/leveldb-library/db/skiplist.h:307-324 | The last node |
| SkipList.SkipList.Contains | ChatAppTFS/Pods/leveldb-library/db/skiplist.h:371-378 | True if and only if the key is in the list |
| SkipList.SkipList.Insert | ChatAppTFS/Pods/leveldb-library/db/skiplist.h:337-368 | Adds the key, and continues the writer's run store by store: neighbouring moments differ by one pointer, one new node or the height, each is well linked, and none loses a key |
| SkipList.SkipList.LinkLevel | ChatAppTFS/Pods/leveldb-library/db/skiplist.h:361-367 | The stores at one level, one at a time: the node is in that chain afterwards and the other chains are as before |
| SkipList.SkipList.Prepare | ChatAppTFS/Pods/leveldb-library/db/skiplist.h:341-360 | Raising the height and making the node, one store at a time, before any level knows the node |
| SkipList.Iterator.Next | ChatAppTFS/Pods/leveldb-library/db/skiplist.h:207-210 | One node on |
| SkipList.Iterator.Prev | ChatAppTFS/Pods/leveldb-library/db/skiplist.h:213-221 | One node back, by a search |
| SkipList.Iterator.Seek | ChatAppTFS/Pods/leveldb-library/db/skiplist.h:224-226 | The first node at or after the target |
| GroupCommit.BuildBatchGroup | ChatAppTFS/Pods/leveldb-library/db/db_impl.cc:1260-1306 | The longest prefix of the queue that the size limit, null batches and sync rules allow, and its operations in order |
| GroupCommit.EachOnceInOrder | ChatAppTFS/Pods/leveldb-library/db/db_impl.cc:1185-1306 | When all groups commit, however they were formed: every operation inserted and logged once, in queue order, at consecutive sequence numbers, the last sequence number up by their count, every writer told once |
| GroupCommit.SyncWritesAreSynced | ChatAppTFS/Pods/leveldb-library/db/db_impl.cc:1185-1306 | A sync write is always part of a log record that was synced |
| GroupCommit.WriteQueue.Lead | ChatAppTFS/Pods/leveldb-library/db/db_impl.cc:1201-1212 | The front writer with room and a batch forms the group that the rules allow |
| GroupCommit.WriteQueue.LeaveAlone | ChatAppTFS/Pods/leveldb-library/db/db_impl.cc:1201-1256 | Without a batch, or without room, the front writer leaves alone with its outcome |
| GroupCommit.WriteQueue.ServedInOrder | ChatAppTFS/Pods/leveldb-library/db/db_impl.cc:1185-1253 | Of the queue itself after any arrivals and groups, all committed: memtable, log, last sequence number and wake-ups are those of the writers that have left, in order of arrival, and the others still wait in that order |
| GroupCommit.WriteQueue.SyncedBeforeTold | ChatAppTFS/Pods/leveldb-library/db/db_impl.cc:1206-1253 | Whatever failed in between, a sync write that was told of success is in a synced record of the log |
| GroupCommit.WriteQueue.Finish | ChatAppTFS/Pods/leveldb-library/db/db_impl.cc:1210-1253 | The leader's group leaves the queue with one outcome |
| GroupCommit.WriteQueue.LogAndInsert | ChatAppTFS/Pods/leveldb-library/db/db_impl.cc:1213-1236 | Record, memtable and last sequence number move as the outcome says: after a batch that does not parse the record stands and a first part of the operations is in the memtable |
| GroupCommit.WriteQueue.Arrive | ChatAppTFS/Pods/leveldb-library/db/db_impl.cc:1185-1200 | A writer joins at the end |
| Block.BlockBuilder.Add | ChatAppTFS/Pods/leveldb-library/table/block_builder.cc:72-106 | One more entry, without the longest prefix it shares with the last key; a restart with no sharing exactly when the interval is used up |
| Block.BlockBuilder.Finish | ChatAppTFS/Pods/leveldb-library/table/block_builder.cc:62-70 | The image of the entries and restart points |
| Block.EntryDecodes | ChatAppTFS/Pods/leveldb-library/table/block.cc:54-76 | An encoded entry is decoded at its offset, in a block of any size |
| Block.Iter.ParseNextKey | ChatAppTFS/Pods/leveldb-library/table/block.cc:224-250 | The next entry, its key rebuilt from the shared prefix |
| Block.Iter.Next | ChatAppTFS/Pods/leveldb-library/table/block.cc:137-140 | One entry on |
| Block.Iter.Prev | ChatAppTFS/Pods/leveldb-library/table/block.cc:142-161 | The predecessor of any entry, found from a restart point before it |
| Block.Iter.Seek | ChatAppTFS/Pods/leveldb-library/table/block.cc:163-201 | The first entry at or after the target |
| Block.Iter.FindRestart | ChatAppTFS/Pods/leveldb-library/table/block.cc:163-188 | Binary search for a restart point with all entries before it below the target |
| Block.Iter.SeekToLast | ChatAppTFS/Pods/leveldb-library/table/block.cc:208-213 | The last entry |
| Block.ReadBack | ChatAppTFS/Pods/leveldb-library/table/block.cc:203-206 | For any strictly increasing keys and any restart interval, forward iteration over the built block gives the pairs that were added |
| KeyOrder.FindShortestSeparator | ChatAppTFS/Pods/leveldb-library/util/comparator.cc:29-50 | For keys in order, at least the first and below the second, and no longer than the first |
| KeyOrder.FindShortSuccessor | ChatAppTFS/Pods/leveldb-library/util/comparator.cc:52-63 | At or after the key, no longer, and left alone only if all bytes are 0xff |
| KeyOrder.LessAsParts | ChatAppTFS/Pods/leveldb-library/include/leveldb/slice.h:101-111 | One byte string is below another if and only if at some place up to which they agree it ends or has the smaller byte |
| KeyOrder.FindInternalSeparator | ChatAppTFS/Pods/leveldb-library/db/dbformat.cc:69-86 | At or after the first internal key and before the second |
| KeyOrder.FindInternalSuccessor | ChatAppTFS/Pods/leveldb-library/db/dbformat.cc:88-101 | At or after the internal key |
| KeyOrder.UserRankOrders | ChatAppTFS/Pods/leveldb-library/util/comparator.cc:25-27 | Byte strings embed in the real line: the place of a string with a fraction behind it orders as the bytewise comparison and then the fraction |
| KeyOrder.KeyRankOrders | ChatAppTFS/Pods/leveldb-library/db/dbformat.cc:51-67 | Encoded internal keys embed in the real line in the order of their comparator |
| Bloom.CreateFilter | ChatAppTFS/Pods/leveldb-library/util/bloom.cc:28-54 | A filter in which all probes of all keys are set |
| Bloom.KeyMayMatch | ChatAppTFS/Pods/leveldb-library/util/bloom.cc:56-80 | Never no for a key the filter was made from; no only on an unset probe or a filter too short |
| FilterBlock.FilterBlockBuilder.StartBlock | ChatAppTFS/Pods/leveldb-library/table/filter_block.cc:21-27 | Filters up to the block's 2 KB index exist; pending keys go into the first of them |
| FilterBlock.FilterBlockBuilder.Finish | ChatAppTFS/Pods/leveldb-library/table/filter_block.cc:35-49 | The filters, their offsets and the base as one image |
| FilterBlock.FilterBlockReader.KeyMayMatch | ChatAppTFS/Pods/leveldb-library/table/filter_block.cc:90-104 | No key of the group of a block is missed |
| Table.Table.InternalGet | ChatAppTFS/Pods/leveldb-library/table/table.cc:216-244 | Reports the first entry at or after the key over the whole table whenever that entry has the key's user key, despite shortened separators and filters |
| Table.HandleRoundTrip | ChatAppTFS/Pods/leveldb-library/table/format.cc:15-29 | A block handle is read back, whatever follows it |
| Table.FooterRoundTrip | ChatAppTFS/Pods/leveldb-library/table/format.cc:31-62 | Both handles are read back from the padded footer with its magic number |
| Table.ReadBlock | ChatAppTFS/Pods/leveldb-library/table/format.cc:64-139 | With checksum verification, contents exactly when the block is stored there: in bounds, type and masked checksum of contents and type right; without it, whatever stands there before an uncompressed block's type |
| Table.FilteredOut | ChatAppTFS/Pods/leveldb-library/table/table.cc:224-230 | Where the filter is right to say no, nothing in the table answers |
| TableBuilder.TableBuilder.Add | ChatAppTFS/Pods/leveldb-library/table/table_builder.cc:94-123 | One more entry; a pending index entry gets its separator first |
| TableBuilder.TableBuilder.Flush | ChatAppTFS/Pods/leveldb-library/table/table_builder.cc:125-139 | The data block goes to the file, its index entry becomes pending; the entries stay the same |
| TableBuilder.TableBuilder.Finish | ChatAppTFS/Pods/leveldb-library/table/table_builder.cc:198-253 | Blocks, filter, metaindex, index and footer form a finished table file over exactly the entries added |
| TableBuilder.TableBuilder.WriteRawBlock | ChatAppTFS/Pods/leveldb-library/table/table_builder.cc:177-194 | The block and its trailer are stored at the returned handle, and all that was stored stays |
| TableBuilder.TableBuilder.WriteMetaIndex | ChatAppTFS/Pods/leveldb-library/table/table_builder.cc:213-226 | A block that maps the policy's name to the filter's handle |
| TableBuilder.Open | ChatAppTFS/Pods/leveldb-library/table/table.cc:38-82 | From the bytes of any finished table file alone, footer first, the table that was built is opened, its filter included |
| TableBuilder.ReadMeta | ChatAppTFS/Pods/leveldb-library/table/table.cc:84-134 | The metaindex leads to the filter that was written |
| TableFile.ParseOrders | ChatAppTFS/Pods/leveldb-library/db/dbformat.h:165-175 | Internal keys order as the bytes they are parsed from |
| TableFile.Get | ChatAppTFS/Pods/leveldb-library/table/table.cc:216-244 | The lookup key in a table, handed to SaveValue: the value, the deletion or nothing, as the search of the run of entries that the table's bytes spell finds, which is what `VersionGet.SearchTable` returns |
| TableFile.GetFromFile | ChatAppTFS/Pods/leveldb-library/db/table_cache.cc:100-112 | The same from the bytes of any finished table file alone, over the entries added to its builder |
| TableFile.SaveValue | ChatAppTFS/Pods/leveldb-library/db/version_set.cc:263-276 | Found, deleted, of another user key, or corrupt if the key does not parse |
| TableFile.BlockReads | ChatAppTFS/Pods/leveldb-library/table/block.cc:24-75 | Decoded from its bytes, a block holds exactly the entries put into it |
| TableFile.HandleLeads | ChatAppTFS/Pods/leveldb-library/table/table.cc:155-208 | The handle of a block in the index leads to the entries of that block |
| TableFile.TableFits | ChatAppTFS/Pods/leveldb-library/table/table.cc:210-214 | The index keys lie at or behind their blocks and before the next ones |
| TableFile.NewIterator | ChatAppTFS/Pods/leveldb-library/table/table.cc:210-214 | The two-level iterator over a table, index block and data blocks read from the bytes, goes through exactly the entries of the table, in order |
| TableFile.NewIteratorOnFile | ChatAppTFS/Pods/leveldb-library/db/table_cache.cc:78-98 | And from the bytes of any finished table file alone, through exactly the entries added to its builder |
| TableFile.SeekBoth | ChatAppTFS/Pods/leveldb-library/table/block.cc:163-201 | The iterator over a block seeks to where a cursor over the entries it spells does |
| TableFile.SeekBothToFirst | ChatAppTFS/Pods/leveldb-library/table/block.cc:203-206 | It goes to the first entry as that cursor does |
| TableFile.NextBoth | ChatAppTFS/Pods/leveldb-library/table/block.cc:137-140 | It steps on as that cursor does |
| TableFile.PrevBoth | ChatAppTFS/Pods/leveldb-library/table/block.cc:142-161 | It steps back as that cursor does |
| TableFile.SeekBothToLast | ChatAppTFS/Pods/leveldb-library/table/block.cc:208-213 | It goes to the last entry as that cursor does |
| TableFile.SameShown | ChatAppTFS/Pods/leveldb-library/table/block.cc:126-135 | Where both stand together they show the same key and value |
| HandleTable.Table.FindPointer | ChatAppTFS/Pods/leveldb-library/util/cache.cc:114-120 | The slot of the entry with this hash and key, or the end of its bucket |
| HandleTable.Table.Lookup | ChatAppTFS/Pods/leveldb-library/util/cache.cc:74-76 | The entry of this key, or the proof that there is none |
| HandleTable.Table.Insert | ChatAppTFS/Pods/leveldb-library/util/cache.cc:78-92 | The entry is in, over the one of the same key, which is returned |
| HandleTable.Table.Remove | ChatAppTFS/Pods/leveldb-library/util/cache.cc:94-102 | The entry of this key is out, and returned |
| HandleTable.Table.Resize | ChatAppTFS/Pods/leveldb-library/util/cache.cc:122-146 | The same elements, each findable by its key, in at least as many buckets as elements |
| HandleTable.MaskIsRemainder | ChatAppTFS/Pods/leveldb-library/util/cache.cc:114-115 | Masking with a power of two less one is the remainder |
| HandleTable.KeysApart | ChatAppTFS/Pods/leveldb-library/util/cache.cc:69-72 | No two elements have the same key and hash |
| Lru.RingRemove | ChatAppTFS/Pods/leveldb-library/util/cache.cc:239-242 | The two stores take the entry out of the ring in both directions |
| Lru.RingAppend | ChatAppTFS/Pods/leveldb-library/util/cache.cc:244-250 | The four stores put it at the newest end |
| Lru.LRUCache.Lookup | ChatAppTFS/Pods/leveldb-library/util/cache.cc:252-259 | The cached entry of this key, with one more handle, off the LRU list |
| Lru.LRUCache.Release | ChatAppTFS/Pods/leveldb-library/util/cache.cc:261-264 | The last handle of a cached entry puts it at the newest end of the LRU list; the last reference runs the deleter |
| Lru.LRUCache.Ref | ChatAppTFS/Pods/leveldb-library/util/cache.cc:217-223 | One more handle; an entry of the LRU list moves to the in-use list |
| Lru.LRUCache.Unref | ChatAppTFS/Pods/leveldb-library/util/cache.cc:225-237 | One reference less: freed, moved to the LRU list, or left |
| Lru.LRUCache.Insert | ChatAppTFS/Pods/leveldb-library/util/cache.cc:266-303 | The new entry has one handle; the entry of the same key is out; the oldest unreferenced entries go, no more than needed, until usage is within capacity or none is left |
| Lru.LRUCache.FinishErase | ChatAppTFS/Pods/leveldb-library/util/cache.cc:307-316 | Off its list, out of the usage, and freed unless handles are out |
| Lru.LRUCache.Erase | ChatAppTFS/Pods/leveldb-library/util/cache.cc:318-321 | The entry of this key leaves the cache; its deleter runs now or at the last release |
| Lru.LRUCache.Prune | ChatAppTFS/Pods/leveldb-library/util/cache.cc:323-333 | All unreferenced entries go, oldest first |
| Lru.LRUCache.Destroy | ChatAppTFS/Pods/leveldb-library/util/cache.cc:205-215 | Every entry left on the list is deleted once and not looked at again |
| PbRoundTrip.RoundTrip | ChatAppTFS/Pods/nanopb/pb_decode.c:925-1087 | For any table with distinct nonzero field numbers and any message of it that encodes, to less than 4 GiB: decoding succeeds if and only if every string present is shorter than its buffer, and then gives every present field, defaults elsewhere |
| PbRoundTrip.FullBufferIsRefused | ChatAppTFS/Pods/nanopb/pb_decode.c:1468-1501 | The other side happens: the string AB in a buffer of two chars encodes to four bytes that the decoder refuses |
| PbRoundTrip.WholeRoundTrip | ChatAppTFS/Pods/nanopb/pb_decode.c:925-1087 | A message with its absent fields at their defaults comes back whole |
| PbRoundTrip.ExpectedAt | ChatAppTFS/Pods/nanopb/pb_decode.c:836-923 | Field by field what comes back: the value of the present field, or the default where no field of the slot was present |
| PbRoundTrip.ZeroIsDefault | ChatAppTFS/Pods/nanopb/pb_encode.c:240-337 | A proto3 field that is left off the wire had its default value, nested messages included |
| PbRoundTrip.Varint32Reads | ChatAppTFS/Pods/nanopb/pb_decode.c:187-252 | The 32-bit decoder reads back every varint below 2^32, sign-extension and overflow checks notwithstanding |
| PbRoundTrip.VarintComesBack | ChatAppTFS/Pods/nanopb/pb_decode.c:1329-1364 | A signed number of any width survives the 64-bit encoding and the checked cast |
| PbRoundTrip.UnZigZags | ChatAppTFS/Pods/nanopb/pb_decode.c:1269-1281 | Zig-zag decoding undoes zig-zag encoding |
| PbRoundTrip.PackedDecodes | ChatAppTFS/Pods/nanopb/pb_decode.c:425-453 | A packed array is read back item by item |
| PbRoundTrip.ItemsDecode | ChatAppTFS/Pods/nanopb/pb_decode.c:454-464 | The records of an array that is not packed fill it one by one; for a fixed-count array the count is complete |
| PbEncode.ZigZagInterleaves | ChatAppTFS/Pods/nanopb/pb_encode.c:630-639 | Shift and complement in 64 bits give 2n, and -2n - 1 for negative n |
| PbEncode.Encode | ChatAppTFS/Pods/nanopb/pb_encode.c:528-550 | Sizing and writing do the same: success exactly if the message encodes and fits, and then those bytes are counted, or counted and written |
| PbEncode.EncodeSubmessage | ChatAppTFS/Pods/nanopb/pb_encode.c:717-765 | The size from the sizing pass is what the writing pass emits, at every depth: the check for a changed size never fires |
| PbEncode.EncodeArrayTo | ChatAppTFS/Pods/nanopb/pb_encode.c:147-236 | Packed arrays with their computed or measured size, others tag by tag |
| PbEncode.EncodeFieldTo | ChatAppTFS/Pods/nanopb/pb_encode.c:341-426 | A field is emitted if it is present by its rule |
| PbEncode.GetEncodedSize | ChatAppTFS/Pods/nanopb/pb_encode.c:567-576 | The length of the encoding, if there is one |
| PbEncode.OStream.Write | ChatAppTFS/Pods/nanopb/pb_encode.c:103-124 | Writes if there is room, otherwise nothing; a sizing stream only counts |
| PbEncode.VarintBytes | ChatAppTFS/Pods/nanopb/pb_encode.c:608-628 | The marked bytes, the last unmarked, are the base-128 digits, at most ten for 64 bits |
| PbCommon.FieldIter.Next | ChatAppTFS/Pods/nanopb/pb_common.c:20-76 | The next field with its slot and required index, or back to the first |
| PbCommon.FieldIter.Find | ChatAppTFS/Pods/nanopb/pb_common.c:78-95 | Cyclic search from anywhere: found if and only if the table has the number (or is empty and the number is 0) |
| PbCommon.DefaultAt | ChatAppTFS/Pods/nanopb/pb_decode.c:836-923 | Each field, every alternative of a union included, starts at its own default |
| PbIStream.IStream.DecodeVarint32 | ChatAppTFS/Pods/nanopb/pb_decode.c:187-252 | The loop with its shift of eight bits width decodes, or refuses, as specified |
| PbIStream.IStream.DecodeVarint | ChatAppTFS/Pods/nanopb/pb_decode.c:255-275 | The shift loop of at most ten bytes gives the varint's value in 64 bits |
| PbIStream.IStream.MakeStringSubstream | ChatAppTFS/Pods/nanopb/pb_decode.c:372-385 | A substream of the announced length, the parent keeping the rest |
| PbIStream.IStream.CloseStringSubstream | ChatAppTFS/Pods/nanopb/pb_decode.c:387-400 | The parent goes on after the substream, whatever of it was read |
| PbIStream.IStream.DecodeTag | ChatAppTFS/Pods/nanopb/pb_decode.c:298-319 | Field number and wire type, or the end on a key of 0 |
| PbIStream.IStream.SkipField | ChatAppTFS/Pods/nanopb/pb_decode.c:321-331 | Skips a value by its wire type |
| PbIStream.DecodeStaticField | ChatAppTFS/Pods/nanopb/pb_decode.c:406-480 | One record into its member, for every rule |
| PbIStream.DecodePackedFrom | ChatAppTFS/Pods/nanopb/pb_decode.c:425-453 | Packed items while there are bytes and room, and an error if bytes are left |
| PbIStream.DecodeSubmessage | ChatAppTFS/Pods/nanopb/pb_decode.c:1503-1525 | A substream decoded over what is there, or over defaults for array items |
| PbIStream.SetToDefaults | ChatAppTFS/Pods/nanopb/pb_decode.c:908-923 | Every member at its default, nested messages included |
| PbIStream.CheckRequired | ChatAppTFS/Pods/nanopb/pb_decode.c:1047-1069 | The check by bitmap words passes if and only if the first 64 required fields were all seen |
| PbIStream.CountRequired | ChatAppTFS/Pods/nanopb/pb_decode.c:1032-1046 | From wherever the iterator stands, the number of required fields |
| PbIStream.Decode | ChatAppTFS/Pods/nanopb/pb_decode.c:1075-1087 | Refines the decoding of the byte string, and leaves the stream where that ends |

## Left out

- A memtable flush inside a running compaction, and reads of a version while it is being replaced: choose, merge and install are one step.
- Which level and file to compact, seek counters, size scores, and where the compaction pointers point: any choice is allowed.
- Files as bytes inside the tree model: a file carries its entries; that the bytes of a table spell, find and iterate its entries is proved in `Table`, `TableBuilder` and `TableFile`.
- Corrupted keys and blocks in the tree, iterator and table models; damaged log files and descriptors are modelled.
- I/O errors, background errors, shutdown, locks and condition variables; the writer queue is a sequence of its own steps.
- Database.Database.NewIterator: the iterator moves over the memtable as it was at its creation. `Database.IteratorStays` shows that later writes leave its live pairs alone; that its steps, taken while the list grows, pass over the new entries is not modelled.
- Database.Database.Write: sequence numbers must stay below the 56-bit maximum, which the code does not check.
- InternalIterator.MakeMergingIterator: for no or one child the merging iterator is built too, where the code returns the empty iterator or the child, which move alike by `InternalIterator.ShortcutsAgree`.
- Merger.Cursor stands for the iterators of memtables and tables; for blocks and two-level iterators the same contract is proved of the code.
- The reference counts of versions and memtables, file deletion, statistics, read sampling, logging, the table cache.
- Database.Database.ChildRuns: a level is taken as the concatenation of its files; that the two-level iterator walks it is proved in `TwoLevelIterator`.
- Opening.Reopen: the log files are given in the order of their numbers, and the files of the directory by their numbers; the CURRENT file and locks are left out.
- Restart.RestartStoreInv: writing the recovered tables succeeds, and where a later session finds table files may differ from the earlier one; a crash inside Open leaves the old descriptor in force and is a crash of the old state.
- Durable.RunKeepsFiles: a batch is one log record; a failed append or sync is not modelled, what was cut off is lost from the end of each file, and file numbers stay below 64 bits.
- VersionBuilder.Builder.Apply: the seek allowance of an added file is left out; compaction pointers are in `Manifest`.
- The log reader's initial offset and resynchronisation: reading starts at 0.
- Crc.ExtendStrided: the literal tables are taken as the remainders they are generated from; hardware acceleration is left out.
- Table.ReadBlock: a compressed block is refused, as in the repository's build, which has no Snappy (`ChatAppTFS/Pods/leveldb-library/port/port_stdcxx.h:88-130` without HAVE_SNAPPY); the block cache, and building tables without a filter policy (reading them is modelled), are left out.
- Weak memory in the skip list: loads and stores are sequentially consistent; the random height is a parameter.
- Lru.LRUCache.Release: each handle is released once, as the interface demands; the sixteen shards and their hash function are left out.
- Reference counts, sizes and lengths in memory are unbounded numbers; fields on disk and on the wire have their widths.
- Recovery.RecoverLogFile: writing a recovered memtable to level 0 succeeds; reuse of the log file is left out.
- GroupCommit.EachOnceInOrder: for runs in which all groups commit; a group that fails is told its error, and what it leaves in log and memtable is in `LogAndInsert`.
- nanopb callbacks, extensions, pointer fields and custom streams; the build has 32-bit field sizes and 64-bit integers.
- PbRoundTrip.RoundTrip: for messages under 4 GiB on the wire, because the decoder reads lengths of 32 bits.
- PbIStream.Decode: what a failed decoding leaves in the message.
- Everything of the application itself: views, presenters, persistence and network calls of frameworks.
