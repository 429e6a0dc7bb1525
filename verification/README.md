# Verified models of the vendored LevelDB, libuv and nanopb code

The application links three C and C++ libraries under `mad/Pods`. This project models their
hardest parts in Dafny and proves what they promise.

**LevelDB.** A log-structured merge tree that should behave like one multi-version map: a read at
snapshot `s` reports the newest write with a sequence number of at most `s`. The reference is
`LsmTree.Lookup` over the history of all writes. On top of it:

- the whole tree over every run of writes, memtable switches, flushes, moves and compactions
  (`LsmTree`, `Reads`, `CompactionInputs`, `CompactionWork`, `CompactionInvisible`, `Runs`,
  `Database`);
- the manifest, from version edits down to the bytes of the log that holds them, and recovery from
  any prefix of those bytes, for the edits of any run of the tree (`VersionBuilder`, `EditCodec`,
  `KeyCodec`, `Manifest`, `RunManifests`);
- group commit under every interleaving of writers (`GroupCommit`), the batches as bytes and their
  recovery after a crash (`WriteBatches`), and the skip list under one inserter and any number of
  lock-free readers (`SkipList`);
- the iterators: `DbIter` over visible user entries, on top of `MergingIter` over several runs,
  which `InternalIters` collects from the whole tree; `TwoLevelIters` over tables and levels;
- tables down to the bytes of the file: prefix-compressed blocks (`BlockFormat`, `BlockBuilders`,
  `BlockIters`), shortened index keys (`Separators`), Bloom filters (`Bloom`, `FilterBlock`), handles,
  checksums and footer (`TableFormat`, `TableFiles`), building (`Tables`, `TableBuilders`) and the
  point lookup from the footer to one data block (`TableReaders`);
- the write-ahead log under truncation (`LogFormat`, `LogWriter`, `LogReader`, `LogRoundTrip`);
- the block cache (`HandleTables`, `LruCaches`).

**libuv.** The thread pool as interleaved steps, with safety and progress (`ThreadPool`), the
pointer-linked heap and the timers that use it (`MinHeap`, `Timers`), and the text form of IPv4 and
IPv6 addresses (`Inet4`, `Inet6`).

**nanopb.** The schema-driven encoder and decoder (`PbWire`, `PbSchema`, `PbEncode`, `PbDecode`,
`PbDecoder`, `PbRoundTrip`), and fields that a description does not have (`PbUnknown`).

`Basics` and `Coding` hold what these share: bytes, optional values, varints and fixed-width words.

Code that mutates things in the original mutates them here: methods with loops, classes with
`modifies` clauses, each proved against a specification function or a stated property. Protocols are
state machines whose steps interleave freely, with an invariant and theorems over every run.

## Where the code and its promise differ

- **A compaction can bring a deleted key back.** The selection of inputs adds boundary files to the
  upper level only (version_set.cc:1407 and 1422). A deletion in a chosen file of the next level can
  then be dropped while an older value of the same user key stays in an excluded file beside it.
  `Resurrection.DeletedKeyComesBack` gives a run of fourteen steps from the empty database after which
  a read finds the deleted value.
  `CompactionInvisible.InvisibleIffNoResurrection` shows that a compaction is invisible exactly if no
  deletion it drops uncovers such a value, `Runs.RunsCorrectIffSafe` says the same of whole runs, and
  `CompactionInvisible.ClosedLowerInputsSuffice` shows that closing the lower inputs as well would do.
- **Decoding a version edit is not a full reset.** `Clear` keeps the compaction pointers
  (version_edit.cc:26-39), so decoding inverts encoding exactly if the receiving edit had none
  (`EditCodec.DecodeInvertsEncode`). Recovery decodes each record into a new edit.
- **A string that fills its array cannot be read back.** The nanopb encoder accepts a string without
  terminator (pb_encode.c:873-897), the decoder refuses it (pb_decode.c:1496-1518), and only then
  (`PbRoundTrip.StringNeedsTerminator`).
- **Type bytes 5 and 6 in a log.** The reader returns the type byte of a physical record through the
  same number as its own results for end of file and bad record (log_reader.h:65-73). An intact record
  with type byte 5 silently ends the log, and one with type byte 6 is silently skipped unless it breaks
  off a fragmented record. Damage is reported as the format promises exactly if there is no such record
  (`LogReader.ReportsIffTypesTold`); nothing behind the first record with type byte 5 is read
  (`LogReader.EndsAtTypeFive`). `LogRoundTrip.RecordsHidden` gives the bytes of such files, with any
  intact record behind the one of type byte 5 or 6, and what is read of them.
- **A repeating timer at the last instant.** Re-arming puts a repeating timer in the future except when
  the clock shows the largest 64-bit value (`Timers.RearmedIsFuture`). There the loop over due timers
  ends exactly if every active repeating timer is stopped by a callback, be it its own, of a timer that
  goes off (`Timers.EndsIffSettles`); a timer that nothing stops keeps it busy for ever
  (`Timers.EndlessPass`). `Timers.EventLoop.RunTimers` asks for that condition.
- **A memtable switch that is skipped.** A write without a batch asks for a memtable switch
  (db_impl.cc:1201). When it joins the group of another writer it is reported as done without one
  (db_impl.cc:1287-1303). `GroupCommit.SwitchIsSkipped` is a run of seven steps that does so. A switch was
  made for such a writer exactly if no other writer took it into its group
  (`GroupCommit.SwitchedIffNotGrouped`), and then all that came before it is in immutable memtables
  (`GroupCommit.SwitchSealsEarlier`).
- **A file number that is used again.** The builder of versions keeps added files in a set ordered by
  smallest key and number and forgets a deletion when the number is added again
  (version_set.cc:689-690). It does what an edit means exactly if every file added gets its place and
  brings no deleted file back (`VersionBuilder.AppliedIffAllLand`); otherwise an old file can stay in
  place of a new one (`VersionBuilder.DeletedFileComesBack`). No run of the database gives a number to
  a level twice (`RunManifests.RunsAddOnce`).
- **Lengths that wrap in a block.** The two lengths of a block entry are added in 32 bits before they
  are compared with the space left (block.cc:70-72). In a block below 4 GB an accepted entry is inside
  the block exactly if the sum does not wrap (`BlockFormat.InsideIffNoWrap`); `BlockFormat.WrappedEntry`
  has seven bytes that are accepted as an entry of 4 GB.
- **Printing an address into no space.** An IPv6 address printed into a buffer of size 0 is reported as
  a success, since copying nothing is (strscpy.c:11-12); every other buffer that is too short is
  refused (`Inet6.Ntop6`).
- Two tests in the code never succeed, as assertions at these places show: whether the removed heap
  node is still the root (heap-inl.h:189), and whether the zero run has seven words at word six
  (inet.c:130).

## Model

| member | source | states |
|---|---|---|
| `InternalKeys.RankOrder` | mad/Pods/leveldb-library/util/comparator.cc:25-27 | user keys are places in an order: the embedding of byte strings in the reals keeps the bytewise order and equality, both ways |
| `Reads.PointGetNewest` | mad/Pods/leveldb-library/db/dbformat.cc:51-67 | a seek to (user key, snapshot) in a run ordered by increasing user key and decreasing tag finds the newest entry visible at the snapshot, and none exactly if there is none |
| `Reads.FindFile` | mad/Pods/leveldb-library/db/version_set.cc:88-106 | binary search returns the first file whose largest key is not before the target |
| `Reads.LevelGet` | mad/Pods/leveldb-library/db/version_set.cc:362-381 | in a sorted level the one file that the search yields has the newest visible entry of the whole level, or the level has none |
| `Reads.LevelZeroGet` | mad/Pods/leveldb-library/db/version_set.cc:340-361 | level-0 files are searched newest first, and the first hit is the newest visible entry of the level |
| `Reads.VersionGet` | mad/Pods/leveldb-library/db/version_set.cc:326-421 | stopping at the first level that hits returns the newest visible entry of all levels |
| `Reads.TreeGet` | mad/Pods/leveldb-library/db/db_impl.cc:1122-1134 | memtable, then immutable memtable, then levels: the result is the newest entry in the whole tree that the snapshot may see |
| `CompactionInputs.GetOverlappingInputs` | mad/Pods/leveldb-library/db/version_set.cc:519-559 | terminates; at level 0 the result is the least set closed under overlap of user ranges with the range asked for, elsewhere exactly the overlapping files |
| `CompactionInputs.FindSmallestBoundaryFile` | mad/Pods/leveldb-library/db/version_set.cc:1344-1361 | the smallest file that starts after a key with the same user key, or none if there is none |
| `CompactionInputs.AddBoundaryInputs` | mad/Pods/leveldb-library/db/version_set.cc:1378-1401 | for any list of files, the empty one included: terminates and appends, one by one, the first file of the level that continues the last key so far, until no file continues the last user key |
| `CompactionInputs.ChainCloses` | mad/Pods/leveldb-library/db/version_set.cc:1363-1377 | appended to inputs closed under overlap, or open at their end only, this leaves no file behind that continues any input |
| `CompactionInputs.ChainIsLeast` | mad/Pods/leveldb-library/db/version_set.cc:1378-1401 | and every file that it appends is in each closed set that holds the inputs |
| `CompactionInputs.GetRange` | mad/Pods/leveldb-library/db/version_set.cc:1205-1223 | the tight span of the inputs: some input starts at its lower end, some ends at its upper end, all lie inside |
| `CompactionInputs.SetupOtherInputs` | mad/Pods/leveldb-library/db/version_set.cc:1403-1462 | the upper inputs are those picked and the chain of files that continue them, unless they have grown; the selection is closed in the upper level, and the lower inputs are exactly the files of the next level that meet its user range |
| `CompactionInputs.Grow` | mad/Pods/leveldb-library/db/version_set.cc:1419-1446 | growth is accepted only if it keeps the selection closed, leaves the lower inputs unchanged, stays below the size limit and takes only files that the range of all inputs brings in |
| `CompactionInputs.PickCompaction` | mad/Pods/leveldb-library/db/version_set.cc:1270-1323 | the upper inputs are the least closed set around the file it starts from, or have grown from that without touching further lower files and within the size limit; the selection is closed |
| `CompactionWork.Compaction.IsBaseLevelForKey` | mad/Pods/leveldb-library/db/version_set.cc:1533-1552 | on nondecreasing keys the amortised scan with saved positions equals the plain test that no deeper file covers the key |
| `CompactionWork.ShouldDrop` | mad/Pods/leveldb-library/db/db_impl.cc:938-975 | an entry is dropped exactly if a newer entry of its key is visible at the oldest snapshot, or it is an old deletion with nothing deeper |
| `CompactionWork.DoCompactionWork` | mad/Pods/leveldb-library/db/db_impl.cc:890-999 | the output files are valid, in order, and hold exactly the survivors of the merged input |
| `CompactionWork.SurvivorsAreKept` | mad/Pods/leveldb-library/db/db_impl.cc:938-994 | an entry is in the output exactly if it is in the input and neither drop rule applies |
| `CompactionWork.DropsExactly` | mad/Pods/leveldb-library/db/db_impl.cc:938-975 | an entry of the sorted input is left out if and only if some newer entry of its key has a number of at most the oldest snapshot, or it is a deletion with such a number and no file two or more levels down covers its key |
| `CompactionWork.OneOldEntryStays` | mad/Pods/leveldb-library/db/db_impl.cc:954-957 | of the entries of a key that the oldest snapshot may see, at most one is written out |
| `CompactionWork.OutputsOrdered` | mad/Pods/leveldb-library/db/db_impl.cc:977-1020 | the output files are sorted and disjoint whatever their cut points are |
| `CompactionInvisible.InvisibleIffNoResurrection` | mad/Pods/leveldb-library/db/db_impl.cc:890-999 | reads at the oldest snapshot or later report the same before and after a compaction if and only if no dropped deletion uncovers an older value left behind in the next level |
| `CompactionInvisible.ClosedLowerInputsSuffice` | mad/Pods/leveldb-library/db/version_set.cc:1378-1422 | closing the lower inputs under boundary files too would rule resurrection out for every compaction |
| `CompactionInvisible.CompactedFits` | mad/Pods/leveldb-library/db/db_impl.cc:860-876 | after a compaction levels are sorted and disjoint and shallower entries of a key are newer than deeper ones |
| `CompactionInvisible.MovedKeepsStructure` | mad/Pods/leveldb-library/db/version_set.cc:1515-1523 | moving any closed selection down a level keeps that shape, in particular a trivial move |
| `CompactionInvisible.LeftBehindIsApart` | mad/Pods/leveldb-library/db/version_set.cc:1403-1418 | a file of the next level that was not chosen shares no user range with the chosen upper files |
| `CompactionInvisible.StayingIsNewer` | mad/Pods/leveldb-library/db/version_set.cc:1378-1401 | a file of the level that stays behind is newer, for every shared user key, than the files that move down |
| `Resurrection.DeletedKeyComesBack` | mad/Pods/leveldb-library/db/version_set.cc:1403-1462 | a run from the empty database of which every step but the last is safe, and after the last compaction a read of a deleted key at the newest sequence number finds its old value |
| `Runs.RunsKeepStructure` | mad/Pods/leveldb-library/db/db_impl.cc:535-566 | over every run of writes, switches, flushes, moves, compactions and snapshots: levels below 0 sorted and disjoint, shallower places newer than deeper ones |
| `Runs.RunsKeepInv` | mad/Pods/leveldb-library/db/db_impl.cc:718-725 | over every run of safe steps, also every read that is still possible agrees with the history of writes |
| `Runs.RunsCorrectIffSafe` | mad/Pods/leveldb-library/db/db_impl.cc:890-999 | reads agree with the history in every state of a run if and only if every compaction in it was free of resurrection |
| `Runs.RunsReadCorrectly` | mad/Pods/leveldb-library/db/db_impl.cc:1100-1134 | in any state of such a run the newest visible entry reports what the history says |
| `Runs.FlushedKeeps` | mad/Pods/leveldb-library/db/version_set.cc:491-516 | a flush pushed to level 1 or 2 because nothing there or above overlaps keeps all of the above |
| `Runs.WrittenKeeps` | mad/Pods/leveldb-library/db/write_batch.cc:121-128 | a batch numbered consecutively from the last sequence number keeps all of the above |
| `Database.SomeFileOverlapsRange` | mad/Pods/leveldb-library/db/version_set.cc:122-163 | the binary search in a disjoint level, and the scan at level 0, say exactly whether some file overlaps the user range |
| `Database.PickLevelForMemTableOutput` | mad/Pods/leveldb-library/db/version_set.cc:491-516 | the level is at most 2 and no file in it, or in a level passed on the way, overlaps the memtable; and it goes no deeper only for an overlap in the next level or too much data in the one below that |
| `Database.DBImpl.Get` | mad/Pods/leveldb-library/db/db_impl.cc:1100-1145 | a read at a held snapshot or at the present reports the newest write in the history that it may see |
| `Database.DBImpl.Write` | mad/Pods/leveldb-library/db/db_impl.cc:1202-1237 | the history grows by one entry for each update, with its key, kind and value and the next number; right after it a read of a key reports the last update of that key in the batch, and reads of other keys are as before |
| `Database.ReadYourWrite` | mad/Pods/leveldb-library/db/write_batch.cc:121-128 | when updates have become the next entries of the history, the newest write of a key is its last update in the batch |
| `Database.DBImpl.SwitchMemTable` | mad/Pods/leveldb-library/db/db_impl.cc:1346-1366 | the memtable becomes immutable and no entry is lost |
| `Database.DBImpl.CompactMemTable` | mad/Pods/leveldb-library/db/db_impl.cc:535-566 | the immutable memtable becomes one file of the level so chosen, a step of a run |
| `Database.DBImpl.BackgroundCompaction` | mad/Pods/leveldb-library/db/db_impl.cc:688-768 | picks inputs around the file it starts from, moves exactly if the move is trivial and else merges, and installs the result: a step of a run |
| `Database.DBImpl.GetSnapshot` | mad/Pods/leveldb-library/db/db_impl.cc:1166-1169 | adds the present sequence number to the snapshots that compactions respect |
| `Database.DBImpl.ReleaseSnapshot` | mad/Pods/leveldb-library/db/db_impl.cc:1171-1174 | removes one snapshot and nothing else |
| `Database.MakeInput` | mad/Pods/leveldb-library/db/version_set.cc:1237-1268 | merging the input files yields the sorted union of their entries, each once |
| `Database.IsTrivialMove` | mad/Pods/leveldb-library/db/version_set.cc:1515-1523 | true exactly for one upper file, no lower file, and no more than the limit of overlapping data two levels down |
| `VersionBuilder.SaveLevel` | mad/Pods/leveldb-library/db/version_set.cc:698-754 | merging base and added files gives exactly those not deleted, as a sorted list if they share no number |
| `VersionBuilder.Builder.Apply` | mad/Pods/leveldb-library/db/version_set.cc:650-692 | records deletions and then additions, and the files the builder stands for change as the edit means exactly if every file added lands |
| `VersionBuilder.AppliedIffAllLand` | mad/Pods/leveldb-library/db/version_set.cc:650-692 | for any base, any edits before and any edit: its effect is what it means if and only if no other file has the place of a file it adds and none of its additions brings back another file whose number was deleted |
| `VersionBuilder.DeletedFileComesBack` | mad/Pods/leveldb-library/db/version_set.cc:689-690 | deleting a number and adding it again with the same smallest key leaves the deleted file in place of the new one |
| `VersionBuilder.BuiltIsMeant` | mad/Pods/leveldb-library/db/version_set.cc:650-754 | any list of edits that gives no level a number twice has the effect of installing them one by one |
| `VersionBuilder.BuildNext` | mad/Pods/leveldb-library/db/version_set.cc:816-822 | the version that an edit makes of another has the sorted lists that the edit means |
| `VersionBuilder.NumbersAddedOnce` | mad/Pods/leveldb-library/db/db_impl.cc:718-725 | edits that add newly numbered files or move files deeper never give a level the same number twice, over every sequence of edits |
| `VersionBuilder.SortedUnique` | mad/Pods/leveldb-library/db/version_set.cc:590-612 | a sorted list is determined by its files |
| `EditCodec.DecodeInvertsEncode` | mad/Pods/leveldb-library/db/version_edit.cc:41-205 | every edit reads back item by item, and as a whole exactly if the receiver held no compaction pointers |
| `EditCodec.VersionEdit.EncodeTo` | mad/Pods/leveldb-library/db/version_edit.cc:41-85 | writes the tagged items of the edit in order |
| `EditCodec.VersionEdit.DecodeFrom` | mad/Pods/leveldb-library/db/version_edit.cc:107-205 | succeeds exactly on well-formed input, and then has applied every item to the cleared edit |
| `EditCodec.ItemsRoundTrip` | mad/Pods/leveldb-library/db/version_edit.cc:120-194 | any sequence of items in range is read back in order |
| `KeyCodec.KeyRoundTrip` | mad/Pods/leveldb-library/db/dbformat.cc:14-23 | an internal key is read back from its bytes |
| `Manifest.FileRoundTrip` | mad/Pods/leveldb-library/db/version_edit.cc:76-84 | the metadata of a file is read back from its item |
| `Manifest.SnapshotLists` | mad/Pods/leveldb-library/db/version_set.cc:1088-1116 | the snapshot record applied to the empty version lists exactly the files of the version it was taken of |
| `Manifest.VersionSet.OpenManifest` | mad/Pods/leveldb-library/db/version_set.cc:824-839 | a new manifest begins with the snapshot of the current version |
| `Manifest.VersionSet.LogAndApply` | mad/Pods/leveldb-library/db/version_set.cc:801-884 | the edit, with its numbers filled in, becomes the next record of the manifest and the version it means becomes current; the bytes of the manifest are always the snapshot and all edits installed since |
| `Manifest.Recover` | mad/Pods/leveldb-library/db/version_set.cc:886-1011 | for any file: refuses it exactly if it is damaged, malformed, of another comparator or incomplete, and otherwise yields what the builder makes of its edits; for any byte prefix of a manifest that was written, that is the version and the numbers after the edits wholly inside it |
| `Manifest.CrashRecovery` | mad/Pods/leveldb-library/db/version_set.cc:914-1011 | from any prefix of the encoded records: with at least one complete edit, level lists equal to those installed in memory after it; otherwise refused |
| `RunManifests.StepInstalls` | mad/Pods/leveldb-library/db/db_impl.cc:535-566 | a flush, move or compaction of the tree is the installation of an edit that adds newly numbered files or moves files deeper; other steps leave the version alone |
| `RunManifests.RunsAddOnce` | mad/Pods/leveldb-library/db/db_impl.cc:718-768 | over every run of the tree, the edits are installed in turn and never give a number to a level twice |
| `RunManifests.RunSurvivesCrash` | mad/Pods/leveldb-library/db/version_set.cc:886-1011 | whatever byte prefix a crash leaves of the manifest of a run, recovery yields the levels of a state of that run, the last one recorded completely, or refuses for want of a complete edit |
| `GroupCommit.BuildBatchGroup` | mad/Pods/leveldb-library/db/db_impl.cc:1260-1306 | no writer of the group asks for a sync that its leader does not make; their sizes together are at most 128 KB more than the first if that has at most 128 KB, and at most 1 MB otherwise; the next writer breaks one of these rules or does not exist; and the batch is the operations of the group in order |
| `GroupCommit.GroupIsLongest` | mad/Pods/leveldb-library/db/db_impl.cc:1278-1303 | these rules determine the group: a prefix of the queue keeps them and cannot be extended if and only if it is the group |
| `GroupCommit.SwitchedIffNotGrouped` | mad/Pods/leveldb-library/db/db_impl.cc:1185-1306 | over every run, a write without a batch that is reported as done has had a memtable switch made for it if and only if no other writer took it into its group |
| `GroupCommit.SwitchSealsEarlier` | mad/Pods/leveldb-library/db/db_impl.cc:1346-1366 | over every run, once a switch was made for a writer, everything written before it is in immutable memtables |
| `GroupCommit.SwitchIsSkipped` | mad/Pods/leveldb-library/db/db_impl.cc:1193-1200 | a run from the start in which a write without a batch is reported as done although no switch was made and the write before it is not in an immutable memtable |
| `GroupCommit.RunsKeepInv` | mad/Pods/leveldb-library/db/db_impl.cc:1185-1256 | in every interleaving: only the front of the queue commits and it is never left asleep, numbers and memtable contents follow the order of arrival |
| `GroupCommit.NumbersAreUnique` | mad/Pods/leveldb-library/db/db_impl.cc:1202-1236 | no sequence number is given out twice, and earlier arrivals have smaller ones |
| `GroupCommit.Gapless` | mad/Pods/leveldb-library/db/db_impl.cc:1206-1236 | as long as no group fails, the memtable holds 1, 2, 3, ... without a gap |
| `GroupCommit.SyncedIsDurable` | mad/Pods/leveldb-library/db/db_impl.cc:1215-1232 | a write reported as done is in the log under its numbers, and in the synced part if it asked for that |
| `GroupCommit.ResultIsFinal` | mad/Pods/leveldb-library/db/db_impl.cc:1239-1248 | a writer gets one result and nothing changes it later |
| `GroupCommit.NeverStuck` | mad/Pods/leveldb-library/db/db_impl.cc:1193-1253 | unless every writer has returned some step is possible: no wake-up is lost |
| `GroupCommit.InternalRunsEnd` | mad/Pods/leveldb-library/db/db_impl.cc:1185-1256 | without new writers every run of steps, however interleaved, is bounded by a weight of its first state, and can only stop with every writer returned |
| `GroupCommit.EveryWriterReturns` | mad/Pods/leveldb-library/db/db_impl.cc:1185-1256 | from every reachable state a run of steps that need nothing from outside leads to a state of the same writers in which all have returned |
| `WriteBatches.WriteBatch.Add` | mad/Pods/leveldb-library/db/write_batch.cc:98-109 | the bytes are those of the batch with one more update |
| `WriteBatches.WriteBatch.Append` | mad/Pods/leveldb-library/db/write_batch.cc:144-148 | the bytes are those of the updates of both batches in order |
| `WriteBatches.WriteBatch.SetSequence` | mad/Pods/leveldb-library/db/write_batch.cc:94-96 | only the sequence number changes |
| `WriteBatches.BatchRoundTrip` | mad/Pods/leveldb-library/db/write_batch.cc:42-79 | a batch is read back as the updates put into it |
| `WriteBatches.InsertInto` | mad/Pods/leveldb-library/db/write_batch.cc:132-137 | for any bytes, the updates up to the first malformed one go in under consecutive numbers, and the count is checked |
| `WriteBatches.RecoverLogFile` | mad/Pods/leveldb-library/db/db_impl.cc:412-439 | for any file, every record is replayed in order and short ones are passed over |
| `WriteBatches.CrashReplay` | mad/Pods/leveldb-library/db/db_impl.cc:412-439 | from any byte prefix of the log, recovery yields exactly the updates of the complete batches under their numbers |
| `WriteBatches.SyncedSurvives` | mad/Pods/leveldb-library/db/db_impl.cc:1215-1232 | if a crash keeps what was synced, every update of a synchronous write reported as done is recovered under its sequence number |
| `SkipList.RunsKeepInv` | mad/Pods/leveldb-library/db/skiplist.h:336-368 | at every single load and store of every interleaving, each level is a sorted sublist of the level below and readers stand on linked nodes |
| `SkipList.FindGreaterOrEqualIsLinearizable` | mad/Pods/leveldb-library/db/skiplist.h:260-281 | a racing search returns a node not before the key, and not after any such node present when it began |
| `SkipList.FindLessThanIsLinearizable` | mad/Pods/leveldb-library/db/skiplist.h:283-322 | the same for the last node before a key, and for the last node |
| `SkipList.NothingUnlinked` | mad/Pods/leveldb-library/db/skiplist.h:336-368 | a node once linked stays linked |
| `SkipList.InsertionLands` | mad/Pods/leveldb-library/db/skiplist.h:336-368 | over every run, when an insertion of a key has finished, there is exactly one node more at level 0, it has that key, and it is linked on exactly the levels of the height chosen for it |
| `SkipList.InsertedIsFound` | mad/Pods/leveldb-library/db/skiplist.h:260-281 | a search for the key that begins after the insertion has finished returns a node with that key |
| `SkipList.InsertionCanFinish` | mad/Pods/leveldb-library/db/skiplist.h:336-368 | from every state of a run the inserter can finish what it has begun, whatever readers do |
| `DbIter.ViewIsHistory` | mad/Pods/leveldb-library/db/db_iter.cc:141-299 | the sequence shown at a possible snapshot is the map that the history of writes defines |
| `DbIter.ViewAgreesWithGet` | mad/Pods/leveldb-library/db/db_iter.cc:168-198 | a key is shown with a value exactly if a point read at the same snapshot finds that value |
| `DbIter.ViewSorted` | mad/Pods/leveldb-library/db/db_iter.cc:168-198 | user keys are shown in increasing order, each once |
| `DbIter.DBIter.Next` | mad/Pods/leveldb-library/db/db_iter.cc:141-166 | moves the cursor to the next shown entry, also after a change of direction |
| `DbIter.DBIter.Prev` | mad/Pods/leveldb-library/db/db_iter.cc:200-225 | moves the cursor to the previous shown entry, also after a change of direction |
| `DbIter.DBIter.FindNextUserEntry` | mad/Pods/leveldb-library/db/db_iter.cc:168-198 | stops at the first shown entry from the position on and passes none |
| `DbIter.DBIter.FindPrevUserEntry` | mad/Pods/leveldb-library/db/db_iter.cc:227-267 | stops at the last shown entry before the position and passes none |
| `DbIter.DBIter.Seek` | mad/Pods/leveldb-library/db/db_iter.cc:269-281 | to the first shown entry not before the target |
| `DbIter.DBIter.SeekToFirst` | mad/Pods/leveldb-library/db/db_iter.cc:283-292 | to the first shown entry |
| `DbIter.DBIter.SeekToLast` | mad/Pods/leveldb-library/db/db_iter.cc:294-299 | to the last shown entry |
| `TwoLevelIters.TwoLevelIterator.Seek` | mad/Pods/leveldb-library/table/two_level_iterator.cc:82-87 | to the first of all entries not before the target, through the index and past empty blocks |
| `TwoLevelIters.TwoLevelIterator.SeekToFirst` | mad/Pods/leveldb-library/table/two_level_iterator.cc:89-94 | to the first of all entries |
| `TwoLevelIters.TwoLevelIterator.SeekToLast` | mad/Pods/leveldb-library/table/two_level_iterator.cc:96-101 | to the last of all entries |
| `TwoLevelIters.TwoLevelIterator.Next` | mad/Pods/leveldb-library/table/two_level_iterator.cc:103-107 | moves one cursor over the entries of all blocks forward by one |
| `TwoLevelIters.TwoLevelIterator.Prev` | mad/Pods/leveldb-library/table/two_level_iterator.cc:109-113 | moves it back by one |
| `TwoLevelIters.TwoLevelIterator.SkipEmptyDataBlocksForward` | mad/Pods/leveldb-library/table/two_level_iterator.cc:115-126 | goes on to the next block with an entry without changing the position it stands for |
| `TwoLevelIters.TwoLevelIterator.SkipEmptyDataBlocksBackward` | mad/Pods/leveldb-library/table/two_level_iterator.cc:128-139 | goes back to the last block with an entry without changing the position it stands for |
| `TwoLevelIters.SeekInBlocks` | mad/Pods/leveldb-library/table/two_level_iterator.cc:82-87 | the first of all entries not before a target is found in the block that the index leads to, or right behind it |
| `TwoLevelIters.NewTableIterator` | mad/Pods/leveldb-library/table/table.cc:210-214 | the iterator of a table runs over exactly the entries the table was built from, in order |
| `InternalIters.NewConcatenatingIterator` | mad/Pods/leveldb-library/db/version_set.cc:223-228 | the iterator of a deeper level runs over the entries of its files, in order |
| `InternalIters.NewInternalIterator` | mad/Pods/leveldb-library/db/db_impl.cc:1062-1087 | the memtables, the level-0 files and the deeper levels are runs without a common key, and the iterator that merges them runs over exactly the entries of the tree |
| `Database.DBImpl.NewIterator` | mad/Pods/leveldb-library/db/db_impl.cc:1147-1157 | an iterator at a held snapshot or at the present lists a user key with a value exactly if the history of writes says so |
| `MergingIter.MergingIterator.Next` | mad/Pods/leveldb-library/table/merger.cc:55-79 | moves one cursor over the sorted union forward by one, repositioning the other runs after a change of direction |
| `MergingIter.MergingIterator.Prev` | mad/Pods/leveldb-library/table/merger.cc:81-108 | moves it back by one, with the same repositioning |
| `MergingIter.MergingIterator.Seek` | mad/Pods/leveldb-library/table/merger.cc:47-53 | to the first entry of the union not before the target |
| `MergingIter.MergingIterator.SeekToFirst` | mad/Pods/leveldb-library/table/merger.cc:31-37 | to the first entry of the union |
| `MergingIter.MergingIterator.SeekToLast` | mad/Pods/leveldb-library/table/merger.cc:39-45 | to the last entry of the union |
| `MergingIter.FindSmallest` | mad/Pods/leveldb-library/table/merger.cc:148-161 | a run whose current key no other run comes before |
| `MergingIter.FindLargest` | mad/Pods/leveldb-library/table/merger.cc:163-176 | a run whose current key comes before no other |
| `MergingIter.SmallestIsNext` | mad/Pods/leveldb-library/table/merger.cc:58-62 | with every run at its cut, the smallest current entry is the one of the union at the cut |
| `MergingIter.LargestIsPrevious` | mad/Pods/leveldb-library/table/merger.cc:84-88 | with every run before its cut, the largest current entry is the one of the union before the cut |
| `BlockFormat.EntryReads` | mad/Pods/leveldb-library/table/block.cc:54-74 | the header of an entry is decoded as it was encoded, by the short cut and by the general path |
| `BlockFormat.InsideIffNoWrap` | mad/Pods/leveldb-library/table/block.cc:54-74 | for any bytes of a block below 4 GB, an entry that is accepted lies inside the block if and only if the sum of its two lengths is below 2^32 |
| `BlockFormat.WrappedEntry` | mad/Pods/leveldb-library/table/block.cc:70-72 | seven bytes that are accepted as an entry with a key of 4 GB less one byte |
| `BlockFormat.GrownLayout` | mad/Pods/leveldb-library/table/block_builder.cc:72-106 | one more entry, shared or at a restart point, keeps the layout of the block |
| `BlockBuilders.BlockBuilder.Add` | mad/Pods/leveldb-library/table/block_builder.cc:72-106 | the block holds one entry more, which shares its longest common prefix with the key before it unless it is a restart point, and restart points stay exactly one interval apart |
| `BlockBuilders.BlockBuilder.Finish` | mad/Pods/leveldb-library/table/block_builder.cc:62-70 | appends the restart points and their number |
| `BlockIters.BlockIter.ParseNextKey` | mad/Pods/leveldb-library/table/block.cc:224-251 | decodes exactly the next entry from the key before it, or ends |
| `BlockIters.BlockIter.Next` | mad/Pods/leveldb-library/table/block.cc:137-140 | moves to the next entry |
| `BlockIters.BlockIter.Prev` | mad/Pods/leveldb-library/table/block.cc:142-161 | moves to the previous entry, across restart points, so it undoes Next |
| `BlockIters.BlockIter.Seek` | mad/Pods/leveldb-library/table/block.cc:163-201 | binary search and scan land on the first key not before the target |
| `BlockIters.BlockIter.SeekToFirst` | mad/Pods/leveldb-library/table/block.cc:203-206 | to the first entry |
| `BlockIters.BlockIter.SeekToLast` | mad/Pods/leveldb-library/table/block.cc:208-213 | to the last entry |
| `Separators.FindShortestSeparator` | mad/Pods/leveldb-library/util/comparator.cc:29-50 | the first string, or one no longer that lies strictly between the two; shortened exactly if they first differ by more than one |
| `Separators.FindShortSuccessor` | mad/Pods/leveldb-library/util/comparator.cc:52-64 | the key, or one no longer and strictly after it; the key itself exactly if all its bytes are 0xff |
| `Separators.InternalSeparator` | mad/Pods/leveldb-library/db/dbformat.cc:69-86 | the key, or one whose user key lies strictly between those of the two |
| `Separators.InternalSuccessor` | mad/Pods/leveldb-library/db/dbformat.cc:88-101 | the key, or one with a greater user key |
| `Bloom.CreateFilter` | mad/Pods/leveldb-library/util/bloom.cc:28-54 | the filter matches every key it was made for, and a bit is set exactly if one of the probes for one of the keys hits it |
| `Bloom.KeyMayMatch` | mad/Pods/leveldb-library/util/bloom.cc:56-80 | says exactly whether all probed bits are set |
| `FilterBlock.FilterBlockBuilder.StartBlock` | mad/Pods/leveldb-library/table/filter_block.cc:21-27 | the next filter is the one for the offset, and every key added stays covered |
| `FilterBlock.FilterBlockBuilder.AddKey` | mad/Pods/leveldb-library/table/filter_block.cc:29-33 | the key belongs to the filter for the offset of the open block |
| `FilterBlock.FilterBlockBuilder.GenerateFilter` | mad/Pods/leveldb-library/table/filter_block.cc:51-75 | all waiting keys are in the new filter, and earlier filters are unchanged |
| `FilterBlock.FilterBlockBuilder.Finish` | mad/Pods/leveldb-library/table/filter_block.cc:35-49 | reading the contents back at the offset of a block never rules out a key added for it |
| `FilterBlock.NothingMissed` | mad/Pods/leveldb-library/table/filter_block.cc:90-104 | the offsets found in the contents lead to the filter that was stored |
| `Tables.BlockAnswers` | mad/Pods/leveldb-library/table/table.cc:216-244 | the one block that the index leads to answers for the table, and answers nothing if its filter rules the key out |
| `Tables.RightBlock` | mad/Pods/leveldb-library/table/table_builder.cc:102-109 | a visible entry is in the block that the shortened keys lead to, or that block has an earlier one of the same key |
| `TableBuilders.TableBuilder.Add` | mad/Pods/leveldb-library/table/table_builder.cc:94-123 | the entry is added to the bytes of the open block, the block before it gets an index key that separates them, and the block is written exactly if it has reached its size |
| `TableBuilders.TableBuilder.Flush` | mad/Pods/leveldb-library/table/table_builder.cc:125-139 | the bytes of the open block go to the end of the file, where its handle and its filter point |
| `TableBuilders.TableBuilder.Finish` | mad/Pods/leveldb-library/table/table_builder.cc:198-253 | the file holds all data blocks, the filter, the metaindex, the index and the footer at the handles written, and the table they make up has exactly the entries added |
| `TableFiles.ClosedHolds` | mad/Pods/leveldb-library/table/table_builder.cc:205-251 | whatever is appended, every part is found at its handle |
| `TableFormat.KeyLessIsBefore` | mad/Pods/leveldb-library/db/dbformat.cc:51-67 | the order of internal keys as bytes is increasing user key, then decreasing sequence number and type |
| `TableFormat.StoredReads` | mad/Pods/leveldb-library/table/format.cc:64-139 | a block that was stored passes its checksum and is read back |
| `TableFormat.VerifiedIffStored` | mad/Pods/leveldb-library/table/format.cc:86-103 | with checksums verified, a block is read if and only if it stands in the file as it was stored |
| `TableFormat.FooterHasMagic` | mad/Pods/leveldb-library/table/format.cc:41-52 | a file is accepted only with the eight bytes of the magic number at its end |
| `TableFormat.FooterReads` | mad/Pods/leveldb-library/table/format.cc:31-62 | both handles are read back from the footer |
| `TableReaders.SeekIn` | mad/Pods/leveldb-library/table/table.cc:220-231 | seeking in the bytes of a block gives the first of the entries it was built of not before the target |
| `TableReaders.Open` | mad/Pods/leveldb-library/table/table.cc:38-134 | opening a finished file yields its index block, and its filter exactly if the policy has the same name |
| `TableReaders.InternalGet` | mad/Pods/leveldb-library/table/table.cc:216-244 | the lookup through the bytes of index, filter and data block returns what a scan of all entries returns |
| `TableReaders.BuildTable` | mad/Pods/leveldb-library/table/table_builder.cc:94-253 | sorted entries become a file that holds them, and that represents a table of exactly these entries if each block is below 4 GB |
| `TableReaders.LookUp` | mad/Pods/leveldb-library/table/table.cc:38-244 | such a file, opened with any filter policy and asked for any key at any sequence number, answers as the entries do |
| `LogWriter.Writer.AddRecord` | mad/Pods/leveldb-library/db/log_writer.cc:34-80 | appends exactly the fragments that the record means at this offset, with block tails filled |
| `LogWriter.WriteSession` | mad/Pods/leveldb-library/db/log_writer.cc:27-30 | resuming at the length of a file continues the log as if it had never been closed |
| `LogReader.Reader.ReadPhysicalRecord` | mad/Pods/leveldb-library/db/log_reader.cc:189-271 | for any file, returns and reports what the bytes at the offset mean |
| `LogReader.Reader.ReadRecord` | mad/Pods/leveldb-library/db/log_reader.cc:56-174 | for any file, assembles the next record and reports as the bytes say |
| `LogReader.ReadLog` | mad/Pods/leveldb-library/db/log_reader.cc:56-174 | for any file, all records and the number of reports; with checksums on, each record consists of intact pieces |
| `LogReader.GoodIsIntact` | mad/Pods/leveldb-library/db/log_reader.cc:216-271 | on bytes: with checksums on, a physical record is returned if and only if it is whole, not blank, and its stored word unmasks to the checksum of type byte and payload |
| `LogReader.IntactIffFramed` | mad/Pods/leveldb-library/db/log_writer.cc:82-108 | that is the case exactly if the bytes are those that the writer puts down for this type and payload |
| `LogReader.RefusedMeans` | mad/Pods/leveldb-library/db/log_reader.cc:189-257 | on bytes: which places end the log, which are reported, and where reading goes on after what is dropped |
| `LogReader.RecordsAreIntact` | mad/Pods/leveldb-library/db/log_reader.cc:56-174 | every record read with checksums on is the payload of one full record, or of a first, middle ones and a last that follow each other, each intact in the file |
| `LogReader.DamageIsReported` | mad/Pods/leveldb-library/db/log_reader.cc:222-257 | a record with a wrong checksum or one that runs over its block is reported once, and reading goes on at the end of the block |
| `LogReader.TornIsSilent` | mad/Pods/leveldb-library/db/log_reader.cc:206-233 | a record that the end of the file cuts off ends the log without a report |
| `LogReader.MisplacedIsReported` | mad/Pods/leveldb-library/db/log_reader.cc:123-168 | an intact middle or last piece without a first one, or a record of unknown type, is reported once and left out |
| `LogReader.UnfinishedIsReported` | mad/Pods/leveldb-library/db/log_reader.cc:92-121 | an intact first piece that another record follows instead of its continuation is reported once and left out |
| `LogReader.ReportsIffTypesTold` | mad/Pods/leveldb-library/db/log_reader.cc:82-174 | for any file, records and reports are those that the format promises if and only if no intact record has type byte 5 or, outside a fragmented record, type byte 6; otherwise fewer reports are made |
| `LogReader.EndsAtTypeFive` | mad/Pods/leveldb-library/db/log_reader.cc:144-151 | nothing behind an intact record with type byte 5 is read |
| `LogRoundTrip.RecordsHidden` | mad/Pods/leveldb-library/db/log_reader.cc:144-165 | the bytes of a record of type 5 or 6 with any intact record behind it: nothing is reported, with type 5 the intact record is not read, and the format promises one report and the record |
| `LogRoundTrip.CrashSafe` | mad/Pods/leveldb-library/db/log_reader.cc:56-271 | reading any byte prefix of a log from its start returns exactly the records wholly inside it, in order, and reports nothing |
| `LogRoundTrip.CompleteMeans` | mad/Pods/leveldb-library/db/log_writer.cc:34-80 | a record counts as inside exactly if its last byte is |
| `LogFormat.UnmaskMask` | mad/Pods/leveldb-library/util/crc32c.h:29-38 | unmasking undoes masking of a checksum |
| `LogFormat.ExtendValue` | mad/Pods/leveldb-library/util/crc32c.h:14-20 | a checksum can be extended by more data |
| `HandleTables.HandleTable.Insert` | mad/Pods/leveldb-library/util/cache.cc:78-92 | the table stands for the map with the name bound to the new handle, the old one returned, and has at least as many chains as handles |
| `HandleTables.HandleTable.Remove` | mad/Pods/leveldb-library/util/cache.cc:94-102 | the table stands for the map without the name, and returns what it was bound to |
| `HandleTables.HandleTable.Lookup` | mad/Pods/leveldb-library/util/cache.cc:74-76 | returns what the map binds the name to |
| `HandleTables.Rehash` | mad/Pods/leveldb-library/util/cache.cc:122-146 | moving all items to other chains keeps the map and their number |
| `LruCaches.LRUCache.Insert` | mad/Pods/leveldb-library/util/cache.cc:266-303 | binds the name, evicts unreferenced handles oldest first, and ends within capacity or with nothing left to evict; says exactly whose deleters ran |
| `LruCaches.LRUCache.Lookup` | mad/Pods/leveldb-library/util/cache.cc:252-259 | returns the bound handle with one more client reference and out of the eviction list |
| `LruCaches.LRUCache.Release` | mad/Pods/leveldb-library/util/cache.cc:261-264 | drops one client reference, runs the deleter exactly if it was the last reference, and puts a handle that only the cache holds at the newest end of the eviction list |
| `LruCaches.LRUCache.Erase` | mad/Pods/leveldb-library/util/cache.cc:318-321 | unbinds the name and takes its handle out of its list and its charge off; the deleter runs exactly if no client holds the handle, and clients that do keep it |
| `LruCaches.LRUCache.Prune` | mad/Pods/leveldb-library/util/cache.cc:323-333 | erases exactly the handles that no client holds |
| `LruCaches.LRUCache.FinishErase` | mad/Pods/leveldb-library/util/cache.cc:307-316 | takes a handle out of its list and drops the reference of the cache |
| `LruCaches.ErasedOk` | mad/Pods/leveldb-library/util/cache.cc:225-237 | erasing keeps lists, charges, reference counts, table and deleters consistent |
| `LruCaches.ReleasedOk` | mad/Pods/leveldb-library/util/cache.cc:225-237 | so does giving back a handle |
| `LruCaches.CachedOk` | mad/Pods/leveldb-library/util/cache.cc:283-288 | so does adding one |
| `LruCaches.DeletedExactly` | mad/Pods/leveldb-library/util/cache.cc:225-237 | a deleter has run exactly if neither a client nor the cache refers to the handle |
| `ThreadPool.RunsKeepInv` | mad/Pods/Libuv-gRPC/src/threadpool.c:57-160 | the invariant of queues, counters, workers and requests holds in every interleaving of posters, workers and loops |
| `ThreadPool.PoolIsSafe` | mad/Pods/Libuv-gRPC/src/threadpool.c:57-160 | slow work running equals the counter and never exceeds half the workers rounded up, pending slow work has its marker queued, a request runs at most once and never after being cancelled, its done callback runs at most once, and never do all workers sleep unsignalled on runnable work |
| `ThreadPool.CancellableMeans` | mad/Pods/Libuv-gRPC/src/threadpool.c:269-293 | the test for cancelling succeeds exactly for requests of which no run has begun |
| `ThreadPool.ServedInOrder` | mad/Pods/Libuv-gRPC/src/threadpool.c:144-160 | over every run, when a worker begins a request, every request of its kind (slow or not) that was submitted before has been begun or cancelled before |
| `ThreadPool.CalledInOrder` | mad/Pods/Libuv-gRPC/src/threadpool.c:295-315 | over every run, when the done callback of a request is made, every request handed back to that loop before it has had its callback, unless a cancellation took it back |
| `ThreadPool.InternalDecreases` | mad/Pods/Libuv-gRPC/src/threadpool.c:69-138 | steps that need nothing from outside cannot go on for ever |
| `ThreadPool.NeverStuck` | mad/Pods/Libuv-gRPC/src/threadpool.c:74-80 | as long as a request is not done, some such step is possible |
| `ThreadPool.QuietMeansDone` | mad/Pods/Libuv-gRPC/src/threadpool.c:295-315 | when no such step is left, every request has had its done callback once |
| `ThreadPool.InternalRunsEnd` | mad/Pods/Libuv-gRPC/src/threadpool.c:57-160 | without new submissions and cancellations every run of steps keeps the requests with their loops and kinds, and can only stop with every one done |
| `ThreadPool.EveryRequestFinishes` | mad/Pods/Libuv-gRPC/src/threadpool.c:57-160 | from every reachable pool a run of such steps brings every posted request to its one done callback |
| `MinHeap.Heap.Swap` | mad/Pods/Libuv-gRPC/src/heap-inl.h:72-104 | rewriting the links around a parent and its child exchanges exactly these two positions of the complete tree |
| `MinHeap.Heap.Insert` | mad/Pods/Libuv-gRPC/src/heap-inl.h:106-148 | the tree stays complete, consistently linked and ordered, with the new node and all old ones |
| `MinHeap.Heap.Remove` | mad/Pods/Libuv-gRPC/src/heap-inl.h:150-237 | the same for taking out an arbitrary node |
| `MinHeap.Heap.Min` | mad/Pods/Libuv-gRPC/src/heap-inl.h:67-69 | the root comes before no other node, and there is none exactly if the heap is empty |
| `MinHeap.PathTo` | mad/Pods/Libuv-gRPC/src/heap-inl.h:122-124 | the computed path leads from the root to the position |
| `MinHeap.RiseStep` | mad/Pods/Libuv-gRPC/src/heap-inl.h:143-147 | one swap upwards leaves at most the next pair out of order |
| `MinHeap.SinkStep` | mad/Pods/Libuv-gRPC/src/heap-inl.h:216-229 | one swap downwards leaves at most the next pairs out of order |
| `MinHeap.RootIsLeast` | mad/Pods/Libuv-gRPC/src/heap-inl.h:33-39 | in heap order nothing comes before the root |
| `Timers.EventLoop.Start` | mad/Pods/Libuv-gRPC/src/timer.c:66-94 | the timer is in the heap with its clamped deadline and the next start number; refused without change when closing or without callback |
| `Timers.EventLoop.Stop` | mad/Pods/Libuv-gRPC/src/timer.c:97-107 | the timer is not in the heap, and nothing else changes |
| `Timers.EventLoop.Again` | mad/Pods/Libuv-gRPC/src/timer.c:110-120 | a repeating timer is restarted with its interval; refused when never started |
| `Timers.EventLoop.RunTimers` | mad/Pods/Libuv-gRPC/src/timer.c:154-171 | if the pass settles it ends: exactly the timers that go off went off, each once and in order, nothing due is left, and the timers still active are those that no callback stopped and that did not go off or repeat; callbacks may stop any timer but start none |
| `Timers.EndsIffSettles` | mad/Pods/Libuv-gRPC/src/timer.c:154-171 | the loop ends if and only if the clock is before its last value, or every active repeating timer is stopped by the callback of one that goes off |
| `Timers.UnsettledGoesOn` | mad/Pods/Libuv-gRPC/src/timer.c:154-171 | otherwise something is due after every number of rounds |
| `Timers.EndlessPass` | mad/Pods/Libuv-gRPC/src/timer.c:154-171 | one repeating timer at the last instant whose callback stops nothing never lets the loop end |
| `Timers.SettledInTurn` | mad/Pods/Libuv-gRPC/src/timer.c:38-55 | timers go off in the order of (timeout, start number), and none after being stopped |
| `Timers.EndedPass` | mad/Pods/Libuv-gRPC/src/timer.c:154-171 | when nothing is due, exactly the due timers went off that no timer going off before them had stopped, and the others are as they were |
| `Timers.TrackStep` | mad/Pods/Libuv-gRPC/src/timer.c:164-170 | what one round does to timers that went off, are still to come, or were stopped |
| `Timers.RearmedIsFuture` | mad/Pods/Libuv-gRPC/src/timer.c:78-80 | re-arming lies in the future exactly if the interval is not zero and the clock not at its end |
| `Timers.EventLoop.NextTimeout` | mad/Pods/Libuv-gRPC/src/timer.c:133-151 | -1 exactly without timers, never past a deadline, and no shorter than need be |
| `Inet4.RoundTrip4` | mad/Pods/Libuv-gRPC/src/inet.c:179-215 | the text of every IPv4 address is parsed back to it |
| `Inet4.Pton4` | mad/Pods/Libuv-gRPC/src/inet.c:179-215 | accepts exactly the texts of four octets as they are printed, and refuses every other text |
| `Inet4.AcceptedTexts` | mad/Pods/Libuv-gRPC/src/inet.c:179-215 | a text is read as an address if and only if it is the text of that address |
| `Inet6.FindRun` | mad/Pods/Libuv-gRPC/src/inet.c:88-111 | the leftmost of the longest zero runs, if it has at least two words |
| `Inet6.Ntop6` | mad/Pods/Libuv-gRPC/src/inet.c:67-147 | prints the text with that run left out; fails exactly if the buffer has a size, and not one for the text and its end |
| `Inet6.Strscpy` | mad/Pods/Libuv-gRPC/src/strscpy.c:4-17 | copies the text or what fits of it, and fails exactly if a nonempty buffer is too short |
| `Inet6.Pton6` | mad/Pods/Libuv-gRPC/src/inet.c:218-302 | accepts exactly the texts of the grammar: eight words of one to four hexadecimal digits, or fewer around one double colon, the last two words perhaps a dotted address; and yields the address denoted |
| `Inet6.AcceptedTexts` | mad/Pods/Libuv-gRPC/src/inet.c:218-302 | a text is read as an address if and only if the grammar says that it denotes it |
| `Inet6.RoundTrip6` | mad/Pods/Libuv-gRPC/src/inet.c:218-302 | every address is parsed back from its text, with leading, middle and trailing runs and embedded IPv4 forms |
| `Inet6.TextFits` | mad/Pods/Libuv-gRPC/src/inet.c:75-75 | the text always fits the buffer of 46 characters |
| `Inet6.TextIsCanonical` | mad/Pods/Libuv-gRPC/src/inet.c:113-139 | letters are printed in lower case, and the dotted form is used exactly if the run left out is that of the first six words, or of the first five before ffff |
| `Inet6.PrintAndParse` | mad/Pods/Libuv-gRPC/src/inet.c:67-147 | printing and parsing together give back the sixteen bytes |
| `PbWire.EncodeVarint` | mad/Pods/nanopb/pb_encode.c:608-627 | the buffer holds groups of seven bits, lowest first |
| `Coding.VarintRoundTrip` | mad/Pods/nanopb/pb_decode.c:255-275 | every 64-bit number is read back and what follows is left |
| `PbWire.Varint32RoundTrip` | mad/Pods/nanopb/pb_decode.c:187-247 | the reader of 32-bit numbers inverts the encoder on all of them |
| `PbWire.ZigzagRoundTrip` | mad/Pods/nanopb/pb_encode.c:629-639 | zigzag decoding undoes encoding for every 64-bit integer |
| `PbWire.FixedRoundTrip` | mad/Pods/nanopb/pb_encode.c:641-669 | little-endian words of any width are read back |
| `PbSchema.DefaultSlotsTyped` | mad/Pods/nanopb/pb_decode.c:845-928 | initialising a message gives every field a value in bounds |
| `PbSchema.DefaultIsInitial` | mad/Pods/nanopb/pb_encode.c:238-337 | what the zero test lets be left out is what initialisation stores |
| `PbEncode.EncodeMessage` | mad/Pods/nanopb/pb_encode.c:528-550 | succeeds exactly if the message has an encoding and it fits, and then has written exactly it; on a counting stream, exactly its length |
| `PbEncode.EncodeSubmessage` | mad/Pods/nanopb/pb_encode.c:717-765 | the counting pass predicts the bytes that the writing pass writes, so their difference is never reported |
| `PbEncode.EncodeSlot` | mad/Pods/nanopb/pb_encode.c:341-426 | required, optional, repeated and oneof fields, with or without a presence flag |
| `PbEncode.EncodeArray` | mad/Pods/nanopb/pb_encode.c:147-236 | arrays are packed when the type allows and refused when too long |
| `PbEncode.EncodePacked` | mad/Pods/nanopb/pb_encode.c:163-199 | the length of a packed array, multiplied or counted, is that of the bytes that follow |
| `PbEncode.GetEncodedSize` | mad/Pods/nanopb/pb_encode.c:567-576 | the size is exactly what encoding writes |
| `PbDecoder.FieldIter.Seek` | mad/Pods/nanopb/pb_common.c:87-104 | the cyclic search finds the field with the tag from any position, and fails exactly if there is none |
| `PbDecoder.CheckRequired` | mad/Pods/nanopb/pb_decode.c:1039-1079 | succeeds exactly if the required fields, the first 64 of them, have been seen |
| `PbDecoder.DecodeNoinit` | mad/Pods/nanopb/pb_decode.c:934-1082 | for any input, the loop over tags computes what the bytes mean |
| `PbRoundTrip.TaggedReads` | mad/Pods/nanopb/pb_decode.c:414-478 | the encoding of a single value is read into an initialised slot as that value |
| `PbRoundTrip.ElementReads` | mad/Pods/nanopb/pb_decode.c:454-464 | the encoding of an array element is appended to the elements before it |
| `PbRoundTrip.PackedReads` | mad/Pods/nanopb/pb_decode.c:425-453 | the encoding of a packed array is read as all its elements |
| `PbRoundTrip.ValueRoundTrip` | mad/Pods/nanopb/pb_decode.c:1334-1570 | the encoding of a value of any type, submessages included, is read back as the value |
| `PbDecoder.Decode` | mad/Pods/nanopb/pb_decode.c:1084-1096 | for any input, whatever is accepted is a message in which every count and length is in bounds |
| `PbRoundTrip.RoundTrip` | mad/Pods/nanopb/pb_decode.c:934-1096 | for every nested description with distinct tags and every message in bounds there is an encoding, and it decodes to the message if no string, submessage or packed array in it is 4 GB long or more |
| `PbRoundTrip.MessageRoundTrip` | mad/Pods/nanopb/pb_decode.c:952-1030 | reading the fields one after the other fills in exactly the slots encoded |
| `PbRoundTrip.EmptyIsInitial` | mad/Pods/nanopb/pb_encode.c:341-426 | only what initialisation stores anyway is encoded as nothing |
| `PbRoundTrip.StringNeedsTerminator` | mad/Pods/nanopb/pb_decode.c:1487-1523 | a string that fills its array encodes but is refused by the decoder, and only such a string |
| `PbRoundTrip.SignBitsLeftOut` | mad/Pods/nanopb/pb_decode.c:1345-1380 | a negative number of at most 32 bits is also read without its upper sign bits |
| `PbRoundTrip.TooLargeIsRefused` | mad/Pods/nanopb/pb_decode.c:1382-1404 | an unsigned number is read if it fits the field and refused otherwise |
| `PbRoundTrip.NonzeroIsTrue` | mad/Pods/nanopb/pb_decode.c:1334-1343 | any 32-bit number but zero is read as true |
| `PbRoundTrip.UnpackedElementReads` | mad/Pods/nanopb/pb_decode.c:454-464 | an array that would be packed is also read element by element, and refused when full |
| `PbUnknown.UnknownIsIgnored` | mad/Pods/nanopb/pb_decode.c:976-1000 | inserting any well-formed field with a tag that the description does not have, of each wire type, between any two fields leaves the meaning of the input unchanged |
| `PbUnknown.UnknownInFront` | mad/Pods/nanopb/pb_decode.c:321-331 | a varint of any length, eight bytes, a length with as many bytes, or four bytes behind an unknown tag are passed over |
| `PbUnknown.MalformedIsRefused` | mad/Pods/nanopb/pb_decode.c:321-331 | an unknown field of another wire type, or one cut short, makes decoding fail |
| `PbUnknown.FieldTakes` | mad/Pods/nanopb/pb_decode.c:934-1030 | what one field takes from the input does not depend on what follows it |
| `PbUnknown.ValueIsBody` | mad/Pods/nanopb/pb_encode.c:672-707 | the encoding of a value has the form that the wire type in its tag announces |
| `PbUnknown.MessageIsPassed` | mad/Pods/nanopb/pb_decode.c:976-1000 | the encoding of any message, read with a description that has none of its tags, changes nothing |

## Left out

- User keys are places in a total order, represented by reals; `InternalKeys.RankOrder` embeds byte strings. Sequence numbers are unbounded; the 56-bit limit is not reached.
- A flush in the middle of a running compaction (db_impl.cc:908-918), manual `CompactRange`, compaction scores, seek statistics, write throttling and background scheduling.
- Sizes of files and the points where outputs are cut are parameters; in the tree model a table is its sorted sequence of entries.
- Corruption of internal keys, I/O errors during flush and compaction, and repair. Blocks are read as they were built: the branches that report a corrupt block are not part of the iterator model.
- The checksum table and Snappy: a checksum is a fold of an abstract step, and blocks are not compressed. Lookups are stated for table files as they were finished; of damaged ones only that a block is refused. The block cache in front of them is not part of this model.
- Reading a log from an offset other than 0, and resuming after a torn record. Recovery of the write-ahead log with paranoid checks, and the flushes in its course.
- Debug checks that abort when files of a built version overlap. Manifest: compaction pointers are decoded but not carried over, an old manifest is not reused, and failing file operations are left out. The table files on disk and the byte strings of user keys are given by a catalog.
- `DbIter` does not model corrupted keys or read sampling. The children of the merging iterator and the blocks of the two-level iterator are sequences, which other members show to be what tables, levels and block bytes hold; errors while a block is fetched are not modelled, nor are writes to the memtable while an iterator is in use.
- Group commit: the size of a batch is given with it; recovery from a failed log write is not modelled. The log is one sequence of records; that a memtable switch begins a new file for it is not modelled.
- Weak memory in the skip list: each load and store is one atomic step. The random height is a parameter.
- Cache: linked lists and chains are sequences; sharding and the hash function are not part of this model.
- Thread pool: start-up, exit message and fork. Each critical section of a worker is one step.
- Heap: the node count is unbounded, so its 32-bit path never wraps. Timers: start numbers are unbounded, and callbacks that start timers are not modelled.
- Addresses: zone suffixes after a percent sign, and the choice of address family.
- nanopb: pointer fields, callbacks, extensions, fixed-count arrays, input with field number 0 for an empty message, streams other than memory, and the 8-bit wrap-around of the bit counter in varints longer than 36 bytes. Structs are typed values; the members of a union are slots of which at most one is present.
- FilterBlock.FilterBlockBuilder.Finish: promises matches only for contents below 4 GB, as offsets in them have 32 bits.
- TableBuilders.TableBuilder.Finish: promises that entries can be looked up only if every block is below 4 GB, as lengths and offsets in blocks have 32 bits.
- Flutter runners, platform glue, file operations, loggers and bindings.
