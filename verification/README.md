# LevelDB and nanopb, modelled and proved in Dafny

This project models the storage engine LevelDB (`ios/Pods/leveldb-library`) and the protocol buffer
codec nanopb (`ios/Pods/nanopb`), and proves what they promise.

**What the store means.** A history of writes gives each write a sequence number; a read at a
snapshot returns the last write at or before it. `StoreMachine` runs writes, memtable switches,
flushes, compactions, trivial moves, snapshots and reopening as atomic steps and proves that every
read in every reachable state returns just that. It rests on the drop rule of compaction
(`CompactionMeaning`, `CompactionWork`), on how inputs are chosen (`InputSelection`,
`CompactionInputs`, `CompactionTurns`), on what a new version keeps (`VersionChanges`), and on the
lookup order (`PointLookup`). `UserView` and `DbIter` do the same for the user's iterator, over the
cursors of `Merger` and `TwoLevel`; `Cursors` is the plain cursor that every iterator is measured
by. `StoreIterators` puts the iterators together over a store state, and `StoredLookup` carries the
lookup across levels down to the bytes of the table files.

**Protocols.** `Durability*` adds the disk, the manifest, crashes and recovery; `BatchGroups` and
`GroupCommit` the writer queue; `Scheduling` the background thread; `SkipListReaders` a reader
searching the memtable while it grows. In each, a region that holds the mutex, or a single load or
store, is one step, and theorems are about all runs.

**Formats.** The log (`Log*`, `Crc32c`), write batches, internal keys and memtable entries
(`KeyFormat`), blocks (`Block*`), version edits and manifest replay (`VersionEdits`, `Manifests`,
`VersionSets`), filters and table files (`Bloom`, `FilterBlocks`, `TableFormat`, `TableShapes`,
`Tables`), with writers and readers modelled separately.

**Structures.** The skip list (`SkipLists`), the LRU cache (`HandleTables`, `CacheStates`,
`LruCaches`, `CacheRuns`) and the list of snapshots (`Snapshots`), linked in place: nodes and
handles are named by their allocation number, and links are fields that the methods store into.

**nanopb.** `PbScalars`, `PbMessages`, `PbDecoding`, `PbEncoding`, `PbRoundTrip`: descriptors,
message structures, the two-pass encoder, the decoder's loop, and the round trip; `PbStreams` is
about streams the encoder did not write.

Four statements that one might expect hold only on a condition, which is given exactly, with an
input for which they fail. A compaction preserves reads if and only if no tombstone it drops hides
something older that is left behind (`CompactionMeaning.CompactionPreservesReads`); that it can
happen to inputs the code chooses is shown in `CompactionHazards`. Replaying a manifest through one
builder gives what the edits gave one by one if and only if no file number is used again on a level
after it was taken off (`Manifests.ManyAtOnceIff`, `VersionSets.ReplayRebuilds`); a manifest can
hold such records (`VersionSets.ReusedNumberOpensBoth`), though the edits that flushes, compactions
and moves log never do (`VersionSets.NumbersStillHold`). And nanopb reads back what it wrote if and
only if every string leaves room for its terminator (`PbRoundTrip.RoundTrip`,
`PbRoundTrip.UnterminatedStringRejected`). Damage to a log keeps to the blocks it is in unless it
makes a record of type five, which the reader takes for the end of the file
(`LogDamage.DamageKeepsToItsBlocks`, `LogDamage.TypeFiveEndsReading`).

User keys in the modules about the store's meaning are integers, their ranks in the comparator's
order: that code only compares them, and `Bytewise.RankEmbeds` shows that any finite set of byte
strings can be ranked so. Modules about formats use byte strings. Integers are unbounded except
where a width decides the outcome: 32-bit and 64-bit words, varints, zigzag, checksums, restart
offsets.

To check everything: `dafny verify dfyconfig.toml`.

## Model

| member | source | states |
|---|---|---|
| CompactionMeaning.CompactionPreservesReads | ios/Pods/leveldb-library/db/db_impl.cc:899-1009 | the drop rule preserves every read at or above the smallest snapshot if and only if no dropped tombstone, being the newest visible entry, hides a readable older entry that is left behind or cannot be parsed |
| CompactionMeaning.SurvivorsSorted | ios/Pods/leveldb-library/db/db_impl.cc:945-1003 | what a compaction keeps is still in internal key order |
| CompactionMeaning.KeptExactly | ios/Pods/leveldb-library/db/db_impl.cc:945-1003 | of any sorted input, the output holds just the entries that are not superseded by a newer one every snapshot sees and are not deletions with nothing left to hide |
| CompactionMeaning.KeptIfReadSomewhere | ios/Pods/leveldb-library/db/db_impl.cc:945-1003 | an entry is kept if and only if some snapshot that may be in use reads it, and it is not a deletion that all of them see with nothing below |
| CompactionWork.Compaction.IsBaseLevelForKey | ios/Pods/leveldb-library/db/version_set.cc:1510-1529 | the cursor that only moves forward answers, for ascending keys, exactly what a full scan of all deeper levels would |
| CompactionWork.DropState.ShouldDrop | ios/Pods/leveldb-library/db/db_impl.cc:945-986 | the loop's per-key state decides exactly the drop rule: an entry goes if a newer one every snapshot sees supersedes it, or if it is a deletion at or below the smallest snapshot with nothing deeper |
| CompactionWork.DoCompactionWork | ios/Pods/leveldb-library/db/db_impl.cc:916-1019 | the tables written hold, in order and in one piece each, exactly the entries to be carried over, no obsolete tombstone among them, wherever outputs are split; a run cut short by shutdown or a failed file holds only the first of them and says so |
| CompactionWork.CutsAreRight | ios/Pods/leveldb-library/db/db_impl.cc:929-1005 | no output goes on once it is full, and none holds entries from both sides of a place where the loop was told to stop |
| CompactionWork.CutsHaveCause | ios/Pods/leveldb-library/db/db_impl.cc:929-1005 | and every output but the last is full or ends where the loop was told to stop |
| CompactionHazards.UnparsableResurfaces | ios/Pods/leveldb-library/db/db_impl.cc:945-949 | a tombstone dropped above a key of unknown type lets that key resurface: a concrete input |
| CompactionHazards.OpenParentsResurrect | ios/Pods/leveldb-library/db/version_set.cc:1384-1387 | a version in which output-level inputs split a user key, found by overlap alone, brings a deleted value back: a concrete version |
| CompactionHazards.ChooseInputs | ios/Pods/leveldb-library/db/version_set.cc:1380-1439 | the selection code, run on that version from the upper table, comes to exactly those inputs |
| InputSelection.FindFile | ios/Pods/leveldb-library/db/version_set.cc:87-105 | the binary search returns the first file whose largest key is at or after the key |
| InputSelection.SomeFileOverlapsRange | ios/Pods/leveldb-library/db/version_set.cc:121-156 | true exactly when some file meets the user-key range, open ends included, sorted or not |
| InputSelection.GetOverlappingInputs | ios/Pods/leveldb-library/db/version_set.cc:498-538 | returns the files meeting the least range that contains the request and, on level 0, is closed under overlap; the restart loop ends |
| CompactionInputs.GetRange | ios/Pods/leveldb-library/db/version_set.cc:1182-1204 | least and greatest keys of a non-empty set of files |
| CompactionInputs.FindSmallestBoundaryFile | ios/Pods/leveldb-library/db/version_set.cc:1321-1340 | the first file that carries on the user key at which another ends |
| CompactionInputs.AddBoundaryInputs | ios/Pods/leveldb-library/db/version_set.cc:1355-1378 | ends with no remaining file carrying on the last user key, adding only files reached link by link, and keeps gapless choices gapless |
| CompactionInputs.ClosedNeedsNoBoundary | ios/Pods/leveldb-library/db/version_set.cc:1355-1378 | a choice closed under overlap gains nothing |
| CompactionInputs.SetupOtherInputs | ios/Pods/leveldb-library/db/version_set.cc:1380-1439 | inputs at both levels are closed as far as the code closes them; the upper level is widened exactly when that takes in more files, few enough bytes, and none more of the next level |
| CompactionInputs.PickCompaction | ios/Pods/leveldb-library/db/version_set.cc:1247-1301 | the inputs chosen for a size or seek compaction are joined up and closed under overlap; a size compaction takes the first file past the level's pointer, or the first of all, and passes none over |
| CompactionTurns.EveryFileHasItsTurn | ios/Pods/leveldb-library/db/version_set.cc:1247-1274 | while a level stays as it is, compactions that start from the pointer the last one left reach every file, within twice as many as it has |
| VersionChanges.PickLevelForMemTableOutput | ios/Pods/leveldb-library/db/version_set.cc:470-496 | the level chosen for a flush has no overlap on any level down to it, and is the deepest reached before an overlap or too much data two levels on |
| VersionChanges.MayPushDownExactly | ios/Pods/leveldb-library/db/version_set.cc:470-496 | what pushing down one level asks: no overlap on the next level, and the files below the range two levels down within the limit, counted in bytes |
| VersionChanges.FlushKeepsLevels | ios/Pods/leveldb-library/db/db_impl.cc:500-542 | a flush keeps every deeper level sorted and disjoint |
| VersionChanges.FlushKeepsNewerAbove | ios/Pods/leveldb-library/db/db_impl.cc:500-542 | a flush keeps newer entries of a user key above older ones |
| VersionChanges.ChosenInputsReady | ios/Pods/leveldb-library/db/version_set.cc:1247-1439 | the chosen inputs leave only newer files at their level and clear ones at the next, if the output level is closed |
| VersionChanges.FlushKeepsReady | ios/Pods/leveldb-library/db/db_impl.cc:918-928 | a flush while a compaction runs does not spoil its inputs |
| VersionChanges.FlushKeepsBase | ios/Pods/leveldb-library/db/db_impl.cc:918-928 | nor the answers about deeper levels that the running compaction relies on |
| VersionChanges.InstallKeepsLevels | ios/Pods/leveldb-library/db/db_impl.cc:869-885 | installing outputs keeps levels sorted and disjoint |
| VersionChanges.InstallKeepsNewerAbove | ios/Pods/leveldb-library/db/db_impl.cc:869-885 | and keeps newer entries above older ones |
| VersionChanges.NothingBelowTombstone | ios/Pods/leveldb-library/db/db_impl.cc:963-979 | where the deeper levels have no file for a tombstone's user key, everything left behind for it is newer |
| PointLookup.SearchFirstLevel | ios/Pods/leveldb-library/db/version_set.cc:281-302 | newest-first search of level 0 finds the newest visible entry of the version, or there is none there |
| PointLookup.SearchSortedLevel | ios/Pods/leveldb-library/db/version_set.cc:304-321 | one file per deeper level suffices |
| PointLookup.VersionGet | ios/Pods/leveldb-library/db/version_set.cc:324-400 | stopping at the first hit returns the newest visible entry of the whole version |
| StoredLookup.TableCache.Get | ios/Pods/leveldb-library/db/table_cache.cc:100-113 | opening a file of built bytes and looking a user key up in it gives the newest visible of its entries; a file that cannot be read is reported |
| StoredLookup.TableCache.VersionGetFiles | ios/Pods/leveldb-library/db/version_set.cc:324-400 | the lookup across levels through the files' bytes gives the newest visible entry of the whole version, and fails only if a damaged file covers the key |
| StoredLookup.ReadStore | ios/Pods/leveldb-library/db/db_impl.cc:1110-1155 | in every state the store can reach, a read down to the files' bytes returns what the history says, or reports a file it cannot read |
| StoredLookup.NamingExists | ios/Pods/leveldb-library/util/comparator.cc:27-29 | the byte strings of any finite set of user keys can be the names of their ranks |
| PointLookup.Get | ios/Pods/leveldb-library/db/db_impl.cc:1110-1155 | memtable, then immutable memtable, then version reads like the union of all entries |
| StoreMachine.NextInv | ios/Pods/leveldb-library/db/db_impl.cc:697-776 | every write, memtable switch, flush, snapshot, trivial move, compaction step and reopening keeps the level and history invariants, flushes interleaved with a running compaction included |
| StoreMachine.RebuiltHolds | ios/Pods/leveldb-library/db/db_impl.cc:380-498 | the level-0 tables that recovery writes from the logs, however the logs are cut into tables, keep levels, newer above older, and what is read |
| StoreMachine.EveryReadMatchesHistory | ios/Pods/leveldb-library/db/db_impl.cc:1110-1155 | in every reachable state a read at any snapshot still in use returns the last write at or before it |
| StoreMachine.SnapshotReadsRepeat | ios/Pods/leveldb-library/db/db_impl.cc:1176-1185 | a held snapshot reads the same for as long as it is held |
| StoreMachine.Get | ios/Pods/leveldb-library/db/db_impl.cc:1110-1155 | the lookup method returns what the history means at the snapshot |
| UserView.ViewAscends | ios/Pods/leveldb-library/db/db_iter.cc:26-60 | the user view lists each visible user key once, ascending |
| UserView.ViewMatchesReads | ios/Pods/leveldb-library/db/db_iter.cc:26-60 | the view shows a value for a user key exactly when a read at the snapshot finds it |
| DbIter.DBIter.FindNextUserEntry | ios/Pods/leveldb-library/db/db_iter.cc:177-207 | stops at the first entry that is visible, live and past the skipped key |
| DbIter.DBIter.FindPrevUserEntry | ios/Pods/leveldb-library/db/db_iter.cc:236-276 | stops before the newest entry of the nearest earlier live key |
| DbIter.DBIter.Next | ios/Pods/leveldb-library/db/db_iter.cc:141-175 | moves a cursor over the view one on, from either direction |
| DbIter.DBIter.Prev | ios/Pods/leveldb-library/db/db_iter.cc:209-234 | moves it one back, from either direction |
| DbIter.DBIter.Seek | ios/Pods/leveldb-library/db/db_iter.cc:278-290 | puts it at the first shown key at or after the target |
| DbIter.DBIter.SeekToFirst | ios/Pods/leveldb-library/db/db_iter.cc:292-301 | puts it first |
| DbIter.DBIter.SeekToLast | ios/Pods/leveldb-library/db/db_iter.cc:303-308 | puts it last |
| DbIter.Drive | ios/Pods/leveldb-library/db/db_iter.cc:141-308 | for any sequence of calls, what is shown after each is what a plain cursor over the view shows |
| Merger.MergingIterator.Seek | ios/Pods/leveldb-library/table/merger.cc:47-53 | lower bound in the sorted union of the children |
| Merger.MergingIterator.Next | ios/Pods/leveldb-library/table/merger.cc:55-79 | one on in the sorted union, after any change of direction |
| Merger.MergingIterator.Prev | ios/Pods/leveldb-library/table/merger.cc:81-108 | one back in the sorted union, after any change of direction |
| Merger.MergingIterator.FindSmallest | ios/Pods/leveldb-library/table/merger.cc:148-161 | the current child holds the first entry past the cut |
| Merger.MergingIterator.FindLargest | ios/Pods/leveldb-library/table/merger.cc:163-176 | the current child holds the last entry before the cut |
| StoreIterators.GatherRuns | ios/Pods/leveldb-library/db/version_set.cc:229-246 | the runs put under the merging iterator, one a first-level file and one a deeper level, are sorted, share no key, and together hold just the store's entries |
| StoreIterators.WalkMerged | ios/Pods/leveldb-library/db/db_impl.cc:1072-1097 | walking iterators over such runs, merged, gives every entry once, in order |
| StoreIterators.OneView | ios/Pods/leveldb-library/db/db_iter.cc:26-60 | the history has one listing of keys and values at a sequence number, so what an iterator shows is settled |
| StoreIterators.Iterate | ios/Pods/leveldb-library/db/db_impl.cc:1157-1174 | in every state the store can reach, an iterator at a snapshot still in use shows, whatever calls are made, what a plain cursor over the history's keys and values at that snapshot shows |
| Merger.Drive | ios/Pods/leveldb-library/table/merger.cc:31-176 | for any sequence of calls, what is shown after each is what a plain cursor over the sorted union shows |
| TwoLevel.FlatIsSorted | ios/Pods/leveldb-library/table/two_level_iterator.cc:20-70 | blocks separated by their index keys concatenate to a sorted run |
| TwoLevel.TwoLevelIterator.Seek | ios/Pods/leveldb-library/table/two_level_iterator.cc:82-87 | lower bound in the concatenation, past empty blocks |
| TwoLevel.TwoLevelIterator.Next | ios/Pods/leveldb-library/table/two_level_iterator.cc:103-107 | one on in the concatenation |
| TwoLevel.TwoLevelIterator.Prev | ios/Pods/leveldb-library/table/two_level_iterator.cc:109-113 | one back in the concatenation |
| TwoLevel.TwoLevelIterator.SkipEmptyDataBlocksForward | ios/Pods/leveldb-library/table/two_level_iterator.cc:115-126 | skips any number of empty blocks and ends |
| TwoLevel.TwoLevelIterator.SkipEmptyDataBlocksBackward | ios/Pods/leveldb-library/table/two_level_iterator.cc:128-139 | the same, backward |
| TwoLevel.WalkAll | ios/Pods/leveldb-library/table/two_level_iterator.cc:89-126 | a walk from the first entry to the last is the concatenation |
| TwoLevel.Drive | ios/Pods/leveldb-library/table/two_level_iterator.cc:82-161 | for any sequence of calls, what is shown after each is what a plain cursor over the concatenation shows |
| Crc32c.UnmaskMask | ios/Pods/leveldb-library/util/crc32c.h:22-38 | unmasking undoes masking |
| Crc32c.MaskExchanges | ios/Pods/leveldb-library/util/crc32c.h:24-31 | masking exchanges the low fifteen bits with the others and adds a constant |
| Crc32c.ExtendExtend | ios/Pods/leveldb-library/util/crc32c.cc:276-380 | extending a checksum twice is extending it by the concatenation |
| Crc32c.TableIsLinear | ios/Pods/leveldb-library/util/crc32c.cc:20-63 | the table's entry of a sum is the sum of the entries, so eight of them determine it |
| Crc32c.TableEntries | ios/Pods/leveldb-library/util/crc32c.cc:20-63 | those eight are the ones in the table |
| LogFormat.ChecksumRoundTrip | ios/Pods/leveldb-library/db/log_writer.cc:82-108 | the checksum stored with a fragment matches it |
| LogFormat.FramedPlacesPieces | ios/Pods/leveldb-library/db/log_writer.cc:34-80 | framing a record puts its fragments in place, none across a block, trailers of less than a header skipped |
| LogFormat.FragmentsFillBlocks | ios/Pods/leveldb-library/db/log_writer.cc:47-76 | a record is cut only where a block ends |
| LogWriter.Writer.AddRecord | ios/Pods/leveldb-library/db/log_writer.cc:34-80 | appends exactly the framing of the record, whatever the block offset |
| LogReader.Reader.ReadPhysicalRecord | ios/Pods/leveldb-library/db/log_reader.cc:189-271 | of any bytes, a fragment returned stands framed, its checksum matching, at the next place where one may start; in an intact prefix it is the next fragment, or end of file without a report if it is cut |
| LogReader.Reader.ReadRecord | ios/Pods/leveldb-library/db/log_reader.cc:56-174 | of any bytes, a record returned is assembled from fragments framed in the file, first to last, past where the reader was; in an intact prefix it is the next record, if wholly there |
| LogReader.RecordInLog | ios/Pods/leveldb-library/db/log_writer.cc:34-80 | each record's fragments are in the log, end to end, and assemble to it |
| LogReader.ReadAnything | ios/Pods/leveldb-library/db/log_reader.cc:56-271 | from any bytes, damaged or not, the reader ends, and every record returned is made of fragments framed in the file, checksums matching, in file order and without overlap; which records come and how often corruption is reported is given for any bytes |
| LogDamage.DamageKeepsToItsBlocks | ios/Pods/leveldb-library/db/log_reader.cc:56-271 | a log intact from a block boundary on reads back every record that starts there or later, whatever the blocks before hold, unless a physical record of type five is among them |
| LogDamage.RecordsBeforeDamage | ios/Pods/leveldb-library/db/log_reader.cc:56-271 | a log intact up to some offset reads back every record that ends there or before |
| LogDamage.ReadingStops | ios/Pods/leveldb-library/db/log_reader.h:64-74 | where such a record ends the reading, what the blocks after it hold makes no difference |
| LogDamage.TypeFiveEndsReading | ios/Pods/leveldb-library/db/log_reader.h:64-74 | a physical record of the type just above those in use, its checksum matching, ends reading whatever follows: for any such record |
| LogReader.WriteLog | ios/Pods/leveldb-library/db/log_writer.cc:34-80 | records added one after another give the log that the reader is measured by |
| LogReader.ReadLog | ios/Pods/leveldb-library/db/log_reader.cc:56-271 | reading any byte prefix of a written log returns exactly the records wholly inside it, and no corruption report; the whole log returns every record |
| DurabilityProof.NextInv | ios/Pods/leveldb-library/db/db_impl.cc:222-575 | every step of commit, memtable switch, flush, manifest write, compaction, file removal, crash and recovery keeps the durability invariant |
| DurabilityRuns.ReadsAcknowledged | ios/Pods/leveldb-library/db/db_impl.cc:1110-1155 | in every run, reads of an open database return the acknowledged writes |
| DurabilityRuns.NothingLost | ios/Pods/leveldb-library/db/db_impl.cc:289-378 | what is logged and what is acknowledged only grow, through any crashes |
| DurabilityRuns.RecoveredExactly | ios/Pods/leveldb-library/db/db_impl.cc:289-498 | after a crash and any failed attempts, recovery rebuilds exactly the acknowledged writes plus all or none of the one group in flight |
| DurabilityRuns.NumbersNeverReused | ios/Pods/leveldb-library/db/db_impl.cc:1215-1220 | of any two groups that reached a log, all sequence numbers of the earlier precede those of the later |
| DurabilityRuns.RemovedTableUnused | ios/Pods/leveldb-library/db/db_impl.cc:222-287 | a table being removed is in no version in use, not in the manifest, and not being written |
| DurabilityRuns.RemovedLogFlushed | ios/Pods/leveldb-library/db/db_impl.cc:222-287 | every write in a log being removed is in a table the manifest names or in a log that stays |
| DurabilityRuns.UnneededAreMarked | ios/Pods/leveldb-library/db/db_impl.cc:222-287 | as soon as a flush, a compaction or a recovery is installed, every file that nothing needs is marked for removal |
| DurabilityRuns.UnneededAreRemoved | ios/Pods/leveldb-library/db/db_impl.cc:222-287 | when removal ends, every table and log that was unneeded when it began is gone |
| DurabilityRuns.RemovalCanEnd | ios/Pods/leveldb-library/db/db_impl.cc:270-286 | removal takes one step a file and one to end, and nothing can hold it up |
| DurabilityRuns.FlushCanFinish | ios/Pods/leveldb-library/db/db_impl.cc:500-575 | whenever the background thread is free and a memtable waits, it can be flushed, its edit logged and installed, and the files it makes obsolete removed |
| DurabilityRuns.CompactionCanFinish | ios/Pods/leveldb-library/db/db_impl.cc:870-914 | and a compaction under way can be written and installed, and then its inputs are in the version no more |
| DurabilityRuns.RecoveryCanStart | ios/Pods/leveldb-library/db/db_impl.cc:336-358 | after any crash every table the manifest names is on disk |
| DurabilityRuns.RecoveryCanFinish | ios/Pods/leveldb-library/db/db_impl.cc:360-498 | and a recovery that is not interrupted can be carried to its end from any point |
| DurabilityRuns.ReadersFindTheirTables | ios/Pods/leveldb-library/db/version_set.cc:1144-1154 | tables of the current version and of versions held by readers exist |
| BatchGroups.BuildBatchGroup | ios/Pods/leveldb-library/db/db_impl.cc:1270-1316 | the group is the longest prefix of the queue that may join, none asking for a sync unless the first does; its batch is the members' operations in order; callers' batches are untouched and the temporary one empty unless used |
| BatchGroups.GroupIsExactly | ios/Pods/leveldb-library/db/db_impl.cc:1270-1316 | a group is right if and only if no member asks for a sync the first does not ask for, it brings at most 1 MiB, or 128 KiB more than a small first write, and the next writer would break one of these |
| BatchGroups.FinishGroup | ios/Pods/leveldb-library/db/db_impl.cc:1249-1263 | pops exactly the group, tells every member but the leader and wakes them and the new head |
| BatchGroups.GroupOfMore | ios/Pods/leveldb-library/db/db_impl.cc:1290-1314 | writers arriving behind a closed group do not change it |
| GroupCommit.NextInv | ios/Pods/leveldb-library/db/db_impl.cc:1195-1266 | every interleaving of arrivals, wakeups with or without cause, and leader stages, each of which may fail, keeps the queue invariants |
| GroupCommit.WakeInv | ios/Pods/leveldb-library/db/db_impl.cc:1203-1208 | a thread that wakes at the head of the queue always finds the lead free |
| GroupCommit.ServedInOrder | ios/Pods/leveldb-library/db/db_impl.cc:1249-1258 | groups are contiguous prefixes in order of arrival, each writer in one only |
| GroupCommit.RangesFollow | ios/Pods/leveldb-library/db/db_impl.cc:1215-1246 | groups get consecutive, disjoint sequence ranges |
| GroupCommit.ToldMeansDone | ios/Pods/leveldb-library/db/db_impl.cc:1221-1258 | a writer told of success is in one group whose record, with all members' operations, is in the log and the memtable, and in the synced part of the log if it asked for a sync |
| GroupCommit.SyncNeedsSyncLeader | ios/Pods/leveldb-library/db/db_impl.cc:1227-1295 | in every run, whoever asks for a sync is in a group whose leader asked for it |
| GroupCommit.OnlyHeadWrites | ios/Pods/leveldb-library/db/db_impl.cc:1221-1233 | only the head of the queue touches log and memtable |
| GroupCommit.GroupsStartEmpty | ios/Pods/leveldb-library/db/db_impl.cc:1242 | the temporary batch is empty whenever no group is under way |
| GroupCommit.NothingLoggedAfterFailedSync | ios/Pods/leveldb-library/db/db_impl.cc:1235-1240 | after a failed sync nothing more is logged |
| GroupCommit.SomeoneCanMove | ios/Pods/leveldb-library/db/db_impl.cc:1260-1263 | while any writer has not returned, a signalled thread or the leader can take a step |
| GroupCommit.StepsRunOut | ios/Pods/leveldb-library/db/db_impl.cc:1195-1266 | every such step uses up one of a number of steps fixed by the state |
| GroupCommit.WorkIsBounded | ios/Pods/leveldb-library/db/db_impl.cc:1195-1266 | over any stretch of any run the steps taken are at most those that were left plus six for each arrival; wakeups for no reason add none |
| GroupCommit.EveryWriterReturns | ios/Pods/leveldb-library/db/db_impl.cc:1195-1266 | once nobody arrives, every writer has returned as soon as the steps left have been taken, whatever happens in between |
| GroupCommit.EveryWriterCanReturn | ios/Pods/leveldb-library/db/db_impl.cc:1195-1266 | from every reachable state some schedule lets every writer return |
| Scheduling.Finalize | ios/Pods/leveldb-library/db/version_set.cc:1026-1062 | the level picked is the first of highest score; the last level is never picked |
| Scheduling.FullLevelZeroNeedsCompaction | ios/Pods/leveldb-library/db/version_set.h:252-255 | a level 0 that stops writes always asks for a compaction |
| Scheduling.NeedsCompactionExactly | ios/Pods/leveldb-library/db/version_set.cc:1026-1062 | a version asks for a compaction if and only if seeks marked a file, level 0 has four files, or another level but the last holds 10 MiB times ten per level |
| Scheduling.LevelLimits | ios/Pods/leveldb-library/db/version_set.cc:41-51 | the size allowed to level n is 10 MiB times ten to the power n-1 |
| Scheduling.NextInv | ios/Pods/leveldb-library/db/db_impl.cc:657-695 | every step keeps work scheduled while there is any, no error and no shutdown |
| Scheduling.AtMostOneCall | ios/Pods/leveldb-library/db/db_impl.cc:657-676 | at most one background call waits or runs |
| Scheduling.SleeperIsServed | ios/Pods/leveldb-library/db/db_impl.cc:1347-1354 | a writer asleep for room has a call coming that ends by waking it, or the database is closing |
| Scheduling.SleepsThroughOneCall | ios/Pods/leveldb-library/db/db_impl.cc:678-695 | while a writer sleeps, the call it waits for is one and the same, starts at most once and has not ended |
| Scheduling.CallCanEnd | ios/Pods/leveldb-library/db/db_impl.cc:505-776 | unless the database is closing, at most three steps of that call alone end it and wake the writer |
| Scheduling.BlockedMeansWorking | ios/Pods/leveldb-library/db/db_impl.cc:1320-1380 | a pending flush or a full level 0 means a call is scheduled, an error recorded, or a shutdown |
| Scheduling.WorkIsScheduled | ios/Pods/leveldb-library/db/db_impl.cc:657-676 | a pending flush, a manual request or a version that needs it has a call scheduled, unless an error is recorded or the database closes |
| Scheduling.WriterFindsRoom | ios/Pods/leveldb-library/db/db_impl.cc:1320-1380 | a writer goes on only with room or an error, switches only when the last memtable is flushed and level 0 has fewer than twelve files, and waits otherwise |
| Coding.Fixed64RoundTrip | ios/Pods/leveldb-library/util/coding.cc:15-19 | decoding a fixed-width word undoes encoding it |
| Coding.Fixed32Digits | ios/Pods/leveldb-library/util/coding.h:54-62 | the bytes of a fixed-width word are its base-256 digits, least first |
| Coding.EncodeVarint32IsVarint | ios/Pods/leveldb-library/util/coding.cc:21-47 | the unrolled encoder writes the base-128 digits |
| Coding.EncodeVarint64 | ios/Pods/leveldb-library/util/coding.cc:55-64 | the looping encoder writes the same |
| Coding.VarintLength | ios/Pods/leveldb-library/util/coding.cc:77-84 | n bytes hold exactly the values below 128 to the n |
| Coding.Varint32RoundTrip | ios/Pods/leveldb-library/util/coding.cc:86-114 | decoding an encoded 32-bit value gives it back and stops where it ends |
| Coding.Varint64RoundTrip | ios/Pods/leveldb-library/util/coding.cc:116-143 | the same for 64 bits |
| Coding.ReadVarint32 | ios/Pods/leveldb-library/util/coding.cc:86-102 | the decoder's loop, malformed input included |
| Coding.LengthPrefixedRoundTrip | ios/Pods/leveldb-library/util/coding.cc:72-75 | the same for strings |
| WriteBatches.BodyRoundTrip | ios/Pods/leveldb-library/db/write_batch.cc:42-80 | parsing a batch body gives back its operations |
| WriteBatches.WriteBatch.PutOp | ios/Pods/leveldb-library/db/write_batch.cc:98-103 | adds one operation, and one to the 32-bit count |
| WriteBatches.WriteBatch.DeleteOp | ios/Pods/leveldb-library/db/write_batch.cc:105-109 | adds one deletion, and one to the 32-bit count |
| WriteBatches.WriteBatch.Append | ios/Pods/leveldb-library/db/write_batch.cc:144-148 | the other batch's operations after this one's, counts added as words; the other is untouched unless it is the same batch |
| WriteBatches.WriteBatch.SetSequence | ios/Pods/leveldb-library/db/write_batch.cc:94-96 | changes the sequence number and nothing a reader of the operations sees |
| WriteBatches.WriteBatch.Iterate | ios/Pods/leveldb-library/db/write_batch.cc:42-80 | hands over the operations up to the first malformed one; an error too if the count disagrees |
| WriteBatches.WriteBatch.HeldIsRead | ios/Pods/leveldb-library/db/write_batch.cc:42-80 | a well-formed batch reads back whole, without error |
| WriteBatches.WriteBatch.InsertInto | ios/Pods/leveldb-library/db/write_batch.cc:117-137 | operations enter the memtable with consecutive sequence numbers |
| KeyFormat.ParseRoundTrip | ios/Pods/leveldb-library/db/dbformat.h:86-102 | an internal key parses back exactly when its type is known |
| KeyFormat.ComparesAsStored | ios/Pods/leveldb-library/db/dbformat.cc:47-63 | comparing encoded keys is comparing user keys, then sequence and type, newer first |
| KeyFormat.LookupKey.constructor | ios/Pods/leveldb-library/db/dbformat.cc:117-134 | one buffer serves as memtable key, internal key and user key |
| KeyFormat.Add | ios/Pods/leveldb-library/db/memtable.cc:76-99 | the bytes of a memtable entry |
| KeyFormat.GetReadsEntry | ios/Pods/leveldb-library/db/memtable.cc:101-135 | a lookup led to an entry reads its value or deletion under its user key, and nothing under another |
| Snapshots.SnapshotList.Oldest | ios/Pods/leveldb-library/db/snapshot.h:46-50 | the least sequence number held |
| Snapshots.SnapshotList.SmallestSnapshot | ios/Pods/leveldb-library/db/db_impl.cc:899-903 | the bound a compaction works with: the least snapshot held, or the last sequence number if there is none |
| Snapshots.SnapshotList.New | ios/Pods/leveldb-library/db/snapshot.h:57-76 | the new snapshot goes last; order is kept |
| Snapshots.SnapshotList.Delete | ios/Pods/leveldb-library/db/snapshot.h:79-86 | the snapshot leaves the list; the rest stay in order |
| SkipLists.SkipList.FindGreaterOrEqual | ios/Pods/leveldb-library/db/skiplist.h:260-280 | first node at or after the key, and on every level in use the last node before it; the search ends |
| SkipLists.SkipList.FindLessThan | ios/Pods/leveldb-library/db/skiplist.h:283-304 | last node before the key |
| SkipLists.SkipList.FindLast | ios/Pods/leveldb-library/db/skiplist.h:307-325 | last node of all |
| SkipLists.SkipList.Contains | ios/Pods/leveldb-library/db/skiplist.h:370-378 | membership |
| SkipLists.SkipList.Insert | ios/Pods/leveldb-library/db/skiplist.h:337-368 | adds the key in its place; every level stays sorted and nested in the one below |
| SkipLists.InsertedAscends | ios/Pods/leveldb-library/db/skiplist.h:337-368 | the stored sequence stays strictly ascending |
| SkipLists.Publish | ios/Pods/leveldb-library/db/skiplist.h:359-367 | storing the one link that publishes a node puts it on that level and disturbs no other |
| SkipLists.PrivateLink | ios/Pods/leveldb-library/db/skiplist.h:361-364 | storing the new node's own link first is not visible on any level |
| SkipListReaders.NextInv | ios/Pods/leveldb-library/db/skiplist.h:260-368 | every interleaving of an insertion's stores with a reader's loads keeps the levels and the reader's place |
| SkipListReaders.LoadHolds | ios/Pods/leveldb-library/db/skiplist.h:260-280 | a reader never meets an unset link |
| SkipListReaders.SearchResult | ios/Pods/leveldb-library/db/skiplist.h:260-280 | a search ends with exactly the first node at or after its target among those in the list at its last load |
| SkipListReaders.NothingSkipped | ios/Pods/leveldb-library/db/skiplist.h:260-368 | no key fully inserted before the search began is passed over |
| SkipListReaders.LoadsProgress | ios/Pods/leveldb-library/db/skiplist.h:260-280 | each load moves along the level or down one |
| HandleTables.HandleTable.FindPointer | ios/Pods/leveldb-library/util/cache.cc:112-121 | the chain position of the entry of this name, or the chain's end |
| HandleTables.HandleTable.Insert | ios/Pods/leveldb-library/util/cache.cc:79-93 | the table as a map gains the entry; the one it replaces is handed back; there are never more entries than buckets |
| HandleTables.HandleTable.Remove | ios/Pods/leveldb-library/util/cache.cc:95-103 | the map loses the entry, which is handed back |
| HandleTables.HandleTable.Resize | ios/Pods/leveldb-library/util/cache.cc:123-148 | rechaining loses and doubles nothing, and leaves at least a bucket an entry |
| LruCaches.Unlinked | ios/Pods/leveldb-library/util/cache.cc:240-243 | unlinking a node closes its ring around it |
| LruCaches.Linked | ios/Pods/leveldb-library/util/cache.cc:245-251 | linking a node before the head makes it the newest |
| LruCaches.LRUCache.Insert | ios/Pods/leveldb-library/util/cache.cc:267-306 | does to the state what the specification says, pointers and table included |
| LruCaches.LRUCache.Lookup | ios/Pods/leveldb-library/util/cache.cc:253-260 | finds what the table has and takes a reference |
| LruCaches.LRUCache.Release | ios/Pods/leveldb-library/util/cache.cc:262-265 | gives one back |
| LruCaches.LRUCache.Erase | ios/Pods/leveldb-library/util/cache.cc:319-322 | takes the entry out |
| LruCaches.LRUCache.Prune | ios/Pods/leveldb-library/util/cache.cc:324-334 | drops every entry not in use |
| CacheStates.RefHolds | ios/Pods/leveldb-library/util/cache.cc:218-224 | taking a reference keeps the invariant: lists by reference count, usage the sum of charges, table and handles agreeing |
| CacheStates.ReleaseHolds | ios/Pods/leveldb-library/util/cache.cc:226-238 | so does releasing one |
| CacheStates.EraseHolds | ios/Pods/leveldb-library/util/cache.cc:306-322 | and erasing |
| CacheStates.EvictOldestFirst | ios/Pods/leveldb-library/util/cache.cc:296-303 | eviction takes the oldest handles, no more than needed, and runs their deleters in that order |
| CacheStates.InsertFits | ios/Pods/leveldb-library/util/cache.cc:267-306 | after every insertion usage is within capacity or nothing is evictable |
| CacheStates.InsertedIsFound | ios/Pods/leveldb-library/util/cache.cc:267-306 | the new entry is cached and in use; with capacity zero it is not |
| CacheStates.DeletedWhenUnreferenced | ios/Pods/leveldb-library/util/cache.cc:206-238 | a deleter has run, once, exactly when no client and no table entry refers to the handle; each cached handle is on exactly one list |
| CacheRuns.LeastRecentlyUsedFirst | ios/Pods/leveldb-library/util/cache.cc:218-303 | in every run the evictable entries stand in the order in which their last clients let go of them, so the one unused for longest goes first |
| BlockBuilding.BlockBuilder.Add | ios/Pods/leveldb-library/table/block_builder.cc:71-105 | the layout grows by the entry, restarting exactly when the interval is full and sharing the longest common prefix otherwise |
| BlockBuilding.BlockBuilder.SharedPrefix | ios/Pods/leveldb-library/table/block_builder.cc:79-84 | the longest common prefix |
| BlockBuilding.BlockBuilder.Finish | ios/Pods/leveldb-library/table/block_builder.cc:61-69 | entries, restart offsets and their number, in place |
| BlockFormat.DecodeHeader | ios/Pods/leveldb-library/table/block.cc:55-75 | both paths of the decoder read back the three lengths |
| BlockFormat.DecodedWithin | ios/Pods/leveldb-library/table/block.cc:55-75 | from any bytes, a header is accepted only if the key and value it tells of fit, as 32-bit words, into what is left |
| BlockFormat.FinishedParts | ios/Pods/leveldb-library/table/block.cc:20-40 | a reader finds the restart array of a finished block |
| BlockIters.BlockIter.ParseNextKey | ios/Pods/leveldb-library/table/block.cc:225-251 | rebuilds the next entry's key and value |
| BlockIters.BlockIter.Seek | ios/Pods/leveldb-library/table/block.cc:164-202 | binary search to the last restart point before the target, then a scan, lands on the first key at or after it |
| BlockIters.BlockIter.Next | ios/Pods/leveldb-library/table/block.cc:138-141 | one on |
| BlockIters.BlockIter.Prev | ios/Pods/leveldb-library/table/block.cc:143-162 | one back, or invalid at the first entry |
| BlockIters.BlockIter.SeekToFirst | ios/Pods/leveldb-library/table/block.cc:204-207 | the first entry |
| BlockIters.BlockIter.SeekToLast | ios/Pods/leveldb-library/table/block.cc:209-214 | the last entry |
| BlockIters.Drive | ios/Pods/leveldb-library/table/block.cc:130-214 | for any sequence of calls, what is shown after each is what a plain cursor over the entries shows |
| BlockIters.BuildAndWalk | ios/Pods/leveldb-library/table/block.cc:138-207 | walking a block built from ascending entries shows exactly those entries, in order, and then the end |
| BlockIters.BuildAndRead | ios/Pods/leveldb-library/table/block_builder.cc:61-105 | ascending entries built into a block at any restart interval and read back from its bytes alone: any sequence of calls shows what a plain cursor over the entries shows |
| VersionEdits.EncodeTo | ios/Pods/leveldb-library/db/version_edit.cc:41-84 | writes the tagged fields in order |
| VersionEdits.DecodeFrom | ios/Pods/leveldb-library/db/version_edit.cc:105-203 | reads fields until the input ends, none if any is malformed |
| VersionEdits.EditRoundTrip | ios/Pods/leveldb-library/db/version_edit.cc:41-203 | decoding an encoded edit gives it back |
| Manifests.SavedMembers | ios/Pods/leveldb-library/db/version_set.cc:672-715 | a saved level lists, in order, the base and added files not deleted |
| Manifests.OneEdit | ios/Pods/leveldb-library/db/version_set.cc:629-669 | a single edit deletes, then adds |
| Manifests.ManyAtOnceIff | ios/Pods/leveldb-library/db/version_set.cc:629-730 | many edits through one builder, saved once, equal saving after each if and only if no file number is used again on the level after it was taken off, as a walk over the edits tells |
| Manifests.ManyAtOnce | ios/Pods/leveldb-library/db/version_set.cc:629-730 | so they are equal if no file number comes twice on a level |
| Manifests.NumberReuseBringsFileBack | ios/Pods/leveldb-library/db/version_set.cc:660-669 | a number taken off and used again brings the first file back beside the second: for any two such files |
| VersionSets.Builder.Apply | ios/Pods/leveldb-library/db/version_set.cc:629-669 | updates every level's state as its part of the edit says |
| VersionSets.Builder.SaveTo | ios/Pods/leveldb-library/db/version_set.cc:672-715 | saves every level by the merging loop |
| VersionSets.VersionSet.WriteSnapshot | ios/Pods/leveldb-library/db/version_set.cc:1064-1092 | an edit that adds exactly the current files |
| VersionSets.NumbersStillHold | ios/Pods/leveldb-library/db/version_set.cc:777-860 | an edit that adds files under unused numbers or moves files down keeps every file on its way down and never on a level twice |
| VersionSets.VersionSet.NewFileNumber | ios/Pods/leveldb-library/db/version_set.h:193-194 | gives out a number no file in the manifest has had |
| VersionSets.VersionSet.ReuseFileNumber | ios/Pods/leveldb-library/db/version_set.h:196-203 | takes the last number back if it was that one |
| VersionSets.VersionSet.LogAndApply | ios/Pods/leveldb-library/db/version_set.cc:777-860 | installs the edited files and leaves a manifest that tells how they came about; if the write fails nothing is installed, and the manifest tells of the files before or after; numbers may be taken meanwhile |
| VersionSets.Recover | ios/Pods/leveldb-library/db/version_set.cc:862-987 | replays the records of a manifest; none if one is malformed, names another comparator, or a counter is missing |
| VersionSets.ReplayRebuilds | ios/Pods/leveldb-library/db/version_set.cc:862-987 | snapshot and edits, encoded, read back and replayed, give the counters of the last edit and rebuild a level if and only if no number came back on it |
| VersionSets.ReusedNumberOpensBoth | ios/Pods/leveldb-library/db/version_set.cc:862-987 | a manifest whose records use a number again on a level opens with both files: for any two such files |
| VersionSets.VersionSet.ReopenReads | ios/Pods/leveldb-library/db/version_set.cc:862-987 | opening gives the files the manifest tells of, fit to go on from, a failed last write included |
| VersionSets.VersionSet.ReopenRestores | ios/Pods/leveldb-library/db/version_set.cc:777-987 | reopening finds the running version set's files and log numbers |
| Bytewise.RankEmbeds | ios/Pods/leveldb-library/util/comparator.cc:27-29 | any finite set of byte strings is ordered as the integers that rank them |
| Bytewise.FindShortestSeparator | ios/Pods/leveldb-library/util/comparator.cc:31-52 | the start cut after the first byte in which the two differ, that byte grown, if there is room for it; the start itself otherwise |
| Bytewise.FindShortSuccessor | ios/Pods/leveldb-library/util/comparator.cc:54-66 | the key cut after its first byte that can grow, that byte grown; the key itself only if it is all 0xff |
| Bytewise.FindStoredSeparator | ios/Pods/leveldb-library/db/dbformat.cc:65-82 | at or after the block's last internal key and before the next block's first; a new key only between users |
| Bytewise.FindStoredSuccessor | ios/Pods/leveldb-library/db/dbformat.cc:84-97 | at or after the last internal key |
| Bloom.WithBitKeeps | ios/Pods/leveldb-library/util/bloom.cc:47-50 | setting a bit sets it and leaves the others alone |
| Bloom.BloomFilterPolicy.CreateFilter | ios/Pods/leveldb-library/util/bloom.cc:28-54 | the filter has exactly the bits set that the keys' probes fall on, and so admits every key given |
| Bloom.DeltaRotates | ios/Pods/leveldb-library/util/bloom.cc:47 | the distance between probes is the hash turned right by seventeen bits |
| Bloom.BloomFilterPolicy.KeyMayMatch | ios/Pods/leveldb-library/util/bloom.cc:56-80 | true exactly when every probed bit is set, or the encoding is unknown |
| Bloom.BloomFilterPolicy.AdmittedMatches | ios/Pods/leveldb-library/util/bloom.cc:28-80 | no false negatives |
| Bloom.BloomFilterPolicy.MatchesExactly | ios/Pods/leveldb-library/util/bloom.cc:28-80 | a filter answers yes for a key if and only if all its probes fall on bits that its own keys set |
| FilterBlocks.FilterBlockBuilder.StartBlock | ios/Pods/leveldb-library/table/filter_block.cc:21-27 | filters keep pace with block offsets; no key leaves its filter |
| FilterBlocks.FilterBlockBuilder.GenerateFilter | ios/Pods/leveldb-library/table/filter_block.cc:51-75 | one more filter, for the pending keys |
| FilterBlocks.FilterBlockBuilder.Finish | ios/Pods/leveldb-library/table/filter_block.cc:35-49 | every key ends in the filter its block offset selects |
| FilterBlocks.FilterBlockReader.KeyMayMatch | ios/Pods/leveldb-library/table/filter_block.cc:90-104 | of a block as it was built, the answer of the filter that the span's keys went into, no if there were none; yes when in doubt |
| TableFormat.HandleRoundTrip | ios/Pods/leveldb-library/table/format.cc:15-29 | a block handle is read back, whatever follows it |
| TableFormat.ReadsBack | ios/Pods/leveldb-library/table/format.cc:64-136 | a block written with its trailer is read back, checksum verified or not |
| TableFormat.FooterRoundTrip | ios/Pods/leveldb-library/table/format.cc:31-62 | the footer has 48 bytes and is read back |
| TableShapes.FoundInBlock | ios/Pods/leveldb-library/table/table.cc:214-242 | the first row at or after a key in the block the index points to is the first of the table, or no row of the key's user is |
| Tables.TableBuilder.Add | ios/Pods/leveldb-library/table/table_builder.cc:94-123 | one more row; a pending index entry gets a key that separates its block from this one; the block is written exactly when it has reached its size |
| Tables.TableBuilder.Flush | ios/Pods/leveldb-library/table/table_builder.cc:125-196 | the block is at the end of the file with its trailer, and its filter span closed |
| Tables.TableBuilder.Finish | ios/Pods/leveldb-library/table/table_builder.cc:198-253 | the bytes of the file hold every row in its block, indexed, covered by filters if there is a policy, and found from the footer |
| Tables.Open | ios/Pods/leveldb-library/table/table.cc:38-133 | fails exactly when the footer or the index block cannot be read, and never on a table as it was built; opens with its filter if there is one and a policy to read it |
| Tables.Table.InternalGet | ios/Pods/leveldb-library/table/table.cc:136-242 | through the bytes of index, filter and block: delivers the first row at or after the key whenever it has the key's user; whatever is delivered is that row; nothing is delivered against the filter's word, and it fails only if a block cannot be read |
| Tables.BuildAndGet | ios/Pods/leveldb-library/table/table.cc:38-242 | any ascending rows written, opened and looked up, with or without filter: the same of the rows given |
| PbScalars.EncodeVarint | ios/Pods/nanopb/pb_encode.c:608-628 | the encoder's loop writes the base-128 digits |
| PbScalars.DecodeVarint32Encoded | ios/Pods/nanopb/pb_decode.c:187-247 | the 32-bit decoder reads back every 32-bit value |
| PbScalars.ZigZagRoundTrip | ios/Pods/nanopb/pb_encode.c:630-639 | zigzag decoding undoes encoding |
| PbScalars.UnZigZagRoundTrip | ios/Pods/nanopb/pb_decode.c:1285-1297 | and encoding undoes decoding |
| PbScalars.ZigZagFollowsDistance | ios/Pods/nanopb/pb_encode.c:630-639 | zigzag words follow distance from zero, the negative first, so numbers near zero are short |
| PbScalars.SignedWordRoundTrip | ios/Pods/nanopb/pb_decode.c:1345-1380 | two's complement words, cast to the field's size, give the integer back |
| PbMessages.ScalarRoundTrip | ios/Pods/nanopb/pb_decode.c:1334-1569 | every scalar, bytes and string value that fits its field is read back, except a string without room for its terminator, which is refused |
| PbDecoding.FieldIterFind | ios/Pods/nanopb/pb_common.c:87-104 | the search from where the iterator stands, around the end, finds the first field of the tag from there exactly when there is one |
| PbDecoding.DecodeNoInit | ios/Pods/nanopb/pb_decode.c:934-1082 | the decoding loop, unknown fields, zero terminator and final checks included |
| PbDecoding.Decode | ios/Pods/nanopb/pb_decode.c:1084-1096 | decoding starts from defaults |
| PbStreams.UnknownFieldSkipped | ios/Pods/nanopb/pb_decode.c:326-336 | a field of any wire type whose tag the message type lacks changes nothing |
| PbStreams.OtherWireTypesRefused | ios/Pods/nanopb/pb_decode.c:326-336 | and one of the wire types three, four, six and seven is refused |
| PbStreams.CutFieldsRefused | ios/Pods/nanopb/pb_decode.c:326-336 | and so is an unknown field that the stream ends within |
| PbStreams.ForwardCompatible | ios/Pods/nanopb/pb_decode.c:934-1082 | the round trip holds with unknown fields before, between and after the known ones |
| PbStreams.OlderReaderSkips | ios/Pods/nanopb/pb_decode.c:326-336 | a reader whose type lacks a field passes over what the encoder writes for it, whatever its type |
| PbStreams.UnpackedComesBack | ios/Pods/nanopb/pb_decode.c:453-464 | an array of numbers written entry by entry reads as one written packed |
| PbStreams.LastOneWins | ios/Pods/nanopb/pb_decode.c:406-424 | of two values for one field the last is read |
| PbStreams.RequiredFieldsCome | ios/Pods/nanopb/pb_decode.c:1021-1078 | from any bytes, a message is accepted only if the tag of each of the first 64 required fields is read somewhere |
| PbStreams.ShortArrayRefused | ios/Pods/nanopb/pb_decode.c:1001-1040 | a fixed-length array that comes with too few entries is refused |
| PbStreams.DecodedBounded | ios/Pods/nanopb/pb_decode.c:406-1569 | from any bytes, an accepted message holds nothing its fields have no room for: arrays keep to their size, integers to their width, strings to their terminator |
| PbStreams.DecodeAnything | ios/Pods/nanopb/pb_decode.c:1084-1096 | both of these for decoding into a fresh structure |
| PbEncoding.OStream.Write | ios/Pods/nanopb/pb_encode.c:103-124 | fails exactly when the stream is full; a sizing stream only counts |
| PbEncoding.OStream.PutSubmessage | ios/Pods/nanopb/pb_encode.c:717-765 | the size measured in the first pass is what the second pass writes |
| PbEncoding.OStream.PutArray | ios/Pods/nanopb/pb_encode.c:147-236 | packed where the type allows, entry by entry otherwise; too many entries fail |
| PbEncoding.OStream.PutMessage | ios/Pods/nanopb/pb_encode.c:528-550 | writes exactly the message's encoding, or only counts it; succeeds exactly when sizes are within limits and there is room |
| PbEncoding.GetEncodedSize | ios/Pods/nanopb/pb_encode.c:567-577 | the sizing pass returns the length of the encoding, exactly when the message is within the encoder's limits |
| PbRoundTrip.WrittenExactly | ios/Pods/nanopb/pb_encode.c:240-426 | a field leaves no bytes if and only if its flag is not set, its oneof has another member, its array is empty, or, without a flag, its value is zero or empty |
| PbRoundTrip.ZeroIsDefault | ios/Pods/nanopb/pb_encode.c:240-337 | a submessage that tests as zero comes back as the defaults |
| PbRoundTrip.SingularComesBack | ios/Pods/nanopb/pb_encode.c:240-426 | a singular field's value comes back whether or not it was written |
| PbRoundTrip.PackedRoundTrip | ios/Pods/nanopb/pb_decode.c:420-451 | a packed array is read back entry by entry |
| PbRoundTrip.RoundTripFrom | ios/Pods/nanopb/pb_decode.c:934-1082 | the fields from any point on, decoded into what the earlier ones left, complete the message exactly when the strings they write leave room for their terminators |
| PbRoundTrip.RoundTrip | ios/Pods/nanopb/pb_decode.c:934-1096 | decoding the encoding of a well-formed message, through submessages, arrays and oneofs, gives it back up to defaults if and only if every string written leaves room for its terminator; otherwise it is refused |
| PbRoundTrip.StringComesBack | ios/Pods/nanopb/pb_decode.c:1487-1523 | one string is read back exactly when it is shorter than its buffer |
| PbRoundTrip.UnterminatedStringRejected | ios/Pods/nanopb/pb_decode.c:1487-1523 | four letters in a buffer of four are written and refused: a concrete message |

## Left out

- StoreMachine.NextInv: does not derive that no file left at the output level carries on a user key at which an input ends; the code closes only the upper level, so closure of the output level is a condition of the compaction step (`ParentsClosed`), with `CompactionHazards.OpenParentsResurrect` showing it is needed.
- CompactionWork.DoCompactionWork: before which keys grandparent overlap asks for a new output file, at what contents a file is full, when the database shuts down, and which files fail are arbitrary; given these, where the files are cut is exact (`CompactionWork.CutsAreRight`, `CompactionWork.CutsHaveCause`).
- DbIter.Drive: keys that do not parse are skipped as the code skips them, but the status they leave behind is not modelled.
- Merger.MergingIterator.Next: requires keys to be distinct across children, as internal keys are; error statuses of children are not modelled.
- LogReader.ReadLog: reading starts at the beginning of the file (`initial_offset` 0) with checksums on.
- LogReader.Reader.ReadPhysicalRecord: what is returned, dropped and gone on from, and how often corruption is reported, is specified for any bytes; how many bytes each report names is left out.
- DurabilityRuns.RecoveredExactly: a log append is one step, since a cut append reads as absent (`LogReader.ReadLog`); writes are taken to reach the file when appended; what compaction drops enters only through `CompactionMeaning`; `reuse_logs` is off.
- GroupCommit.EveryWriterReturns: the time a leader spends making room is one step, but for new log files that it starts; `Scheduling` says why it ends.
- Scheduling.NextInv: the one-millisecond delay at 8 level-0 files and the test-only waiters are left out.
- SkipListReaders.NextInv: loads and stores are sequentially consistent; one reader stands for any number, since readers do not write.
- LruCaches.LRUCache.Insert: one shard; allocation numbers stand for addresses, which are not reused; chains of the hash table are sequences.
- BlockIters.BlockIter.ParseNextKey: only finished blocks are read; on them the corruption branches are proved unreachable.
- VersionSets.ReplayRebuilds: compaction pointers are encoded and decoded but not followed through replay.
- Manifests.ManyAtOnceIff: files of the same smallest key and number are taken not to come twice on a level; the ordered set of added files cannot tell them apart.
- FilterBlocks.FilterBlockBuilder.Finish: keys are kept as a list, not flattened into one buffer; a filter block of 4 GiB or more is outside the format.
- Tables.Open: each block, the filter included, is read as it was written or not at all; damage that passes for another block is outside.
- Tables.Table.InternalGet: the block cache is left out; it holds what the file holds.
- Tables.TableBuilder.Finish: write errors are left out; a filter block of 4 GiB or more, or a block of that size, is outside the format.
- StoredLookup.TableCache.Get: the table cache is left out; a file is opened from its bytes at each lookup.
- StoreIterators.Iterate: the merged entries are walked once and the user's iterator runs over them, rather than pulling them from the stack call by call; `Merger.Drive` says the stack answers any calls as those entries do.
- PbDecoding.DecodeNoInit: the required-field bit masks are a set; `pb_size_t` is 32 bits, as this build defines it; extension fields are left out, and so is a tag of zero met by a message type without fields.
- PbStreams.ForwardCompatible: the unknown fields stand among the fields of the outer message; inside a submessage each is passed over in the same way (`UnknownFieldSkipped`), but the two are not put together.
- CompactionTurns.EveryFileHasItsTurn: the level is taken to stay as it is, as when compactions fail or move no file out of it; what compactions and flushes add or take away in between is not followed.
- PbRoundTrip.RoundTrip: the contents of a fixed-length array before decoding are a placeholder, since the encoder always writes such arrays.
- Manual CompactRange, read sampling and seek statistics, repair, the C interface, `env_posix`, Snappy, and the hash function itself: they add no effect on results, or are any function.
- nanopb callbacks, extensions, heap-allocated fields and the build without 64-bit integers.
- The application's own code (Flutter and Swift glue), user interface pods, and OrderedSet, whose index is a simpler case of the cache's.
