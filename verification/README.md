# LevelDB and nanopb, modelled and verified

The app ships two libraries that keep its data: LevelDB, a log-structured key-value store, and nanopb, an
encoder and decoder of Protocol Buffers messages.  This project models both in Dafny and proves what they
promise.  `dafny verify dfyconfig.toml` checks it.

**The store.** A database is two memtables, seven levels of table files, a log, a manifest and a set of
snapshots.  `Stores` is the state machine: writes, memtable switches, flushes, compactions that run while other
steps happen, trivial moves, snapshots and crashes.  One thing is kept by all of them: a read at a sequence
number gives what the history of writes says at that number.  Around it are the parts that have to agree with
it: the lookup through memtables and levels (`Tables`, `Versions`), the choice of compaction inputs (`Overlap`,
`CompactionInputs`, `JoinedInputs`, `CompactionSetup`), the entries a compaction drops and where it cuts its
files (`CompactionWork`, `OutputCuts`), the change of a version (`Builders`, `VersionChanges`), the iterators
(`MergingIterators`, `IteratorSources`, `DbIters`), the database object whose methods are runs of steps
(`DbImpls`), the queue of writers (`GroupCommit`), and the skip list with its concurrent readers (`SkipLists`,
`ConcurrentReads`).

**What is on disk.** The log format, its writer and its reader (`LogFormat`, `LogWriters`, `LogReaders`,
`LogRoundTrips`), what it makes of damaged files (`LogIntegrity`), write batches (`WriteBatches`), recovery of a
log cut off by a crash (`LogRecovery`), and the log of every interleaving of writers (`CommitLogs`,
`RecoveredRuns`): what a sync makes durable (`Durability`), two log files after a memtable switch (`TwoLogs`),
and recovery as steps of the store (`RecoverySteps`).  Version edits as bytes (`VersionEdits`), their replay
(`Manifests`, `Readditions`, `ManifestRuns`), and the recovery of a version from the bytes of a manifest
(`ManifestRecovery`).  Table blocks (`Blocks`, `BlockBuilders`, `BlockIters`), Bloom filters and filter blocks
(`BloomFilters`, `FilterBlocks`).  Which files may be deleted (`VersionLists`, `ObsoleteFiles`).

**Messages.** The table of fields, the encoding and the decoding as functions (`Messages`, `MessageDecoding`),
their round trip and safety (`MessageRoundTrips`, `MessageSafety`), what is accepted of any bytes
(`RequiredFields`, `WireFields`), and the streams that do the work in place (`FieldIters`, `OStreams`,
`IStreams`).  The wire format is that of the Protocol Buffers "Encoding" specification, sections "Base 128
Varints", "Signed Integers" and "Packed Repeated Fields"; its examples are in `WireExamples`.

`Histories` holds the history of writes, `Hazards` and `HazardRuns` what goes wrong and exactly when,
`InternalKeys`, `Coding` and `Basics` what all parts share.

## Findings

Where the code does not do what it promises, the code is modelled as it is, an input shows the failure, and a
lemma gives the exact condition.

| what fails | input | exact condition |
|---|---|---|
| A deleted key comes back.  `SetupOtherInputs` adds boundary files on the level of a compaction but not on the next one, so a user key split between two files there can be compacted in part, and its deletion dropped over its older value. | `HazardRuns.DeletedKeyCanComeBack`: a run whose output files split user key 2 between value and deletion, while a snapshot was held | `CompactionWork.DropsPreserveViews`: reads stay the same if and only if no dropped deletion was the last thing over an older value outside the inputs.  `Hazards.BoundaryTakenIsSafe` and `Hazards.WholeKeysTakeBoundary` give checks on the files that are enough. |
| Two files of a level overlap.  A memtable flushed during a compaction is placed by a version without the outputs of that compaction, and can land in a gap between its inputs. | `HazardRuns.FlushCanFallIntoGap`: a run with a manual compaction of user keys 1 and 5, and user key 3 in the memtable; `Hazards.GapIsPicked` and `Hazards.FlushLevelInGap`: the code takes those inputs and that level | `Hazards.FlushIsSafeIffKeptOnOneSide`: the level stays sorted, however the outputs are cut, if and only if the entries kept are not on both sides of the flushed keys; `Hazards.FlushIsSafeIffBeside`: whatever is kept, if and only if the flushed keys lie to one side of the inputs.  `CompactionSetup.PickCompaction`: inputs picked in the background leave no gap, so only manual compactions are at risk. |
| Writes reported as failed come back after a crash.  A group whose record is appended but not synced is in the log, while its writers were told of an error. | `CommitLogs.UnsyncedGroupComesBack`: any run whose group has a write and fails to sync | `CommitLogs.LogGivesHistory`: the log gives the history if and only if no such group failed to sync |
| What a crash leaves is not a prefix of the writes.  A memtable switch leaves the older log unsynced, so a crash of the machine can shorten it and keep the newer one. | `TwoLogs.LaterWriteAlone`: two writes without a sync and a switch between them | `TwoLogs.PrefixIffNothingBetween`: it is a prefix if and only if the lost end of the older log, or the recovered part of the newer one, has no writes.  `TwoLogs.SyncedWritesAreLeft`: writes with a sync are not lost. |
| The version recovered from a manifest is not the one its edits gave. | `Readditions.OldFileComesBack`: a file number that comes back with a larger smallest key; `Readditions.MovedFileIsDoubled`: an edit that deletes and adds the same file | `Readditions.ReplaysIffNew`: they agree at every point if and only if every file an edit adds is new to the level.  `ManifestRuns.RunsUseNumbers`: no run makes other edits. |
| `VersionEdit::Clear` keeps the compaction pointers, so a decoded edit can hold pointers that are not in its bytes. | any edit decoded into one that holds pointers | `VersionEdits.EditRoundTrip`: the edit comes back if and only if the edit decoded into holds none |
| A number that does not fit into 32 bits is read as one that does: the overflow check looks at the fifth digit only if it is the last one, and after 37 bytes the bit position, in eight bits, starts over. | `WireFields.LostBits`: 2^32 with a byte of padding is read as 0; `WireFields.PositionStartsOver`: 37 bytes of padding and a digit | `WireFields.Varint32Reads`: up to 37 bytes, a varint is read exactly if `Fits32` holds of its digits, always as the number spelled modulo 2^32; so as that number if and only if it is below 2^32 |
| A string that fills its room is encoded, and refused by a decoder with the same table. | `MessageRoundTrips.FullStringIsRefused`: one byte in a room of one byte | `MessageRoundTrips.RoundTrip`: the message comes back if and only if every string leaves room for its terminating zero |

The comment in `FilterBlockReader::KeyMayMatch` says that empty filters match no key.  The branch is never taken
for a block the builder wrote: an empty filter is handed to the policy, as `FilterBlocks.FilterBlockReader.AnswersAsFilter`
states.

## Model

| member | source | states |
|---|---|---|
| `Stores.RunsKeepInv` | Marketeiros/Pods/leveldb-library/db/db_impl.cc:860-876 | In every run of writes, memtable switches, flushes, compactions that other steps interleave with, trivial moves, snapshots and crashes, the levels below 0 stay sorted and disjoint, shallower entries stay newer, and the files give every reader from the oldest snapshot on what the history says |
| `Stores.ViewIsHistory` | Marketeiros/Pods/leveldb-library/db/db_impl.cc:1062-1087 | In every such state, the entries of both memtables and all files, taken together, show a user key at a sequence number exactly as the history of writes does |
| `Stores.MemtablesAreNewer` | Marketeiros/Pods/leveldb-library/db/db_impl.cc:1122-1136 | For a user key they share, the memtable holds only newer entries than the immutable memtable, and that only newer ones than the files: the order in which the sources are asked is safe |
| `DbImpls.ReadIsHistory` | Marketeiros/Pods/leveldb-library/db/db_impl.cc:1122-1136 | Stopping at the first of memtable, immutable memtable and version that has an answer gives what the history says |
| `DbImpls.DBImpl.Get` | Marketeiros/Pods/leveldb-library/db/db_impl.cc:1100-1145 | A get at a snapshot, or at the last sequence, returns the value of the newest write of the key up to there, or nothing if that is a deletion or there is none |
| `DbImpls.DBImpl.NewIterator` | Marketeiros/Pods/leveldb-library/db/db_impl.cc:1147-1157 | The iterator is over exactly the map the history gives at the snapshot |
| `DbImpls.LaterWritesAreInvisible` | Marketeiros/Pods/leveldb-library/db/db_impl.cc:1112-1120 | A reader that holds its memtables and version sees the same whatever is inserted into the memtable later |
| `DbImpls.DBImpl.Write` | Marketeiros/Pods/leveldb-library/db/db_impl.cc:1209-1237 | A group of writes is inserted at the next sequence numbers and then published, as a run of store steps |
| `DbImpls.DBImpl.MakeRoomForWrite` | Marketeiros/Pods/leveldb-library/db/db_impl.cc:1310-1370 | Exactly when a write may go on, when it has to wait, and that otherwise the memtable is switched |
| `DbImpls.DBImpl.CompactMemTable` | Marketeiros/Pods/leveldb-library/db/db_impl.cc:535-566 | Flushing the immutable memtable, also inside a running compaction, is one flush step at the deepest level the limits allow, with a file of its entries and their size, and keeps the invariant |
| `DbImpls.DBImpl.PickBackgroundCompaction` | Marketeiros/Pods/leveldb-library/db/db_impl.cc:688-713 | The inputs picked in the background have all a compaction needs, hold the file asked for, and leave no gap in their key range; the grandparents are the files two levels down that overlap them |
| `DbImpls.DBImpl.PickManualCompaction` | Marketeiros/Pods/leveldb-library/db/db_impl.cc:696-712 | A manual compaction of any level does nothing exactly if no file overlaps the range; else its inputs and grandparents are those of CompactRange |
| `DbImpls.DBImpl.BeginBackgroundCompaction` | Marketeiros/Pods/leveldb-library/db/db_impl.cc:718-749 | A file is moved exactly if it is the only input, no file of the next level overlaps it, those two levels down that do hold few enough bytes, and the compaction is not manual; anything else starts a compaction of the inputs |
| `DbImpls.DBImpl.BackgroundCompaction` | Marketeiros/Pods/leveldb-library/db/db_impl.cc:688-749 | Picking from a file and then moving or compacting: one step, a move of that file or the beginning of a compaction of the inputs around it, by those overlaps |
| `DbImpls.TrivialMoveMayMove` | Marketeiros/Pods/leveldb-library/db/version_set.cc:1515-1523 | The test on inputs and grandparents finds exactly the files that nothing on the next level overlaps, and few enough bytes on the one after |
| `DbImpls.DBImpl.FinishBackgroundCompaction` | Marketeiros/Pods/leveldb-library/db/db_impl.cc:860-999 | Merging all inputs, dropping, cutting into files under fresh numbers and installing is a run of store steps, whatever steps came between; nothing too old is written again, and the files are cut where DoCompactionWork cuts them |
| `Versions.FindFile` | Marketeiros/Pods/leveldb-library/db/version_set.cc:88-106 | The index splits a sorted level: every file before it ends before the key, none from it on does |
| `Versions.Get` | Marketeiros/Pods/leveldb-library/db/version_set.cc:326-421 | For every ordered version the first hit, over level 0 from the newest file and then the deeper levels, is the newest entry of the user key visible at the sequence number |
| `Tables.TableGetAnswers` | Marketeiros/Pods/leveldb-library/db/memtable.cc:100-134 | The first entry at or after the lookup key decides: it is the newest visible entry of the user key, or there is none |
| `InternalKeys.LookupKeySplits` | Marketeiros/Pods/leveldb-library/db/dbformat.cc:51-67 | In internal key order the lookup key lies just before the entries of its user key that are visible at its sequence number |
| `CompactionWork.DropsPreserveViews` | Marketeiros/Pods/leveldb-library/db/db_impl.cc:930-962 | Dropping hidden entries and old deletions leaves every view at or above the smallest snapshot unchanged if and only if no dropped deletion is the last thing over an older value outside the inputs |
| `CompactionWork.DoCompactionWork` | Marketeiros/Pods/leveldb-library/db/db_impl.cc:878-1010 | The outputs hold exactly the entries the drop rules keep, in order: a deletion all snapshots see only if a deeper file covers its key, one such entry of a key only, and with all snapshots past and nothing deeper just the newest values; each file is cut as soon as it is big enough or ends too far on in the grandparents, and never otherwise |
| `CompactionWork.KeptIsNotTooOld` | Marketeiros/Pods/leveldb-library/db/db_impl.cc:930-962 | Of the entries of a user key that all snapshots are past, at most the newest is written again, and not if it is a deletion with nothing deeper under it |
| `CompactionWork.KeptIsKeptSet` | Marketeiros/Pods/leveldb-library/db/db_impl.cc:930-962 | Looking only at the entry before each one drops exactly the entries that a newer entry at or below the smallest snapshot hides, and the deletions with nothing below |
| `CompactionWork.Compaction.IsBaseLevelForKey` | Marketeiros/Pods/leveldb-library/db/version_set.cc:1533-1552 | For user keys asked about in ascending order, the advancing pointers answer exactly whether no file two or more levels down covers the key |
| `CompactionWork.Compaction.ShouldStopBefore` | Marketeiros/Pods/leveldb-library/db/version_set.cc:1554-1576 | For ascending keys it stops exactly if the grandparents that end between the key counted from and this one are over the limit, and then counts from this key |
| `OutputCuts.EndedBytesAre` | Marketeiros/Pods/leveldb-library/db/version_set.cc:1554-1576 | The bytes counted are those of exactly the files of a sorted level that end before the key |
| `Hazards.BoundaryTakenIsSafe` | Marketeiros/Pods/leveldb-library/db/version_set.cc:1403-1447 | If no file of the next level left out holds an older entry of a user key in the inputs, no deletion is dropped that anyone needs |
| `Hazards.WholeKeysTakeBoundary` | Marketeiros/Pods/leveldb-library/db/version_set.cc:1403-1447 | If no user key is split between two files of the next level, no file left out holds an older entry of an input key |
| `Hazards.FlushIsSafeIffKeptOnOneSide` | Marketeiros/Pods/leveldb-library/db/db_impl.cc:908-918 | A flush to the output level of a running compaction keeps that level disjoint, however the compaction cuts what it keeps into files, if and only if the entries it keeps are not on both sides of the flushed keys |
| `Hazards.FlushIsSafeIffBeside` | Marketeiros/Pods/leveldb-library/db/version_set.cc:491-516 | The same for whatever part of its inputs the compaction may write: if and only if the flushed keys lie to one side of the inputs |
| `Hazards.FlushIntoGapBreaksLevel` | Marketeiros/Pods/leveldb-library/db/db_impl.cc:908-918 | A flush of user key 3 between inputs 1 and 5 is allowed at the output level; written as one file, what the compaction keeps then overlaps it |
| `Hazards.GapIsPicked` | Marketeiros/Pods/leveldb-library/db/version_set.cc:1464-1495 | A manual compaction of the level without range limits takes all the files with user keys 1 and 5, unless one file alone reaches the size it stops at |
| `Hazards.FlushLevelInGap` | Marketeiros/Pods/leveldb-library/db/version_set.cc:491-516 | A memtable of user key 3 goes to the output level, whatever the limit on overlapping bytes |
| `HazardRuns.FlushCanFallIntoGap` | Marketeiros/Pods/leveldb-library/db/db_impl.cc:900-918 | A state a run reaches with that compaction running and that memtable to be flushed; what the compaction keeps is one file that overlaps the flushed one |
| `HazardRuns.DeletedKeyCanComeBack` | Marketeiros/Pods/leveldb-library/db/db_impl.cc:930-962 | A state a run reaches in which a reader finds key 2 deleted, and a compaction of the inputs the code takes after which it finds the deleted value |
| `HazardRuns.AtRiskIsReachable` | Marketeiros/Pods/leveldb-library/db/version_set.cc:1403-1411 | The steps of that run: two versions of a key kept for a snapshot and cut apart between two output files, the snapshot released |
| `Overlap.SomeFileOverlapsRange` | Marketeiros/Pods/leveldb-library/db/version_set.cc:122-157 | On a sorted level the binary search answers as the scan of all files does: whether some file overlaps the range |
| `Overlap.GetOverlappingInputs` | Marketeiros/Pods/leveldb-library/db/version_set.cc:519-559 | At level 0 the files are exactly those of the least range that contains the one asked for and is closed under overlap, although the scan restarts; elsewhere those that overlap |
| `CompactionInputs.PickLevelForMemTableOutput` | Marketeiros/Pods/leveldb-library/db/version_set.cc:491-516 | The level chosen and all above it have no file in the range and, two levels down, not too many bytes; a deeper one would break one of these, so it is the deepest the limits allow |
| `CompactionInputs.AddBoundaryInputs` | Marketeiros/Pods/leveldb-library/db/version_set.cc:1378-1401 | It ends, with all inputs it began with, and no file left that continues the last user key of the result |
| `CompactionSetup.SetupOtherInputs` | Marketeiros/Pods/leveldb-library/db/version_set.cc:1403-1462 | Files left on the level are newer for the keys they share, files left on the next level lie beside the inputs, the first inputs are those asked for with their boundary files, grown exactly when that is worth it, the parents are those of the inputs before and after they grow, the grandparents those that overlap both, and inputs without gaps stay without gaps |
| `CompactionSetup.GrowInputs` | Marketeiros/Pods/leveldb-library/db/version_set.cc:1420-1446 | The inputs grow exactly if that takes in more files, no further parents, and less than the size limit; inputs without gaps stay without gaps |
| `CompactionSetup.PickCompaction` | Marketeiros/Pods/leveldb-library/db/version_set.cc:1270-1322 | A compaction that starts from one file has the inputs that SetupOtherInputs makes of it, at level 0 of the least closed range around it, with every user key of their range in one of them, and the grandparents that overlap them |
| `CompactionSetup.CompactRange` | Marketeiros/Pods/leveldb-library/db/version_set.cc:1464-1495 | At every level nothing exactly if no file overlaps; else proper inputs that begin, at level 0, with all files of the least closed range, and elsewhere with the overlapping files in order up to the size limit |
| `JoinedInputs.ClosureJoined` | Marketeiros/Pods/leveldb-library/db/version_set.cc:519-559 | The level-0 files that have to go with one file leave no gap in their range |
| `JoinedInputs.ExpansionJoined` | Marketeiros/Pods/leveldb-library/db/version_set.cc:1420-1446 | Files taken because they overlap a range without gaps leave none |
| `VersionChanges.FlushKeepsVersionOk` | Marketeiros/Pods/leveldb-library/db/db_impl.cc:515-524 | Adding a flushed file at an allowed level keeps the version well formed and adds just its entries |
| `VersionChanges.CompactionKeepsVersionOk` | Marketeiros/Pods/leveldb-library/db/db_impl.cc:860-876 | Replacing the inputs by outputs made of their entries keeps the version well formed, and every other entry where it was |
| `MergingIterators.MergingIterator.Next` | Marketeiros/Pods/leveldb-library/table/merger.cc:55-79 | From the smallest of all children, whichever way the iterator moved before, to the next larger key in any of them |
| `MergingIterators.MergingIterator.Prev` | Marketeiros/Pods/leveldb-library/table/merger.cc:81-108 | To the next smaller key in any child, whichever way it moved before |
| `MergingIterators.MergingIterator.SeekTo` | Marketeiros/Pods/leveldb-library/table/merger.cc:47-53 | To the least key at or after the target in any child |
| `MergingIterators.MergedCursor.Next` | Marketeiros/Pods/leveldb-library/table/merger.cc:55-79 | The merging iterator moves forwards as a cursor over one sorted list of the union does |
| `MergingIterators.MergedCursor.Prev` | Marketeiros/Pods/leveldb-library/table/merger.cc:81-108 | The merging iterator moves back as that cursor does, so that a change of direction skips and repeats nothing |
| `MergingIterators.MergeAll` | Marketeiros/Pods/leveldb-library/db/version_set.cc:1237-1268 | Reading it forwards yields the union of the children, sorted |
| `IteratorSources.StoreRunsMergeable` | Marketeiros/Pods/leveldb-library/db/db_impl.cc:1062-1087 | The memtables, the level-0 files and the levels of any good state hold no internal key twice, and together hold all entries |
| `DbIters.DBIter.SeekTo` | Marketeiros/Pods/leveldb-library/db/db_iter.cc:269-281 | To the first visible key at or after the target |
| `DbIters.DBIter.Next` | Marketeiros/Pods/leveldb-library/db/db_iter.cc:141-166 | To the first visible user key after the current one, from either direction of travel, over children that change direction below it |
| `DbIters.DBIter.Prev` | Marketeiros/Pods/leveldb-library/db/db_iter.cc:200-225 | To the last visible user key before the current one, from either direction of travel |
| `DbIters.DBIter.FindNextUserEntry` | Marketeiros/Pods/leveldb-library/db/db_iter.cc:168-198 | Past deleted, overwritten and too new entries, to the first live entry wanted, or to the end |
| `DbIters.DBIter.FindPrevUserEntry` | Marketeiros/Pods/leveldb-library/db/db_iter.cc:227-267 | Back over all entries of a user key, to the newest visible one, if it is a value |
| `DbIters.MapIsView` | Marketeiros/Pods/leveldb-library/db/db_iter.cc:122-139 | The map the iterator runs over has for every user key what a read of the entries at its sequence number gives |
| `GroupCommit.BuildBatchGroup` | Marketeiros/Pods/leveldb-library/db/db_impl.cc:1260-1306 | The result is the batches of the longest prefix of the queue each of whose writers may join those before it, in order |
| `GroupCommit.GroupStaysSmall` | Marketeiros/Pods/leveldb-library/db/db_impl.cc:1270-1277 | Only a lone first batch may be over 1 MiB, or over its size and 128 KiB if it is that small |
| `GroupCommit.GroupTakesAll` | Marketeiros/Pods/leveldb-library/db/db_impl.cc:1260-1306 | Any first writers of which none wants a sync the leader does not do, and whose batches stay within that limit, are all in the group |
| `GroupCommit.PopGroup` | Marketeiros/Pods/leveldb-library/db/db_impl.cc:1239-1248 | The loop ends with the last writer of the group popped, and has woken all of the group but the leader |
| `GroupCommit.RunsKeepInv` | Marketeiros/Pods/leveldb-library/db/db_impl.cc:1185-1256 | In every interleaving of writers and snapshots: queue, phases, log records and sequence numbers agree, and none is used twice |
| `GroupCommit.OneWriterAtATime` | Marketeiros/Pods/leveldb-library/db/db_impl.cc:1215-1232 | Two writers in the unlocked phase are the same one, and it is first in the queue |
| `GroupCommit.ReadersSeeWholeBatches` | Marketeiros/Pods/leveldb-library/db/db_impl.cc:1196-1246 | A write visible at a snapshot, or at the published sequence, belongs to a batch that is visible as a whole and whose writer was told of success |
| `GroupCommit.QueueMoves` | Marketeiros/Pods/leveldb-library/db/db_impl.cc:1192-1253 | While anyone is queued the writer at the front can take a step, and every such step leaves it less to do or the queue shorter, so none waits forever for a signal |
| `GroupCommit.EventsAreStoreSteps` | Marketeiros/Pods/leveldb-library/db/db_impl.cc:1205-1253 | Each event is a run of store steps after which history, published sequence and snapshots still agree |
| `SkipLists.SkipList.FindGreaterOrEqual` | Marketeiros/Pods/leveldb-library/db/skiplist.h:261-281 | The first node at or after the key, and on every level in use the last node before it |
| `SkipLists.SkipList.FindLessThan` | Marketeiros/Pods/leveldb-library/db/skiplist.h:283-302 | The last node before the key |
| `SkipLists.SkipList.FindLast` | Marketeiros/Pods/leveldb-library/db/skiplist.h:304-322 | The last node of the list, or the head |
| `SkipLists.SkipList.Insert` | Marketeiros/Pods/leveldb-library/db/skiplist.h:336-368 | For every height, the new node joins every level below it in its place, no other level and no other node changes, and the list gains exactly the new entry |
| `SkipLists.MemTable.Add` | Marketeiros/Pods/leveldb-library/db/memtable.cc:75-98 | The table holds one entry more, in internal key order |
| `SkipLists.MemTable.Get` | Marketeiros/Pods/leveldb-library/db/memtable.cc:100-134 | A lookup answers as the first entry at or after the lookup key says |
| `ConcurrentReads.RunsKeepInv` | Marketeiros/Pods/leveldb-library/db/skiplist.h:356-367 | After every single load and store of the writer and any number of readers, all levels are sorted and parts of those below, and every reader is on its level before its key |
| `ConcurrentReads.SearchFindsFirst` | Marketeiros/Pods/leveldb-library/db/skiplist.h:261-281 | A search that runs between the steps of an insertion returns the first entry at or after its key among those in the list when it ends |
| `LogWriters.LogWriter.AddRecord` | Marketeiros/Pods/leveldb-library/db/log_writer.cc:34-80 | The file gains the fragments of the record, for a file of any length and a record of any length, including none |
| `LogReaders.LogReader.ReadRecord` | Marketeiros/Pods/leveldb-library/db/log_reader.cc:56-174 | The next record, and the bytes reported as dropped, are those the format gives for the bytes from the current position, whatever they are; a record of type 5 or 6 counts as the end or as a bad record |
| `LogIntegrity.RecordIsWritten` | Marketeiros/Pods/leveldb-library/db/log_reader.cc:189-271 | Whatever the bytes of the file, a record that is given back is made of physical records of the file whose stored checksums are those of their types and payloads, from a first to a last one with none between them left out |
| `LogIntegrity.DamageIsDropped` | Marketeiros/Pods/leveldb-library/db/log_reader.cc:240-256 | A whole physical record with another checksum, type, length or payload than was written is dropped with the rest of its block |
| `LogIntegrity.ReportsAddUp` | Marketeiros/Pods/leveldb-library/db/log_reader.cc:56-174 | Whatever the bytes, the sizes reported as dropped and the record given back add up to all that was read on the way to it |
| `LogRoundTrips.ReadLog` | Marketeiros/Pods/leveldb-library/db/log_reader.cc:56-174 | A log cut off at any byte yields exactly the records wholly inside, in order, with nothing reported as corrupt |
| `LogRoundTrips.WriteLog` | Marketeiros/Pods/leveldb-library/db/log_writer.cc:23-108 | Writers that take turns, each reopening the file with its length, write the same file as one writer does |
| `LogRoundTrips.FragmentsRead` | Marketeiros/Pods/leveldb-library/db/log_reader.cc:189-271 | In any prefix of a file, a record that stands there is read back whole if its last fragment is inside, and is the end of the file otherwise |
| `Coding.UnmaskUndoesMask` | Marketeiros/Pods/leveldb-library/util/crc32c.h:29-39 | The stored checksum gives back the checksum |
| `Coding.Varint64RoundTrip` | Marketeiros/Pods/leveldb-library/util/coding.cc:81-168 | A 64-bit number written as a varint is read back, and the rest is left |
| `Coding.VarintsAreCut` | Marketeiros/Pods/leveldb-library/util/coding.cc:97-168 | Varints of too many digits are refused, at five digits for 32 bits and ten for 64; of the others the lower bits are read |
| `WriteBatches.BatchRoundTrip` | Marketeiros/Pods/leveldb-library/db/write_batch.cc:42-80 | A batch read back has its sequence number, its count and its updates in order |
| `WriteBatches.CutBatchIsRefused` | Marketeiros/Pods/leveldb-library/db/write_batch.cc:42-80 | From a batch cut off anywhere its first updates are handed on, as many as are whole, and an error is returned |
| `WriteBatches.MiscountIsRefused` | Marketeiros/Pods/leveldb-library/db/write_batch.cc:75-80 | A batch whose count is not that of its updates hands them on and returns an error |
| `WriteBatches.JunkIsRefused` | Marketeiros/Pods/leveldb-library/db/write_batch.cc:55-74 | Behind any updates, a tag that is none is an error |
| `WriteBatches.WriteBatch.Append` | Marketeiros/Pods/leveldb-library/db/write_batch.cc:144-148 | The updates of one batch come after those of the other, and the count is that of both |
| `WriteBatches.WriteBatch.Iterate` | Marketeiros/Pods/leveldb-library/db/write_batch.cc:42-80 | For any bytes, the updates handed on and the status are those of the format |
| `LogRecovery.RecoverLogFile` | Marketeiros/Pods/leveldb-library/db/db_impl.cc:418-453 | From a log cut anywhere, the tables and the memtable rebuilt hold exactly the writes of the batches wholly inside, at their own sequence numbers; a memtable becomes a table exactly when it is full |
| `LogRecovery.RecoveredReadsHistory` | Marketeiros/Pods/leveldb-library/db/db_impl.cc:371-489 | With them and the files of the version, every read gives the history up to the end of the last whole batch |
| `LogRecovery.RecoveryIsCrashStep` | Marketeiros/Pods/leveldb-library/db/db_impl.cc:460-489 | Recovery that writes no table and keeps its memtable is a crash step of the store |
| `RecoverySteps.RecoveryIsRun` | Marketeiros/Pods/leveldb-library/db/db_impl.cc:371-489 | Recovery with any number of tables is a run of the store, which keeps the invariant: a crash, the recovered writes again, and a flush to level 0 for each table |
| `CommitLogs.LogGivesHistory` | Marketeiros/Pods/leveldb-library/db/db_impl.cc:1215-1232 | In every interleaving, the log gives back the history, up to a group in flight, if and only if no group with a write in it failed to sync |
| `CommitLogs.UnsyncedGroupComesBack` | Marketeiros/Pods/leveldb-library/db/db_impl.cc:1217-1232 | The writes of a group that failed to sync are in the log, at numbers the history holds as failed |
| `CommitLogs.ErrorIsFailedSync` | Marketeiros/Pods/leveldb-library/db/db_impl.cc:640-646 | Writers are stopped after a failed sync, or a failed flush or compaction, and never otherwise; an unsynced group is in the log after a failed sync only |
| `Durability.SyncedWritesSurvive` | Marketeiros/Pods/leveldb-library/db/db_impl.cc:1217-1232 | In every interleaving, also after errors: once a writer that asked for a sync is told of success, every cut of the log behind its syncs holds the whole batch |
| `Durability.RecoverSynced` | Marketeiros/Pods/leveldb-library/db/db_impl.cc:371-489 | In the same interleavings, recovery from a log file cut behind its last sync reaches beyond every batch written with a sync |
| `TwoLogs.RecoverLogs` | Marketeiros/Pods/leveldb-library/db/db_impl.cc:349-369 | In the same interleavings, after a memtable switch both logs, each cut anywhere, are read in order, and give the writes of the groups wholly in each |
| `TwoLogs.BothAreRun` | Marketeiros/Pods/leveldb-library/db/db_impl.cc:349-369 | That recovery is a run of the store, which keeps the invariant and ends with the history that is left, lost writes marked |
| `TwoLogs.PrefixIffNothingBetween` | Marketeiros/Pods/leveldb-library/db/db_impl.cc:349-369 | What is left is a prefix of the history if and only if the lost end of the older log, or the recovered part of the newer one, has no writes |
| `TwoLogs.LaterWriteAlone` | Marketeiros/Pods/leveldb-library/db/db_impl.cc:1349-1363 | Two writes with a switch between them, the older log cut to nothing: only the second one is left |
| `TwoLogs.SyncedWritesAreLeft` | Marketeiros/Pods/leveldb-library/db/db_impl.cc:1217-1232 | If no file is shorter than at its last sync, no batch written with a sync is lost |
| `RecoveredRuns.RecoverRun` | Marketeiros/Pods/leveldb-library/db/db_impl.cc:371-489 | Recovery from the log of any interleaving in which no group with a write failed to sync, cut anywhere, rebuilds the history from the last flush to the end of the last group wholly in the file |
| `Builders.SaveTo` | Marketeiros/Pods/leveldb-library/db/version_set.cc:695-739 | Merging base and added files by position gives the surviving base files and the added ones in order |
| `Builders.InOrderIsUnique` | Marketeiros/Pods/leveldb-library/db/version_set.cc:593-607 | A list sorted by smallest key and number is determined by its files |
| `Manifests.ReplayEqualsLive` | Marketeiros/Pods/leveldb-library/db/version_set.cc:650-754 | If no number is added twice to a level, all edits in one builder give the same list of files as the edits installed one by one, sorted |
| `Manifests.Builder.Apply` | Marketeiros/Pods/leveldb-library/db/version_set.cc:650-692 | Every level of the builder becomes what the edit makes of it: deletions first, then additions |
| `Manifests.Replay` | Marketeiros/Pods/leveldb-library/db/version_set.cc:886-1000 | One builder for all edits saves the version that installing them one by one made |
| `Readditions.ReplaysIffNew` | Marketeiros/Pods/leveldb-library/db/version_set.cc:644-739 | Replaying the edits so far in one builder over the empty version gives what installing them one by one gave, at every point, if and only if each file an edit adds is new to the level: not on it, and every other file it ever held under that number has another smallest key and is still on it, or comes back with the edit |
| `Readditions.OldFileComesBack` | Marketeiros/Pods/leveldb-library/db/version_set.cc:719-739 | A number added, deleted and added again with a larger smallest key: the replayed level has the old file as well |
| `Readditions.MovedFileIsDoubled` | Marketeiros/Pods/leveldb-library/db/version_set.cc:695-739 | A file deleted and added by one edit: the level in use has it twice, the replayed one once |
| `ManifestRuns.StepIsEdit` | Marketeiros/Pods/leveldb-library/db/version_set.cc:801-884 | Every step changes the version as its edit, in a builder of its own, does |
| `ManifestRuns.RunsUseNumbers` | Marketeiros/Pods/leveldb-library/db/version_set.cc:801-833 | In every run no file number is added twice to a level, all are below the counter recorded in the last edit, and the edits installed one by one are the version |
| `ManifestRuns.ManifestGivesVersion` | Marketeiros/Pods/leveldb-library/db/version_set.cc:886-1000 | The edits of any run, in one builder, give the version at its end, file by file |
| `ManifestRecovery.RunDirects` | Marketeiros/Pods/leveldb-library/db/version_edit.cc:41-85 | In every run the number written for a file tells which file it is |
| `ManifestRecovery.RecoverVersion` | Marketeiros/Pods/leveldb-library/db/version_set.cc:886-1000 | From the bytes of the manifest of any run, cut anywhere: the version after the last whole edit and a file counter above all logged ones, or an error if there is no whole edit |
| `VersionEdits.EditRoundTrip` | Marketeiros/Pods/leveldb-library/db/version_edit.cc:107-205 | Decoding the bytes of an edit gives back that edit if and only if the edit decoded into holds no compaction pointers |
| `VersionEdits.CutFields` | Marketeiros/Pods/leveldb-library/db/version_edit.cc:107-205 | From an edit cut off anywhere its first fields are taken, as many as are whole; it is an error unless the cut is between two of them |
| `VersionEdits.JunkIsRefused` | Marketeiros/Pods/leveldb-library/db/version_edit.cc:107-205 | Behind any fields, a tag that is none, or a level that does not exist, is an error |
| `VersionEdits.VersionEdit.DecodeFrom` | Marketeiros/Pods/leveldb-library/db/version_edit.cc:107-205 | For any bytes, the edit and the error are those of the format, fields taken until the first bad one |
| `VersionLists.VersionSet.LogAndApply` | Marketeiros/Pods/leveldb-library/db/version_set.cc:801-884 | The edited version becomes current if the edit was written; if not, the version list and all reference counts are as before |
| `VersionLists.VersionSet.UnrefVersion` | Marketeiros/Pods/leveldb-library/db/version_set.cc:68-86 | The last holder takes the version off the list, and each of its files loses one reference |
| `VersionLists.CountedIffListed` | Marketeiros/Pods/leveldb-library/db/version_set.cc:741-754 | A file object is alive exactly as long as some version on the list has it |
| `VersionLists.UnrefOk` | Marketeiros/Pods/leveldb-library/db/version_set.cc:476-483 | Every version held stays on the list, and every one on the list is held or current |
| `VersionLists.VersionSet.AddLiveFiles` | Marketeiros/Pods/leveldb-library/db/version_set.cc:1167-1177 | The numbers of the files of all versions on the list |
| `ObsoleteFiles.DeleteObsoleteFiles` | Marketeiros/Pods/leveldb-library/db/db_impl.cc:223-278 | What remains is each file its type and number keep, and everything after a background error |
| `ObsoleteFiles.NeededFilesStay` | Marketeiros/Pods/leveldb-library/db/db_impl.cc:223-278 | In every run of readers, flushes, compactions, failed writes of the manifest and reopenings: each file of a version in use, each table being written, each log of a memtable and each file of a version the manifest may hold is on disk |
| `ObsoleteFiles.NoGarbageLeft` | Marketeiros/Pods/leveldb-library/db/db_impl.cc:223-278 | After a collection in any run exactly these are left: tables and temporary files being written or in a version someone holds or the current one, logs and manifests not older than those in use, and all other files; after an error everything |
| `ObsoleteFiles.FailedIffWriteFailed` | Marketeiros/Pods/leveldb-library/db/db_impl.cc:223-230 | In every run, nothing is collected exactly if a write of the manifest has failed since the database was opened |
| `BlockBuilders.BlockBuilder.Add` | Marketeiros/Pods/leveldb-library/table/block_builder.cc:72-106 | The block holds one entry more, every interval-th one is a restart point, and the bytes grow by that entry without the longest prefix its key shares with the one before |
| `Blocks.EntryRoundTrip` | Marketeiros/Pods/leveldb-library/table/block.cc:54-74 | An entry written with any shared length is decoded into its parts, on the fast and the slow path |
| `BlockIters.BlockIter.ParseNextKey` | Marketeiros/Pods/leveldb-library/table/block.cc:224-250 | It stands on the next entry, with its whole key and value and the restart point before it, or past the end |
| `BlockIters.BlockIter.SeekTo` | Marketeiros/Pods/leveldb-library/table/block.cc:163-201 | On the first entry whose key is not before the target |
| `BlockIters.BlockIter.Prev` | Marketeiros/Pods/leveldb-library/table/block.cc:142-161 | On the entry before, or nowhere from the first one; it undoes Next |
| `BlockIters.BlockIter.SeekToLast` | Marketeiros/Pods/leveldb-library/table/block.cc:208-213 | On the last entry |
| `BlockIters.BuildAndRead` | Marketeiros/Pods/leveldb-library/table/block_builder.cc:62-106 | A block of ascending entries, at any restart interval, reads back as those entries |
| `BloomFilters.CreateFilter` | Marketeiros/Pods/leveldb-library/util/bloom.cc:28-54 | The filter is the bits the keys probe, by double hashing in 32 bits, and the number of probes |
| `BloomFilters.KeyMayMatch` | Marketeiros/Pods/leveldb-library/util/bloom.cc:56-80 | For any filter, whether every bit the key probes is set; too short ones match nothing, unknown ones everything |
| `BloomFilters.MatchesIffProbed` | Marketeiros/Pods/leveldb-library/util/bloom.cc:28-80 | A filter matches a key if and only if each bit the key probes is probed by a key it was made of |
| `BloomFilters.MembersMatch` | Marketeiros/Pods/leveldb-library/util/bloom.cc:28-80 | It matches every key it was made of |
| `BloomFilters.DeltaRotates` | Marketeiros/Pods/leveldb-library/util/bloom.cc:47 | The step of the double hashing has every bit of the hash seventeen places further to the right, going round |
| `FilterBlocks.FilterBlockBuilder.StartBlock` | Marketeiros/Pods/leveldb-library/table/filter_block.cc:21-27 | A filter for every stretch of 2048 bytes up to the one the block starts in |
| `FilterBlocks.FilterBlockReader.AnswersAsFilter` | Marketeiros/Pods/leveldb-library/table/filter_block.cc:90-104 | For a block the builder wrote, the answer is that of the filter of the stretch, or yes if there is none |
| `FilterBlocks.UserKeyPolicyIsSound` | Marketeiros/Pods/leveldb-library/db/dbformat.cc:105-119 | A filter over the user keys of internal keys matches every internal key it was made of |
| `FilterBlocks.AnyVersionMatches` | Marketeiros/Pods/leveldb-library/db/dbformat.cc:105-119 | If any version of a user key is among the keys of a filter, a lookup of it at any sequence number passes |
| `FilterBlocks.BuildAndReadBloom` | Marketeiros/Pods/leveldb-library/table/filter_block.cc:21-104 | With the Bloom filter over user keys, and rising offsets, the answer for any offset and key is that of the filter of the keys in that stretch, and every key of every data block may match at its offset |
| `FilterBlocks.BuildAndRead` | Marketeiros/Pods/leveldb-library/table/filter_block.cc:21-104 | The same for any policy without false negatives |
| `FilterBlocks.KeysAreOfStretch` | Marketeiros/Pods/leveldb-library/table/filter_block.cc:21-50 | The keys of a stretch are those of the blocks that start in its 2048 bytes, and no others |
| `OStreams.OStream.Write` | Marketeiros/Pods/nanopb/pb_encode.c:103-121 | It succeeds exactly if there is room, and then the buffer holds the bytes and nothing else has changed |
| `OStreams.OStream.EncodeVarint` | Marketeiros/Pods/nanopb/pb_encode.c:599-619 | The Base 128 Varint of the number, if there is room |
| `OStreams.OStream.EncodeSubmessage` | Marketeiros/Pods/nanopb/pb_encode.c:708-756 | The message with its length before it, by sizing first; the sizes never differ |
| `OStreams.OStream.Encode` | Marketeiros/Pods/nanopb/pb_encode.c:519-541 | It succeeds exactly if every field fits its table and there is room, and then the stream has the encoding |
| `OStreams.GetEncodedSize` | Marketeiros/Pods/nanopb/pb_encode.c:558-567 | The size found without writing is the length of the encoding |
| `OStreams.EncodeIntoNew` | Marketeiros/Pods/nanopb/pb_encode.c:519-541 | A buffer holds the encoding, exactly if it is large enough |
| `WireExamples.SubmessageExample` | Marketeiros/Pods/nanopb/pb_encode.c:708-756 | The bytes that the Encoding specification gives for a nested message |
| `WireExamples.PackedExample` | Marketeiros/Pods/nanopb/pb_encode.c:144-204 | The bytes that it gives for the elements of a packed array |
| `FieldIters.FieldIter.Find` | Marketeiros/Pods/nanopb/pb_common.c:78-97 | From wherever it stands the iterator finds the field of a tag, or stays if there is none |
| `IStreams.IStream.DecodeVarint32` | Marketeiros/Pods/nanopb/pb_decode.c:187-253 | For any bytes, the number and what is left, or an error, as the format says, with the bit position in eight bits |
| `WireFields.Varint32Reads` | Marketeiros/Pods/nanopb/pb_decode.c:187-253 | A varint of at most 37 bytes is read exactly if its digits fit, the fifth being looked at only if it is the last, and then as the number it spells modulo 2^32 |
| `WireFields.SmallIsRead` | Marketeiros/Pods/nanopb/pb_decode.c:187-253 | Every number below 2^32 is read as itself, with any padding up to 37 bytes |
| `WireFields.NegativeIsRead` | Marketeiros/Pods/nanopb/pb_decode.c:187-253 | A negative 32-bit number sent with its sign in ten bytes is read as its 32-bit pattern |
| `WireFields.LostBits` | Marketeiros/Pods/nanopb/pb_decode.c:226-240 | 2^32 with a byte of padding behind it is read as zero |
| `WireFields.PositionStartsOver` | Marketeiros/Pods/nanopb/pb_decode.c:209-233 | Behind 37 bytes of padding a digit is read as eight times itself |
| `IStreams.IStream.SkipField` | Marketeiros/Pods/nanopb/pb_decode.c:321-331 | For any bytes, a field of any wire type is passed over as a whole |
| `WireFields.SkipsWholeField` | Marketeiros/Pods/nanopb/pb_decode.c:321-331 | A field is passed over exactly if all its bytes are there, and just those: by its varint, its length, or four or eight; fields of other wire types are refused |
| `IStreams.IStream.DecodeStaticField` | Marketeiros/Pods/nanopb/pb_decode.c:406-464 | The slot the field has then, for single, repeated and packed values; on an error the stream has not gone past what it had |
| `IStreams.IStream.DecodeNoInit` | Marketeiros/Pods/nanopb/pb_decode.c:925-1073 | The loop over the fields, known and unknown, accepts exactly the bytes that are a message with all required fields, and leaves that message |
| `RequiredFields.RequiredFieldsArrive` | Marketeiros/Pods/nanopb/pb_decode.c:1029-1071 | For every table and all bytes, what is accepted has a tag of each required field among its top-level tags, up to the 64th such field |
| `RequiredFields.AcceptedIffComplete` | Marketeiros/Pods/nanopb/pb_decode.c:925-1073 | A message is accepted exactly if it is with no field required and has those tags, and then with the same values |
| `RequiredFields.MissingRequiredIsRefused` | Marketeiros/Pods/nanopb/pb_decode.c:1029-1071 | A receiver with a required field that the table of the sender lacks refuses all its messages |
| `RequiredFields.SlotTakes` | Marketeiros/Pods/nanopb/pb_decode.c:406-464 | A field that is decoded takes exactly the bytes that skipping it takes, whatever they are |
| `IStreams.IStream.Decode` | Marketeiros/Pods/nanopb/pb_decode.c:1075-1087 | Decoding bytes into a fresh message |
| `WireFields.AcceptedIsWhole` | Marketeiros/Pods/nanopb/pb_decode.c:925-1087 | Whatever the bytes, a message that is accepted is made of whole fields, up to where it ends |
| `WireFields.UnsentIsZero` | Marketeiros/Pods/nanopb/pb_decode.c:925-1087 | Whatever the bytes, a field without a tag in an accepted message is absent, or zero if it is a required one that is not watched |
| `WireFields.ZeroTagEnds` | Marketeiros/Pods/nanopb/pb_decode.c:298-319 | A message ends at a zero tag, whatever follows |
| `WireFields.GroupIsRefused` | Marketeiros/Pods/nanopb/pb_decode.c:321-331 | Behind a message, an unknown field of a wire type without a size makes it refused |
| `MessageRoundTrips.RoundTrip` | Marketeiros/Pods/nanopb/pb_encode.c:519-541 | For every table of required, optional, repeated and nested fields, decoding the encoding gives the message back if and only if its strings are terminated within their room |
| `MessageRoundTrips.UnknownFieldsAreSkipped` | Marketeiros/Pods/nanopb/pb_decode.c:942-990 | A receiver that lacks some of the fields gets the others as sent |
| `MessageRoundTrips.FullStringIsRefused` | Marketeiros/Pods/nanopb/pb_decode.c:1468-1501 | A string that fills its room is sent and then refused |
| `MessageSafety.AcceptedFits` | Marketeiros/Pods/nanopb/pb_decode.c:925-1087 | Whatever the bytes, a message that is accepted is within all its sizes, with its strings terminated |
| `MessageSafety.ReencodingIsFaithful` | Marketeiros/Pods/nanopb/pb_decode.c:925-1087 | An accepted message, encoded again and decoded, is the same |
| `IStreams.SendAndReceive` | Marketeiros/Pods/nanopb/pb_decode.c:1075-1087 | Sizing, encoding into a buffer and decoding from it gives the message sent, exactly if it fits and its strings are terminated |

## Left out

- Stores.RunsKeepInv: a compaction may start only if dropping is safe, and a flush may go to the output level of a running compaction whose inputs have gaps only if it lies beside them; the code checks neither, and the lemmas under Findings say exactly when each holds.
- ObsoleteFiles.FailedIffWriteFailed: other background errors are not modelled there.
- Stores.ViewIsHistory: speaks of the set of all entries; the order in which memtables and levels are asked is in `DbImpls.DBImpl.Get` and `Versions.Get`.
- DbImpls.DBImpl.BeginBackgroundCompaction: requires that no file left on the next level holds an older entry of an input's user key, unless the file is only moved.
- DbImpls.DBImpl.BackgroundCompaction: requires the same of every set of inputs that can be picked.
- DbImpls.DBImpl.CompactMemTable: requires the flush to lie beside the inputs of a running compaction that have gaps, which only those of a manual compaction can.
- DbImpls.DBImpl.Write: one writer at a time with nothing half inserted, as the queue gives it; `GroupCommit` models the queue, the append to the log and the sync.
- DbImpls.DBImpl.MakeRoomForWrite: one pass of the loop; the delay of a millisecond near the limit, the background error and a failed creation of the new log are not modelled.
- CompactionWork.DoCompactionWork: no shutdown and no errors of reading and writing.
- CompactionSetup.PickCompaction: which level and file a compaction starts from is left open.
- ManifestRuns.ManifestGivesVersion: runs in which the file counter after a crash is above the one in the last edit, as `Recover` sets it.
- ManifestRecovery.RecoverVersion: internal keys are written as bytes by any function; the snapshot record at the head of a new manifest, and the log and last-sequence fields, are not modelled.
- CommitLogs.LogGivesHistory: an append that fails leaves nothing in the log.
- CommitLogs.ErrorIsFailedSync: errors of flushes, moves and compactions are one event that may come at any time.
- RecoveredRuns.RecoverRun: one log file; both files after a memtable switch are in `TwoLogs.RecoverLogs`.
- LogRecovery.RecoveryIsCrashStep: only without tables; `RecoverySteps.RecoveryIsRun` is for any number of them.
- RecoverySteps.RecoveryIsRun: the run gives every table a number two above the one before, as it gives numbers to logs in between.
- LogRecovery.RecoverLogFile: the log is one that batches were written to, cut off at any byte; corrupt records are read by `LogReaders` but not recovered from.
- SkipLists.SkipList.Insert: nodes are indices into a sequence that stands for the arena; heights are given, not random.
- ConcurrentReads.SearchFindsFirst: loads and stores happen one after the other; weaker memory orders are not modelled.
- VersionLists.VersionSet.LogAndApply: file objects are values with an identity and their references a multiset; the order of files in a version is in `Builders`.
- ObsoleteFiles.NeededFilesStay: one background thread, as the code schedules; opening again is one step, and old manifests are kept by number only.
- BlockIters.BuildAndRead: a block of at most 2^32 - 1 bytes; iterators over other bytes and their corruption errors are not modelled.
- FilterBlocks.BuildAndRead: a block of at most 2^32 - 1 bytes.
- BloomFilters.CreateFilter: the hash is any function to 32 bits, and sizes do not wrap around.
- IStreams.SendAndReceive: an encoding of at most 2^32 - 1 bytes; the destination is a value, not a structure written in place.
- User keys are points of a total order, reals, outside the byte formats; the comparator's shortened separators are not modelled.
- The size of a file and the memory a memtable takes are any functions of their entries.
- Compaction scores, seek statistics and read sampling only choose when and where to compact.
- Table files are sorted lists of entries; index blocks, compression, caches and file handles are not modelled.
- A crash keeps a prefix of the bytes of each log; lost or reordered directory entries are not modelled.
- Reading a log from an offset other than 0, and appending to a log whose tail was cut, are not modelled.
- Checksums are any function of the bytes; that damage changes them is not claimed.
- nanopb callbacks, extensions, oneof, pointers, default values, proto3 fields without presence, fixed-count arrays and builds without 64-bit integers are not modelled.
- IStreams.IStream.DecodeVarint32: the bit position has eight bits, as where uint_fast8_t is a byte.
- Tables of messages without fields are not modelled.
- The app's own Swift code, and the rest of its dependencies, are not part of this model.
