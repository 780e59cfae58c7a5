# Verified models of LevelDB and nanopb

Dafny models of two libraries the TinkoffChat application carries: the LevelDB key-value store and the
nanopb encoder and decoder of protocol buffers, with proofs of what they promise their clients.

LevelDB keeps writes in a log and a memtable, flushes full memtables to sorted tables, and merges tables
down seven levels. The model is a state machine (`DbState`) with one step per stretch of code under the mutex
or per durable write, so that a crash, a reader or a flush can come between any two of them; `history`, the
list of all writes, is the specification. The methods that choose, merge and install are modelled with their
loops and proved against that machine; `Database` puts them together as an object with the fields of DBImpl.
The layers below (log, CRC, blocks, filters, tables, skip list, cache, batches, edits) are modelled on bytes
and fields.

## Main results

- Every reachable state answers every read as the history does, at LastSequence and at every snapshot
  (`DbRuns.ReadsOfRun`), until one of two things happens, each with its exact condition: a merge can bring a
  deleted key back (`CompactionMerge.PreservesReadsIff`, `BoundaryGap`), and the outputs of a manual compaction
  can overlap a table flushed meanwhile (`RunningCompaction.FlushThenInstallIff`, `FlushGap`).
- Crashes lose nothing that was appended (`DbRuns.CrashLosesNothing`); power losses keep a prefix of whole
  groups with everything synced (`PowerLoss.PowerLossKeepsAPrefix`), in exactly those cases in which they leave
  no gap between the two logs (`PowerLoss.ReplayHasNoGapIff`).
- A manifest cut at any byte is recovered to an earlier state it stood for (`ManifestBytes.RecoverFromBytes`).
- Iterators of the database show exactly what the history defines, in both directions
  (`Database.DBImpl.NewIterator`, `DbIterator.DBIter.Next` and `Prev`).
- The queue of writers refines the state machine (`GroupRefinement.RunRefines`), and the skip list its
  memtable (`MemTableLists.InsertAllWrites`).
- A log cut at any byte reads back as its whole records (`LogReader.ReadAll`); the sliced CRC is the
  bitwise one (`Crc32c.Extend`); a table reads back as the pairs it was built from and finds the newest visible
  version (`TableLookup.TableRoundTrip`, `TableLookup.GetAt`).
- Lock-free skip list searches are right under every interleaving (`SkipList.SearchIsLinearizable`); the cache
  evicts the oldest, and no more than needed (`LruCache.LRUCache.Insert`).
- nanopb messages survive encoding and decoding (`PbMessageDecode.RoundTrip`).

## Modules

| layer | modules |
|---|---|
| keys and reads | Optional, InternalKeys, ReadSpec, MemTables, MemTableLists |
| versions | Versions, VersionGet, VersionBuilder, Installing, ManifestReplay, VersionEdits, ManifestBytes |
| compaction | CompactionInputs, Unbroken, CompactionSetup, CompactionMerge, CompactionReads, CompactionRun, Flushing, RunningCompaction |
| database | DbState, DbInvariant, DbBackground, DbRecovery, DbRuns, DbReach, PowerLoss, BoundaryGap, FlushGap, Database, GroupCommit, GroupRefinement, WriteBatches |
| iterators | Cursors, Merger, DbIterator, DbIteration |
| files | Coding, Crc32c, LogFormat, LogReader, BlockFormat, BlockIterator, Bloom, FilterBlock, ByteKeys, TableFormat, TableBuilders, TableReader, TableLookup |
| memory | SkipList, LruCache |
| nanopb | PbMessages, PbNormalForm, PbEncode, PbDecode, PbMessageDecode |

`dafny verify dfyconfig.toml` checks everything.

## Where code and documentation disagree

- The comment at db/version_set.cc:1365-1376 says that compacting a file without its boundary file makes later
  reads wrong; the code looks for boundary files of inputs_[0] only (line 1408), not of inputs_[1]. See BoundaryGap.
- include/leveldb/options.h:173-176 says that without sync some recent writes may be lost when the machine crashes
  and none when the process does. The second half is `DbRuns.CrashLosesNothing`. As for the first, an unsynced write
  can also be lost from before a synced one that survives (`PowerLoss.SyncedWriteOutlivesEarlierOne`).

## Model

| member | source | states |
|---|---|---|
| DbRuns.ReadsOfRun | TinkoffChat/Pods/leveldb-library/db/db_impl.cc:1100-1145 | in every state of every run of the database (writes, memtable switches, flushes, compactions with flushes inside them, trivial moves, snapshots, garbage collection, crashes and reopenings), a read at LastSequence or at a live snapshot returns the last of the first s writes to the key, a tombstone reading as absence; for a key that a compaction has brought back, if a write after that is among the s (`Trusted`); up to a manifest record whose outputs overlap another table (`overlapped`) |
| DbRuns.CrashLosesNothing | TinkoffChat/Pods/leveldb-library/db/db_impl.cc:280-489 | a crash at any point of a run, between any two durable writes, followed by any number of opens that crash too, loses no write that was appended to a log: the reopened database reads as the whole history (same provisos) |
| DbRuns.OrderOfRun | TinkoffChat/Pods/leveldb-library/db/version_set.cc:695-754 | in every reachable state, unless a manifest record has named overlapping outputs: levels 1 to 6 hold disjoint tables, a shallower level is newer key by key than a deeper one, in level 0 the higher file number is newer, and memtable, immutable memtable and tables hold ever older sequence numbers |
| DbRuns.NoCutsNoneRevived | TinkoffChat/Pods/leveldb-library/db/version_set.cc:1403-1462 | a run in which no merge runs while a boundary file of its lower inputs is left out revives no key, so that all reads are right |
| DbRuns.OnlyCutsRevive | TinkoffChat/Pods/leveldb-library/db/db_impl.cc:941-959 | the only step that can revive a key is the end of a merge whose lower inputs are followed by a boundary file, and it revives exactly the keys given by the criterion of PreservesReadsIff |
| DbRuns.NoneOverlaps | TinkoffChat/Pods/leveldb-library/db/db_impl.cc:908-920 | if the inputs of every compaction of a run leave no room between them, no installed output ever overlaps another table, whatever flushes go on during the merges |
| DbRuns.OverlapIsDisorder | TinkoffChat/Pods/leveldb-library/db/version_set.cc:695-754 | along a run, the first manifest record marked as overlapping is exactly the first that names a version whose tables are out of order |
| DbRuns.SnapshotReadsAreRepeatable | TinkoffChat/Pods/leveldb-library/db/db_impl.cc:1100-1145 | two reads of a key at one sequence number agree, however many writes, flushes, compactions and crashes lie between them (same two provisos) |
| DbRuns.PinnedReadsAreStable | TinkoffChat/Pods/leveldb-library/db/db_impl.cc:1100-1145 | a reader that took hold of the memtables and the version and then let go of the mutex finds the same answer at any later time, and every table it needs is still on disk |
| DbRuns.LastSequenceEndsAGroup | TinkoffChat/Pods/leveldb-library/db/db_impl.cc:1202-1232 | LastSequence always stands at the end of a write group: a batch is visible whole or not at all |
| DbRuns.CollectSpares | TinkoffChat/Pods/leveldb-library/db/db_impl.cc:223-278 | deleting obsolete files never removes a log recovery needs, a pending output, or a table of the current version, of a version a reader holds, of the version being installed or of the one the manifest names |
| DbRuns.RunKeepsInv | TinkoffChat/Pods/leveldb-library/db/db_impl.cc:491-767 | the invariant (contents of memtables, tables and logs against the history, order of versions, manifest against version) holds in every reachable state up to a manifest record with overlapping outputs, also while a merge runs and tables have been flushed between its inputs |
| DbRecovery.DiskHoldsEverything | TinkoffChat/Pods/leveldb-library/db/db_impl.cc:280-369 | at every instant the manifest, its tables and the logs it still needs hold the whole history between them, each write exactly once |
| DbRecovery.CrashKeepsInv | TinkoffChat/Pods/leveldb-library/db/db_impl.cc:371-489 | crashing and replaying the logs into level-0 tables re-establishes the invariant with the same history |
| PowerLoss.PowerLossKeepsAPrefix | TinkoffChat/Pods/leveldb-library/db/db_impl.cc:1205-1225 | when a crash also cuts unsynced tails off the newest log and off the log of the immutable memtable, and leaves no gap (the older log is not needed, or kept all, or the newest log holds nothing): the reopened database reads as an earlier state of the run, whole groups only, with every synced group |
| PowerLoss.ReplayHasNoGapIff | TinkoffChat/Pods/leveldb-library/db/db_impl.cc:1345-1362 | when the unsynced log of the immutable memtable is cut as well, what is replayed is a stretch of the history without a gap if and only if that log is no longer needed, or kept all its writes, or the newest log kept none |
| PowerLoss.SyncedWriteOutlivesEarlierOne | TinkoffChat/Pods/leveldb-library/db/db_impl.cc:1345-1362 | a concrete run: a published write goes to a log that is never synced, a later one is synced and published; after the power loss the reopened database finds the later one and not the earlier |
| BoundaryGap.DeletedKeyReturns | TinkoffChat/Pods/leveldb-library/db/version_set.cc:1403-1462 | a concrete run, reached from a new database, with a plan SetupOtherInputs makes and the merge DoCompactionWork performs, after which a deleted key reads with its old value again |
| FlushGap.WriteIsLost | TinkoffChat/Pods/leveldb-library/db/db_impl.cc:908-920 | a concrete run in which a memtable flushed during a manual compaction goes to level 2 between the inputs, at the only level PickLevelForMemTableOutput can choose; the output spans it, level 2 is not disjoint, and no layer a read looks at finds the published write |
| FlushGap.CutInGapIsHarmless | TinkoffChat/Pods/leveldb-library/db/db_impl.cc:908-920 | the same run with the output cut between the inputs keeps the invariant and reads the write: the flush alone does no harm |
| FlushGap.LevelLosesKey | TinkoffChat/Pods/leveldb-library/db/version_set.cc:88-106 | the binary search over the overlapping tables picks the compaction output and misses the table that holds the key |
| CompactionMerge.PreservesReadsIff | TinkoffChat/Pods/leveldb-library/db/db_impl.cc:908-987 | for any sorted input and any entries outside it, the merge with both drop rules preserves every read at or above the smallest snapshot if and only if no key has a dropped tombstone as its newest visible input entry and an older value outside the inputs; reads of all other keys agree |
| CompactionMerge.PreservesKeyIff | TinkoffChat/Pods/leveldb-library/db/db_impl.cc:941-959 | the same exact condition for one key |
| CompactionMerge.DroppedNewest | TinkoffChat/Pods/leveldb-library/db/db_impl.cc:941-959 | an entry that decides a read at or above the smallest snapshot is dropped only if it is an obsolete tombstone, and then nothing kept is a candidate for that read |
| CompactionMerge.DoCompactionWork | TinkoffChat/Pods/leveldb-library/db/db_impl.cc:878-1036 | the loop over the merging iterator, with currentUserKey, lastSequenceForKey and output switching, writes outputs whose concatenation is exactly the kept entries, none of them empty |
| CompactionMerge.Compaction.ShouldDrop | TinkoffChat/Pods/leveldb-library/db/db_impl.cc:922-959 | given the sequence of the entry before it with the same user key (MAX_SEQUENCE if it is the first), drops an entry exactly if that is at or below the smallest snapshot or the entry is an obsolete tombstone |
| CompactionMerge.Compaction.IsBaseLevelForKey | TinkoffChat/Pods/leveldb-library/db/version_set.cc:1533-1552 | although level_ptrs_ never moves back, the answer for non-decreasing keys is whether no table two or more levels down spans the key |
| CompactionReads.CompactionReadsIff | TinkoffChat/Pods/leveldb-library/db/db_impl.cc:878-1036 | replacing the inputs by the outputs preserves the reads of the whole version at or above the snapshot if and only if no key comes back to life, adds no entry, and leaves the reads of all other keys alone |
| CompactionReads.ResurrectionNeedsBoundaryFile | TinkoffChat/Pods/leveldb-library/db/version_set.cc:1378-1401 | a key can come back to life only if a boundary file of inputs_[1] was left out and starts with that key |
| CompactionReads.NothingResurrects | TinkoffChat/Pods/leveldb-library/db/version_set.cc:1378-1401 | with inputs_[1] closed under boundary files, nothing comes back to life |
| CompactionReads.CompactionPreservesReads | TinkoffChat/Pods/leveldb-library/db/db_impl.cc:878-1036 | with inputs_[1] closed under boundary files, a compaction preserves every read at or above the smallest snapshot |
| RunningCompaction.FlushThenInstallIff | TinkoffChat/Pods/leveldb-library/db/db_impl.cc:908-920 | a table is flushed to the output level while a compaction merges: after the outputs are installed the version is in order if and only if each output lies wholly before or after that table |
| RunningCompaction.FlushKeepsFit | TinkoffChat/Pods/leveldb-library/db/db_impl.cc:908-920 | whatever level the flush goes to, the inputs still stand for what they stood for and IsBaseLevelForKey still gives the same answers, so that the merge can go on |
| RunningCompaction.FlushKeepsSafe | TinkoffChat/Pods/leveldb-library/db/version_set.cc:491-516 | inputs that hang together stay safe to replace through any flush |
| RunningCompaction.NoRoomBetween | TinkoffChat/Pods/leveldb-library/db/version_set.cc:491-516 | a table that PickLevelForMemTableOutput lets through to the output level is outside the inputs if these hang together |
| RunningCompaction.CompactionFits | TinkoffChat/Pods/leveldb-library/db/db_impl.cc:908-920 | a merge computed against the version the compaction started from is a correct merge for the version it is installed in |
| CompactionRun.MakeInputIterator | TinkoffChat/Pods/leveldb-library/db/version_set.cc:1237-1268 | one child per level-0 input and one concatenation per deeper input level: together a merging iterator over exactly the input entries, in order, each once |
| CompactionRun.RunCompaction | TinkoffChat/Pods/leveldb-library/db/db_impl.cc:878-1036 | from a plan to numbered output tables: sorted, pairwise apart, drawn from the inputs, holding exactly the kept entries |
| CompactionInputs.GetOverlappingInputs | TinkoffChat/Pods/leveldb-library/db/version_set.cc:519-559 | in level 0 the restarting search ends with the tables of the least closed range around the query (no overlapping table sticks out of it); deeper, with the tables overlapping the query |
| CompactionInputs.AddBoundaryInputs | TinkoffChat/Pods/leveldb-library/db/version_set.cc:1378-1401 | the inputs followed by a chain, each link the smallest boundary file of what precedes it, that cannot be extended |
| CompactionInputs.FindSmallestBoundaryFile | TinkoffChat/Pods/leveldb-library/db/version_set.cc:1344-1363 | the boundary file with the smallest smallest key, or none if there is no boundary file |
| CompactionInputs.ClosureOfSegment | TinkoffChat/Pods/leveldb-library/db/version_set.cc:1378-1401 | on a disjoint level the closure of a run of tables is a longer run, which ends exactly where the next table does not start with the last user key |
| CompactionInputs.GetRange | TinkoffChat/Pods/leveldb-library/db/version_set.cc:1205-1227 | the smallest and the largest internal key of a list of tables |
| CompactionSetup.SetupOtherInputs | TinkoffChat/Pods/leveldb-library/db/version_set.cc:1403-1462 | from any legal start, a plan whose inputs are safe to replace: what stays at the level is newer than what moves, what stays at the next level shares no key with inputs_[0] and lies outside the range of all inputs; inputs that hang together still do; the compaction pointer is the largest key compacted |
| CompactionSetup.GrowInputs | TinkoffChat/Pods/leveldb-library/db/version_set.cc:1418-1444 | takes more tables of the level only if that adds none of the next and stays under the size limit; the result is as safe as before |
| CompactionSetup.PickStart | TinkoffChat/Pods/leveldb-library/db/version_set.cc:1270-1323 | starts from a table past the compaction pointer, wrapping around; in level 0 from everything in the least closed range; the start hangs together |
| CompactionSetup.RangeStart | TinkoffChat/Pods/leveldb-library/db/version_set.cc:1464-1495 | a manual compaction starts from the tables overlapping the range, below level 0 cut at the first table that reaches the size limit; empty exactly if nothing overlaps |
| CompactionSetup.LeftBehind | TinkoffChat/Pods/leveldb-library/db/version_set.cc:1378-1401 | for every start closed under boundary files, each table left at the level is newer, key by key, than each input |
| CompactionSetup.ParentsAreApart | TinkoffChat/Pods/leveldb-library/db/version_set.cc:1403-1416 | a table of the next level outside the user-key range of inputs_[0] shares no user key with inputs_[0] and lies before or after all inputs |
| Unbroken.LeastRangeHangsTogether | TinkoffChat/Pods/leveldb-library/db/version_set.cc:519-559 | the tables the restarting search of level 0 collects leave no range of user keys free between them |
| Unbroken.JoinHangsTogether | TinkoffChat/Pods/leveldb-library/db/version_set.cc:1403-1462 | tables that reach into the range of tables that hang together hang together with them |
| Installing.ReplaceIsValid | TinkoffChat/Pods/leveldb-library/db/version_set.cc:801-884 | installing outputs that overlap nothing at their level keeps the order of levels, of level 0 and of keys across levels |
| Installing.ReplaceIsValidIff | TinkoffChat/Pods/leveldb-library/db/version_set.cc:801-884 | exactly when installing the outputs of a merge leaves a version in order: no output overlaps a table that remains at its level |
| Installing.ReplacedTables | TinkoffChat/Pods/leveldb-library/db/version_set.cc:650-754 | the version after a compaction or a trivial move has exactly the tables that were not inputs, and the outputs one level down |
| Flushing.PickLevelForMemTableOutput | TinkoffChat/Pods/leveldb-library/db/version_set.cc:491-516 | the deepest level up to 2 that can be reached without overlapping a table on the way and without too much grandparent data, and why the search stopped there |
| Flushing.FlushIsValid | TinkoffChat/Pods/leveldb-library/db/db_impl.cc:491-533 | adding a newer table at that level keeps all invariants of the version and changes no other table |
| DbBackground.BuildFlushKeepsInv | TinkoffChat/Pods/leveldb-library/db/db_impl.cc:491-533 | writing the immutable memtable out keeps the invariant, at whatever level and also while a compaction runs |
| DbBackground.BuildCompactionKeepsInv | TinkoffChat/Pods/leveldb-library/db/db_impl.cc:878-1036 | the end of a merge keeps the invariant, although flushes have changed the version since it started |
| DbBackground.RecordIsValidIff | TinkoffChat/Pods/leveldb-library/db/version_set.cc:801-884 | a manifest record that becomes durable names a version in order if and only if nothing it adds overlaps a table that stays at the level |
| VersionGet.Get | TinkoffChat/Pods/leveldb-library/db/version_set.cc:326-421 | level-0 tables newest first, then one binary-searched table per level, stopping at the first entry of the key: the newest entry visible at the sequence, for every valid version |
| VersionGet.GetFromSortedLevel | TinkoffChat/Pods/leveldb-library/db/version_set.cc:88-106 | what the search of one deeper level finds is the newest visible entry of the version, and if it finds nothing that level has no candidate |
| Versions.FindFile | TinkoffChat/Pods/leveldb-library/db/version_set.cc:88-106 | the first table whose largest key is at or after the key |
| Versions.SomeFileOverlapsRange | TinkoffChat/Pods/leveldb-library/db/version_set.cc:122-157 | whether some table spans a key of the closed range, for disjoint and for overlapping lists, with bounds that may be open |
| VersionBuilder.Builder.Apply | TinkoffChat/Pods/leveldb-library/db/version_set.cc:650-692 | applying edits one after another tracks the version that installing each in turn would give |
| VersionBuilder.Builder.SaveTo | TinkoffChat/Pods/leveldb-library/db/version_set.cc:695-754 | the merge of base and added tables yields, in builder order, the base without the deletions plus the additions of all edits |
| VersionBuilder.Replay | TinkoffChat/Pods/leveldb-library/db/version_set.cc:886-1011 | one builder over all edits gives the version of installing them one by one |
| ManifestReplay.RecoverVersion | TinkoffChat/Pods/leveldb-library/db/version_set.cc:886-1011 | at any point of any run, up to a record with overlapping outputs, replaying the manifest edits from the version it began with rebuilds the version the manifest stands for |
| ManifestBytes.RecoverFromBytes | TinkoffChat/Pods/leveldb-library/db/version_set.cc:886-1011 | at any point of any run, the bytes of a manifest (the snapshot record, the edit of the open, and one encoded edit per change), cut off at any byte, are read, decoded and replayed to what the manifest stood for after its last whole record: version, log number, next file and last sequence of an earlier state, and of the present one if nothing is missing; nothing exactly if no record with counters is whole |
| ManifestBytes.ReadManifest | TinkoffChat/Pods/leveldb-library/db/version_set.cc:912-961 | one builder over the decoded whole records, counters from the last of them that has any; nothing if none has |
| ManifestBytes.EncodeRecord | TinkoffChat/Pods/leveldb-library/db/version_set.cc:847-852 | what EncodeTo writes for an edit is a record of it, so that DecodeRecord gives it back |
| ManifestBytes.SnapshotGivesVersion | TinkoffChat/Pods/leveldb-library/db/version_set.cc:1088-1115 | the record of WriteSnapshot alone gives the version back |
| ManifestBytes.ManifestHasNames | TinkoffChat/Pods/leveldb-library/db/version_set.cc:801-884 | along every run the file numbers in a manifest each stand for one table |
| ManifestBytes.RunBegins | TinkoffChat/Pods/leveldb-library/db/version_set.cc:826-860 | the manifest of every run begins with a valid version and an edit that only adds new tables and leads to the version the open recorded |
| VersionEdits.EditRoundTrip | TinkoffChat/Pods/leveldb-library/db/version_edit.cc:41-205 | decoding an encoded edit gives back every field; only compact pointers add to those already there, because Clear keeps them |
| VersionEdits.VersionEdit.EncodeTo | TinkoffChat/Pods/leveldb-library/db/version_edit.cc:41-85 | appends the fields in the order of the code, the deleted files in some order of the set |
| VersionEdits.VersionEdit.DecodeFrom | TinkoffChat/Pods/leveldb-library/db/version_edit.cc:107-205 | succeeds exactly if the bytes split into known fields, and then holds what these fields say |
| VersionEdits.ParseRoundTrip | TinkoffChat/Pods/leveldb-library/db/version_edit.cc:107-205 | any sequence of encoded fields parses back to itself |
| Database.DBImpl.Open | TinkoffChat/Pods/leveldb-library/db/db_impl.cc:1474-1515 | opening a disk that holds a history establishes the invariant with all of it readable |
| Database.DBImpl.Get | TinkoffChat/Pods/leveldb-library/db/db_impl.cc:1100-1145 | returns what the history says at the snapshot or the last published write, for every key that has not been revived since it was last written |
| Database.DBImpl.NewIterator | TinkoffChat/Pods/leveldb-library/db/db_impl.cc:1062-1157 | builds the merging iterator over both memtables, all level-0 tables and one run per deeper level, and a DBIter over it that shows a key with a value exactly if the last visible write of the history put it; the version is pinned |
| Database.DBImpl.Write | TinkoffChat/Pods/leveldb-library/db/db_impl.cc:1185-1257 | the history grows by exactly the group, numbered from LastSequence + 1, and all of it is visible; the invariant is kept |
| Database.DBImpl.SwitchMemTable | TinkoffChat/Pods/leveldb-library/db/db_impl.cc:1345-1362 | new log and empty memtable, the old one immutable, as the step of the state machine, keeping the invariant |
| Database.DBImpl.LogAndApply | TinkoffChat/Pods/leveldb-library/db/version_set.cc:801-884 | takes the state through preparing, recording and installing an edit |
| Database.DBImpl.CompactMemTable | TinkoffChat/Pods/leveldb-library/db/db_impl.cc:535-566 | flushes the immutable memtable at a level it may go to, installs it and collects garbage, keeping the invariant, also in the middle of a compaction |
| Database.DBImpl.CompactLevel | TinkoffChat/Pods/leveldb-library/db/db_impl.cc:688-767 | an automatic compaction follows a plan of SetupOtherInputs whose inputs hang together, moves one table or merges all inputs, keeps the invariant and preserves reads exactly of the keys it does not revive |
| Database.DBImpl.CompactRange | TinkoffChat/Pods/leveldb-library/db/version_set.cc:1464-1495 | a manual compaction with nothing in between does the same without the trivial move, and does nothing exactly if no table overlaps the range |
| Database.DBImpl.BeginMerge | TinkoffChat/Pods/leveldb-library/db/db_impl.cc:878-906 | takes hold of the current version and the smallest snapshot; writes, switches, flushes, snapshots and reads may follow |
| Database.DBImpl.EndMerge | TinkoffChat/Pods/leveldb-library/db/db_impl.cc:878-1036 | after any of those, merges what the base version holds and installs the outputs in the version there is now; the result is in order, and the invariant kept, if and only if no output overlaps a table flushed meanwhile |
| Database.DBImpl.DeleteObsoleteFiles | TinkoffChat/Pods/leveldb-library/db/db_impl.cc:223-278 | keeps exactly the logs from the current log number on and the tables of live versions and pending outputs |
| Database.DBImpl.AddLiveFiles | TinkoffChat/Pods/leveldb-library/db/version_set.cc:1167-1177 | the file numbers of all tables of the current version and of every pinned one |
| Database.DBImpl.GetSnapshot | TinkoffChat/Pods/leveldb-library/db/db_impl.cc:1166-1169 | appends LastSequence to the ordered list of snapshots and keeps the invariant |
| Database.DBImpl.ReleaseSnapshot | TinkoffChat/Pods/leveldb-library/db/db_impl.cc:1171-1175 | removes one snapshot and keeps the invariant |
| Database.Recover | TinkoffChat/Pods/leveldb-library/db/db_impl.cc:280-369 | replays all logs the manifest needs into level-0 tables and computes LastSequence, the new log and the first version exactly as recovery of the state machine |
| Database.RecoverLogFile | TinkoffChat/Pods/leveldb-library/db/db_impl.cc:371-489 | cuts one log into nonempty memtables whose concatenation is the log, and tracks the largest sequence |
| DbIteration.IterationIsHistory | TinkoffChat/Pods/leveldb-library/db/db_impl.cc:1062-1157 | any sorted listing of all memtables and tables, seen through DBIter at a readable sequence, shows a key with a value exactly if the last visible write put that value (keys not revived since) |
| DbIteration.UnionReadIsRead | TinkoffChat/Pods/leveldb-library/db/db_impl.cc:1062-1087 | reading the union of all layers finds what the layered read finds |
| DbIteration.NewInternalIterator | TinkoffChat/Pods/leveldb-library/db/db_impl.cc:1062-1087 | the children of the internal iterator have no entry in common, and together every entry of both memtables and of the version |
| DbIteration.AddIterators | TinkoffChat/Pods/leveldb-library/db/version_set.cc:230-250 | one run per level-0 table and one per nonempty deeper level, which hold exactly the entries of the version |
| DbIterator.ShownIffRead | TinkoffChat/Pods/leveldb-library/db/db_iter.cc:168-198 | the entries DBIter shows are exactly the keys that read as found, with their values |
| DbIterator.DBIter.FindNextUserEntry | TinkoffChat/Pods/leveldb-library/db/db_iter.cc:168-198 | stops at the first shown entry from its start on, skipping tombstones and what they hide, or at the end |
| DbIterator.DBIter.FindPrevUserEntry | TinkoffChat/Pods/leveldb-library/db/db_iter.cc:227-267 | stops at the last shown entry before its start, or before the beginning |
| DbIterator.DBIter.Next | TinkoffChat/Pods/leveldb-library/db/db_iter.cc:141-166 | over a merging iterator, moves to the next shown entry, also after a change of direction |
| DbIterator.DBIter.CurrentValue | TinkoffChat/Pods/leveldb-library/db/db_iter.cc:70-73 | the value of the entry shown, in either direction |
| DbIterator.DBIter.Prev | TinkoffChat/Pods/leveldb-library/db/db_iter.cc:200-225 | over a merging iterator, moves to the previous shown entry, also after a change of direction |
| DbIterator.DBIter.Seek | TinkoffChat/Pods/leveldb-library/db/db_iter.cc:269-281 | lands on the first shown entry whose key is at or after the target |
| DbIterator.DBIter.SeekToFirst | TinkoffChat/Pods/leveldb-library/db/db_iter.cc:283-292 | lands on the first shown entry |
| DbIterator.DBIter.SeekToLast | TinkoffChat/Pods/leveldb-library/db/db_iter.cc:294-299 | lands on the last shown entry |
| DbIterator.StepsInvert | TinkoffChat/Pods/leveldb-library/db/db_iter.cc:141-225 | Prev undoes Next and Next undoes Prev |
| Merger.MergingIterator.Seek | TinkoffChat/Pods/leveldb-library/table/merger.cc:47-53 | stands on the lower bound of the target in the union of the children |
| Merger.MergingIterator.SeekToFirst | TinkoffChat/Pods/leveldb-library/table/merger.cc:31-37 | stands on the first entry of the union |
| Merger.MergingIterator.SeekToLast | TinkoffChat/Pods/leveldb-library/table/merger.cc:39-45 | stands on the last entry of the union |
| Merger.MergingIterator.Next | TinkoffChat/Pods/leveldb-library/table/merger.cc:55-79 | moves one entry forward in the sorted union, also when the children have to be turned around first |
| Merger.MergingIterator.Prev | TinkoffChat/Pods/leveldb-library/table/merger.cc:81-108 | moves one entry back in the sorted union, also when the children have to be turned around first |
| Merger.MergingIterator.FindSmallest | TinkoffChat/Pods/leveldb-library/table/merger.cc:148-161 | the child with the smallest key stands on the next entry of the union |
| Merger.MergingIterator.FindLargest | TinkoffChat/Pods/leveldb-library/table/merger.cc:163-176 | the child with the largest key stands on the previous entry of the union |
| MemTables.MemTableIsSorted | TinkoffChat/Pods/leveldb-library/db/memtable.cc:75-98 | entries inserted one by one, newest last, end up sorted and are all there |
| MemTableLists.MemTableList.Add | TinkoffChat/Pods/leveldb-library/db/memtable.cc:75-98 | inserting an entry in the skip list, at any height, inserts it in order in the memtable |
| MemTableLists.MemTableList.Get | TinkoffChat/Pods/leveldb-library/db/memtable.cc:100-134 | a seek in the skip list finds what the read of the sorted memtable finds |
| MemTableLists.InsertAllWrites | TinkoffChat/Pods/leveldb-library/db/memtable.cc:75-98 | writes inserted one by one at any heights make exactly the memtable of the state machine |
| ReadSpec.LayerGetIsNewest | TinkoffChat/Pods/leveldb-library/db/memtable.cc:100-134 | one seek in a sorted run finds exactly the newest entry visible at the sequence, if the key has one |
| ReadSpec.HistoryReadIsSetRead | TinkoffChat/Pods/leveldb-library/db/memtable.cc:100-134 | the newest visible entry of the set of all writes is the last write of the history |
| ReadSpec.NewestOfLayers | TinkoffChat/Pods/leveldb-library/db/db_impl.cc:1122-1133 | a read may stop at the first layer with a candidate if every layer is newer than those below |
| GroupCommit.BuildBatchGroup | TinkoffChat/Pods/leveldb-library/db/db_impl.cc:1260-1306 | the longest group from the front that the size and sync rules admit, and the concatenation of its batches |
| GroupCommit.GroupsCommitInOrder | TinkoffChat/Pods/leveldb-library/db/db_impl.cc:1185-1257 | in every interleaving of arriving writers: writers finish in arrival order, LastSequence counts exactly the finished operations, the log and the memtable hold what has finished and no more than what has arrived, groups are contiguous, and every synced group is synced |
| GroupCommit.ReturnedIsSynced | TinkoffChat/Pods/leveldb-library/db/db_impl.cc:1205-1257 | when a sync write returns, its group is the last of the log and has been synced |
| GroupRefinement.RunRefines | TinkoffChat/Pods/leveldb-library/db/db_impl.cc:1185-1257 | for every interleaving of writers there is a run of the database state machine with the same log and the same LastSequence |
| GroupRefinement.ReturnedWritesAreRead | TinkoffChat/Pods/leveldb-library/db/db_impl.cc:1185-1257 | in that run a read at LastSequence gives the last write of the writers that have returned |
| TableLookup.GetAt | TinkoffChat/Pods/leveldb-library/table/table.cc:216-244 | an opened table reports a pair exactly if it holds a version of the user key at or below the sequence, and then the newest such |
| TableLookup.InternalGet | TinkoffChat/Pods/leveldb-library/table/table.cc:216-244 | the pair found through index, filter and data block is the first at or after the key, or none if that has another user key; the filter never hides it |
| TableLookup.GetFindsNewest | TinkoffChat/Pods/leveldb-library/table/table.cc:216-244 | the first pair at or after the lookup key, seen through its user key, is the newest visible version |
| TableLookup.TableRoundTrip | TinkoffChat/Pods/leveldb-library/table/table_builder.cc:94-253 | a table built from any sorted pairs, with or without filter, whatever the block sizes, opens, iterates to the same pairs and answers lookups |
| TableLookup.OpenTable | TinkoffChat/Pods/leveldb-library/table/table.cc:38-134 | opens every well-formed table, and has a filter exactly if the metaindex names one for the policy |
| TableLookup.ReadTable | TinkoffChat/Pods/leveldb-library/table/table.cc:210-214 | iterating from the first pair to the end gives all pairs |
| TableBuilders.TableBuilder.Add | TinkoffChat/Pods/leveldb-library/table/table_builder.cc:94-123 | the pairs of the table grow by one; index separators, filter and offsets stay right |
| TableBuilders.TableBuilder.Flush | TinkoffChat/Pods/leveldb-library/table/table_builder.cc:125-139 | closes the data block and changes no pair |
| TableBuilders.TableBuilder.Finish | TinkoffChat/Pods/leveldb-library/table/table_builder.cc:198-253 | the file is a well-formed table that holds exactly the added pairs, with a filter exactly if there is a policy |
| TableFormat.ReadBlock | TinkoffChat/Pods/leveldb-library/table/format.cc:64-139 | returns only bytes inside the file, and returns a stored block whole |
| TableFormat.HandleRoundTrip | TinkoffChat/Pods/leveldb-library/table/format.cc:15-29 | a block handle decodes to itself wherever it stands |
| TableFormat.FooterRoundTrip | TinkoffChat/Pods/leveldb-library/table/format.cc:31-62 | a footer decodes to its two handles |
| TableFormat.EntriesAreSorted | TinkoffChat/Pods/leveldb-library/table/table_builder.cc:94-123 | block order and index separators make all pairs of a table sorted |
| TableReader.TwoLevelIterator.Seek | TinkoffChat/Pods/leveldb-library/table/two_level_iterator.cc:82-87 | stands on the first pair of the whole table at or after the target |
| TableReader.TwoLevelIterator.SeekToFirst | TinkoffChat/Pods/leveldb-library/table/two_level_iterator.cc:89-94 | stands on the first pair |
| TableReader.TwoLevelIterator.SeekToLast | TinkoffChat/Pods/leveldb-library/table/two_level_iterator.cc:96-101 | stands on the last pair |
| TableReader.TwoLevelIterator.Next | TinkoffChat/Pods/leveldb-library/table/two_level_iterator.cc:103-126 | moves one pair forward across block ends |
| TableReader.TwoLevelIterator.Prev | TinkoffChat/Pods/leveldb-library/table/two_level_iterator.cc:109-139 | moves one pair back across block ends |
| TableReader.BlockReader | TinkoffChat/Pods/leveldb-library/table/table.cc:155-208 | an index value leads to an iterator over exactly the block it names |
| BlockFormat.BlockBuilder.Add | TinkoffChat/Pods/leveldb-library/table/block_builder.cc:72-105 | the pairs grow by one; a restart point is added only when the interval is full |
| BlockFormat.BlockBuilder.Finish | TinkoffChat/Pods/leveldb-library/table/block_builder.cc:62-70 | the bytes are a block with exactly the added pairs |
| BlockFormat.EntryRoundTrip | TinkoffChat/Pods/leveldb-library/table/block.cc:54-74 | a prefix-compressed entry decodes to its lengths, key rest and value |
| BlockFormat.FastPathIsExact | TinkoffChat/Pods/leveldb-library/table/block.cc:54-74 | the one-byte fast path of DecodeEntry gives what the general path gives |
| BlockIterator.BlockRoundTrip | TinkoffChat/Pods/leveldb-library/table/block.cc:76-264 | a block built from sorted pairs with any restart interval reads back as those pairs |
| BlockIterator.FinishedBlockOpens | TinkoffChat/Pods/leveldb-library/table/block.cc:24-39 | the constructor accepts every finished block and finds its restart array |
| BlockIterator.BlockIter.Seek | TinkoffChat/Pods/leveldb-library/table/block.cc:163-201 | binary search over restart points and a scan end on the first pair at or after the target |
| BlockIterator.BlockIter.Next | TinkoffChat/Pods/leveldb-library/table/block.cc:137-140 | moves to the next pair |
| BlockIterator.BlockIter.Prev | TinkoffChat/Pods/leveldb-library/table/block.cc:142-161 | moves to the previous pair by going back to a restart point |
| BlockIterator.BlockIter.SeekToFirst | TinkoffChat/Pods/leveldb-library/table/block.cc:203-206 | stands on the first pair |
| BlockIterator.BlockIter.SeekToLast | TinkoffChat/Pods/leveldb-library/table/block.cc:208-213 | stands on the last pair |
| BlockIterator.BlockIter.ParseNextKey | TinkoffChat/Pods/leveldb-library/table/block.cc:224-250 | on any bytes it stays inside the block; on a well-formed block it yields the next pair |
| ByteKeys.FindShortestSeparator | TinkoffChat/Pods/leveldb-library/util/comparator.cc:29-50 | unchanged, or no longer than the start and strictly between start and limit |
| ByteKeys.FindShortSuccessor | TinkoffChat/Pods/leveldb-library/util/comparator.cc:52-64 | unchanged only if every byte is 0xff; otherwise greater and no longer |
| ByteKeys.FindInternalSeparator | TinkoffChat/Pods/leveldb-library/db/dbformat.cc:69-86 | at or after the start, before the limit, and not longer than the start |
| ByteKeys.FindInternalSuccessor | TinkoffChat/Pods/leveldb-library/db/dbformat.cc:88-101 | at or after the key and not longer |
| ByteKeys.OrderOfInternalKeys | TinkoffChat/Pods/leveldb-library/db/dbformat.cc:51-67 | the internal key comparison is a strict total order up to the order of tags |
| ByteKeys.InternalKeyRoundTrip | TinkoffChat/Pods/leveldb-library/db/dbformat.cc:14-18 | user key, sequence and type can be read off an internal key |
| FilterBlock.NoFalseNegatives | TinkoffChat/Pods/leveldb-library/table/filter_block.cc:77-104 | a finished filter answers yes for every key that was added for the block at that offset |
| FilterBlock.FilterRoundTrip | TinkoffChat/Pods/leveldb-library/table/filter_block.cc:21-104 | the same through builder and reader, for any blocks at ascending offsets, with any policy without false negatives |
| FilterBlock.FilterBlockBuilder.GenerateFilter | TinkoffChat/Pods/leveldb-library/table/filter_block.cc:51-75 | one more filter, over exactly the pending keys |
| Bloom.CreateFilter | TinkoffChat/Pods/leveldb-library/util/bloom.cc:28-54 | sets exactly the probe bits of the keys, in a filter at least as large as asked for |
| Bloom.KeyMayMatch | TinkoffChat/Pods/leveldb-library/util/bloom.cc:56-80 | no for filters shorter than two bytes, else yes exactly if all probe bits are set or the probe count is above 30 |
| Bloom.EveryKeyMatches | TinkoffChat/Pods/leveldb-library/util/bloom.cc:28-80 | no key of a filter is ever denied |
| Coding.Varint32RoundTrip | TinkoffChat/Pods/leveldb-library/util/coding.cc:47-128 | a 32-bit varint reads back as itself, wherever it stands |
| Coding.Varint64RoundTrip | TinkoffChat/Pods/leveldb-library/util/coding.cc:81-157 | a 64-bit varint reads back as itself, wherever it stands |
| Coding.GetVarint | TinkoffChat/Pods/leveldb-library/util/coding.cc:112-157 | the shifting loop with its limits and its truncation computes the value defined group by group |
| Coding.EncodeVarint | TinkoffChat/Pods/leveldb-library/util/coding.cc:47-90 | the loop writes the groups of seven bits, lowest first |
| Coding.LengthPrefixedRoundTrip | TinkoffChat/Pods/leveldb-library/util/coding.cc:98-190 | a length-prefixed slice reads back as itself |
| WriteBatches.ReplayBatch | TinkoffChat/Pods/leveldb-library/db/write_batch.cc:42-137 | inserting a batch built by any Puts, Deletes and Appends yields its operations in order, numbered from its sequence |
| WriteBatches.Iterate | TinkoffChat/Pods/leveldb-library/db/write_batch.cc:42-80 | hands over the records up to the first bad one, and succeeds exactly if all parse and their number is the count of the header |
| WriteBatches.WriteBatch.Append | TinkoffChat/Pods/leveldb-library/db/write_batch.cc:144-148 | the operations are those of the first batch followed by those of the second |
| WriteBatches.WriteBatch.Put | TinkoffChat/Pods/leveldb-library/db/write_batch.cc:98-103 | one more operation, header count included |
| WriteBatches.WriteBatch.Delete | TinkoffChat/Pods/leveldb-library/db/write_batch.cc:105-109 | one more operation, header count included |
| WriteBatches.WriteBatch.SetSequence | TinkoffChat/Pods/leveldb-library/db/write_batch.cc:94-96 | changes the first sequence number and no operation |
| LogFormat.Writer.AddRecord | TinkoffChat/Pods/leveldb-library/db/log_writer.cc:34-80 | appends the fragments and trailers that a record takes from its block offset; the writer may be reopened at any length |
| LogFormat.WriteAll | TinkoffChat/Pods/leveldb-library/db/log_writer.cc:23-108 | records written across any number of reopenings make the log of those records |
| LogReader.ReadAll | TinkoffChat/Pods/leveldb-library/db/log_reader.cc:56-271 | any prefix of a log, cut at any byte, reads back as exactly the records that are whole in it, with no corruption reported |
| LogReader.Reader.ReadRecord | TinkoffChat/Pods/leveldb-library/db/log_reader.cc:56-174 | from a record boundary: the next record if it is whole, else end of file; on any bytes it terminates and moves forward |
| LogReader.Reader.ReadPhysicalRecord | TinkoffChat/Pods/leveldb-library/db/log_reader.cc:189-271 | delivers a fragment only if it stands in the file with a matching checksum |
| LogReader.AllAreWhole | TinkoffChat/Pods/leveldb-library/db/log_reader.cc:56-174 | in an uncut log every record is whole |
| Crc32c.Extend | TinkoffChat/Pods/leveldb-library/util/crc32c.cc:276-377 | the sliced, four-lane algorithm computes, for every data and alignment, the bit-by-bit CRC with the Castagnoli polynomial |
| Crc32c.DigestConcat | TinkoffChat/Pods/leveldb-library/util/crc32c.h:15-20 | extending over two pieces is extending over their concatenation |
| Crc32c.StrideIsShift | TinkoffChat/Pods/leveldb-library/util/crc32c.cc:276-377 | one step of four table lookups is a shift by 16 zero bytes |
| Crc32c.MaskRoundTrip | TinkoffChat/Pods/leveldb-library/util/crc32c.h:29-38 | Unmask undoes Mask, and Mask undoes Unmask |
| SkipList.SearchIsLinearizable | TinkoffChat/Pods/leveldb-library/db/skiplist.h:260-281 | a lock-free search that interleaves with one writer in any way returns an answer that is right at its end, and the list only grows meanwhile |
| SkipList.WriterStepKeepsInv | TinkoffChat/Pods/leveldb-library/db/skiplist.h:336-368 | each single store of an insertion keeps every level a sorted sublist of the level below and takes nothing away |
| SkipList.SkipList.Insert | TinkoffChat/Pods/leveldb-library/db/skiplist.h:336-368 | the keys grow by exactly the new one, and all levels stay in order |
| SkipList.SkipList.Find | TinkoffChat/Pods/leveldb-library/db/skiplist.h:260-322 | descends through the levels to the cut at the target, with its predecessors on every level |
| SkipList.SkipList.FindGreaterOrEqual | TinkoffChat/Pods/leveldb-library/db/skiplist.h:260-281 | the first node at or after the key, and the predecessors on all levels |
| SkipList.SkipList.FindLessThan | TinkoffChat/Pods/leveldb-library/db/skiplist.h:283-302 | the last node before the key |
| SkipList.SkipList.FindLast | TinkoffChat/Pods/leveldb-library/db/skiplist.h:304-322 | the last node |
| SkipList.SkipList.Contains | TinkoffChat/Pods/leveldb-library/db/skiplist.h:370-378 | whether the key is in the list |
| LruCache.LRUCache.Insert | TinkoffChat/Pods/leveldb-library/util/cache.cc:266-303 | afterwards usage is within capacity or the LRU list is empty; an entry of the same key is displaced, then the oldest free entries go, oldest first and no more than needed, and deleters run in that order; no handle a client holds changes |
| LruCache.LRUCache.Lookup | TinkoffChat/Pods/leveldb-library/util/cache.cc:252-259 | finds the entry of the key if there is one and hands out one more reference, taking it off the LRU list |
| LruCache.LRUCache.Release | TinkoffChat/Pods/leveldb-library/util/cache.cc:261-264 | gives a reference back; the deleter runs exactly when the last one of an uncached entry goes, and a cached entry becomes the newest free one |
| LruCache.LRUCache.Erase | TinkoffChat/Pods/leveldb-library/util/cache.cc:318-321 | removes exactly the entry of the key; references that clients hold keep it alive |
| LruCache.LRUCache.Prune | TinkoffChat/Pods/leveldb-library/util/cache.cc:323-333 | deletes all free entries, oldest first, and touches no other |
| LruCache.LRUCache.FinishErase | TinkoffChat/Pods/leveldb-library/util/cache.cc:307-316 | uncaches an entry and its charge and drops the reference of the cache |
| LruCache.HandleTable.Insert | TinkoffChat/Pods/leveldb-library/util/cache.cc:78-92 | replaces the entry of the same key and hash, or adds one, in every size of the table |
| LruCache.HandleTable.Remove | TinkoffChat/Pods/leveldb-library/util/cache.cc:94-102 | removes exactly the entry of the key and hash |
| LruCache.HandleTable.Lookup | TinkoffChat/Pods/leveldb-library/util/cache.cc:74-120 | the entry of the key and hash, or none exactly if there is none |
| LruCache.HandleTable.Resize | TinkoffChat/Pods/leveldb-library/util/cache.cc:122-146 | rehashing keeps the contents and makes room for all of them |
| PbMessageDecode.RoundTrip | TinkoffChat/Pods/nanopb/pb_encode.c:528-550 | a message encoded into a buffer (which succeeds exactly if it fits) decodes to its normal form, and to itself if unset fields hold their defaults; the normal form fits, holds its defaults, is its own normal form and has the same encoding, so that what was decoded can be encoded again |
| PbNormalForm.NormalMessageIsNormal | TinkoffChat/Pods/nanopb/pb_decode.c:838-922 | the normal form of any message that fits is one that fits, with defaults in all unset fields, and is encoded to the same bytes |
| PbMessageDecode.TextRoundTripIff | TinkoffChat/Pods/nanopb/pb_encode.c:875-899 | a character array is encoded whatever it holds, and decodes into an array of its size if and only if it holds a terminator |
| PbMessageDecode.Decode | TinkoffChat/Pods/nanopb/pb_decode.c:1078-1090 | decoding an encoding gives the normal form; on any bytes the result has one slot per field and stays inside the input |
| PbMessageDecode.DecodeNoInit | TinkoffChat/Pods/nanopb/pb_decode.c:928-1076 | the field loop with its iterator, its bitmap of required fields and its counters of fixed arrays, started from the defaults |
| PbMessageDecode.DecodeSubmessage | TinkoffChat/Pods/nanopb/pb_decode.c:1506-1527 | a submessage decodes to its normal form from its substream |
| PbMessageDecode.DecodeRepeated | TinkoffChat/Pods/nanopb/pb_decode.c:406-483 | packed and unpacked items extend the array in order, up to its maximum |
| PbMessageDecode.SkipField | TinkoffChat/Pods/nanopb/pb_decode.c:321-331 | skipping stays inside the input |
| PbMessageDecode.FieldIter.Find | TinkoffChat/Pods/nanopb/pb_common.c:78-95 | the cyclic search finds the field with the tag whatever its starting point, or none exactly if there is none |
| PbMessageDecode.FieldIter.Next | TinkoffChat/Pods/nanopb/pb_common.c:20-76 | the next field, wrapping to the first |
| PbMessageDecode.AllSeen | TinkoffChat/Pods/nanopb/pb_decode.c:1042-1071 | the word-wise test of the bitmap holds exactly if, in the words it looks at, the bits of the required fields are set and no others |
| PbEncode.EncodeToBuffer | TinkoffChat/Pods/nanopb/pb_encode.c:567-576 | the size computed with a sizing stream is the length of the encoding, and writing succeeds exactly if the buffer holds it |
| PbEncode.Encode | TinkoffChat/Pods/nanopb/pb_encode.c:528-550 | writes the wire format of the message, or fails when the stream is full |
| PbEncode.EncodeSubmessage | TinkoffChat/Pods/nanopb/pb_encode.c:717-765 | two passes, the first for the size: a length-prefixed encoding |
| PbEncode.EncodeArray | TinkoffChat/Pods/nanopb/pb_encode.c:147-236 | packed and unpacked arrays, elements in order |
| PbEncode.EncodeField | TinkoffChat/Pods/nanopb/pb_encode.c:341-426 | which values of a field are written and with which tags: required, optional, repeated, oneof, and proto3 defaults left out |
| PbEncode.EncodeVarint | TinkoffChat/Pods/nanopb/pb_encode.c:608-628 | the buffer of marked groups is the varint |
| PbDecode.DecodeVarint | TinkoffChat/Pods/nanopb/pb_decode.c:255-275 | a 64-bit varint reads back as itself; anything longer fails |
| PbDecode.DecodeVarint32 | TinkoffChat/Pods/nanopb/pb_decode.c:187-252 | a 32-bit varint reads back as itself |
| PbDecode.DecodeSigned | TinkoffChat/Pods/nanopb/pb_decode.c:1332-1367 | a negative number of any field size reads back from its 64-bit two's complement |
| PbDecode.DecodeZigZag | TinkoffChat/Pods/nanopb/pb_decode.c:1272-1284 | a zigzag number of any field size reads back |
| PbDecode.DecodeData | TinkoffChat/Pods/nanopb/pb_decode.c:1434-1504 | bytes and text read back; a text is accepted exactly if it leaves room for its terminator |

## Left out

- DbRuns.ReadsOfRun: SetupOtherInputs closes only inputs_[0] under boundary files, and a merge can then bring a deleted key back. The theorems on reads say nothing of such a key until it is written again; `CompactionMerge.PreservesReadsIff` gives the exact condition for a merge to do that, `CompactionReads.ResurrectionNeedsBoundaryFile` says when it can arise, and `BoundaryGap.DeletedKeyReturns` is a run in which it does.
- DbRuns.RunKeepsInv: a flush during a manual compaction can put a table where an output will span it. The theorems on runs go up to the manifest record that names such an output; `RunningCompaction.FlushThenInstallIff`, `Installing.ReplaceIsValidIff` and `DbRuns.OverlapIsDisorder` give the exact condition, `DbRuns.NoneOverlaps` shows that automatic compactions never get there, and `FlushGap.WriteIsLost` is a run in which a manual one does. A debug build aborts there in Builder::SaveTo; the model continues as a release build does, and says nothing of what later compactions of that level make of it.
- DbRuns.CrashLosesNothing: a crash keeps all bytes appended to the logs; logs that lose an unsynced tail are in `PowerLoss`, where a tail is cut between groups, as `LogReader.ReadAll` justifies.
- PowerLoss.PowerLossKeepsAPrefix: manifest and tables are taken to be synced before they are named, as the code does.
- Database.DBImpl.Get: the answer for a key that was revived and not written since is not stated.
- Database.DBImpl.CompactLevel: states what happens when nothing comes between `BeginMerge` and `EndMerge`; the output tables are numbered when the merge ends.
- Database.DBImpl.NewIterator: the iterator runs over the memtables as they were; entries added to them later are beyond its sequence number.
- Errors of the environment and recovery from corrupted files (bg_error_, paranoid checks, repair): the model follows the branches in which reads and writes succeed; log, block, table, batch, edit and message decoders are total on all bytes.
- ManifestBytes.RecoverFromBytes: the comparator name, the CURRENT file and the reuse of a manifest are left out; what a file number stands for is a parameter.
- Seek statistics, compaction scores and pending manual ranges: which level is compacted when is left free, so the theorems hold for every choice.
- ShouldStopBefore and the size of output tables: free flags, as they only decide where outputs are cut.
- options.reuse_logs: recovery always starts a new log.
- LogReader.Reader.ReadRecord: reading starts at the front of the file (initial_offset is 0, as everywhere in the database); skipping to an offset is left out.
- LruCache.LRUCache.Insert: handles are identified by key, hash and object; linked lists and hash chains are sequences, `hash & (length - 1)` is `hash % length`, and the sixteen shards are left out.
- SkipList.SkipList.Insert: heights are arguments, memory order is one store at a time, and the three searches share one loop.
- Internal keys of the state machine: user keys are reals, as any countable ordered key space embeds in them; byte keys and their tags are in `ByteKeys` and above, and the byte layout of memtable entries and of LookupKey is left out.
- GroupRefinement.RunRefines: starts from a new database, and the syncs of the queue are stated in `GroupCommit` only.
- Crc32c.Extend: the lookup tables are computed by their recurrence, their literals are not compared; accelerated hardware is left out.
- Bloom.CreateFilter: the hash function is a parameter.
- Merger.MergingIterator.Next: children are sorted runs with distinct keys; the shortcut for a single child and the caching wrapper of child iterators are left out.
- VersionBuilder.Builder.Apply: no (level, file number) is added twice, as file numbers are never reused.
- WriteBatches.WriteBatch.Put: sizes and counts stay below 2^32, which the code does not check.
- TableLookup.TableRoundTrip: files stay below 4 GiB; Snappy, ApproximateOffsetOf, the block cache and the table cache are left out.
- BlockFormat.EntryRoundTrip: the sum of two 32-bit lengths in DecodeEntry is exact, not modulo 2^32.
- PbMessageDecode.RoundTrip: callbacks, extensions and pointer fields are left out, streams are memory buffers, and sizes do not overflow size_t; texts leave room for their terminator (`PbMessageDecode.TextRoundTripIff` has the other case).
- PbMessageDecode.DecodeNoInit: the positions of the required bitmap do not wrap, and a descriptor without fields is the empty list, not a field with tag 0.
- Firebase, Protobuf (Objective-C), gRPC and the chat application itself are not part of this model.
