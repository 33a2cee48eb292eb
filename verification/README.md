# LevelDB in Dafny

The key-value store in `easy-verbs/Pods/leveldb-library`, modelled and proved module by
module.  What is proved, from the top down:

- **The store as a state machine** (`Stores`, `StoreSteps`, `Recovery`, `Runs`).  Writers
  log, insert and switch memtables; the background thread flushes, compacts, moves and
  deletes files; readers take and release snapshots and pin versions; a crash may come
  between any two steps, and recovery may itself be cut short.  In every state of a run
  reads answer as the history of logged writes does, if and only if no compaction of the run
  changes a read, and exactly when one does is said in terms of its inputs.  In such a sound
  run reads at a snapshot repeat and no logged write is lost.  The code does not see to it;
  see Findings.  `Interleavings` is about flushes while a compaction runs.
- **The open database** (`Databases`): class DBImpl, whose methods are proved to be steps of
  that machine, and whose reads and iterators are proved against the history.
- **Compaction** (`Selection`, `CompactionInputs`, `Compactions`, `Installs`,
  `Preservation`, `Reappearances`): which files are chosen, what is dropped, exactly when
  reads are kept, and that versions stay well formed.
- **Versions and the manifest** (`Versions`, `Builders`, `Replay`, `Edits`, `VersionEdits`,
  `Manifests`): point lookup, replay of edits, the edit codec, and recovery of a manifest
  file cut off anywhere.
- **Iterators** (`Mergers`, `InternalIterators`, `DbIters`): both directions and the changes
  between them.
- **Memtable and writes** (`SkipLists`, `MemTables`, `WriteBatches`, `GroupCommits`): a
  search among concurrent insertions, and readers that see whole groups.
- **Files** (`Logs`, `LogReaders`, `LogFiles`, `Codings`, `Blocks`, `Blooms`, `FilterBlocks`,
  `TableFormats`, `Tables`, `TableBuilders`, `TableReaders`, `TableRuns`, `InternalKeys`): the
  log cut off anywhere and recovered, and a table lookup that agrees with a scan.  `Formats`
  has the bytes in numbers, which round trips leave open.
- **The block cache** (`Rings`, `HandleTables`, `Caches`, `CacheRuns`): what each operation does,
  and for any run of them that deleters run once and eviction is in LRU order.

User keys of the store are numbers: `Comparator.RankEmbedsOrder` embeds the byte strings in
their order.  A table file carries its sorted run of entries; that the bytes of a
table answer as its run is proved in `TableRuns`.  `dafny verify dfyconfig.toml`
checks the project.

## Findings

Where the code does not do what is wanted of it, the model follows the code.

- **A deleted key can come back** (`db/version_set.cc:1403-1422`).  SetupOtherInputs closes
  the first inputs under boundary files (line 1407) and the expanded ones (line 1422), but
  not the second inputs, which it takes from the output level (lines 1410-1411).  If the
  output level has a user key split over two files, and only the first, with a deletion
  marker, is selected, the marker may be dropped while the entry it covers stays.
  `Preservation.DeletedKeyReappears` has the version, `Reappearances.DeletedKeyReappearsInRun`
  a run of the store that leads there.  `Preservation.CompactionKeepsReadsIff` is the exact
  condition, for all Closed inputs of a valid store; `Preservation.BoundaryClosedIff` is a
  check with the store's own search for boundary files that is enough, and
  `Runs.AnswersHistoryIff` says what it comes to over whole runs.
- **Decoding into a used edit keeps its compaction pointers** (`db/version_edit.cc:26-39`):
  Clear does not forget them.  `VersionEdits.RoundTripIff` says exactly when an edit comes
  back.
- **Replaying a manifest at once and step by step differ** if an edit adds a file under a number
  that stands deleted on its level, or with the smallest key and number of a file added before
  (`db/version_set.cc:650-692`): the builder undeletes the number, and its set keeps the file it
  has.  `Replay.DeletedFileReturns` is a history from the empty version for any two files with one
  number, `Replay.AgreesThroughoutIff` the exact condition on a history.  Histories that the store
  writes meet it (`Replay.FreshIsClean`), which is part of its invariant.
- **The last sequence number is special** (`db/db_impl.cc:905-946`): a compaction whose
  smallest snapshot is the largest possible sequence number drops every entry, since the
  number stands for "no entry seen yet".  `Compactions.DoCompactionWork` and the state machine have
  this case, `Reappearances.LastWriteLostInRun` is a run that loses a write by it, and
  `Preservation.CompactionKeepsReadsIff` says exactly when a read changes.
- **A manual compaction can come to overlap a table flushed while it runs** (`db/db_impl.cc:905-919`,
  `db/version_set.cc:491-516`): CompactRange may select files with a gap between them, a flush may
  put a table into the gap in the output level, and an output may span it.  The level is then not
  sorted, and lookups of the keys of the table may miss.  `Interleavings.ManualCompactionHidesFlush` has the
  versions, `Interleavings.InstalledOverFlushIff` the exact condition; inputs of automatic compactions have
  no such gap (`Interleavings.PickedAvoids`).

## Model

| member | source | states |
|---|---|---|
| Comparator.FindShortestSeparator | easy-verbs/Pods/leveldb-library/util/comparator.cc:29-50 | Where start and limit first differ, if the byte of start can be increased and stays below that of limit, the result is start cut after that byte with the byte increased, and then start < result < limit; otherwise the result is start. For every pair of strings |
| Comparator.FindShortSuccessor | easy-verbs/Pods/leveldb-library/util/comparator.cc:52-64 | The result is not before the key, is the key exactly when all its bytes are 0xff, and otherwise is the key cut after its first other byte, that byte increased |
| Comparator.RankEmbedsOrder | easy-verbs/Pods/leveldb-library/util/comparator.cc:25-27 | Byte strings compare as their ranks, numbers in [0, 1), and a rank determines its string: why the store may take user keys as numbers |
| Versions.Get | easy-verbs/Pods/leveldb-library/db/db_impl.cc:1100-1145 | On a valid store the answer, found in the order memtable, immutable memtable, level 0 newest file first, deeper levels by binary search, is that of the newest entry at or below the snapshot among all entries held, a deletion counting as no value |
| Versions.GetFromVersion | easy-verbs/Pods/leveldb-library/db/version_set.cc:326-421 | In a valid version the level-by-level search gives the newest entry at or below the snapshot among all files |
| Versions.FindFile | easy-verbs/Pods/leveldb-library/db/version_set.cc:88-106 | In a sorted level, exactly the files before the result have a largest key before the target |
| Versions.SearchLevelZero | easy-verbs/Pods/leveldb-library/db/version_set.cc:343-375 | Probing only the level-0 files whose range holds the key, newest number first, and stopping at the first hit answers as all the files together |
| Entries.LessIsStrictTotalOrder | easy-verbs/Pods/leveldb-library/db/dbformat.cc:51-67 | The order of internal keys is a strict total order |
| Entries.SeekFindsLatest | easy-verbs/Pods/leveldb-library/db/dbformat.cc:51-67 | In a sorted run the entry that a seek to (key, snapshot) lands on, if it has the key, is the newest one visible at the snapshot |
| Selection.SomeFileOverlapsRange | easy-verbs/Pods/leveldb-library/db/version_set.cc:122-159 | True exactly if some file overlaps the range, by scan or, in a sorted level, by binary search |
| Selection.GetOverlappingInputs | easy-verbs/Pods/leveldb-library/db/version_set.cc:519-559 | The files that overlap the range; at level 0 the range is first widened to the least one that includes the request and cuts through no file |
| Selection.FindSmallestBoundaryFile | easy-verbs/Pods/leveldb-library/db/version_set.cc:1344-1362 | None exactly if no file of the level goes on with the user key of the given largest key, otherwise the first such file |
| Selection.AddBoundaryInputs | easy-verbs/Pods/leveldb-library/db/version_set.cc:1378-1401 | The selection is extended at its end by its boundary file, the first file of the level that goes on with the user key of its largest key, again and again until there is none; a contiguous selection stays contiguous |
| Selection.SetupOtherInputs | easy-verbs/Pods/leveldb-library/db/version_set.cc:1403-1462 | The inputs are Closed: the first ones hold the files started from and leave nothing older behind in their level, the second ones are all files of the next level that overlap their range. They are the closed start with its second inputs, or the expansion of these |
| Selection.GrowInputs | easy-verbs/Pods/leveldb-library/db/version_set.cc:1419-1447 | The first inputs are expanded to all files of their level in the range of both input sets, closed under boundary files, exactly if that is more files, keeps the bytes under the limit, and needs no more files of the next level |
| Selection.GrowthIsFree | easy-verbs/Pods/leveldb-library/db/version_set.cc:1425-1447 | Growing the first inputs leaves the second ones exactly as they are, and all inputs together stay under the byte limit |
| Selection.PickFile | easy-verbs/Pods/leveldb-library/db/version_set.cc:1283-1295 | The first file whose largest key is past the compaction pointer, or the first of the level if there is none |
| Selection.PickCompaction | easy-verbs/Pods/leveldb-library/db/version_set.cc:1283-1323 | For any file of a searchable level the inputs are what SetupOtherInputs makes of the file alone or, at level 0, of all files in the least range around it that cuts through no file |
| Selection.CompactRange | easy-verbs/Pods/leveldb-library/db/version_set.cc:1464-1495 | For a manual range the inputs are what SetupOtherInputs makes of the files that overlap it, past level 0 cut off as TruncateInputs does; there are none exactly when no file of the level overlaps the range |
| Selection.TruncateInputs | easy-verbs/Pods/leveldb-library/db/version_set.cc:1476-1487 | The shortest prefix of at least one file whose bytes reach the limit, or all the files if none does |
| Selection.PickLevelForMemTableOutput | easy-verbs/Pods/leveldb-library/db/version_set.cc:491-516 | No file of the levels passed over or of the level chosen overlaps the range; the level is 0 if level 0 overlaps it, and otherwise the first, up to 2, below which a table may not go: the next level overlaps the range or the one after overlaps it with too many bytes |
| Compactions.BaseLevelCursor.IsBaseLevelForKey | easy-verbs/Pods/leveldb-library/db/version_set.cc:1533-1552 | For keys asked in non-decreasing order the moving positions answer as a full scan of the levels past the output level |
| Compactions.DoCompactionWork | easy-verbs/Pods/leveldb-library/db/db_impl.cc:899-999 | Over any sorted input and wherever the output files are cut, the outputs put together are sorted, and an input entry is in one of them if and only if the smallest snapshot is not the largest sequence number, no newer entry of its user key is at or below the smallest snapshot, and it is not a deletion at or below it whose key no file past the output level has in its range |
| Compactions.ObsoleteKeyGoes | easy-verbs/Pods/leveldb-library/db/db_impl.cc:949-960 | Of a user key whose newest input entry is a deletion at or below the smallest snapshot, and which no file past the output level has in its range, nothing at all is written |
| Compactions.ReadsKeptIff | easy-verbs/Pods/leveldb-library/db/db_impl.cc:905-970 | No read from a given sequence number on, at or after the smallest snapshot, changes if and only if no dropped deletion marker is the newest entry of its key at that number while what it covers outside the inputs is a value; and, for the largest sequence number as the smallest snapshot, if and only if no input entry answers a read that the entries outside the inputs answer otherwise |
| CompactionInputs.MergeInputs | easy-verbs/Pods/leveldb-library/db/version_set.cc:1237-1268 | The input iterator of a compaction lists exactly the entries of both input sets, in order |
| Preservation.CompactionKeepsReadsIff | easy-verbs/Pods/leveldb-library/db/db_impl.cc:899-999 | For every compaction with Closed inputs in a valid store, through the memtables and all levels: the store stays valid, and no read from a sequence number at or after the smallest snapshot on changes if and only if ReadChanges does not hold. ReadChanges: the boundary file of the second inputs begins with a value of the user key of a dropped deletion marker that is the newest entry of that key there; or, if the smallest snapshot is the largest sequence number, an input entry is an answer that nothing else gives |
| Preservation.ClosedChangesNothing | easy-verbs/Pods/leveldb-library/db/version_set.cc:1407-1422 | ReadChanges never holds if the second inputs have no boundary file and some sequence number is larger than the smallest snapshot |
| Preservation.CompactionPreservesReads | easy-verbs/Pods/leveldb-library/db/db_impl.cc:899-999 | So such a compaction leaves the store valid and changes no read at or after the smallest snapshot |
| Preservation.BoundaryClosedIff | easy-verbs/Pods/leveldb-library/db/version_set.cc:1410-1422 | BoundaryClosed, that no file left in the output level goes on with the user keys of the second inputs, holds if and only if the boundary-file search, run on the second inputs, would find nothing |
| Preservation.NoSecondInputsClosed | easy-verbs/Pods/leveldb-library/db/version_set.cc:1410-1411 | It holds when there are no second inputs |
| Preservation.PickSplitInputs | easy-verbs/Pods/leveldb-library/db/version_set.cc:1270-1323 | In the version of the finding below PickCompaction returns the inputs of the finding, whatever the expansion limit |
| Preservation.DeletedKeyReappears | easy-verbs/Pods/leveldb-library/db/version_set.cc:1407-1422 | The finding: a valid version and the inputs picked in it, not BoundaryClosed, for which a read that answered "deleted" answers a value after the compaction |
| Reappearances.DeletedKeyReappearsInRun | easy-verbs/Pods/leveldb-library/db/version_set.cc:1407-1422 | For any three user keys there is a run of the whole store from a new database, sound in all steps but the last, after which the third key, deleted by the last write to it, is found again |
| Reappearances.LastWriteLostInRun | easy-verbs/Pods/leveldb-library/db/db_impl.cc:905-946 | For any user key there is a run, sound in all steps but the last, that uses up the sequence numbers and then loses the last write to the key by a compaction whose inputs are closed in every sense |
| Installs.CompactionKeepsValid | easy-verbs/Pods/leveldb-library/db/db_impl.cc:860-876 | Installing the outputs of a Closed compaction, wherever they are cut, in place of its inputs keeps every level sorted and disjoint, levels ordered by age and numbers distinct, and adds no entry |
| Installs.CompactionContents | easy-verbs/Pods/leveldb-library/db/db_impl.cc:860-876 | The contents change by exactly the inputs removed and the outputs added |
| Installs.UnselectedApart | easy-verbs/Pods/leveldb-library/db/version_set.cc:1410-1411 | A file of the output level that is not a second input lies wholly before or wholly after all the inputs |
| Installs.FlushKeepsValid | easy-verbs/Pods/leveldb-library/db/db_impl.cc:515-526 | Adding the table of a memtable at level 0, or at a level that it reaches without overlap, keeps the version valid |
| Builders.Builder.Apply | easy-verbs/Pods/leveldb-library/db/version_set.cc:650-692 | On each level: deletions are added to the deleted numbers, and each added file is added and its number undeleted |
| Builders.Builder.SaveTo | easy-verbs/Pods/leveldb-library/db/version_set.cc:695-739 | On each level, in order, exactly the base and added files whose numbers are not deleted, each as often as it is in the base and among the added files |
| Builders.SavedOrderedIff | easy-verbs/Pods/leveldb-library/db/version_set.cc:695-739 | No two of them have the same smallest key and number if and only if no surviving base file shares them with an added file |
| Builders.AddsMembers | easy-verbs/Pods/leveldb-library/db/version_set.cc:661-691 | A file is added exactly if it is the first in its place, smallest key and number, and no file held before has that place |
| Replay.ReplayOnce | easy-verbs/Pods/leveldb-library/db/version_set.cc:914-944 | For every history of edits: one builder over all of them lists the files that applying the edits one after the other leaves if and only if the two agree on which files survive, which they do if the history is clean; for a history that gives every file a number of its own the version is the one that applying the edits defines. The counters of the manifest are Manifests.Recover |
| Replay.ReplayStepwise | easy-verbs/Pods/leveldb-library/db/version_set.cc:816-822 | For every history of edits a builder per edit on the version before it lists the files that applying the edits one after the other leaves |
| Replay.AccumulateAgreesIff | easy-verbs/Pods/leveldb-library/db/version_set.cc:650-692 | For every builder state, edit and file: accumulating the edit agrees on the file with applying it to the version the builder stands for if and only if the file does not come back, that is, stood deleted while the edit adds its number with another file, and is not shut out, that is, is added by the edit in the place of another file held before |
| Replay.AgreesThroughoutIff | easy-verbs/Pods/leveldb-library/db/version_set.cc:914-944 | For every history of edits: one builder agrees with going edit by edit after each of them if and only if the history is clean, which is said in terms of the files added and the numbers standing deleted before each edit |
| Replay.FreshIsClean | easy-verbs/Pods/leveldb-library/db/version_set.cc:914-944 | A history that gives every added file a number of its own on its level is clean |
| Replay.DeletedFileReturns | easy-verbs/Pods/leveldb-library/db/version_set.cc:650-692 | The finding: for any level and any two files with one number, adding the first, deleting the number and adding the second leaves the second edit by edit, while one builder shows the first again, and the second only if their smallest keys differ |
| Replay.WriteSnapshot | easy-verbs/Pods/leveldb-library/db/version_set.cc:1088-1116 | The snapshot edit lists exactly the files of the version, level by level |
| Replay.SnapshotRebuilds | easy-verbs/Pods/leveldb-library/db/version_set.cc:1088-1116 | Replaying a snapshot of a version, no two files of which have the same smallest key and number on a level, and then any edits gives the version that replaying the edits on the version gives |
| Edits.CompactionEditInstalls | easy-verbs/Pods/leveldb-library/db/version_set.cc:1525-1531 | The version after the edit of a compaction has the outputs in place of exactly its inputs |
| Manifests.Descriptor.LogAndApply | easy-verbs/Pods/leveldb-library/db/version_set.cc:801-817 | One more edit is written: with the next file number and last sequence of the moment, with its own log numbers or, where it has none, the current ones, and with the comparator, compaction pointers, deleted and new files it was given |
| Manifests.LogAndRecover | easy-verbs/Pods/leveldb-library/db/version_set.cc:801-990 | Recovery right after it gives all the edits and goes on with exactly those counters |
| Manifests.Recover | easy-verbs/Pods/leveldb-library/db/version_set.cc:921-990 | The first record that does not decode or names another comparator decides the error; otherwise missing next file, log number and last sequence are errors in this order, and each counter is that of the last edit that has it, the previous log number 0 if none has |
| Manifests.ExpectedMeans | easy-verbs/Pods/leveldb-library/db/version_set.cc:921-990 | Of records that all decode: another comparator, no next file in any edit, no log number in any, no last sequence in any are the errors, in this order; otherwise each counter is that of the last edit that has it, the previous log number 0 if none has |
| Manifests.RecoverCut | easy-verbs/Pods/leveldb-library/db/version_set.cc:914-990 | Of a manifest file cut off at any byte, recovery gives what the edits of its whole records say |
| Manifests.StampedRecovers | easy-verbs/Pods/leveldb-library/db/version_set.cc:969-976 | For a snapshot without counters followed by edits of LogAndApply, recovery succeeds if and only if there is such an edit, and then goes on with the counters of the last |
| Manifests.RecoverManifest | easy-verbs/Pods/leveldb-library/db/version_set.cc:886-1008 | Both together: cut anywhere, a written manifest is recovered as of its last whole record, if the record after the snapshot is whole |
| Stores.ReplayNothing | easy-verbs/Pods/leveldb-library/db/db_impl.cc:322-349 | Log numbers without a file add nothing to what recovery replays |
| StoreSteps.LogRecordKeepsInv | easy-verbs/Pods/leveldb-library/db/db_impl.cc:1208-1224 | Appending a record to the log keeps the invariant of the store |
| StoreSteps.InsertRecordKeepsInv | easy-verbs/Pods/leveldb-library/db/db_impl.cc:1225-1240 | So does inserting it in the memtable and then moving the last sequence number |
| StoreSteps.SwitchMemtableKeepsInv | easy-verbs/Pods/leveldb-library/db/db_impl.cc:1341-1366 | So does a new log and memtable |
| StoreSteps.FlushMemtableKeepsInv | easy-verbs/Pods/leveldb-library/db/db_impl.cc:535-566 | So does flushing the immutable memtable to a level it may go to, with a new log number in the manifest |
| StoreSteps.InstallKeepsInvIff | easy-verbs/Pods/leveldb-library/db/db_impl.cc:860-876 | Installing a compaction with Closed inputs keeps the invariant if and only if ReadChanges does not hold of it, which is if and only if reads at the present and at live snapshots still answer as the history does |
| StoreSteps.InstallCompactionKeepsInv | easy-verbs/Pods/leveldb-library/db/db_impl.cc:860-876 | So it does if the second inputs have no boundary file and some sequence number is larger than the smallest snapshot |
| StoreSteps.MoveFileKeepsInv | easy-verbs/Pods/leveldb-library/db/db_impl.cc:725-742 | So does a trivial move, always |
| StoreSteps.DeleteObsoleteFilesKeepsInv | easy-verbs/Pods/leveldb-library/db/db_impl.cc:223-278 | So does deleting the tables of no current or pinned version that are not being written, and the logs before the log number |
| StoreSteps.ReleaseSnapshotKeepsInv | easy-verbs/Pods/leveldb-library/db/db_impl.cc:1171-1175 | So does releasing any snapshot |
| Recovery.RebuildTables | easy-verbs/Pods/leveldb-library/db/db_impl.cc:371-486 | The tables rebuilt from a log hold its entries in consecutive pieces, wherever the memtable is full, with increasing numbers |
| Recovery.RebuiltVersion | easy-verbs/Pods/leveldb-library/db/db_impl.cc:371-486 | Adding them to level 0 keeps the version valid and adds exactly the entries of the log |
| Recovery.DiskStandsForHistory | easy-verbs/Pods/leveldb-library/db/db_impl.cc:280-369 | In every state that satisfies the invariant the disk alone determines the whole history, the record in flight included |
| Recovery.RecoveryRestores | easy-verbs/Pods/leveldb-library/db/db_impl.cc:1474-1515 | Recovery from such a disk gives a store that satisfies the invariant with the same history and the last logged sequence number, and holds the version and the replayed logs |
| Recovery.UnfinishedRecoveryHarmless | easy-verbs/Pods/leveldb-library/db/db_impl.cc:1474-1515 | A recovery cut short after writing tables and its log leaves a disk that stands for the same history |
| Runs.AnswersHistoryIff | easy-verbs/Pods/leveldb-library/db/db_impl.cc:688-767 | For every run, with crashes and unfinished recoveries anywhere: in all its states reads at the present and at live snapshots answer as the history of all logged writes does if and only if the run is sound, that is, none of its compactions changes such a read |
| Runs.BoundaryKeptIsSound | easy-verbs/Pods/leveldb-library/db/db_impl.cc:688-767 | A run is sound if none of its compactions leaves a boundary file of its second inputs or has the largest sequence number as its smallest snapshot |
| Runs.RunKeepsInv | easy-verbs/Pods/leveldb-library/db/db_impl.cc:688-767 | Every state of every sound run satisfies the invariant of the store |
| Runs.ReadsAnswerHistory | easy-verbs/Pods/leveldb-library/db/db_impl.cc:1100-1145 | In every state of every sound run a read at the present or at a live snapshot answers as the history of all logged writes does |
| Runs.SnapshotReadsRepeat | easy-verbs/Pods/leveldb-library/db/db_impl.cc:1166-1175 | Two reads of a key at one live snapshot, at any two moments of a sound run, agree |
| Runs.NoLoggedWriteLost | easy-verbs/Pods/leveldb-library/db/db_impl.cc:1208-1240 | Whatever was logged in a state of a sound run is in the history of every later state, and reads there answer with an entry at least as new |
| Runs.CrashRecoversRecord | easy-verbs/Pods/leveldb-library/db/db_impl.cc:280-369 | After a crash in a sound run the record in flight is held and counted in the last sequence number, even if it had not reached the memtable |
| Runs.SnapshotCount | easy-verbs/Pods/leveldb-library/db/db_impl.cc:1166-1175 | Between crashes, for every sequence number: the live snapshots of it are those there were and those taken, less those released |
| Runs.SnapshotStaysLive | easy-verbs/Pods/leveldb-library/db/snapshot.h:58-86 | A snapshot that is taken and not released is live in every later state, up to a crash |
| Runs.PinnedTablesStay | easy-verbs/Pods/leveldb-library/db/db_impl.cc:223-278 | In a sound run the tables of a version that a reader holds stay on disk as they are until it lets go, or a crash |
| Interleavings.FlushKeepsClosedIff | easy-verbs/Pods/leveldb-library/db/db_impl.cc:535-549 | Inputs of a compaction selected before a flush still are what would be selected after it, if and only if the table does not come into their range in the output level |
| Interleavings.FlushKeepsWritten | easy-verbs/Pods/leveldb-library/db/db_impl.cc:905-919 | What the compaction writes is the same whether it runs before or after the flush |
| Interleavings.PickedAvoids | easy-verbs/Pods/leveldb-library/db/version_set.cc:1283-1323 | A file that overlaps none of the files of the two levels is not in the range of inputs picked around one file |
| Interleavings.PickedStaysInstallable | easy-verbs/Pods/leveldb-library/db/db_impl.cc:905-919 | In a run, the inputs of an automatic compaction can be installed in any later state, with what was computed when they were picked, whatever was flushed in between |
| Interleavings.InstalledOverFlushIff | easy-verbs/Pods/leveldb-library/db/db_impl.cc:860-876 | If a table came into the output level while the compaction ran, the level is sorted after installing the outputs if and only if none of them overlaps the table |
| Interleavings.PickAcrossGap | easy-verbs/Pods/leveldb-library/db/version_set.cc:1464-1495 | In the version of the finding CompactRange returns the inputs of the finding, whatever the expansion limit |
| Interleavings.LevelForFlushed | easy-verbs/Pods/leveldb-library/db/version_set.cc:491-516 | There PickLevelForMemTableOutput puts the flushed table into the output level |
| Interleavings.ManualCompactionHidesFlush | easy-verbs/Pods/leveldb-library/db/db_impl.cc:905-919 | The finding: after the flush and the compaction the output level is not sorted, and the file of it that a lookup of the flushed key searches does not have the key, although the version holds it |
| Databases.DBImpl.Get | easy-verbs/Pods/leveldb-library/db/db_impl.cc:1100-1145 | The answer is that of the history at the live snapshot given, or at the last sequence number |
| Databases.DBImpl.NewIterator | easy-verbs/Pods/leveldb-library/db/db_impl.cc:1147-1157 | The iterator shows exactly the pairs that reads at its sequence number answer |
| Databases.DBImpl.Open | easy-verbs/Pods/leveldb-library/db/db_impl.cc:1474-1515 | Opening a disk that stands for a history gives a valid database with that history, its last sequence number and no snapshots |
| Databases.DBImpl.Write | easy-verbs/Pods/leveldb-library/db/db_impl.cc:1206-1237 | The updates of a group are added to the history with the next sequence numbers, and the database stays valid. Every key is then read as its last update says, a value or nothing; a key without one is read as before, and so is every key at the sequence numbers there were |
| Databases.DBImpl.WriteAndGet | easy-verbs/Pods/leveldb-library/db/db_impl.cc:1100-1240 | A Get after a Write gives the value of the last update of the key, or nothing if that is a deletion, and what a Get before gave if there is no update of it |
| Databases.DBImpl.SwitchToNewMemtable | easy-verbs/Pods/leveldb-library/db/db_impl.cc:1341-1366 | Is the step SwitchMemtable of the state machine |
| Databases.DBImpl.CompactMemTable | easy-verbs/Pods/leveldb-library/db/db_impl.cc:535-566 | Is the step FlushMemtable at the level that PickLevelForMemTableOutput says for the range of the table, or FlushNothing for an empty memtable |
| Databases.DBImpl.InstallCompactionResults | easy-verbs/Pods/leveldb-library/db/db_impl.cc:860-876 | Is the step InstallCompaction, and leaves a valid database if and only if ReadChanges does not hold |
| Databases.DBImpl.Compact | easy-verbs/Pods/leveldb-library/db/db_impl.cc:725-757 | A trivial move is the step MoveFile; otherwise the new version has the inputs replaced by outputs that hold exactly what the loop writes at the smallest snapshot. The database is valid after it if and only if it was a trivial move or no read that can still be asked for changed |
| Databases.DBImpl.BackgroundCompaction | easy-verbs/Pods/leveldb-library/db/db_impl.cc:708-757 | Picks the inputs that PickCompaction makes of the file whose turn it is at the level, and compacts them as Compact does, with the same exact condition for a valid database after it |
| Databases.DBImpl.DeleteObsoleteFiles | easy-verbs/Pods/leveldb-library/db/db_impl.cc:223-278 | Of the tables exactly those stay that are being written or that the current or a held version lists, of the logs those from the log number on, all unchanged |
| Databases.DBImpl.GetSnapshot | easy-verbs/Pods/leveldb-library/db/db_impl.cc:1166-1169 | The last sequence number is added to the live snapshots, as the newest |
| Databases.DBImpl.ReleaseSnapshot | easy-verbs/Pods/leveldb-library/db/db_impl.cc:1171-1175 | The snapshot named is taken out of the list, and the others stay in their order |
| Databases.DBImpl.LogAndApply | easy-verbs/Pods/leveldb-library/db/version_set.cc:801-884 | The manifest gets the edit and the counters of the moment, and the current version becomes the one after the edit |
| Databases.RebuildFromLogs | easy-verbs/Pods/leveldb-library/db/db_impl.cc:322-361 | The logs from the log number on, in the order of their numbers, become tables with numbers not in use, and the largest sequence number in them is found |
| Databases.RecoverDisk | easy-verbs/Pods/leveldb-library/db/db_impl.cc:280-369 | Recovery of a disk that stands for a history ends in a state that satisfies the invariant with that history |
| Databases.IsBoundaryClosed | easy-verbs/Pods/leveldb-library/db/version_set.cc:1344-1362 | The boundary-file search on the second inputs decides BoundaryClosed exactly |
| Mergers.MergingIterator.SeekToFirst | easy-verbs/Pods/leveldb-library/table/merger.cc:31-37 | The position is the first entry of the sorted union of the children |
| Mergers.MergingIterator.SeekToLast | easy-verbs/Pods/leveldb-library/table/merger.cc:39-45 | The position is the last entry of the union |
| Mergers.MergingIterator.Seek | easy-verbs/Pods/leveldb-library/table/merger.cc:47-53 | The position is that of the first entry of the union not before the target |
| Mergers.MergingIterator.Next | easy-verbs/Pods/leveldb-library/table/merger.cc:55-79 | The position is one further, also after going backward |
| Mergers.MergingIterator.Prev | easy-verbs/Pods/leveldb-library/table/merger.cc:81-108 | The position is one before, past the front to no entry, also after going forward |
| Mergers.MergingIterator.FindSmallest | easy-verbs/Pods/leveldb-library/table/merger.cc:148-161 | With every child at its first entry from a place of the union on, current shows the entry of that place |
| Mergers.MergingIterator.FindLargest | easy-verbs/Pods/leveldb-library/table/merger.cc:163-176 | With every child at its last entry up to a place of the union, current shows the entry of that place |
| InternalIterators.InternalRunsOk | easy-verbs/Pods/leveldb-library/db/db_impl.cc:1062-1087 | The children made for the memtables, the level-0 files and the deeper levels list every entry of a valid store, each once |
| InternalIterators.NewIterator | easy-verbs/Pods/leveldb-library/db/db_impl.cc:1147-1157 | The iterator on them is valid and lists everything the store holds |
| DbIters.DBIter.Seek | easy-verbs/Pods/leveldb-library/db/db_iter.cc:269-281 | The position is the first shown entry whose user key is not before the target |
| DbIters.DBIter.SeekToFirst | easy-verbs/Pods/leveldb-library/db/db_iter.cc:283-292 | The position is the first shown entry |
| DbIters.DBIter.SeekToLast | easy-verbs/Pods/leveldb-library/db/db_iter.cc:294-298 | The position is the last shown entry |
| DbIters.DBIter.Next | easy-verbs/Pods/leveldb-library/db/db_iter.cc:141-166 | The position is the next shown entry, also after a change of direction |
| DbIters.DBIter.Prev | easy-verbs/Pods/leveldb-library/db/db_iter.cc:200-225 | The position is the shown entry before, also after a change of direction |
| DbIters.DBIter.FindNextUserEntry | easy-verbs/Pods/leveldb-library/db/db_iter.cc:168-198 | From an internal position and the user key to skip, the first shown entry is found |
| DbIters.DBIter.FindPrevUserEntry | easy-verbs/Pods/leveldb-library/db/db_iter.cc:227-267 | Going back, the last shown entry before a place is found, its value saved on the way |
| DbIters.ShownAnswersReads | easy-verbs/Pods/leveldb-library/db/db_iter.cc:168-198 | An entry with a value is shown at a sequence number if and only if a read of its user key there answers that value |
| DbIters.ShownKeysIncrease | easy-verbs/Pods/leveldb-library/db/db_iter.cc:168-198 | Each user key is shown at most once, in increasing order |
| SkipLists.SkipList.Insert | easy-verbs/Pods/leveldb-library/db/skiplist.h:337-368 | The entry comes to its place among the entries of the list; every store on the way leaves a well-formed list that later states only add to |
| SkipLists.SkipList.Contains | easy-verbs/Pods/leveldb-library/db/skiplist.h:371-378 | Exactly if an entry with that key is in the list |
| SkipLists.SkipList.SetOwnLink | easy-verbs/Pods/leveldb-library/db/skiplist.h:361-364 | The store in the new node keeps every level |
| SkipLists.SkipList.PublishLink | easy-verbs/Pods/leveldb-library/db/skiplist.h:364-366 | The store in its predecessor puts the node in the level, in order, and takes nothing out |
| SkipLists.FindGreaterOrEqual | easy-verbs/Pods/leveldb-library/db/skiplist.h:261-281 | The predecessors of the key at every level in use, and the node after the lowest |
| SkipLists.FindLessThan | easy-verbs/Pods/leveldb-library/db/skiplist.h:284-302 | The last node before the key |
| SkipLists.FindLast | easy-verbs/Pods/leveldb-library/db/skiplist.h:305-322 | The last node of the list |
| SkipLists.SearchAmongStores | easy-verbs/Pods/leveldb-library/db/skiplist.h:261-281 | A search whose loads come between any stores of an insertion ends at the predecessor of its key in the state of its last load, and what that load finds is the next node of the lowest list in that state |
| SkipLists.SearchAmongInsertions | easy-verbs/Pods/leveldb-library/db/skiplist.h:261-281 | So does one that runs through any number of insertions |
| SkipLists.Iterator.Next | easy-verbs/Pods/leveldb-library/db/skiplist.h:207-210 | One position further in the entries as they are now |
| SkipLists.Iterator.Prev | easy-verbs/Pods/leveldb-library/db/skiplist.h:213-221 | One position back, by a search |
| SkipLists.Iterator.Seek | easy-verbs/Pods/leveldb-library/db/skiplist.h:224-226 | The first entry not before the target |
| SkipLists.Iterator.SeekToFirst | easy-verbs/Pods/leveldb-library/db/skiplist.h:229-231 | The first entry |
| SkipLists.Iterator.SeekToLast | easy-verbs/Pods/leveldb-library/db/skiplist.h:234-239 | The last entry |
| MemTables.MemTable.Add | easy-verbs/Pods/leveldb-library/db/memtable.cc:75-98 | For a sequence number the user key does not have yet, the entries are those before and the new one |
| MemTables.MemTable.Get | easy-verbs/Pods/leveldb-library/db/memtable.cc:100-136 | The outcome is that of the newest entry of the key at or below the snapshot |
| WriteBatches.WriteBatch.Put | easy-verbs/Pods/leveldb-library/db/write_batch.cc:98-103 | The batch holds one more operation, a value |
| WriteBatches.WriteBatch.Delete | easy-verbs/Pods/leveldb-library/db/write_batch.cc:105-109 | The batch holds one more operation, a deletion |
| WriteBatches.WriteBatch.Append | easy-verbs/Pods/leveldb-library/db/write_batch.cc:144-148 | The batch holds its own operations and then those of the other; its sequence number stays |
| WriteBatches.WriteBatch.Iterate | easy-verbs/Pods/leveldb-library/db/write_batch.cc:42-80 | A batch that holds operations gives them back in order with no error; on any bytes no error means as many operations as the header counts |
| GroupCommits.BuildBatchGroup | easy-verbs/Pods/leveldb-library/db/db_impl.cc:1260-1306 | The group is the longest part of the front of the queue in which no writer asks for a sync that the leader did not ask for, and of which the bytes, if another batch has joined, are at most 1 MB, or at most 128 KB more than those of a leader of up to 128 KB; the batch returned holds its operations in queue order, and no queued batch but a scratch one is changed |
| GroupCommits.GroupIsLongest | easy-verbs/Pods/leveldb-library/db/db_impl.cc:1268-1290 | The same of the groups of the state machine: the writer after the group would break one of the two rules |
| GroupCommits.GroupKeepsSync | easy-verbs/Pods/leveldb-library/db/db_impl.cc:1280-1290 | No writer that asked for a sync is in a group whose leader did not |
| GroupCommits.ReadersSeeWholeGroups | easy-verbs/Pods/leveldb-library/db/db_impl.cc:1185-1256 | In every state of every run, also while the leader writes without the lock, what is visible at the last sequence number is exactly the operations of the completed writers, in submission order with consecutive numbers |
| GroupCommits.LogMatchesMemtable | easy-verbs/Pods/leveldb-library/db/db_impl.cc:1208-1240 | The memtable never has more than the log, and has the same between groups |
| LogFiles.LogFile.Append | easy-verbs/Pods/leveldb-library/db/db_impl.cc:1214-1216 | The log file gets one more record, the batch of the group |
| LogFiles.InsertInto | easy-verbs/Pods/leveldb-library/db/write_batch.cc:115-137 | Of the record of a group the operations are inserted with consecutive numbers from its sequence number on |
| LogFiles.RecoverLogFile | easy-verbs/Pods/leveldb-library/db/db_impl.cc:371-440 | Of a log file of groups cut off at any byte, what is inserted are exactly the numbered operations of the groups whose records are whole, with or without paranoid checks; the largest sequence number found is at least the one given and the last of every such group, and is one of these |
| LogFiles.RecoverCut | easy-verbs/Pods/leveldb-library/db/db_impl.cc:371-440 | The same of the log that the writers of the groups wrote |
| Logs.Writer.AddRecord | easy-verbs/Pods/leveldb-library/db/log_writer.cc:34-80 | The file is extended by the fragments of the record from the current block offset on, each within one block |
| Logs.ReopenedLog | easy-verbs/Pods/leveldb-library/db/log_writer.cc:27-30 | A writer that goes on from the length of a log writes what one writer of all the records would have |
| Logs.MaskRoundTrip | easy-verbs/Pods/leveldb-library/util/crc32c.h:29-38 | Unmasking a masked checksum gives it back, and the other way round |
| LogReaders.Reader.ReadPhysicalRecord | easy-verbs/Pods/leveldb-library/db/log_reader.cc:189-271 | Of a written log cut off anywhere the next fragment is returned with its type, or the end of the file if it is not whole, and nothing is reported |
| LogReaders.Reader.ReadRecord | easy-verbs/Pods/leveldb-library/db/log_reader.cc:56-174 | The next record if it is whole before the cut, put together from its fragments, otherwise none |
| LogReaders.ReadLog | easy-verbs/Pods/leveldb-library/db/log_reader.cc:56-174 | A written log cut off at any byte is read as exactly the records that end before the cut, and nothing is reported |
| LogReaders.ReadBack | easy-verbs/Pods/leveldb-library/db/log_reader.cc:56-174 | Any list of records, written and read, comes back |
| VersionEdits.VersionEdit.EncodeTo | easy-verbs/Pods/leveldb-library/db/version_edit.cc:41-85 | The bytes appended are the encoding of the edit, its deleted files in increasing order |
| VersionEdits.VersionEdit.DecodeFrom | easy-verbs/Pods/leveldb-library/db/version_edit.cc:107-205 | Status and edit are those of reading field after field, from what Clear leaves |
| VersionEdits.OneEncoding | easy-verbs/Pods/leveldb-library/db/version_edit.cc:41-85 | An edit has one encoding, whatever the set of deleted files is listed from |
| VersionEdits.DecodeEncoded | easy-verbs/Pods/leveldb-library/db/version_edit.cc:107-205 | Decoding an encoded edit succeeds if and only if its levels are levels of the store, and then gives it behind the compaction pointers that were there |
| VersionEdits.RoundTripIff | easy-verbs/Pods/leveldb-library/db/version_edit.cc:26-39 | The edit comes back the same if and only if the decoding edit had no compaction pointers: Clear keeps them |
| Codings.EncodeVarint32 | easy-verbs/Pods/leveldb-library/util/coding.cc:47-73 | The unrolled encoder gives the varint of every 32-bit number |
| Codings.EncodeVarint64 | easy-verbs/Pods/leveldb-library/util/coding.cc:81-90 | The loop gives the varint of every 64-bit number |
| Codings.GetVarint | easy-verbs/Pods/leveldb-library/util/coding.cc:112-167 | The decoder stops after five or ten bytes and reduces to the width as the code does |
| Codings.Varint32RoundTrip | easy-verbs/Pods/leveldb-library/util/coding.cc:112-140 | Decoding an encoded 32-bit number gives it and the bytes after it |
| Codings.Varint64RoundTrip | easy-verbs/Pods/leveldb-library/util/coding.cc:142-167 | Decoding an encoded 64-bit number gives it and the bytes after it |
| Codings.LittleEndianRoundTrip | easy-verbs/Pods/leveldb-library/util/coding.cc:9-33 | Fixed-width numbers are read back |
| Codings.SliceRoundTrip | easy-verbs/Pods/leveldb-library/util/coding.cc:98-101 | Length-prefixed strings of less than 2^32 bytes are read back |
| Codings.VarintLength | easy-verbs/Pods/leveldb-library/util/coding.cc:103-110 | Is the length of the varint |
| InternalKeys.InternalLessIsLess | easy-verbs/Pods/leveldb-library/db/dbformat.cc:51-67 | The order of encoded internal keys is the order of the store's entries: user keys ascending, then sequence numbers descending |
| InternalKeys.FindShortestInternalSeparator | easy-verbs/Pods/leveldb-library/db/dbformat.cc:69-86 | Where the user keys first differ, if the byte of start can be increased, stays below that of limit and is not the last, the result is the user key of start cut after it with the byte increased and the largest tag; otherwise it is start |
| InternalKeys.SeparatorSplits | easy-verbs/Pods/leveldb-library/db/dbformat.cc:69-86 | A separator is not before start and is before limit |
| InternalKeys.NothingBetween | easy-verbs/Pods/leveldb-library/db/dbformat.cc:69-86 | A key past start and not past the separator has a user key before that of limit |
| InternalKeys.FindShortInternalSuccessor | easy-verbs/Pods/leveldb-library/db/dbformat.cc:88-101 | The result is the user key cut after its first byte that is not 0xff, that byte increased, with the largest tag, unless that is the last byte of the user key or there is none; then it is the key |
| Blocks.BlockBuilder.Add | easy-verbs/Pods/leveldb-library/table/block_builder.cc:72-107 | One more entry in the block; its size grows by no more than the entry and its headers |
| Blocks.BlockBuilder.Finish | easy-verbs/Pods/leveldb-library/table/block_builder.cc:62-70 | The contents are a block of the entries added, whole at every restart point and otherwise sharing the longest common prefix; their size is the estimate |
| Blocks.DecodeEntry | easy-verbs/Pods/leveldb-library/table/block.cc:54-74 | The fast path for one-byte lengths agrees with the varint path on every input |
| Blocks.Iter.Next | easy-verbs/Pods/leveldb-library/table/block.cc:137-140 | The position is one further |
| Blocks.Iter.Prev | easy-verbs/Pods/leveldb-library/table/block.cc:142-161 | The position is one before, past the front to no entry, by reparsing from a restart point |
| Blocks.Iter.Seek | easy-verbs/Pods/leveldb-library/table/block.cc:163-201 | In a block of increasing keys the position is that of the first entry not before the target, by binary search over the restart points and a scan |
| Blocks.Iter.SeekToFirst | easy-verbs/Pods/leveldb-library/table/block.cc:203-206 | The first entry |
| Blocks.Iter.SeekToLast | easy-verbs/Pods/leveldb-library/table/block.cc:208-213 | The last entry |
| Blocks.ReadBack | easy-verbs/Pods/leveldb-library/table/block.cc:224-250 | Whatever the restart interval, building a block of any entries and iterating over it gives the entries |
| Blooms.CreateFilter | easy-verbs/Pods/leveldb-library/util/bloom.cc:28-54 | A bit of the filter is set if and only if it is a probe of one of the keys; its size is that of the source |
| Blooms.KeyMayMatch | easy-verbs/Pods/leveldb-library/util/bloom.cc:56-82 | True exactly if all the probes are set, or the filter is of more than 30 probes; false for one of less than two bytes |
| Blooms.FilterHasKeys | easy-verbs/Pods/leveldb-library/util/bloom.cc:28-82 | No filter turns away one of its keys |
| FilterBlocks.FilterBlockBuilder.StartBlock | easy-verbs/Pods/leveldb-library/table/filter_block.cc:21-27 | Filters are made up to the one of the offset |
| FilterBlocks.FilterBlockBuilder.Finish | easy-verbs/Pods/leveldb-library/table/filter_block.cc:35-49 | The contents are a filter block of the lists of keys |
| FilterBlocks.FilterBlockReader.KeyMayMatch | easy-verbs/Pods/leveldb-library/table/filter_block.cc:90-104 | The answer is that of the filter whose bounds the offset array has |
| FilterBlocks.KeysPass | easy-verbs/Pods/leveldb-library/table/filter_block.cc:90-104 | A key is never turned away by the filter of the block it was added for, and always by a filter of no keys |
| TableFormats.HandleRoundTrip | easy-verbs/Pods/leveldb-library/table/format.cc:15-29 | A block handle is read back |
| TableFormats.FooterRoundTrip | easy-verbs/Pods/leveldb-library/table/format.cc:31-62 | A footer is read back |
| TableFormats.ReadsStored | easy-verbs/Pods/leveldb-library/table/format.cc:64-139 | A block stored with its trailer, compressed or not, is read back, with or without checksums |
| TableBuilders.TableBuilder.Add | easy-verbs/Pods/leveldb-library/table/table_builder.cc:94-123 | One more entry; a pending index entry is written with a key that separates the last block from it |
| TableBuilders.TableBuilder.Flush | easy-verbs/Pods/leveldb-library/table/table_builder.cc:125-139 | The entries of the data block are written and their index entry is pending |
| TableBuilders.TableBuilder.WriteBlock | easy-verbs/Pods/leveldb-library/table/table_builder.cc:141-175 | The file holds the finished block, compressed only if that saves an eighth |
| TableBuilders.TableBuilder.Finish | easy-verbs/Pods/leveldb-library/table/table_builder.cc:198-253 | The file is a table of the entries added: data blocks, an index that separates them, a filter that covers them, a metaindex that names it and a footer |
| Tables.IndexKeyBounds | easy-verbs/Pods/leveldb-library/table/table_builder.cc:101-108 | The keys of a block are not past its index key, which is before those of every later block |
| Tables.FoundInBlock | easy-verbs/Pods/leveldb-library/table/table.cc:216-244 | If the block that the index finds has an entry from the key on, that is the entry a scan of the table finds |
| Tables.NotFoundInBlock | easy-verbs/Pods/leveldb-library/table/table.cc:216-244 | If it has none, a scan of the table finds no entry of the user key |
| Tables.RejectedByFilter | easy-verbs/Pods/leveldb-library/table/table.cc:224-227 | If the filter turns a key away, no entry of the block has its user key |
| TableReaders.Table.Open | easy-verbs/Pods/leveldb-library/table/table.cc:38-82 | A table file opens, without error, as the table it is |
| TableReaders.Table.ReadMeta | easy-verbs/Pods/leveldb-library/table/table.cc:84-111 | The filter is there exactly if the options have a policy, and is the one written |
| TableReaders.Table.BlockReader | easy-verbs/Pods/leveldb-library/table/table.cc:155-208 | An iterator on the block that an index entry names |
| TableReaders.Table.InternalGet | easy-verbs/Pods/leveldb-library/table/table.cc:216-244 | For every key the entry reported agrees with a scan of the entries of the table: the first one from the key on, if it has the user key |
| TableReaders.BuildAndGet | easy-verbs/Pods/leveldb-library/table/table.cc:216-244 | Building a table of any increasing keys, whatever the block size, restart interval, filter and compression, and looking a key up in it agrees with the scan |
| TableRuns.Get | easy-verbs/Pods/leveldb-library/db/version_set.cc:263-276 | In a table whose entries encode a sorted run, a lookup of a user key at a sequence number, through InternalGet and SaveValue, gives exactly what the search of the run gives |
| TableRuns.WriteAndGet | easy-verbs/Pods/leveldb-library/db/builder.cc:17-77 | So a run written as a table file and looked up in the file answers as the run: what the store relies on when it takes a file for its run |
| Formats.LittleEndianMeans | easy-verbs/Pods/leveldb-library/util/coding.cc:9-33 | Byte i of a fixed-width number is its digit i in base 256 |
| Formats.VarintMeans | easy-verbs/Pods/leveldb-library/util/coding.cc:47-101 | A varint has the bit 128 on all bytes but the last, and the low seven bits of its bytes are the number in base 128, with no leading zero |
| Formats.InternalKeyEnds | easy-verbs/Pods/leveldb-library/db/dbformat.cc:14-23 | An internal key is the user key, one byte for the type, 1 for a value and 0 for a deletion, and the sequence number in seven bytes |
| Formats.MaskMeans | easy-verbs/Pods/leveldb-library/util/crc32c.h:22-38 | A stored checksum is the checksum rotated right by 15 bits plus 0xa282ead8 |
| Formats.WholeRecord | easy-verbs/Pods/leveldb-library/db/log_format.h:14-31 | A log record that fits in its block is one fragment of type 1: masked checksum, length and type in 4, 2 and 1 bytes, and the record |
| Formats.BlockEnds | easy-verbs/Pods/leveldb-library/db/log_writer.cc:43-53 | What is left of a block, if it is less than seven bytes, is zeros |
| Formats.ThreeFragments | easy-verbs/Pods/leveldb-library/db/log_writer.cc:34-81 | A record over three blocks is written as fragments of types 2, 3 and 4, all but the last filling their blocks of 32768 bytes |
| Formats.OperationBytes | easy-verbs/Pods/leveldb-library/db/write_batch.cc:5-14 | In a batch a put is the byte 1 and two strings with their lengths, a deletion the byte 0 and one |
| Formats.FieldStarts | easy-verbs/Pods/leveldb-library/db/version_edit.cc:12-24 | The fields of an edit start with the numbers of the source |
| Formats.FooterEnds | easy-verbs/Pods/leveldb-library/table/format.h:74-83 | A table file ends with the eight bytes of 0xdb4775248b80fb57, the least significant first |
| Formats.StoredMeans | easy-verbs/Pods/leveldb-library/table/table_builder.cc:141-175 | A block is stored compressed, and marked 1, exactly if that saves more than an eighth of it, and otherwise as it is, and marked 0 |
| Formats.FilterBlockEnds | easy-verbs/Pods/leveldb-library/table/filter_block.cc:35-49 | A filter block ends with where its offsets start and with 11, as filters are for 2 KB of the file each |
| Formats.FilterSize | easy-verbs/Pods/leveldb-library/util/bloom.cc:29-36 | A filter has as few bytes as hold the bits per key of its keys, or 64 bits if these are fewer |
| Formats.RotatedMeans | easy-verbs/Pods/leveldb-library/util/bloom.cc:42-52 | The step between the probes of a filter is the hash rotated right by 17 bits |
| Formats.ProbeMeans | easy-verbs/Pods/leveldb-library/util/bloom.cc:42-52 | Probe j is the hash plus j of these steps, in 32 bits |
| HandleTables.HandleTable.FindPointer | easy-verbs/Pods/leveldb-library/util/cache.cc:117-123 | The slot that points to the entry with the key, or the trailing slot of its bucket |
| HandleTables.HandleTable.Insert | easy-verbs/Pods/leveldb-library/util/cache.cc:82-97 | The entry is in the table, and one with its key is out of it and returned |
| HandleTables.HandleTable.Remove | easy-verbs/Pods/leveldb-library/util/cache.cc:99-107 | The entry with the key is out of the table and returned |
| HandleTables.HandleTable.Resize | easy-verbs/Pods/leveldb-library/util/cache.cc:125-146 | The same entries over at least as many buckets, their number a power of two |
| HandleTables.LowBits | easy-verbs/Pods/leveldb-library/util/cache.cc:118 | Masking a hash with one less than a power of two gives its remainder |
| Caches.LRUCache.Lookup | easy-verbs/Pods/leveldb-library/util/cache.cc:252-259 | The entry with the key if it is cached, with one more reference for the client and off the LRU list; nothing else changes |
| Caches.LRUCache.Release | easy-verbs/Pods/leveldb-library/util/cache.cc:261-264 | The client's reference is given back: the last reference of an uncached entry sends it to its deleter, the last client's reference of a cached one makes it the newest on the LRU list; nothing else changes |
| Caches.LRUCache.Insert | easy-verbs/Pods/leveldb-library/util/cache.cc:266-303 | The new entry is held by the client and, if there is capacity, cached in place of exactly the one with its key; then the k oldest entries that no client holds go to their deleters in order; the charges fit the capacity or none is left, and before the last one went they did not fit |
| Caches.LRUCache.EvictOverflow | easy-verbs/Pods/leveldb-library/util/cache.cc:293-300 | The k oldest entries that no client holds go, as many as needed and no more |
| Caches.LRUCache.Erase | easy-verbs/Pods/leveldb-library/util/cache.cc:318-321 | Exactly the entry with the key leaves the cache and the LRU list, and goes to its deleter unless a client holds it; nothing else changes |
| Caches.LRUCache.Prune | easy-verbs/Pods/leveldb-library/util/cache.cc:323-333 | Exactly the entries that no client holds leave the cache, and their deleters run in LRU order |
| CacheRuns.DeleterRunsOnce | easy-verbs/Pods/leveldb-library/util/cache.cc:225-237 | In every state of every run of these operations an entry ever inserted has gone to its deleter if and only if neither the cache nor a client holds it, and none has gone there twice |
| CacheRuns.DeletedGrows | easy-verbs/Pods/leveldb-library/util/cache.cc:225-237 | What went to its deleter stays gone |
| CacheRuns.LruOrder | easy-verbs/Pods/leveldb-library/util/cache.cc:239-250 | In every state of every run the LRU list has its entries in the order in which clients last let go of them |
| CacheRuns.ReferencesBalance | easy-verbs/Pods/leveldb-library/util/cache.cc:217-237 | In every state of every run clients hold an entry exactly as often as lookups and insertions gave it to them and they have not released it |
| CacheRuns.FoundAfterInsert | easy-verbs/Pods/leveldb-library/util/cache.cc:266-303 | After an insertion, with caching on, a lookup of the key finds the new entry and no other |
| CacheRuns.GoneAfterErase | easy-verbs/Pods/leveldb-library/util/cache.cc:318-321 | After an erasure it finds none |
| CacheRuns.EvictsLeast | easy-verbs/Pods/leveldb-library/util/cache.cc:293-300 | With fewer entries evicted than Insert evicts, the charges would not fit |
| CacheRuns.CacheIsAccounted | easy-verbs/Pods/leveldb-library/util/cache.cc:20-43 | Every state of the class satisfies the invariant of the runs |

## Left out

- Everything outside the store: the Swift application and its interface, the Objective-C and Firebase parts, nanopb.
- The two-level iterator and the table cache: the iterators of the store see a table file, or a deeper level, as one sorted run.
- Loggers, environments, file locks, directory syncs, statistics, properties, approximate sizes; repair and destruction of a database.
- CRC, hash functions and Snappy are uninterpreted functions; the number of probes of a Bloom filter is a parameter of 30 or less instead of bits per key times 0.69.
- Which compaction is due: level scores, seek statistics and read sampling. Any level may be compacted at any time, and output files may be cut anywhere.
- A flush in the middle of a running compaction of DBImpl. In the state machine a flush may come at any time, but InstallCompaction asks that the inputs be Closed in the version they are installed in and takes what is written from it: a run in which a flush puts a table of the output level into the range of the inputs is not a run of the machine. Interleavings proves that this leaves out no run whose compactions are automatic, and shows what happens otherwise.
- Reading damaged files: log and block readers are proved on what the writers write, cut off anywhere in the case of logs. The branches for other damage are modelled, but nothing is claimed of what they return; blocks and tables are not cut.
- The initial offset and resynchronisation of the log reader, paranoid checks, reuse of logs and manifests, manifests other than the current one, and internal keys that do not parse.
- A log of the state machine is its list of entries, and a record is written or lost as a whole; LogFiles and Manifests have the bytes.
- Memory ordering: a store of the skip list is one step that readers see at once.
- Sizes: 64-bit file offsets and 32-bit block sizes are kept in range by bounds on what is added, and the number of cache buckets is not bounded.
- The sharding of the block cache, its destructor, and its use by tables. Caches does not bound identifiers of entries, which stand for their addresses.
- Background errors and a full disk, except that a compaction may give up its outputs.
- Databases.DBImpl.Write: starts from a group that has been built and a memtable with room; building groups is GroupCommits, a new memtable SwitchToNewMemtable. The database holds its memtables as their sorted lists of entries, which their sets determine; MemTables.MemTable holds such a list in a skip list.
- Mergers.MergingIterator.constructor: the shortcuts of NewMergingIterator for no child and for one child are left out.
- GroupCommits.BuildBatchGroup: requires a leader with a batch; a writer without one, which only forces a memtable switch, may be absorbed into the group of another.
- Builders.SaveLevel: does not say which of two files with the same smallest key and number comes first; Ordered lists have none.
- Replay.ReplayOnce: is on edits whose files carry their runs; Manifests.Recover is on the edits as written, with the counters and the errors.
