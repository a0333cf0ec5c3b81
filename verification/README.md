# Models of LevelDB and nanopb

Dafny models of the two libraries vendored under `SeanLee_TFG_ios_2202/Pods`: LevelDB, a log-structured
merge-tree store, and nanopb, a Protocol Buffers encoder and decoder. Each model does what the code does, branch by
branch, and what the two libraries promise is proved of it for all inputs, all runs and all reachable states.

Objects that the code changes in place are classes with the fields of the original (`DBImpl`, `DBIter`,
`MergingIterator`, `TwoLevelIterator`, `SkipList`, `LRUCache`, `HandleTable`, `BlockBuilder`, `TableBuilder`,
`WriteBatch`, `Writer`, `Reader`, `OStream`, `IStream` and others). Each method is tied by its contract to a function
of the old state, and the promises are proved of those functions.

## Parts

- **The store as a state machine** (`InternalKeys` to `LsmReach`, `Database`): versions of keys in a memtable, an
  immutable memtable and seven levels of files, and the steps that write, switch, flush, move, compact and install.
  The meaning of a database is the plain map that its list of operations makes (`History`). The invariant `Inv`
  consists of `Shape` (levels sorted and disjoint, newest versions first, every stored version one of the operations)
  and `Complete` (what a reader may still ask for is still held); it implies `ReadsRight`, that every read which may
  still be asked for is answered as the plain map would.
- **Compaction inputs** (`InputSelection`, `InputGrowth`, `CompactionSetup`, `CompactionWork`, `CompactionFiles`): the
  restarting overlap search, boundary files, when inputs grow and to what, the drop loop and where outputs are cut.
- **Manifest** (`VersionEdits`, `ManifestReplay`, `ReplayExact`, `Manifests`, `EditCoding`): the builder, installing
  and replaying edits, and their bytes.
- **Iterators** (`Iterators`, `MergingIter`, `TwoLevelIter`, `IteratorSources`, `DbIter`, `IteratorView`,
  `IteratorStack`): from sorted sources to a cursor over the plain map, in both directions. `DBIter` runs on
  `MergingIterator`; `IteratorStack` and `TableStreams` put levels and table files, as bytes, under it.
- **Log and batches** (`LogFormat`, `LogTrail`, `LogReader`, `LogRoundTrip`, `TornAppends`, `WriteBatches`,
  `WriteAheadLog`). `LogTrail` says on the bytes of any file, damaged or not, what a reader may return and must report.
- **Group commit** (`GroupCommit`): the queue of writers as a step system.
- **Durability** (`DurableState` to `DurableBytes`, `CrashRecovery`, `RecoverySteps`, `DatabaseOpen`): the files of a
  database after every single append, rename and deletion, with a crash between any two of them, while running or
  while recovering. Completed appends and renames survive a crash; only the last append may be torn,
  at any byte (`DurableBytes`).
- **Table files** (`ByteOrder`, `BlockFormat`, `BlockBuilders`, `BlockIter`, `Blooms`, `FilterBlocks`, `TableFormat`,
  `TableLayouts`, `TableOrder`, `TableBuilders`, `Tables`, `TableStreams`): from pairs to bytes and back to lookups.
- **Memory structures** (`SkipLists`, `HandleLists`, `HandleTables`, `CacheStates`, `LruCache`, `CacheRuns`) and the
  checksum (`Crc32c`, and `CrcDivision` for what it is: a remainder of polynomials).
- **nanopb** (`PbFormat` to `PbDecoder`): descriptors and structs to any depth, encoder, decoder, and which messages
  round trip; keys and unknown fields (`PbKeys`), and for arbitrary input bounds (`PbBounds`), required fields
  (`PbRequired`) and truncation (`PbCutOff`).
- **Formats** (`Coding`, `KnownBytes`, `CutOff`): known contents and their bytes, and input that is cut off.

## Hypotheses of the run theorems

Two things the store relies on are not checked by its code, so theorems about whole runs name them. Both are
conditions on steps that can be evaluated before the step, and both are shown to be needed (see Findings).

- `FlushesApart` (`AllApart` with crashes): no memtable is flushed into the output level of the running compaction
  between two entries that the compaction keeps. Runs whose compactions have no gap in their inputs, which includes
  every automatic compaction, satisfy it by `LsmRuns.ConnectedRunsFlushApart` and `CompactionSetup.PickCompaction`.
- `InstallsLoseNothing` (`AllLoseNothing` with crashes): no compaction that is installed drops a deletion that was all
  that hid a value left behind in its output level. This is not only sufficient: `LsmRuns.RunReadsExactly` says that the
  reads of a run are right throughout if and only if it holds. Lower inputs that are closed on the right are enough
  (`LsmRuns.ClosedInstallsLoseNothing`). Levels, order, provenance and everything about crashes are proved without it;
  only the final step from what is held to what the history says needs it.

## Findings

Properties that do not hold as stated in comments or as one would expect, each with the exact condition and a concrete
input or run that fails.

- **A deletion can be lost.** `SetupOtherInputs` (`db/version_set.cc:1403-1462`) completes the inputs of the upper
  level with boundary files, but not those of the lower one, and `IsBaseLevelForKey` looks only below the output
  level. `LostDeletion.InstallChangesNoReadExactly`: an installation changes no read if and only if no tombstone that
  is dropped, being the newest version at the oldest snapshot, has an older value of its key in a file of the output
  level that was left out. `LostDeletionExample.DeletedValueComesBack`: a run of a new database that gets there.
- **A flush in the middle of a compaction can break a level.** `DoCompactionWork` flushes the immutable memtable while
  a compaction runs (`db/db_impl.cc:907-918`), and the level chosen may be the one the compaction writes to.
  `GapFlush.GapFlushIsSafeExactly`: that level stays disjoint, whatever outputs are made, if and only if no two
  survivors lie on opposite sides of the new file. `GapFlushExample.FlushedKeyIsNotFound`: a run of a new database with
  a manual compaction after which a key just written is not found.
- **A request to switch the memtable can be absorbed.** A writer without updates that waits behind another is taken
  into its group (`db/db_impl.cc:1260-1306`) and answered without a switch. `GroupCommit.SwitchedExactlyIfLeading`:
  it has forced a switch if and only if it was the first of its group. `GroupCommit.AbsorbedExactly` says from the
  queue alone which requests are absorbed; `GroupCommit.AbsorbedRequestIsNotSwitched` is a run.
- **Manifest replay** (`db/version_set.cc:886-1011`) follows the installed versions if and only if no edit adds a file
  that the level holds at that moment (`ReplayExact.ReplayFollowsExactly`); `ReplayExact.HeldFileIsListedTwice` is a
  history that does. A file that returns after it was deleted does no harm (`ReplayExact.ReturningFileIsFine`).
- **`VersionEdit::Clear` keeps the compaction pointers** (`db/version_edit.cc:26-39`), so decoding into a used edit
  gives back what was encoded if and only if it had none (`EditCoding.EditComesBackExactly`);
  `EditCoding.StalePointerStays` is an edit with one pointer that does not. `VersionSet::Recover` uses a new edit for
  every record.
- **nanopb leaves out zeros** of fields with implicit presence (`pb_encode.c:240-339`), while the decoder starts from
  the descriptor's defaults (`pb_decode.c:839-909`). A message round trips if and only if no zero was left out where the
  default is not zero (`PbAgreement.RoundTripsExactly`); with zero defaults all do (`PbAgreement.AllRoundTrip`).
  `PbAgreement.ZeroComesBackAsDefault` is a message that does not. A descriptor gives such a field a non-zero default
  when it is declared with `PB_FIELD`, rules `SINGULAR`, allocation `STATIC`, and a pointer to the default as the last
  argument (`pb.h:426-428` and `pb.h:531-534`): the type is then `PB_HTYPE_OPTIONAL` without a has-flag, and `ptr` is
  what the decoder copies. Descriptors in this repository (`cct.nanopb.c`, `firebasecore.nanopb.c`) give defaults to
  `OPTIONAL` fields with a has-flag only, and those are sent by their flag.

## Model

Sources under `leveldb-library` and `nanopb` in `SeanLee_TFG_ios_2202/Pods`.

| member | source | states |
|---|---|---|
| InternalKeys.CompareIsLexicographic | SeanLee_TFG_ios_2202/Pods/leveldb-library/db/dbformat.cc:51-67 | comparing packed trailers orders keys by user key, then newest first; two keys compare equal only if they are the same key |
| KnownBytes.Trailers | SeanLee_TFG_ios_2202/Pods/leveldb-library/db/dbformat.cc:14-18 | packed trailers of known keys |
| InternalKeys.SeekFindsNewest | SeanLee_TFG_ios_2202/Pods/leveldb-library/db/memtable.cc:100-134 | seeking the lookup key of (user, snapshot) in a sorted source lands on the newest version of user not newer than the snapshot, or shows that there is none |
| LsmSteps.AddToMem | SeanLee_TFG_ios_2202/Pods/leveldb-library/db/memtable.cc:75-98 | adding an entry with a new key keeps a memtable sorted and adds that entry and nothing else |
| Versions.FindFile | SeanLee_TFG_ios_2202/Pods/leveldb-library/db/version_set.cc:88-106 | on a sorted level the binary search ends at the first file whose largest key is at or after the key: all files before it end earlier, all from it on do not |
| Versions.SearchFileIsFirst | SeanLee_TFG_ios_2202/Pods/leveldb-library/db/version_set.cc:88-106 | every half of the search keeps the answer between left and right |
| Versions.CollectLevel0 | SeanLee_TFG_ios_2202/Pods/leveldb-library/db/version_set.cc:349-364 | level 0: every file whose range covers the key, newest first |
| Versions.CollectLevel | SeanLee_TFG_ios_2202/Pods/leveldb-library/db/version_set.cc:365-382 | a deeper level: the one file that may hold the key, or none |
| Versions.SearchCandidates | SeanLee_TFG_ios_2202/Pods/leveldb-library/db/version_set.cc:384-417 | the first of them that yields a version of the key, a deletion included, ends the search |
| Versions.SomeFileOverlapsRange | SeanLee_TFG_ios_2202/Pods/leveldb-library/db/version_set.cc:122-157 | true if and only if some file overlaps the range, with open ends, for disjoint sorted files as well as for overlapping ones |
| Versions.FirstHitIsNewest | SeanLee_TFG_ios_2202/Pods/leveldb-library/db/version_set.cc:326-421 | over candidates in newest-first order the first file that has a visible version of the key has the newest one of all; no hit means no candidate has one |
| Versions.HitIsNewest | SeanLee_TFG_ios_2202/Pods/leveldb-library/db/version_set.cc:326-421 | a hit in one level is the newest visible version of the whole version when nothing above is visible: stopping early is right |
| Versions.GetFromIsNewest | SeanLee_TFG_ios_2202/Pods/leveldb-library/db/version_set.cc:326-421 | searching from any level on answers with the newest visible version of all levels, a deletion counting as not found |
| Versions.Get | SeanLee_TFG_ios_2202/Pods/leveldb-library/db/version_set.cc:326-421 | on a well-formed version (levels sorted, versions newest first across files) the answer is that of the newest version with a sequence number at or below the snapshot; without one, NotFound |
| InputSelection.GetOverlappingInputs | SeanLee_TFG_ios_2202/Pods/leveldb-library/db/version_set.cc:519-559 | on deeper levels exactly the overlapping files; on level 0 the restarts end, with the least set of files closed under overlap that contains those of the range |
| InputSelection.OverlapIsCommonKey | SeanLee_TFG_ios_2202/Pods/leveldb-library/db/version_set.cc:109-120 | a file overlaps a range, open at either end or not, if and only if some user key lies in both |
| InputSelection.ClosureIsLeast | SeanLee_TFG_ios_2202/Pods/leveldb-library/db/version_set.cc:519-559 | a range grown only because some file sticks out, and closed under overlap, gives the least closed set |
| InputSelection.FindLargestKey | SeanLee_TFG_ios_2202/Pods/leveldb-library/db/version_set.cc:1326-1340 | the largest key of the files, and one of them has it |
| InputSelection.FindSmallestBoundaryFile | SeanLee_TFG_ios_2202/Pods/leveldb-library/db/version_set.cc:1344-1362 | the file with the smallest start among those that start after the key with the same user key; none if and only if there is no such file |
| InputSelection.AddBoundaryInputs | SeanLee_TFG_ios_2202/Pods/leveldb-library/db/version_set.cc:1378-1401 | afterwards no file of the level goes on with the user key the inputs end on; what was added is, step by step, the least file that does, and nothing else; a run of neighbouring files stays one, and connected inputs stay connected |
| CompactionSetup.GetRange | SeanLee_TFG_ios_2202/Pods/leveldb-library/db/version_set.cc:1205-1235 | smallest and largest internal key of the inputs |
| CompactionSetup.RunLeavesNothingOlder | SeanLee_TFG_ios_2202/Pods/leveldb-library/db/version_set.cc:1378-1401 | a run of a sorted level with no boundary file left behind leaves no older version of any of its user keys in its level |
| CompactionSetup.CloseInputs | SeanLee_TFG_ios_2202/Pods/leveldb-library/db/version_set.cc:1378-1401 | upper inputs completed with boundary files leave nothing older of their user keys in their level |
| CompactionSetup.SameSizeSameFiles | SeanLee_TFG_ios_2202/Pods/leveldb-library/db/version_set.cc:1403-1462 | a wider range that overlaps as many files overlaps the same files, which is why comparing counts is enough |
| CompactionSetup.SelectInputs | SeanLee_TFG_ios_2202/Pods/leveldb-library/db/version_set.cc:1403-1462 | upper inputs completed with boundary files, and exactly the files of the next level that overlap them; the upper inputs are grown if and only if growing is due, and then to all files of the growth |
| CompactionSetup.GrowInputs | SeanLee_TFG_ios_2202/Pods/leveldb-library/db/version_set.cc:1403-1462 | let g be the files of the level in the range of all inputs (on level 0 the least closed set), completed with boundary files: the result is g if the lower inputs are not empty, g has more files than the upper inputs, its total with the lower inputs is below the limit and g overlaps just the same lower files; otherwise the upper inputs as they were |
| CompactionSetup.SetupOtherInputs | SeanLee_TFG_ios_2202/Pods/leveldb-library/db/version_set.cc:1403-1462 | the compaction is the files it was started for with their boundary files, all files of the next level in their range, the growth exactly if it is due, and the grandparents in the range of all; it is well selected, and connected inputs stay connected |
| InputGrowth.GrowthIsUnique | SeanLee_TFG_ios_2202/Pods/leveldb-library/db/version_set.cc:1403-1462 | what growing would lead to is determined by the files of the version and the inputs |
| InputGrowth.GrowsExactlyIfDue | SeanLee_TFG_ios_2202/Pods/leveldb-library/db/version_set.cc:1423-1452 | so for whatever set of files answers that definition: the upper inputs are those files if growing is due, and unchanged if not |
| CompactionSetup.PickCompaction | SeanLee_TFG_ios_2202/Pods/leveldb-library/db/version_set.cc:1270-1322 | for any file the statistics may choose: a well-selected compaction set up from that file, on level 0 from all that overlap it in turn; it contains the file and has no gap in its inputs |
| CompactionSetup.CompactRange | SeanLee_TFG_ios_2202/Pods/leveldb-library/db/version_set.cc:1464-1495 | none if and only if no file overlaps the range; otherwise a well-selected compaction set up from the files that overlap it, on level 0 the least closed set, on deeper levels cut off at the size limit |
| CompactionSetup.CutShot | SeanLee_TFG_ios_2202/Pods/leveldb-library/db/version_set.cc:1476-1489 | the shortest prefix of the files whose total reaches the limit, or all of them if none does |
| CompactionFiles.MergeAllSorted | SeanLee_TFG_ios_2202/Pods/leveldb-library/db/version_set.cc:1237-1268 | reading the inputs of a compaction through the merging iterator gives their entries in key order |
| CompactionWork.BaseLevelCursor.IsBaseLevelForKey | SeanLee_TFG_ios_2202/Pods/leveldb-library/db/version_set.cc:1533-1552 | with keys asked in ascending order, the cursors that only move forward answer true if and only if no file below the output level covers the key |
| CompactionWork.GrandparentCursor.ShouldStopBefore | SeanLee_TFG_ios_2202/Pods/leveldb-library/db/version_set.cc:1554-1576 | with keys asked in ascending order: true if and only if the files two levels down that ended since the output began add up to more than the limit, in which case the sum begins anew |
| CompactionWork.DropObsolete | SeanLee_TFG_ios_2202/Pods/leveldb-library/db/db_impl.cc:878-1036 | an entry comes out if and only if it survives: it is not hidden by a newer version the oldest snapshot sees, and is no deletion at or below that snapshot of a key with nothing below; a new output begins exactly where the last one is full or has met too much of the grandparents |
| CompactionWork.Drops | SeanLee_TFG_ios_2202/Pods/leveldb-library/db/db_impl.cc:946-963 | one entry is dropped exactly if it does not survive |
| CompactionWork.OneOldVersionSurvives | SeanLee_TFG_ios_2202/Pods/leveldb-library/db/db_impl.cc:946-963 | of the versions of a key that every reader sees alike one survives at most, and a deletion among them only if a file further down may hold the key |
| CompactionFiles.MakeOutputFiles | SeanLee_TFG_ios_2202/Pods/leveldb-library/db/db_impl.cc:786-858 | the chunks as files: numbered in turn, with the sizes of their contents, sorted and disjoint, holding exactly the survivors |
| VersionEdits.SaveTo | SeanLee_TFG_ios_2202/Pods/leveldb-library/db/version_set.cc:695-754 | the merge of base files and added files is the level as a sorted function of both, without what is deleted |
| VersionEdits.SeparatedIsLevel | SeanLee_TFG_ios_2202/Pods/leveldb-library/db/version_set.cc:695-754 | files in builder order whose ranges are pairwise apart form a proper level |
| ManifestReplay.LogAndApply | SeanLee_TFG_ios_2202/Pods/leveldb-library/db/version_set.cc:801-884 | the new version is the current one with the edit applied to every level |
| ManifestReplay.ReplayEqualsInstalls | SeanLee_TFG_ios_2202/Pods/leveldb-library/db/version_set.cc:924-995 | swallowing all edits in one builder and saving once gives the level that installing them one at a time gives, if no file enters a level twice |
| ManifestReplay.SnapshotThenEdits | SeanLee_TFG_ios_2202/Pods/leveldb-library/db/version_set.cc:1088-1116 | a manifest that starts with a snapshot, then any edits, replays to the level those edits make of the snapshotted one |
| ReplayExact.ReplayFollowsExactly | SeanLee_TFG_ios_2202/Pods/leveldb-library/db/version_set.cc:886-1011 | where file numbers identify files, replay from the empty version rebuilds the level after every edit if and only if no edit adds a file the level holds at that moment |
| ReplayExact.ReturningFileIsFine | SeanLee_TFG_ios_2202/Pods/leveldb-library/db/version_set.cc:650-754 | a file added, deleted and added again is listed once by the replaying builder |
| ReplayExact.HeldFileIsListedTwice | SeanLee_TFG_ios_2202/Pods/leveldb-library/db/version_set.cc:650-754 | a file added twice without a deletion between is listed twice by installing and once by replaying |
| Manifests.RecoverSnapshot | SeanLee_TFG_ios_2202/Pods/leveldb-library/db/version_set.cc:1088-1116 | recovering a snapshot record gives back all levels of the version it was written for |
| Manifests.RecoverAppended | SeanLee_TFG_ios_2202/Pods/leveldb-library/db/version_set.cc:801-884 | recovering a manifest with one more record is recovering the shorter one and applying the record |
| EditCoding.VersionEdit.EncodeTo | SeanLee_TFG_ios_2202/Pods/leveldb-library/db/version_edit.cc:41-85 | the bytes are the encoding of all fields of the edit |
| EditCoding.VersionEdit.DecodeFrom | SeanLee_TFG_ios_2202/Pods/leveldb-library/db/version_edit.cc:107-205 | state and status are those of decoding the input from a cleared edit, malformed input included |
| EditCoding.FieldRoundTrip | SeanLee_TFG_ios_2202/Pods/leveldb-library/db/version_edit.cc:107-205 | any one written field is read back, whatever follows it |
| EditCoding.EditRoundTrip | SeanLee_TFG_ios_2202/Pods/leveldb-library/db/version_edit.cc:41-205 | decoding what was encoded succeeds and gives the edit, behind whatever compaction pointers the receiver already had |
| KnownBytes.EditOrder | SeanLee_TFG_ios_2202/Pods/leveldb-library/db/version_edit.cc:14-85 | the bytes of a record with a field of each kind but files added |
| KnownBytes.NewFileField | SeanLee_TFG_ios_2202/Pods/leveldb-library/db/version_edit.cc:14-85 | and of one for a file added |
| KnownBytes.Levels | SeanLee_TFG_ios_2202/Pods/leveldb-library/db/version_edit.cc:98-105 | levels 0 to 6 are accepted, others are not |
| CutOff.CutRecord | SeanLee_TFG_ios_2202/Pods/leveldb-library/db/version_edit.cc:107-205 | a record that ends inside a field has set the fields before it and fails |
| CutOff.OtherTags | SeanLee_TFG_ios_2202/Pods/leveldb-library/db/version_edit.cc:107-205 | so does a field with any other tag |
| EditCoding.EditComesBackExactly | SeanLee_TFG_ios_2202/Pods/leveldb-library/db/version_edit.cc:26-39 | so an edit comes back as it was if and only if the receiver had no compaction pointers |
| EditCoding.StalePointerStays | SeanLee_TFG_ios_2202/Pods/leveldb-library/db/version_edit.cc:26-39 | an empty edit read into one that has a pointer for level 1 comes back with that pointer |
| History.LastWriteDecides | SeanLee_TFG_ios_2202/Pods/leveldb-library/db/memtable.cc:100-134 | what a reader at s sees of a key is its last write among the first s operations, a deletion reading as not found |
| LsmState.ReadsFollowHistory | SeanLee_TFG_ios_2202/Pods/leveldb-library/db/db_impl.cc:1100-1145 | under the invariant every read at a permitted sequence number returns what the plain map held after that many operations |
| LsmSteps.WriteKeepsShape | SeanLee_TFG_ios_2202/Pods/leveldb-library/db/memtable.cc:75-98 | a write keeps levels, newest-first order and completeness |
| LsmSteps.WriteKeepsReads | SeanLee_TFG_ios_2202/Pods/leveldb-library/db/memtable.cc:75-98 | a write is read from its own sequence number on, and changes no read before it |
| LsmSteps.FlushKeepsShape | SeanLee_TFG_ios_2202/Pods/leveldb-library/db/db_impl.cc:491-533 | storing the immutable memtable at the level chosen for it keeps all of them, also in the middle of a compaction that does not reach across it, and changes nothing of what is held |
| LsmSteps.FlushKeepsReplaceable | SeanLee_TFG_ios_2202/Pods/leveldb-library/db/db_impl.cc:907-918 | a flush in the middle of a compaction leaves the inputs of that compaction replaceable |
| LsmSteps.ConnectedInputsKeepFlushApart | SeanLee_TFG_ios_2202/Pods/leveldb-library/db/db_impl.cc:907-918 | if the inputs have no gap, no flush can be reached across |
| LsmOrder.FlushOrder | SeanLee_TFG_ios_2202/Pods/leveldb-library/db/version_set.cc:491-516 | a file that no file down to its level overlaps may skip levels: the version stays newest first and gains exactly the entries of the file |
| LsmOrder.ReplaceOrder | SeanLee_TFG_ios_2202/Pods/leveldb-library/db/db_impl.cc:860-876 | replacing the inputs by outputs one level down keeps the version newest first |
| LsmVersions.FlushKeepsVersionOk | SeanLee_TFG_ios_2202/Pods/leveldb-library/db/version_set.cc:491-516 | and keeps every level sorted and disjoint and file numbers unique |
| LsmVersions.ReplaceKeepsVersionOk | SeanLee_TFG_ios_2202/Pods/leveldb-library/db/db_impl.cc:860-876 | so does replacing the inputs by the outputs |
| LsmCompaction.SelectedIsReplaceable | SeanLee_TFG_ios_2202/Pods/leveldb-library/db/version_set.cc:1403-1462 | a well-selected compaction can be replaced by its outputs: the lower files left out lie outside its range |
| LsmCompaction.SmallestIsOldest | SeanLee_TFG_ios_2202/Pods/leveldb-library/db/db_impl.cc:890-894 | the snapshot a compaction goes by is the oldest live one, or the last operation if there is none |
| LsmCompaction.MoveKeepsShape | SeanLee_TFG_ios_2202/Pods/leveldb-library/db/db_impl.cc:718-728 | a trivial move keeps the invariant and what is held |
| LsmCompaction.InstallKeepsShape | SeanLee_TFG_ios_2202/Pods/leveldb-library/db/db_impl.cc:860-876 | installing any outputs the loop can produce keeps levels, order and provenance, without any hypothesis about what was left out |
| LsmCompaction.InstallKeepsRetained | SeanLee_TFG_ios_2202/Pods/leveldb-library/db/db_impl.cc:890-999 | with lower inputs closed on the right, the last write of every key at every usable sequence number is still held, or was a deletion with nothing older left |
| LsmCompaction.InstallKeepsInv | SeanLee_TFG_ios_2202/Pods/leveldb-library/db/db_impl.cc:860-876 | with lower inputs closed on the right, installing keeps the whole invariant, hence every permitted read |
| LsmRuns.EmptyIsValid | SeanLee_TFG_ios_2202/Pods/leveldb-library/db/db_impl.cc:182-212 | a new database satisfies the invariant |
| LsmRuns.NextKeepsShape | SeanLee_TFG_ios_2202/Pods/leveldb-library/db/db_impl.cc:688-767 | every enabled action keeps levels, newest-first order and provenance; a right-closed one also keeps completeness |
| LsmRuns.OthersHoldTheSame | SeanLee_TFG_ios_2202/Pods/leveldb-library/db/db_impl.cc:688-767 | switching, flushing, moving, starting a compaction and snapshots change nothing of what is held |
| LsmRuns.NextKeepsReadsExactly | SeanLee_TFG_ios_2202/Pods/leveldb-library/db/db_impl.cc:688-767 | if all reads are right, every action leaves them right, except exactly those installations that let a deleted value come back |
| LsmRuns.RunReadsExactly | SeanLee_TFG_ios_2202/Pods/leveldb-library/db/db_impl.cc:878-1036 | so in a run that starts with right reads all reads are right throughout if and only if no installation lets a deleted value come back |
| LsmRuns.ClosedInstallsLoseNothing | SeanLee_TFG_ios_2202/Pods/leveldb-library/db/version_set.cc:1403-1462 | installing only compactions whose lower inputs are closed on the right is enough for that |
| LsmRuns.RunKeepsShape | SeanLee_TFG_ios_2202/Pods/leveldb-library/db/db_impl.cc:878-1036 | so they hold at every point of every run of writes, switches, flushes, moves, compactions and snapshots |
| LsmRuns.ConnectedRunsFlushApart | SeanLee_TFG_ios_2202/Pods/leveldb-library/db/db_impl.cc:907-918 | runs whose compactions have no gaps satisfy the hypothesis on flushes by themselves |
| LsmRuns.ReadsFollowHistoryInRuns | SeanLee_TFG_ios_2202/Pods/leveldb-library/db/db_impl.cc:1100-1145 | at every point of a run in which no deleted value comes back, a read now, or at any live snapshot, returns what the operations up to there made of the map |
| LsmRuns.SnapshotsAreStable | SeanLee_TFG_ios_2202/Pods/leveldb-library/db/snapshot.h:39-91 | a snapshot reads the same at every later point at which it is not released, whatever was compacted in between |
| LostDeletion.InstallChangesNoReadExactly | SeanLee_TFG_ios_2202/Pods/leveldb-library/db/db_impl.cc:946-963 | whatever was read before, right or wrong: installing a compaction changes no read at any usable sequence number if and only if no dropped deletion, the newest version at the oldest snapshot, has an older value of its key in a file of the output level that was left out |
| LostDeletion.InstallKeepsReadsExactly | SeanLee_TFG_ios_2202/Pods/leveldb-library/db/db_impl.cc:946-963 | so reads that are all right stay right under exactly that condition |
| LostDeletion.ClosedInputsLoseNothing | SeanLee_TFG_ios_2202/Pods/leveldb-library/db/version_set.cc:1403-1462 | lower inputs closed on the right rule that out |
| LostDeletionExample.DeletedValueComesBack | SeanLee_TFG_ios_2202/Pods/leveldb-library/db/version_set.cc:1403-1462 | a run of a new database reaches a state from which the selection and the loop of the code make a deleted value readable again |
| GapFlush.GapFlushIsSafeExactly | SeanLee_TFG_ios_2202/Pods/leveldb-library/db/db_impl.cc:907-918 | flushing into the output level of the running compaction leaves that level disjoint, whatever outputs are made, if and only if no two survivors lie on opposite sides of the new file |
| GapFlushExample.FlushedKeyIsNotFound | SeanLee_TFG_ios_2202/Pods/leveldb-library/db/db_impl.cc:907-918 | a run of a new database with a manual compaction reaches a state in which such a flush makes a key that was just written unreadable |
| Database.PickLevelForMemTableOutput | SeanLee_TFG_ios_2202/Pods/leveldb-library/db/version_set.cc:491-516 | the deepest level, 2 at most, that can be reached from level 0 one step at a time: nothing in level 0 overlaps the range, nothing in the next level does, and the files two levels down that do are within the limit; if the answer is below 2, one of these fails |
| Database.ChosenLevelIsClear | SeanLee_TFG_ios_2202/Pods/leveldb-library/db/version_set.cc:491-516 | so a file with that range may be stored there, having passed every level above untouched |
| Database.DBImpl.constructor | SeanLee_TFG_ios_2202/Pods/leveldb-library/db/db_impl.cc:182-212 | a new database is the empty state, and faithful to its empty history |
| Database.DBImpl.Write | SeanLee_TFG_ios_2202/Pods/leveldb-library/db/db_impl.cc:1185-1256 | the operations of the batch are appended to the history, with consecutive numbers published together; the database stays valid and faithful to its history |
| Database.DBImpl.SwitchMemTable | SeanLee_TFG_ios_2202/Pods/leveldb-library/db/db_impl.cc:1346-1366 | the memtable becomes immutable and a new one begins; reads stay faithful |
| Database.DBImpl.GetSnapshot | SeanLee_TFG_ios_2202/Pods/leveldb-library/db/db_impl.cc:1166-1169 | the snapshot is the number of operations so far, and is among the live ones |
| Database.DBImpl.ReleaseSnapshot | SeanLee_TFG_ios_2202/Pods/leveldb-library/db/db_impl.cc:1171-1174 | the snapshot named is taken off the list and nothing else changes |
| Database.DBImpl.CompactMemTable | SeanLee_TFG_ios_2202/Pods/leveldb-library/db/db_impl.cc:535-566 | the new state is the old one with the contents flushed as one file at exactly the level chosen, or nothing flushed if there are none; what is held does not change and reads stay faithful; the one hypothesis is that the running compaction does not reach across the file |
| Database.DBImpl.AutomaticCompactionsAllowFlush | SeanLee_TFG_ios_2202/Pods/leveldb-library/db/db_impl.cc:907-918 | compactions without a gap, which includes all automatic ones, always satisfy that hypothesis |
| Database.DBImpl.BackgroundCompaction | SeanLee_TFG_ios_2202/Pods/leveldb-library/db/db_impl.cc:688-767 | a compaction asked for automatically, of one file with nothing to merge it with and no more than the limit two levels down, is done at once by moving the file, and any other is begun; either way what is held and every read stay |
| Database.DBImpl.BuildOutputs | SeanLee_TFG_ios_2202/Pods/leveldb-library/db/db_impl.cc:878-1036 | the loop over the merged inputs makes outputs that can be installed in the state it started from: just the survivors, cut where an output is full or has met too much of the grandparents |
| Database.DBImpl.FinishCompaction | SeanLee_TFG_ios_2202/Pods/leveldb-library/db/db_impl.cc:860-876 | the state is the old one with just those outputs installed; if it was faithful to the history, it still is if and only if no deleted value comes back |
| Database.DBImpl.ClosedInputsAreEnough | SeanLee_TFG_ios_2202/Pods/leveldb-library/db/version_set.cc:1403-1462 | lower inputs that are closed on the right let none come back |
| Database.DBImpl.Get | SeanLee_TFG_ios_2202/Pods/leveldb-library/db/db_impl.cc:1100-1145 | memtable, immutable memtable, then version, the first to know the key deciding: the answer is that of the newest version held; in a faithful database it is that of the plain map after the snapshot |
| MergingIter.MergingIterator.constructor | SeanLee_TFG_ios_2202/Pods/leveldb-library/table/merger.cc:16-25 | an iterator over the children, past the end of their merged list |
| MergingIter.MergingIterator.CurrentIs | SeanLee_TFG_ios_2202/Pods/leveldb-library/table/merger.cc:110-118 | what readers see is the entry of the merged list at the position; valid exactly inside it |
| MergingIter.MergingIterator.SeekToFirst | SeanLee_TFG_ios_2202/Pods/leveldb-library/table/merger.cc:31-37 | position 0 of the merged list |
| MergingIter.MergingIterator.SeekToLast | SeanLee_TFG_ios_2202/Pods/leveldb-library/table/merger.cc:39-45 | its last position |
| MergingIter.MergingIterator.Seek | SeanLee_TFG_ios_2202/Pods/leveldb-library/table/merger.cc:47-53 | the first entry of the merged list at or after the target |
| MergingIter.MergingIterator.Next | SeanLee_TFG_ios_2202/Pods/leveldb-library/table/merger.cc:55-79 | one position on, also right after moving backwards |
| MergingIter.MergingIterator.Prev | SeanLee_TFG_ios_2202/Pods/leveldb-library/table/merger.cc:81-108 | one position back, also right after moving forwards; past the end from the first |
| MergingIter.MergingIterator.FindSmallest | SeanLee_TFG_ios_2202/Pods/leveldb-library/table/merger.cc:148-161 | the current child is the one that stands at the next entry of the merged list |
| MergingIter.MergingIterator.FindLargest | SeanLee_TFG_ios_2202/Pods/leveldb-library/table/merger.cc:163-176 | the current child is the one that stands at the previous entry |
| TwoLevelIter.TwoLevelIterator.constructor | SeanLee_TFG_ios_2202/Pods/leveldb-library/table/two_level_iterator.cc:71-78 | an iterator past the end of the blocks laid end to end |
| TwoLevelIter.TwoLevelIterator.CurrentOfBlocks | SeanLee_TFG_ios_2202/Pods/leveldb-library/table/two_level_iterator.cc:31-39 | what readers see is the entry of the concatenated blocks at the position |
| TwoLevelIter.SeekInBlock | SeanLee_TFG_ios_2202/Pods/leveldb-library/table/two_level_iterator.cc:82-87 | seeking the index, then the block it names, finds the place of the target in the whole |
| TwoLevelIter.TwoLevelIterator.Seek | SeanLee_TFG_ios_2202/Pods/leveldb-library/table/two_level_iterator.cc:82-87 | the first entry of the concatenation at or after the target, over any number of empty blocks |
| TwoLevelIter.TwoLevelIterator.SeekToFirst | SeanLee_TFG_ios_2202/Pods/leveldb-library/table/two_level_iterator.cc:89-94 | its first entry |
| TwoLevelIter.TwoLevelIterator.SeekToLast | SeanLee_TFG_ios_2202/Pods/leveldb-library/table/two_level_iterator.cc:96-101 | its last entry |
| TwoLevelIter.TwoLevelIterator.Next | SeanLee_TFG_ios_2202/Pods/leveldb-library/table/two_level_iterator.cc:103-107 | one position on |
| TwoLevelIter.TwoLevelIterator.Prev | SeanLee_TFG_ios_2202/Pods/leveldb-library/table/two_level_iterator.cc:109-113 | one position back |
| TwoLevelIter.TwoLevelIterator.SkipEmptyDataBlocksForward | SeanLee_TFG_ios_2202/Pods/leveldb-library/table/two_level_iterator.cc:115-126 | skipping empty blocks forward does not change the position |
| TwoLevelIter.TwoLevelIterator.SkipEmptyDataBlocksBackward | SeanLee_TFG_ios_2202/Pods/leveldb-library/table/two_level_iterator.cc:128-139 | skipping them backward goes to the entry before all that lies behind |
| IteratorSources.LevelRangesApart | SeanLee_TFG_ios_2202/Pods/leveldb-library/db/version_set.cc:159-228 | the two-level iterator over a sorted level runs over its files end to end |
| IteratorSources.SourcesApart | SeanLee_TFG_ios_2202/Pods/leveldb-library/db/db_impl.cc:1062-1087 | no two sources of the internal iterator share an internal key |
| IteratorSources.InternalIteratorStreams | SeanLee_TFG_ios_2202/Pods/leveldb-library/db/db_impl.cc:1062-1087 | the merge of memtables, level-0 files and one concatenating iterator per level is one sorted list that holds each stored version exactly once |
| DbIter.DBIter.Current | SeanLee_TFG_ios_2202/Pods/leveldb-library/db/db_iter.cc:64-71 | key() and value() are those of the live key the iterator stands on, in either direction |
| DbIter.DBIter.FindNextUserEntry | SeanLee_TFG_ios_2202/Pods/leveldb-library/db/db_iter.cc:168-198 | stops at the first entry that is the newest visible version of its key, is a value and is past the key to skip; invalid exactly if there is none |
| DbIter.DBIter.FindPrevUserEntry | SeanLee_TFG_ios_2202/Pods/leveldb-library/db/db_iter.cc:227-267 | stops with the last live key before where it started, with its newest visible value; invalid exactly if there is none |
| DbIter.DBIter.Seek | SeanLee_TFG_ios_2202/Pods/leveldb-library/db/db_iter.cc:269-281 | the least live key at or after the target, with its newest visible value |
| DbIter.DBIter.SeekToFirst | SeanLee_TFG_ios_2202/Pods/leveldb-library/db/db_iter.cc:283-292 | the least live key |
| DbIter.DBIter.SeekToLast | SeanLee_TFG_ios_2202/Pods/leveldb-library/db/db_iter.cc:294-299 | the greatest live key |
| DbIter.DBIter.Next | SeanLee_TFG_ios_2202/Pods/leveldb-library/db/db_iter.cc:141-166 | the least live key after the current one, from either direction |
| DbIter.DBIter.Prev | SeanLee_TFG_ios_2202/Pods/leveldb-library/db/db_iter.cc:200-225 | the greatest live key before the current one, from either direction |
| IteratorView.IteratorShowsHistory | SeanLee_TFG_ios_2202/Pods/leveldb-library/db/db_iter.cc:141-299 | the live keys and values the iterator moves over are exactly the plain map after the first s operations |
| IteratorStack.DriveMerged | SeanLee_TFG_ios_2202/Pods/leveldb-library/table/merger.cc:31-108 | under any sequence of calls, turns included, a merging iterator moves as a cursor over one sorted list |
| IteratorStack.DriveBlocks | SeanLee_TFG_ios_2202/Pods/leveldb-library/table/two_level_iterator.cc:82-161 | so does a two-level iterator, over its blocks laid end to end |
| IteratorStack.LevelStandsIn | SeanLee_TFG_ios_2202/Pods/leveldb-library/db/version_set.cc:223-228 | the iterator over the files of a level cannot be told from one over the list of all the level holds |
| IteratorStack.NewLevelIterator | SeanLee_TFG_ios_2202/Pods/leveldb-library/db/version_set.cc:223-228 | the iterator over a sorted level is one over its files end to end |
| IteratorStack.NewInternalIterator | SeanLee_TFG_ios_2202/Pods/leveldb-library/db/db_impl.cc:1062-1087 | a merging iterator with a child for every source, over one list that holds each stored version once |
| IteratorStack.NewIterator | SeanLee_TFG_ios_2202/Pods/leveldb-library/db/db_impl.cc:1147-1157 | the database iterator over it, at any usable sequence number, moves over exactly the plain map after so many operations |
| IteratorStack.Scan | SeanLee_TFG_ios_2202/Pods/leveldb-library/db/db_iter.cc:141-292 | iterating from SeekToFirst to the end lists that map in key order, each key once with its value |
| LogFormat.UnmaskMask | SeanLee_TFG_ios_2202/Pods/leveldb-library/util/crc32c.h:22-38 | masking a checksum is undone by unmasking it |
| KnownBytes.Masks | SeanLee_TFG_ios_2202/Pods/leveldb-library/util/crc32c.h:22-38 | masks of known checksums |
| LogFormat.FragmentsAtBlockEnd | SeanLee_TFG_ios_2202/Pods/leveldb-library/db/log_writer.cc:34-80 | starting in an exactly full block writes the same fragments as starting in a new one |
| LogWriter.Writer.AddRecord | SeanLee_TFG_ios_2202/Pods/leveldb-library/db/log_writer.cc:34-80 | appends the record as the fragments that fit from the current offset on, with zero trailers; ends for every record and offset, through empty first fragments |
| LogWriter.Writer.EmitPhysicalRecord | SeanLee_TFG_ios_2202/Pods/leveldb-library/db/log_writer.cc:82-108 | appends one header and payload that stay within the block |
| LogReader.Reader.ReadPhysicalRecord | SeanLee_TFG_ios_2202/Pods/leveldb-library/db/log_reader.cc:189-271 | for any bytes whatsoever, stated on the bytes of the file alone: the next header is at the position or, from the last six bytes of a block on, at the next block; a payload that does not fit is dropped and reported, or ends the file; a checksum that differs drops and reports the rest of the block; anything else is handed on as it lies there |
| LogReader.Reader.ReadRecord | SeanLee_TFG_ios_2202/Pods/leveldb-library/db/log_reader.cc:56-174 | the call meets a trail of headers, each where the one before left off; it returns the first whole record in it, one of type 1 or type 2, any 3s, and 4 in a row, joined; the sizes reported and the record together are all bytes met, except for a record cut off by the end |
| LogTrail.HandedOnIsIntact | SeanLee_TFG_ios_2202/Pods/leveldb-library/db/log_reader.cc:243-270 | with verification on, what is handed on lies in the file at some place, seven bytes behind a stored checksum that unmasks to that of its type and bytes |
| LogTrail.DamageIsReported | SeanLee_TFG_ios_2202/Pods/leveldb-library/db/log_reader.cc:243-258 | a fragment in place whose checksum differs is not handed on, and the rest of its block is reported |
| KnownBytes.LogRecord | SeanLee_TFG_ios_2202/Pods/leveldb-library/db/log_writer.cc:82-108 | the bytes of a one-byte record |
| KnownBytes.LogBlocks | SeanLee_TFG_ios_2202/Pods/leveldb-library/db/log_format.h:29-32 | seven bytes at the end of a block take a header and an empty first part, six are filled with zeros |
| LogRoundTrip.NextRecord | SeanLee_TFG_ios_2202/Pods/leveldb-library/db/log_reader.cc:56-174 | behind i records of a log cut off anywhere, ReadRecord returns the next if all of it is there, and otherwise ends without reporting anything |
| LogRoundTrip.SurvivingEndWithin | SeanLee_TFG_ios_2202/Pods/leveldb-library/db/log_writer.cc:34-80 | the records that survive a cut are those whose last byte does |
| LogRoundTrip.LogRoundTrip | SeanLee_TFG_ios_2202/Pods/leveldb-library/db/log_reader.cc:56-174 | a log of any records, cut off at any byte, reads back as exactly the surviving records, in order, and no corruption is reported |
| TornAppends.AppendIsAllOrNothing | SeanLee_TFG_ios_2202/Pods/leveldb-library/db/log_writer.cc:34-80 | however many bytes of an append reached the file, reading it gives the earlier records, and the new one exactly if all of it is there |
| TornAppends.TornLogIsWholeBatches | SeanLee_TFG_ios_2202/Pods/leveldb-library/db/db_impl.cc:371-489 | so a log onto which a batch was being appended recovers to whole batches, the last one present exactly if all its bytes are |
| WriteBatches.RecordRoundTrip | SeanLee_TFG_ios_2202/Pods/leveldb-library/db/write_batch.cc:42-80 | one update is read back, whatever follows it |
| WriteBatches.BatchRoundTrip | SeanLee_TFG_ios_2202/Pods/leveldb-library/db/write_batch.cc:42-80 | iterating over a batch hands over its updates in order, and succeeds exactly if the count in the header is right |
| KnownBytes.Batch | SeanLee_TFG_ios_2202/Pods/leveldb-library/db/write_batch.cc:5-27 | the bytes of a batch with an insertion and a deletion |
| CutOff.CutBatch | SeanLee_TFG_ios_2202/Pods/leveldb-library/db/write_batch.cc:42-80 | a batch that ends inside a record hands over the updates before it and fails, as a bad Put or Delete |
| CutOff.OtherBatches | SeanLee_TFG_ios_2202/Pods/leveldb-library/db/write_batch.cc:42-80 | a record with another tag, and a batch without a whole header, are refused |
| WriteBatches.WriteBatch.Add | SeanLee_TFG_ios_2202/Pods/leveldb-library/db/write_batch.cc:98-109 | Put and Delete append one update; header and count stay right |
| WriteBatches.WriteBatch.Append | SeanLee_TFG_ios_2202/Pods/leveldb-library/db/write_batch.cc:144-148 | appends the updates of the other batch, count included |
| WriteBatches.WriteBatch.SetSequence | SeanLee_TFG_ios_2202/Pods/leveldb-library/db/write_batch.cc:94-96 | overwrites the sequence number in the header and nothing else |
| WriteBatches.WriteBatch.Iterate | SeanLee_TFG_ios_2202/Pods/leveldb-library/db/write_batch.cc:42-80 | the updates handed over and the status are those of replaying the bytes, malformed ones included |
| GroupCommit.BuildBatchGroup | SeanLee_TFG_ios_2202/Pods/leveldb-library/db/db_impl.cc:1260-1306 | the group is the prefix of the queue the rules allow; its batch holds the updates of exactly those writers in order, and no writer's own batch is changed |
| GroupCommit.GroupIsGreedy | SeanLee_TFG_ios_2202/Pods/leveldb-library/db/db_impl.cc:1260-1306 | no sync writer is in the group of a leader that is not; the group stays within its size; and the next writer wants a sync that the leader does not, or would exceed the size |
| KnownBytes.GroupSizes | SeanLee_TFG_ios_2202/Pods/leveldb-library/db/db_impl.cc:1267-1275 | 128 KB more than a first batch of up to 128 KB, otherwise 1 MB |
| GroupCommit.TakenExactly | SeanLee_TFG_ios_2202/Pods/leveldb-library/db/db_impl.cc:1260-1306 | a waiting writer is in the group if and only if it and all before it may join |
| GroupCommit.RunKeepsInv | SeanLee_TFG_ios_2202/Pods/leveldb-library/db/db_impl.cc:1185-1256 | the invariant of the queue holds at every point of every interleaving of arriving, leading, syncing and finishing writers |
| GroupCommit.EachBatchOnceInOrder | SeanLee_TFG_ios_2202/Pods/leveldb-library/db/db_impl.cc:1185-1256 | whenever no leader is at work: every writer that arrived is answered or waiting, in order; memtable and log hold the updates of exactly the answered ones, in queue order, with consecutive numbers |
| GroupCommit.RecordsInOrder | SeanLee_TFG_ios_2202/Pods/leveldb-library/db/db_impl.cc:1185-1256 | the log records, one per group, together are the updates of the answered writers in order |
| GroupCommit.SyncWritersAreSynced | SeanLee_TFG_ios_2202/Pods/leveldb-library/db/db_impl.cc:1260-1306 | a sync writer with updates in its group is answered only after a synced record holds the updates of the group |
| GroupCommit.SwitchedExactlyIfLeading | SeanLee_TFG_ios_2202/Pods/leveldb-library/db/db_impl.cc:1200-1206 | with distinct writers, an answered request without updates has forced a memtable switch if and only if it was the first of its group |
| GroupCommit.AbsorbedExactly | SeanLee_TFG_ios_2202/Pods/leveldb-library/db/db_impl.cc:1260-1306 | and it is absorbed instead exactly if the leader has updates, every writer between may join, and it is not a sync request behind one that is not |
| GroupCommit.AbsorbedRequestIsNotSwitched | SeanLee_TFG_ios_2202/Pods/leveldb-library/db/db_impl.cc:1260-1306 | a run in which that happens |
| SkipLists.SkipList.FindGreaterOrEqual | SeanLee_TFG_ios_2202/Pods/leveldb-library/db/skiplist.h:260-281 | the first node of level 0 at or after the key, whatever the heights; the path holds the last node before the key on every level |
| SkipLists.SkipList.FindLessThan | SeanLee_TFG_ios_2202/Pods/leveldb-library/db/skiplist.h:283-302 | the node with the greatest key before the key, or the head |
| SkipLists.SkipList.FindLast | SeanLee_TFG_ios_2202/Pods/leveldb-library/db/skiplist.h:304-322 | the node with the greatest key, or the head |
| SkipLists.SkipList.CopyLink | SeanLee_TFG_ios_2202/Pods/leveldb-library/db/skiplist.h:358-365 | the first write at a level: only the new node changes, and nothing links to it there yet |
| SkipLists.SkipList.Publish | SeanLee_TFG_ios_2202/Pods/leveldb-library/db/skiplist.h:358-367 | the second write: from now on every level up to this one contains the node, every level is still a sorted part of level 0, and no reader on its way is misled |
| SkipLists.SkipList.Insert | SeanLee_TFG_ios_2202/Pods/leveldb-library/db/skiplist.h:336-368 | there is one new node, in its place and linked on exactly as many levels as were drawn, and all others are as before; every intermediate state is a growth of the one before |
| SkipLists.FirstTallIs | SeanLee_TFG_ios_2202/Pods/leveldb-library/db/skiplist.h:260-281 | the next node of a level is the first one from a place on that is linked there |
| SkipLists.SkipList.FoundIsAnswer | SeanLee_TFG_ios_2202/Pods/leveldb-library/db/skiplist.h:260-281 | what the search finds is the least reachable key at or after the one searched, and null only if there is none |
| SkipLists.SkipList.StoppedIsAnswer | SeanLee_TFG_ios_2202/Pods/leveldb-library/db/skiplist.h:283-322 | where the searches for the greatest key before one, and for the greatest of all, stop is the answer on the reachable keys |
| SkipLists.Search.Step | SeanLee_TFG_ios_2202/Pods/leveldb-library/db/skiplist.h:260-322 | one read of any of the three searches on its way, with any writes in between; at its end the result is the answer on the keys reachable then |
| SkipLists.StillOnTheWay | SeanLee_TFG_ios_2202/Pods/leveldb-library/db/skiplist.h:336-368 | a search under way is not misled by any growth of the list |
| SkipLists.LinkWhileSearching | SeanLee_TFG_ios_2202/Pods/leveldb-library/db/skiplist.h:358-367 | one round of the linking loop with steps of a search before and between its two writes |
| SkipLists.InsertWhileSearching | SeanLee_TFG_ios_2202/Pods/leveldb-library/db/skiplist.h:336-368 | a whole insertion with a reader (Seek, Prev or SeekToLast of an iterator) interleaved write by write in any way: both end as alone, and the reader's answer is right for the old or the new key set |
| DurableImage.UpIsDurable | SeanLee_TFG_ios_2202/Pods/leveldb-library/db/db_impl.cc:280-369 | at every moment a running process's files are a durable form of all it acknowledged, and of the batch in its log that it did not, and they hold what the process holds |
| DurableSteps.AppendKeeps | SeanLee_TFG_ios_2202/Pods/leveldb-library/db/db_impl.cc:1209-1222 | process and files still agree when a batch has reached the log but not yet the memtable |
| DurableSteps.ApplyKeeps | SeanLee_TFG_ios_2202/Pods/leveldb-library/db/db_impl.cc:1223-1248 | and when it is applied and acknowledged |
| DurableSteps.SwitchKeeps | SeanLee_TFG_ios_2202/Pods/leveldb-library/db/db_impl.cc:1346-1366 | and when a new log is begun for a new memtable |
| DurableSteps.NeededIsLive | SeanLee_TFG_ios_2202/Pods/leveldb-library/db/db_impl.cc:223-278 | between jobs of the background thread, every table that the current version, a reader, a running compaction or a table just written needs is covered by the live numbers DeleteObsoleteFiles computes |
| DurableSteps.DeleteKeeps | SeanLee_TFG_ios_2202/Pods/leveldb-library/db/db_impl.cc:223-278 | so whatever DeleteObsoleteFiles removes (tables, logs or manifests), the files stay a durable form |
| DurableCommits.LogChangeKeeps | SeanLee_TFG_ios_2202/Pods/leveldb-library/db/version_set.cc:801-884 | and when a record has reached the manifest but its version is not installed in memory |
| DurableCommits.InstallChangeKeeps | SeanLee_TFG_ios_2202/Pods/leveldb-library/db/version_set.cc:801-884 | and when it is installed |
| DurableRuns.StepKeeps | SeanLee_TFG_ios_2202/Pods/leveldb-library/db/db_impl.cc:371-566 | every step of a running process keeps its files and itself in agreement |
| CrashRecovery.AddTogether | SeanLee_TFG_ios_2202/Pods/leveldb-library/db/db_impl.cc:371-489 | one edit that adds all recovered tables makes the same version as one edit for each |
| CrashRecovery.BatchesMakeRange | SeanLee_TFG_ios_2202/Pods/leveldb-library/db/db_impl.cc:371-489 | replaying logged batches gives the memtable of just their operations |
| RecoverySteps.WriteLogTableKeeps | SeanLee_TFG_ios_2202/Pods/leveldb-library/db/db_impl.cc:371-489 | writing a recovered memtable as a level-0 table leaves the history recoverable |
| RecoverySteps.SetCurrentKeeps | SeanLee_TFG_ios_2202/Pods/leveldb-library/db/db_impl.cc:1474-1515 | switching CURRENT to the new manifest does too |
| RecoverySteps.OpenedHolds | SeanLee_TFG_ios_2202/Pods/leveldb-library/db/db_impl.cc:1474-1515 | the database that comes up holds exactly what the version and the logs did |
| DurableRuns.RecoverKeeps | SeanLee_TFG_ios_2202/Pods/leveldb-library/db/db_impl.cc:280-369 | every step of a recovery, and a crash at any of them, leaves the same history on disk and the same contents held |
| DurableRuns.AlwaysDurable | SeanLee_TFG_ios_2202/Pods/leveldb-library/db/db_impl.cc:280-489 | at every moment, up, down or recovering, the files hold the acknowledged operations and the one batch on its way |
| DatabaseOpen.RecoverLogFile | SeanLee_TFG_ios_2202/Pods/leveldb-library/db/db_impl.cc:371-489 | the batches of the log end in tables: one as soon as the memtable is full, and one for what is left at the end, each holding just the batches since the last; the state is recoverable throughout |
| DatabaseOpen.SwitchManifest | SeanLee_TFG_ios_2202/Pods/leveldb-library/db/db_impl.cc:1474-1515 | new log, new manifest and CURRENT: a running database with exactly the history |
| DatabaseOpen.Open | SeanLee_TFG_ios_2202/Pods/leveldb-library/db/db_impl.cc:1474-1515 | from any durable directory: a running database with the whole history that was on disk, holding what the disk held |
| DurableReads.CrashChangesNoRead | SeanLee_TFG_ios_2202/Pods/leveldb-library/db/db_impl.cc:280-369 | after a crash and recovery, repeated crashes included, every read at every sequence number is what the dying process's own state, with the logged batch, would have answered; nothing is assumed about what compactions leave behind |
| DurableReads.AcknowledgedSurvive | SeanLee_TFG_ios_2202/Pods/leveldb-library/db/db_impl.cc:1185-1256 | no acknowledged operation is lost in any run with crashes |
| DurableReads.AckedByBatches | SeanLee_TFG_ios_2202/Pods/leveldb-library/db/db_impl.cc:371-489 | what is acknowledged grows by whole batches only: the one being acknowledged or the one a crash left in the log |
| DurableReads.NothingNeededIsMissing | SeanLee_TFG_ios_2202/Pods/leveldb-library/db/db_impl.cc:223-278 | in every run, at every moment, the disk is durable and no file the process still needs is gone |
| DurableReads.ReadsSurviveCrashes | SeanLee_TFG_ios_2202/Pods/leveldb-library/db/db_impl.cc:280-489 | if no committed compaction lets a deleted value come back: after any number of crashes every read, now or at a snapshot taken since the database came up, returns what the acknowledged operations up to there made of the map, those acknowledged before any crash among them |
| DurableReads.ClosedEventsLoseNothing | SeanLee_TFG_ios_2202/Pods/leveldb-library/db/version_set.cc:1403-1462 | committing only compactions whose lower inputs are closed on the right lets none come back |
| DurableReads.NewDbIsRight | SeanLee_TFG_ios_2202/Pods/leveldb-library/db/db_impl.cc:182-212 | a new database is where such runs start |
| DurableBytes.OldBytesStay | SeanLee_TFG_ios_2202/Pods/leveldb-library/db/log_writer.cc:34-80 | an append to a log or manifest extends the bytes that are there |
| DurableBytes.EventKeepsBytes | SeanLee_TFG_ios_2202/Pods/leveldb-library/db/db_impl.cc:371-489 | after every event that runs to its end, the bytes of logs and manifest read as the records the machine has |
| DurableBytes.TornEventReads | SeanLee_TFG_ios_2202/Pods/leveldb-library/db/log_reader.cc:56-174 | an event cut off at any byte, while running or recovering, reads as if it had not happened |
| DurableBytes.BytesAlwaysRead | SeanLee_TFG_ios_2202/Pods/leveldb-library/db/db_impl.cc:280-489 | at every moment of every run, whatever bytes crashes cut off, the logs and the manifest CURRENT names read, with nothing reported, as the records on the disk of the machine |
| DurableBytes.NewDbReads | SeanLee_TFG_ios_2202/Pods/leveldb-library/db/db_impl.cc:182-212 | the files of a new database do |
| Coding.DecodeEncodeFixed32 | SeanLee_TFG_ios_2202/Pods/leveldb-library/util/coding.cc:9-33 | a fixed 32-bit integer is read back |
| Coding.Varint32RoundTrip | SeanLee_TFG_ios_2202/Pods/leveldb-library/util/coding.cc:47-140 | a 32-bit varint is read back, whatever follows it |
| Coding.Varint64RoundTrip | SeanLee_TFG_ios_2202/Pods/leveldb-library/util/coding.cc:81-169 | a 64-bit varint is read back, whatever follows it |
| KnownBytes.Numbers | SeanLee_TFG_ios_2202/Pods/leveldb-library/util/coding.cc:9-100 | known numbers and strings in their encodings |
| Coding.GetVarint | SeanLee_TFG_ios_2202/Pods/leveldb-library/util/coding.cc:112-169 | the shifting loop computes the sum of the groups, cut to the width; truncated and overlong input is refused |
| CutOff.AcceptedExactly | SeanLee_TFG_ios_2202/Pods/leveldb-library/util/coding.cc:112-169 | a varint is accepted if and only if one of its first five bytes, or ten for 64 bits, is below 128 |
| CutOff.CutString | SeanLee_TFG_ios_2202/Pods/leveldb-library/util/coding.cc:171-190 | a length-prefixed string that is cut off anywhere is refused |
| Coding.SliceRoundTrip | SeanLee_TFG_ios_2202/Pods/leveldb-library/util/coding.cc:98-190 | a length-prefixed string is read back |
| ByteOrder.CompareMirrors | SeanLee_TFG_ios_2202/Pods/leveldb-library/util/comparator.cc:25-27 | the bytewise order is antisymmetric and equal only for equal strings |
| ByteOrder.CompareChains | SeanLee_TFG_ios_2202/Pods/leveldb-library/util/comparator.cc:25-27 | and transitive |
| ByteOrder.FindShortestSeparator | SeanLee_TFG_ios_2202/Pods/leveldb-library/util/comparator.cc:29-50 | at the first byte that differs: start cut off behind that byte plus one, if this is still before limit; start itself if not, or if one key is a prefix of the other; at or after start, and before limit if start was |
| ByteOrder.ShorterIsOutside | SeanLee_TFG_ios_2202/Pods/leveldb-library/util/comparator.cc:29-50 | no shorter key lies between start and limit |
| ByteOrder.FindShortSuccessor | SeanLee_TFG_ios_2202/Pods/leveldb-library/util/comparator.cc:52-64 | the key cut off behind its first byte that is not 255, plus one; a run of 255s as it was; at or after the key |
| ByteOrder.FindInternalSeparator | SeanLee_TFG_ios_2202/Pods/leveldb-library/db/dbformat.cc:69-86 | the user key so shortened, with the trailer that sorts first, exactly if it becomes shorter; an internal key from start on and before limit; if it is changed at all, its user key is strictly before that of limit |
| ByteOrder.FindInternalSuccessor | SeanLee_TFG_ios_2202/Pods/leveldb-library/db/dbformat.cc:88-101 | the user key so shortened, with the trailer that sorts first, exactly if it becomes shorter; an internal key at or after the key |
| ByteOrder.KnownSeekTag | SeanLee_TFG_ios_2202/Pods/leveldb-library/db/dbformat.h:58-66 | the bytes of that trailer |
| BlockFormat.FastPathAgrees | SeanLee_TFG_ios_2202/Pods/leveldb-library/table/block.cc:54-74 | the one-byte fast path decodes what the general one would |
| BlockFormat.DecodeWritten | SeanLee_TFG_ios_2202/Pods/leveldb-library/table/block.cc:54-74 | a stored entry is decoded, whatever follows it |
| BlockBuilders.BlockBuilder.Add | SeanLee_TFG_ios_2202/Pods/leveldb-library/table/block_builder.cc:72-106 | the pair goes to the end of the block, sharing with the previous key exactly their common prefix, and nothing at a restart point |
| BlockBuilders.BlockBuilder.Finish | SeanLee_TFG_ios_2202/Pods/leveldb-library/table/block_builder.cc:62-70 | the bytes are those of the entries, then the offsets of the restart points and their number |
| BlockBuilders.BlockBuilder.EstimateIsSize | SeanLee_TFG_ios_2202/Pods/leveldb-library/table/block_builder.cc:56-60 | the size estimate is exactly the size of the block finished now |
| KnownBytes.BlockEntry | SeanLee_TFG_ios_2202/Pods/leveldb-library/table/block_builder.cc:16-23 | the bytes of an entry |
| KnownBytes.EmptyBlock | SeanLee_TFG_ios_2202/Pods/leveldb-library/table/block_builder.cc:25-28 | and of a block without entries |
| BlockIter.Iter.constructor | SeanLee_TFG_ios_2202/Pods/leveldb-library/table/block.cc:24-39 | an iterator past the end of the pairs of a finished block |
| BlockIter.Iter.OnPair | SeanLee_TFG_ios_2202/Pods/leveldb-library/table/block.cc:126-135 | key and value are those of the pair it stands on, and it is valid exactly on one |
| BlockIter.Iter.ParseNextKey | SeanLee_TFG_ios_2202/Pods/leveldb-library/table/block.cc:224-251 | moves to the next pair, rebuilding its key from the shared prefix; false exactly at the end |
| BlockIter.Iter.Seek | SeanLee_TFG_ios_2202/Pods/leveldb-library/table/block.cc:163-201 | the first pair at or after the target, by binary search over restart points and a linear scan |
| BlockIter.Iter.FindRestart | SeanLee_TFG_ios_2202/Pods/leveldb-library/table/block.cc:163-190 | the restart point found is not behind the pair searched for |
| BlockIter.Iter.SeekToFirst | SeanLee_TFG_ios_2202/Pods/leveldb-library/table/block.cc:203-206 | the first pair |
| BlockIter.Iter.SeekToLast | SeanLee_TFG_ios_2202/Pods/leveldb-library/table/block.cc:208-213 | the last pair |
| BlockIter.Iter.Next | SeanLee_TFG_ios_2202/Pods/leveldb-library/table/block.cc:137-140 | the next pair |
| BlockIter.Iter.Prev | SeanLee_TFG_ios_2202/Pods/leveldb-library/table/block.cc:142-161 | the pair before, by scanning from a restart point; past the end from the first |
| Blooms.BloomFilterPolicy.CreateFilter | SeanLee_TFG_ios_2202/Pods/leveldb-library/util/bloom.cc:28-54 | what was in dst stays; the filter appended has the size the keys want, 64 bits at least, and set in it exactly the probes of the keys, with the number of probes behind; so it matches every key it was built from |
| Blooms.BloomFilterPolicy.AddKey | SeanLee_TFG_ios_2202/Pods/leveldb-library/util/bloom.cc:44-53 | a bit is set afterwards if and only if it was before or is a probe of the key |
| Blooms.ProbeIs | SeanLee_TFG_ios_2202/Pods/leveldb-library/util/bloom.cc:44-53 | the j-th probe is the hash plus j times its rotation, in 32 bits |
| Blooms.KnownRotations | SeanLee_TFG_ios_2202/Pods/leveldb-library/util/bloom.cc:47-47 | which turns it by 17 bits to the right |
| Blooms.BloomFilterPolicy.constructor | SeanLee_TFG_ios_2202/Pods/leveldb-library/util/bloom.cc:19-24 | 69 probes for 100 bits a key, rounded down, between 1 and 30 |
| Blooms.BloomFilterPolicy.KeyMayMatch | SeanLee_TFG_ios_2202/Pods/leveldb-library/util/bloom.cc:56-80 | true if and only if all probes of the key are set, with short filters and unknown probe counts as in the code |
| FilterBlocks.FilterBlockBuilder.StartBlock | SeanLee_TFG_ios_2202/Pods/leveldb-library/table/filter_block.cc:21-27 | one group is closed for each 2 KB up to the block's offset, all but the first of them empty |
| FilterBlocks.FilterBlockBuilder.AddKey | SeanLee_TFG_ios_2202/Pods/leveldb-library/table/filter_block.cc:29-33 | the key joins the open group |
| FilterBlocks.FilterBlockBuilder.GenerateFilter | SeanLee_TFG_ios_2202/Pods/leveldb-library/table/filter_block.cc:51-75 | the open group is closed with one more offset, an empty group without a filter |
| FilterBlocks.FilterBlockBuilder.Finish | SeanLee_TFG_ios_2202/Pods/leveldb-library/table/filter_block.cc:35-49 | the block contains a filter for every group, the open one too if it has keys, found through its offsets |
| FilterBlocks.FilterBlockReader.constructor | SeanLee_TFG_ios_2202/Pods/leveldb-library/table/filter_block.cc:77-88 | from a finished block it finds all groups; from any other bytes, the offsets it will read lie inside them |
| FilterBlocks.FilterBlockReader.KeyMayMatch | SeanLee_TFG_ios_2202/Pods/leveldb-library/table/filter_block.cc:90-104 | the answer is that of the filter made from exactly the keys of the group of the block's offset; no for a group without keys, yes beyond the last |
| FilterBlocks.FiledMayMatch | SeanLee_TFG_ios_2202/Pods/leveldb-library/table/filter_block.cc:90-104 | so no key filed for the group is denied |
| KnownBytes.EmptyFilterBlock | SeanLee_TFG_ios_2202/Pods/leveldb-library/table/filter_block.cc:35-49 | the bytes of a filter block without groups |
| TableFormat.HandleRoundTrip | SeanLee_TFG_ios_2202/Pods/leveldb-library/table/format.cc:15-29 | a block handle is read back, whatever follows it |
| TableFormat.FooterRoundTrip | SeanLee_TFG_ios_2202/Pods/leveldb-library/table/format.cc:31-62 | the footer has its fixed size and is read back |
| TableFormat.KnownFooter | SeanLee_TFG_ios_2202/Pods/leveldb-library/table/format.cc:31-40 | 48 bytes that end with the magic number |
| TableFormat.FooterNeedsMagic | SeanLee_TFG_ios_2202/Pods/leveldb-library/table/format.cc:42-62 | without which nothing is taken for a footer |
| KnownBytes.BlockHandle | SeanLee_TFG_ios_2202/Pods/leveldb-library/table/format.cc:15-20 | the bytes of a handle |
| TableFormat.StoredIsRead | SeanLee_TFG_ios_2202/Pods/leveldb-library/table/format.cc:64-139 | a block stored with its type and checksum is read back, verified or not |
| TableFormat.ReadExactly | SeanLee_TFG_ios_2202/Pods/leveldb-library/table/format.cc:64-139 | of an uncompressed block: it is read exactly if the file is long enough, its type is 0 and, if that is asked for, the stored checksum is that of contents and type |
| KnownBytes.BlockTrailer | SeanLee_TFG_ios_2202/Pods/leveldb-library/table/table_builder.cc:177-194 | the bytes behind a block |
| TableFormat.StillStored | SeanLee_TFG_ios_2202/Pods/leveldb-library/table/table_builder.cc:177-194 | appending to the file does not disturb a stored block |
| TableBuilders.TableBuilder.constructor | SeanLee_TFG_ios_2202/Pods/leveldb-library/table/table_builder.cc:21-70 | a builder of an empty table |
| TableBuilders.TableBuilder.Add | SeanLee_TFG_ios_2202/Pods/leveldb-library/table/table_builder.cc:94-123 | the pair is added to the open block, which is stored and closed exactly if its size has reached the block size; a due index entry gets its separator from the new key |
| TableBuilders.TableBuilder.AddIndexEntry | SeanLee_TFG_ios_2202/Pods/leveldb-library/table/table_builder.cc:102-109 | the entry leads to the finished block under a key that separates its last pair from the next one, shortened where that is possible |
| TableBuilders.TableBuilder.Flush | SeanLee_TFG_ios_2202/Pods/leveldb-library/table/table_builder.cc:125-139 | the open block is stored with all its entries, if it is not empty, and the next one begins |
| TableBuilders.TableBuilder.WriteBlock | SeanLee_TFG_ios_2202/Pods/leveldb-library/table/table_builder.cc:141-175 | the finished block is stored at the handle returned, and the builder is empty |
| TableBuilders.TableBuilder.WriteRawBlock | SeanLee_TFG_ios_2202/Pods/leveldb-library/table/table_builder.cc:177-194 | contents, type and masked checksum are appended; the handle is where they begin |
| TableBuilders.TableBuilder.Finish | SeanLee_TFG_ios_2202/Pods/leveldb-library/table/table_builder.cc:198-253 | the file is a table of exactly the pairs added: data blocks, filters, metaindex, index with separators, and footer |
| TableOrder.BeforeSeparator | SeanLee_TFG_ios_2202/Pods/leveldb-library/table/table_builder.cc:94-139 | all pairs up to a block are before any target its index key is before |
| TableOrder.BetweenBlocks | SeanLee_TFG_ios_2202/Pods/leveldb-library/db/dbformat.cc:69-86 | a target between a block's last pair and its index key has no version of its user key in the next block |
| TableOrder.AnswerInBlock | SeanLee_TFG_ios_2202/Pods/leveldb-library/table/table.cc:216-244 | the answer of a linear search is in the block the index leads to, or there is none |
| Tables.BlockDecides | SeanLee_TFG_ios_2202/Pods/leveldb-library/table/table.cc:216-244 | looking only there gives the answer of searching all pairs added |
| Tables.Table.Open | SeanLee_TFG_ios_2202/Pods/leveldb-library/table/table.cc:38-82 | opening a finished table gives one whose pairs are those that were added; it has filters exactly if there are any, there is a policy, and that has the builder's name |
| Tables.Table.ReadMeta | SeanLee_TFG_ios_2202/Pods/leveldb-library/table/table.cc:84-111 | the filter is found through the metaindex exactly under its name |
| Tables.Table.ReadFilter | SeanLee_TFG_ios_2202/Pods/leveldb-library/table/table.cc:113-134 | and works for every block of the table |
| Tables.Table.AskFilter | SeanLee_TFG_ios_2202/Pods/leveldb-library/table/table.cc:224-229 | the answer is that of the filter for the block's group, or yes without filters; a key that the block has is never ruled out |
| Tables.Table.InternalGet | SeanLee_TFG_ios_2202/Pods/leveldb-library/table/table.cc:216-244 | the pair handed on, if it is of the user key asked for, is the first pair at or after the target in all that was added; none if that is of another user key; the block is not searched exactly if the filter rules the key out |
| TableStreams.EncodedOrder | SeanLee_TFG_ios_2202/Pods/leveldb-library/db/dbformat.cc:51-67 | comparing encoded internal keys agrees with comparing what they encode |
| TableStreams.SeekCarriesOver | SeanLee_TFG_ios_2202/Pods/leveldb-library/table/block.cc:163-201 | the place a seek in a block ends at is that of the seek in its list of entries |
| TableStreams.DriveBlock | SeanLee_TFG_ios_2202/Pods/leveldb-library/table/block.cc:76-252 | under any sequence of calls the iterator over the bytes of a block moves as a cursor over the list of its entries |
| TableStreams.TableIsTwoLevel | SeanLee_TFG_ios_2202/Pods/leveldb-library/table/table.cc:210-214 | the index and the blocks of a finished table, read as entries, are separated as a two-level iterator needs them, and end to end they are exactly the pairs added |
| HandleLists.Unlink | SeanLee_TFG_ios_2202/Pods/leveldb-library/util/cache.cc:239-242 | the circular list without that handle; only its neighbours are written to |
| HandleLists.Link | SeanLee_TFG_ios_2202/Pods/leveldb-library/util/cache.cc:244-250 | the circular list with the handle as the newest |
| HandleTables.HandleTable.FindPointer | SeanLee_TFG_ios_2202/Pods/leveldb-library/util/cache.cc:114-120 | the slot of the handle with that hash and key, or the end of its bucket; null if and only if the table has none |
| HandleTables.HandleTable.Insert | SeanLee_TFG_ios_2202/Pods/leveldb-library/util/cache.cc:78-92 | the handle takes the place of the one with its key, which is returned; all others stay; the array is replaced exactly if there are more handles than buckets, by one that is then at least half used |
| HandleTables.HandleTable.Remove | SeanLee_TFG_ios_2202/Pods/leveldb-library/util/cache.cc:94-102 | the handle found, if any, is taken out and returned; all others stay |
| HandleTables.HandleTable.Resize | SeanLee_TFG_ios_2202/Pods/leveldb-library/util/cache.cc:122-146 | every handle is in the new buckets, there are enough of them, and fewer than twice as many unless there are four |
| HandleTables.HandleTable.MoveAll | SeanLee_TFG_ios_2202/Pods/leveldb-library/util/cache.cc:128-141 | every handle is moved to the bucket its hash has in the new array |
| HandleTables.LengthFor | SeanLee_TFG_ios_2202/Pods/leveldb-library/util/cache.cc:122-126 | the new length is a power of two, enough for all handles, and less than twice their number unless it is 4 |
| CacheStates.RefKeeps | SeanLee_TFG_ios_2202/Pods/leveldb-library/util/cache.cc:217-223 | a handle given out: lists, references and deletions stay consistent, usage and contents stay |
| CacheStates.ReleaseKeeps | SeanLee_TFG_ios_2202/Pods/leveldb-library/util/cache.cc:225-237 | a handle given back: the same, whether it was the last client of a cached handle or of one no longer cached |
| CacheStates.EraseKeeps | SeanLee_TFG_ios_2202/Pods/leveldb-library/util/cache.cc:307-316 | a handle taken out: usage goes down by its charge; it is deleted exactly if no client has it |
| CacheStates.AddKeeps | SeanLee_TFG_ios_2202/Pods/leveldb-library/util/cache.cc:266-303 | a new handle in place of the one with its key |
| CacheStates.TrimmedIs | SeanLee_TFG_ios_2202/Pods/leveldb-library/util/cache.cc:293-300 | eviction takes the oldest, no more than needed, deletes what it takes, and ends within capacity or with no handle that could be evicted |
| CacheStates.PrunedIs | SeanLee_TFG_ios_2202/Pods/leveldb-library/util/cache.cc:323-333 | exactly what no client has is deleted |
| LruCache.LRUCache.constructor | SeanLee_TFG_ios_2202/Pods/leveldb-library/util/cache.cc:197-203 | an empty cache |
| LruCache.LRUCache.Invariant | SeanLee_TFG_ios_2202/Pods/leveldb-library/util/cache.cc:20-38 | in every valid cache: cached handles are on exactly one of the two lists, by whether a client has them, the table is the key map of those handles, and every handle is accounted for |
| LruCache.LRUCache.Ref | SeanLee_TFG_ios_2202/Pods/leveldb-library/util/cache.cc:217-223 | one client more; a handle only the cache had moves to the list of those in use |
| LruCache.LRUCache.Unref | SeanLee_TFG_ios_2202/Pods/leveldb-library/util/cache.cc:225-237 | the last reference deletes the value; the last of a client makes a cached handle the newest on the lru list |
| LruCache.LRUCache.Lookup | SeanLee_TFG_ios_2202/Pods/leveldb-library/util/cache.cc:252-259 | the handle with the key, with one more client, or null if and only if there is none |
| LruCache.LRUCache.Release | SeanLee_TFG_ios_2202/Pods/leveldb-library/util/cache.cc:261-264 | one client less |
| LruCache.LRUCache.FinishErase | SeanLee_TFG_ios_2202/Pods/leveldb-library/util/cache.cc:307-316 | the handle leaves list and usage and loses the cache's reference; false exactly for null |
| LruCache.LRUCache.Erase | SeanLee_TFG_ios_2202/Pods/leveldb-library/util/cache.cc:318-321 | the handle with the key, if there is one, is no longer cached |
| LruCache.LRUCache.EvictOldest | SeanLee_TFG_ios_2202/Pods/leveldb-library/util/cache.cc:293-300 | one round of eviction takes the oldest handle no client has |
| LruCache.LRUCache.Insert | SeanLee_TFG_ios_2202/Pods/leveldb-library/util/cache.cc:266-303 | the new handle with its client, cached in place of the one with its key unless capacity is 0, then eviction: usage is within capacity or nothing is left that could be evicted |
| LruCache.LRUCache.Prune | SeanLee_TFG_ios_2202/Pods/leveldb-library/util/cache.cc:323-333 | the lru list is empty, its values deleted in order, all else as it was |
| CacheRuns.RunsKeep | SeanLee_TFG_ios_2202/Pods/leveldb-library/util/cache.cc:20-38 | after any run of calls the invariant holds: lists, references, and each handle deleted exactly if nothing refers to it |
| CacheRuns.DeletedStays | SeanLee_TFG_ios_2202/Pods/leveldb-library/util/cache.cc:225-237 | no value is deleted twice, and none comes back |
| CacheRuns.NothingLeaks | SeanLee_TFG_ios_2202/Pods/leveldb-library/util/cache.cc:323-333 | once clients have given everything back and the cache is pruned, every value ever inserted has been deleted |
| CacheRuns.IdleByRelease | SeanLee_TFG_ios_2202/Pods/leveldb-library/util/cache.cc:225-237 | at any point of a run the idle handles are listed in the order in which they were last released |
| CacheRuns.EvictsLeastRecentlyUsed | SeanLee_TFG_ios_2202/Pods/leveldb-library/util/cache.cc:293-300 | what an insertion evicts was last released before anything that stays idle in the cache |
| Crc32c.ExtendJoins | SeanLee_TFG_ios_2202/Pods/leveldb-library/util/crc32c.cc:276-377 | extending a checksum equals computing it over the joined bytes |
| Crc32c.AdvanceLinear | SeanLee_TFG_ios_2202/Pods/leveldb-library/util/crc32c.cc:276-377 | one byte step is linear over exclusive or |
| Crc32c.WordAdvances | SeanLee_TFG_ios_2202/Pods/leveldb-library/util/crc32c.cc:314-321 | four table steps take in a word as four single byte steps would |
| Crc32c.StrideAdvances | SeanLee_TFG_ios_2202/Pods/leveldb-library/util/crc32c.cc:294-301 | the four stride tables together advance a state by 16 bytes of zeros |
| Crc32c.StrideMovesOn | SeanLee_TFG_ios_2202/Pods/leveldb-library/util/crc32c.cc:294-321 | replacing the first of four states by its stride and the next word moves the combined state on by that word |
| Crc32c.Strided | SeanLee_TFG_ios_2202/Pods/leveldb-library/util/crc32c.cc:332-366 | the four interleaved states, combined, are the bytewise result up to where the loops end |
| Crc32c.Step4W | SeanLee_TFG_ios_2202/Pods/leveldb-library/util/crc32c.cc:313-321 | a word taken into the result |
| Crc32c.CombineStrides | SeanLee_TFG_ios_2202/Pods/leveldb-library/util/crc32c.cc:360-365 | the four states in turn make the combined one |
| Crc32c.Bytewise | SeanLee_TFG_ios_2202/Pods/leveldb-library/util/crc32c.cc:287-291 | byte by byte up to any end |
| Crc32c.Extend | SeanLee_TFG_ios_2202/Pods/leveldb-library/util/crc32c.cc:276-377 | for every buffer, length and alignment the result is the bytewise checksum |
| CrcDivision.ChecksumIsRemainder | SeanLee_TFG_ios_2202/Pods/leveldb-library/util/crc32c.cc:276-377 | the checksum is the one remainder of the message polynomial, times x^32 and with the complemented old checksum added in front, divided by x^32 + x^28 + ... + 1 (0x11EDC6F41) over GF(2), complemented; lowest bits first |
| CrcDivision.RemainderIsUnique | SeanLee_TFG_ios_2202/Pods/leveldb-library/util/crc32c.cc:276-377 | there is no other remainder |
| CrcDivision.FirstOfTable | SeanLee_TFG_ios_2202/Pods/leveldb-library/util/crc32c.cc:20-21 | entry 1 of the byte table is 0xf26b8303 |
| CrcDivision.ChecksumOfDigits | SeanLee_TFG_ios_2202/Pods/leveldb-library/util/crc32c.cc:276-377 | the checksum of the digits 1 to 9 is 0xE3069283 |
| PbWire.Varint32IsRead | SeanLee_TFG_ios_2202/Pods/nanopb/pb_decode.c:187-247 | a 32-bit varint is read back, whatever follows it |
| PbWire.NegativeIsRead | SeanLee_TFG_ios_2202/Pods/nanopb/pb_decode.c:187-247 | a negative number that was sent in ten bytes is read as 32 bits |
| PbWire.ZigZagBack | SeanLee_TFG_ios_2202/Pods/nanopb/pb_decode.c:1279-1291 | zigzag is undone for every 64-bit value |
| PbWire.NumberIsRead | SeanLee_TFG_ios_2202/Pods/nanopb/pb_decode.c:1328-1439 | the decoder of every packable type undoes its encoder on every value the field's size can hold |
| PbIterators.FieldIter.Next | SeanLee_TFG_ios_2202/Pods/nanopb/pb_common.c:20-76 | the next field; false exactly when it has come round to the first |
| PbIterators.FieldIter.constructor | SeanLee_TFG_ios_2202/Pods/nanopb/pb_common.c:8-18 | at the first field |
| PbIterators.FieldIter.Find | SeanLee_TFG_ios_2202/Pods/nanopb/pb_common.c:78-95 | from anywhere, the field with that tag; false if and only if there is none |
| PbEncoding.OStream.Write | SeanLee_TFG_ios_2202/Pods/nanopb/pb_encode.c:103-124 | a counting stream counts; a buffer takes the bytes exactly if they fit |
| PbEncoding.OStream.PutVarint | SeanLee_TFG_ios_2202/Pods/nanopb/pb_encode.c:608-628 | the bytes are those of the varint |
| PbEncoding.OStream.PutString | SeanLee_TFG_ios_2202/Pods/nanopb/pb_encode.c:709-715 | a length and the bytes |
| PbEncoding.OStream.PutNumber | SeanLee_TFG_ios_2202/Pods/nanopb/pb_encode.c:769-850 | the bytes of a scalar of each packable type |
| PbEncoding.StringLength | SeanLee_TFG_ios_2202/Pods/nanopb/pb_encode.c:875-899 | the loop finds the terminator, or the end of the array |
| PbEncoding.MeasureArray | SeanLee_TFG_ios_2202/Pods/nanopb/pb_encode.c:147-236 | the size measured for a packed array is that of its numbers |
| PbFormat.PackedSizeIs | SeanLee_TFG_ios_2202/Pods/nanopb/pb_encode.c:147-236 | and that is the number of bytes written for them, for fixed widths and varints |
| PbEncoding.EncodeArray | SeanLee_TFG_ios_2202/Pods/nanopb/pb_encode.c:147-236 | packed or one element at a time, the bytes of the array; fails if there are more elements than room or one cannot be encoded |
| PbEncoding.EncodeField | SeanLee_TFG_ios_2202/Pods/nanopb/pb_encode.c:341-426 | required, optional, implicit, oneof or repeated: the bytes of the field if it is to be sent and nothing otherwise |
| PbKeys.FieldIsDelimited | SeanLee_TFG_ios_2202/Pods/nanopb/pb_encode.c:669-707 | whatever is written for a field delimits itself: items that begin with a varint key, key / 8 being the tag, and key % 8 saying what follows: 0 one varint, 1 eight bytes, 2 a length and that many bytes, 5 four bytes, and nothing else |
| PbKeys.KnownKeys | SeanLee_TFG_ios_2202/Pods/nanopb/pb_encode.c:675-707 | the keys of field 1 for every type |
| PbKeys.KnownNumbers | SeanLee_TFG_ios_2202/Pods/nanopb/pb_encode.c:630-668 | known numbers in each of their encodings |
| PbKeys.NegativeNumbers | SeanLee_TFG_ios_2202/Pods/nanopb/pb_encode.c:776-797 | a negative number takes ten bytes |
| PbEncoding.EncodeValue | SeanLee_TFG_ios_2202/Pods/nanopb/pb_encode.c:769-912 | the bytes of the value; fails exactly if it cannot be encoded or does not fit |
| PbEncoding.EncodeSubmessage | SeanLee_TFG_ios_2202/Pods/nanopb/pb_encode.c:717-765 | sizing, then writing: a length and the bytes of the message, at every depth; the size-changed error is never set |
| PbEncoding.Encode | SeanLee_TFG_ios_2202/Pods/nanopb/pb_encode.c:528-550 | the bytes of the message exactly if it can be encoded and they fit |
| PbEncoding.GetEncodedSize | SeanLee_TFG_ios_2202/Pods/nanopb/pb_encode.c:567-576 | succeeds exactly if the message can be encoded; the size is that of its bytes |
| PbEncoding.EncodeToBuffer | SeanLee_TFG_ios_2202/Pods/nanopb/pb_encode.c:528-576 | so a buffer suffices if and only if it is at least that large, and then holds exactly those bytes |
| PbInput.IStream.Read | SeanLee_TFG_ios_2202/Pods/nanopb/pb_decode.c:102-137 | the bytes asked for, or failure with nothing consumed |
| PbInput.IStream.DecodeVarint32 | SeanLee_TFG_ios_2202/Pods/nanopb/pb_decode.c:187-247 | value and rest, or failure, as the format says for any bytes; end of input exactly when there was none |
| PbInput.IStream.DecodeVarint | SeanLee_TFG_ios_2202/Pods/nanopb/pb_decode.c:255-275 | the same for 64 bits |
| PbInput.IStream.DecodeTag | SeanLee_TFG_ios_2202/Pods/nanopb/pb_decode.c:298-319 | tag and wire type; end of input, or a zero tag, as the end of the message |
| PbInput.IStream.PassField | SeanLee_TFG_ios_2202/Pods/nanopb/pb_decode.c:321-331 | passes over exactly the field's bytes, or fails |
| PbKeys.UnknownIsSkipped | SeanLee_TFG_ios_2202/Pods/nanopb/pb_decode.c:321-331 | an unknown field, whatever it is, changes nothing, and decoding goes on right behind it |
| PbKeys.OtherWireTypesAreRefused | SeanLee_TFG_ios_2202/Pods/nanopb/pb_decode.c:321-331 | an unknown field with wire type 3, 4, 6 or 7 is refused |
| PbCutOff.CutUnknown | SeanLee_TFG_ios_2202/Pods/nanopb/pb_decode.c:278-331 | so is one that is cut off anywhere |
| PbInput.IStream.MakeSubstream | SeanLee_TFG_ios_2202/Pods/nanopb/pb_decode.c:372-385 | a substream of exactly the announced bytes, the stream standing behind them; fails if there are not so many |
| PbInput.Clamp | SeanLee_TFG_ios_2202/Pods/nanopb/pb_decode.c:1339-1422 | the cast to the size of the field, refused exactly if the value does not fit |
| PbInput.IStream.DecodeNumber | SeanLee_TFG_ios_2202/Pods/nanopb/pb_decode.c:1328-1439 | a scalar of each packable type, or failure, as the format says for any bytes |
| PbDecoder.MarkSeen | SeanLee_TFG_ios_2202/Pods/nanopb/pb_decode.c:1015-1020 | the bit words hold the required fields seen and this one |
| PbDecoder.CountRequired | SeanLee_TFG_ios_2202/Pods/nanopb/pb_decode.c:1039-1049 | going on to the last field counts all required ones, the last included |
| PbDecoder.CheckRequired | SeanLee_TFG_ios_2202/Pods/nanopb/pb_decode.c:1054-1072 | passes if and only if every required field, up to the limit of the bitmap, was seen |
| PbDecoder.DecodeValue | SeanLee_TFG_ios_2202/Pods/nanopb/pb_decode.c:1328-1564 | the decoder of the type, scalars, bytes, strings and submessages, as the reading function says |
| PbDecoder.DecodePacked | SeanLee_TFG_ios_2202/Pods/nanopb/pb_decode.c:424-453 | the elements of a packed array, or failure on overflow or a bad element |
| PbDecoder.DecodeField | SeanLee_TFG_ios_2202/Pods/nanopb/pb_decode.c:406-483 | decode_static_field changes the struct as the reading function says, for every kind of field |
| PbDecoder.DecodeNoinit | SeanLee_TFG_ios_2202/Pods/nanopb/pb_decode.c:928-1076 | so does the whole loop over tags, unknown ones skipped, required ones checked; fails exactly if the reading function does |
| PbDecoder.Decode | SeanLee_TFG_ios_2202/Pods/nanopb/pb_decode.c:1078-1090 | from defaults, exactly the message the reading function finds in the bytes |
| PbDecoder.DecodeDelimited | SeanLee_TFG_ios_2202/Pods/nanopb/pb_decode.c:1107-1120 | the message in the announced bytes; the stream goes on right behind it |
| PbRoundTrip.ValueIsRead | SeanLee_TFG_ios_2202/Pods/nanopb/pb_decode.c:1328-1564 | a value of any type, submessages of any depth included, is read back, whatever follows it |
| PbRoundTrip.PackedFieldIsRead | SeanLee_TFG_ios_2202/Pods/nanopb/pb_decode.c:406-483 | a packed array is read back |
| PbRoundTrip.ElementsAreRead | SeanLee_TFG_ios_2202/Pods/nanopb/pb_decode.c:406-483 | an array sent one element at a time is read back, from any place on |
| PbRoundTrip.FieldIsRead | SeanLee_TFG_ios_2202/Pods/nanopb/pb_decode.c:928-1076 | what is written for any one field is read back into that field and no other, and marks it as seen |
| PbRoundTrip.MessageIsRead | SeanLee_TFG_ios_2202/Pods/nanopb/pb_decode.c:1078-1090 | decoding the bytes of any message the encoder accepts succeeds and gives exactly what is to arrive, oneofs and has-flags included |
| PbKeys.FewerFieldsAreRead | SeanLee_TFG_ios_2202/Pods/nanopb/pb_decode.c:928-1090 | decoding with a descriptor that has any selection of the fields gives exactly what arrives of the message in those fields |
| PbKeys.UnpackedIsRead | SeanLee_TFG_ios_2202/Pods/nanopb/pb_decode.c:424-483 | an array of numbers sent one element at a time is appended to what there is |
| PbCutOff.CutMessage | SeanLee_TFG_ios_2202/Pods/nanopb/pb_decode.c:928-1090 | a message that ends inside a singular field is refused |
| PbBounds.DecodedInBounds | SeanLee_TFG_ios_2202/Pods/nanopb/pb_decode.c:1328-1564 | for any input at all: a struct that is accepted is within its bounds at any depth, numbers within their variables, bytes, strings and arrays within their room, and oneofs naming one of their members |
| PbBounds.AllInBoundsIsOk | SeanLee_TFG_ios_2202/Pods/nanopb/pb_encode.c:147-236 | and can be encoded |
| PbRequired.AcceptedExactly | SeanLee_TFG_ios_2202/Pods/nanopb/pb_decode.c:1033-1072 | an input is accepted exactly if it can be read to its end and each of the first 64 required fields was met |
| PbRequired.RequiredFieldsWereThere | SeanLee_TFG_ios_2202/Pods/nanopb/pb_decode.c:1033-1072 | for any input: if it is accepted, it has a key for each of those |
| PbAgreement.MessageArrives | SeanLee_TFG_ios_2202/Pods/nanopb/pb_encode.c:341-426 | what arrives means the same as what was sent if and only if no zero was left out where the default is not zero |
| PbAgreement.RoundTripsExactly | SeanLee_TFG_ios_2202/Pods/nanopb/pb_decode.c:1078-1090 | so a message round trips, up to the contents of unset fields, under exactly that condition |
| PbAgreement.ZeroComesBackAsDefault | SeanLee_TFG_ios_2202/Pods/nanopb/pb_encode.c:240-339 | a 32-bit field with implicit presence and default 5: a message that holds 0 can be sent, is encoded to no bytes, and comes back holding 5 |
| PbAgreement.AllRoundTrip | SeanLee_TFG_ios_2202/Pods/nanopb/pb_decode.c:1078-1090 | and with zero defaults every message does |
| PbAgreement.ZeroIsEmpty | SeanLee_TFG_ios_2202/Pods/nanopb/pb_encode.c:240-339 | a submessage is all zero exactly if nothing would be written for it |
| PbAgreement.LeftOutExactly | SeanLee_TFG_ios_2202/Pods/nanopb/pb_encode.c:240-339 | a field with implicit presence is left out exactly if its number is 0, its bytes or string are empty, or nothing would be written for its submessage |

## Left out

Weaker than a reader may expect:

- LsmRuns.ReadsFollowHistoryInRuns: assumes `FlushesApart` and `InstallsLoseNothing`, because without them it is false (see Findings); the second is also necessary.
- DurableReads.ReadsSurviveCrashes: assumes `AllApart` and `AllLoseNothing` for the same reason; `DurableReads.CrashChangesNoRead` does without the second.
- LogReader.Reader.ReadRecord: reads from the start of a file, as all callers in the store do; skipping to an initial offset and resyncing there is not modelled.
- LogReader.Reader.ReadPhysicalRecord: the same.
- Database.DBImpl.CompactMemTable: assumes that the running compaction does not reach across the file (`FlushIsApart`), because the code does not check it.
- Tables.Table.Open: for finished files whose blocks and filters are shorter than 4 GiB (`Narrow`), the width of their offsets in the code; files that are not tables are not opened.
- Tables.Table.InternalGet: in the code the callback also sees a pair of another user key and ignores it; the contract speaks of pairs of the key asked for.
- BlockIter.Iter.constructor: for blocks made by a builder; the corruption checks of the parser are in the model but are not reached.
- EditCoding.EditRoundTrip: file and log numbers below 2^64 and strings below 4 GiB, as their encodings have it.
- WriteBatches.BatchRoundTrip: keys and values below 4 GiB each.
- GroupCommit.EachBatchOnceInOrder: runs without write errors.
- PbRoundTrip.MessageIsRead: messages whose encoding is shorter than 4 GiB, the limit of length fields.
- PbAgreement.RoundTripsExactly: contents of unset fields are not compared; where the decoder leaves old memory in an unset array place or oneof, the model has what that place would be initialized to on first use.
- Crc32c.StrideAdvances: the five tables are functions here (what a byte becomes after 1 or 16 bytes), not the literal numbers in the source; that the result is the right checksum does not depend on them (`CrcDivision.ChecksumIsRemainder`).
- PbKeys.FewerFieldsAreRead: fields are left out at the top level; submessages of the fields that stay are read with the descriptor they were written with.
- PbCutOff.CutMessage: cut inside a singular field; a cut between fields gives a shorter message, and one inside an array is not covered.
- TableFormat.ReadExactly: of uncompressed blocks.
- SkipLists.InsertWhileSearching: reads and writes of links happen one after the other in some order; C++ memory orders are not modelled.

Not modelled:

- Disk errors, `bg_error_`, lost synced data, paranoid checks beyond block checksums.
- The block cache in `BlockReader`, the table cache, Snappy compression, mapped and cached file contents.
- Sharding of the LRU cache, its mutex, its destructor and total charge.
- Compaction scores, level sizes in floating point, seek statistics and read sampling: any file may be picked.
- When a table or a memtable counts as full is a parameter, as are file sizes and the limits computed from options.
- The snapshot list as linked nodes: it is a list of sequence numbers, oldest first.
- How a version edit of the state machine, whose files carry their entries, is written as one with file metadata: any such function will do in `DurableBytes`, as long as numbers fit 64 bits and keys 4 GiB.
- Table files inside the durability state machine: a table there is finished or not there; `TableBuilders` and `Tables` treat their bytes.
- Reusing a manifest or log at open, the error reporter's texts.
- Varint encoders as loops over a buffer in LevelDB: the encoding is a function; the decoding loops are methods.
- Hash functions: Bloom filters, the hash table and the checksum of blocks and logs work for any deterministic function.
- Comparators other than bytewise in table files; in the state machine user keys are real numbers, which stand for their places in the comparator's order (every countable order embeds in the reals).
- Arena, iterators' cleanup functions, reference counts of versions and memtables.
- nanopb callbacks, extensions, pointer fields, fixed-count arrays, null-terminated messages, `pb_release`.
- nanopb sizes of a bytes array header other than four bytes, and strings without a terminator inside a larger array.
- Application code, Objective-C and Swift parts, and the other libraries under `Pods`.
