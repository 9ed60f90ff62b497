# LevelDB and nanopb: a verified model

The app vendors two libraries whose correctness the rest of it takes for granted: LevelDB, the key-value store
under Firebase's offline cache, and nanopb, the Protocol Buffers codec under its analytics. This project models
them in Dafny and proves what they promise. The app's own Swift code is user interface and Firebase calls; it is
not modelled. `dafny verify dfyconfig.toml` checks everything.

## What is modelled

**The store as a whole** (`Keys`, `Entries`, `Version`, `Inputs`, `Picker`, `Gaps`, `Manifest`, `Compaction`, `Install`,
`Db`, `DbImpl`). A database is a memtable, perhaps an immutable one, a version (seven levels of files), live
snapshots, a last sequence, a file counter and perhaps a compaction under way. `Database` is its state machine. A step
is a write, a memtable switch, a flush, a trivial move, taking or releasing a snapshot, or the start, one output file,
the install or the giving up of a compaction; between start and install any other step may come, as in the code, which
releases the mutex and flushes inside the merge loop. `DbImpls.DBImpl` is the object with those fields, each of whose
methods is one step or a few. The specification is one line: a read at a live snapshot returns the newest logged
write at or below it; `Database.RunsReadLastWrite` says it in terms of the Puts and Deletes a run was asked for. What the code does to get there (choice of inputs, drop rules, base-level cursors, builder,
layered search) is modelled member by member and proved against its own specification.

**Two findings** (`Boundary`, `GapExample`). The code is followed as it is, and two kinds of runs break it.

1. `SetupOtherInputs` extends the inputs of a level with boundary files, but not those of the next level
   (`version_set.cc:1407, 1410`). A comment in the compaction loop says that a dropped tombstone is obsolete because
   older data of its key are dropped with it (`db_impl.cc:952-958`). This is not so when the older data lie in a file
   of level+1 that starts, with the same user key, just after the last input of level+1.
   `BoundaryExample.DeletedKeyComesBack` is a run in which a deleted key becomes readable again.
2. A memtable flushed while a compaction runs (`db_impl.cc:907-918`) is placed by looking at the current version only
   (`db_impl.cc:522`). A manual compaction may take files with a gap between them (`version_set.cc:1464-1495`); the
   flushed file can land in the gap at level+1, and the output file then spans it. `GapExample.WriteIsLost` is a run
   after which Get no longer finds an acknowledged write. A build with assertions stops instead
   (`version_set.cc:747-749`).

`Database.RunsAreValidIff` says exactly when a run is correct: each compaction that it installs must expose no older
value and its outputs must meet no file that stays. `Installs.ExposureNeedsBoundary` and `Database.GaplessFits` say that
the two findings are the only ways to fail, and `Database.CarefulIsHarmless` what a caller can check when a compaction
starts. `Gaps.AutomaticIsGapless` proves that automatic compactions never have a gap.

**Reopening and iterating** (`History`, `Recovery`, `Iteration`). The invariant of the state machine covers what a crash
leaves behind. The manifest of any run gives back the files of the running database, the logs the writes that had not
reached a file, up to a cut at any byte; the reopened database stands for a first part of the history of writes, and each key
reads as the last Put or Delete on it in that part says. An iterator over the merged layers shows exactly what the history gives at its sequence.

**Iterators** (`Merger`, `DbIter`). Both are cursors with direction switches. The merging iterator is proved to be an
index into the sorted union of its children, the user-facing iterator an index into the view of a snapshot.

**Memory structures** (`SkipList`, `MemTable`, `Memory`, `Cache`). Linked skip-list nodes with up to twelve levels, the
memtable's encoded entries and lookup key, how batches go into it and reads through it to the files, and the LRU cache
with hash table, two lists and reference counts.

**Formats** (`Coding`, `Crc32c`, `Log`, `WriteBatch`, `EditCodec`, `Block`, `Bloom`, `Filter`, `Separators`, `Table`,
`Formats`). Writers and readers over bytes, each pair proved to undo each other, the log and the manifest also when the
file is cut at any byte; one changed byte in a log fragment or a table block is proved to be noticed; the searches
agree with linear ones. `Formats` spells out small values byte by byte, so that the formats are fixed and not only
their round trips.

**Group commit** (`GroupCommit`). Writer threads as a state machine over arrival, leading, grouping and answering, any
interleaving allowed while the leader has released the mutex. No acknowledged write is lost, torn or overtaken.

**nanopb** (`Proto`, `ProtoRecords`, `ProtoVersions`, `ProtoEncode`, `ProtoDecode`, `ProtoRoundTrip`). Descriptors and
messages as values, encoder and decoder over streams. `Normal` is the message a receiver gets: what is not sent comes
back as its default. The sender may know more fields than the receiver, at any depth; `Common` is what they share. The wire format is that of the Protocol Buffers Encoding specification, sections "Base 128 Varints",
"Signed Integers" and "Length-Delimited Records".

Where the code compares keys only by order, user keys are real numbers (`Keys.RankEmbedsBytes` shows that nothing is
lost); where it looks at their bytes (separators, blocks, tables), they are bytes.

## Model

| member | source | states |
|---|---|---|
| Database.RunsAreValidIff | Message/Pods/leveldb-library/db/db_impl.cc:535-1048 | A run is any sequence of writes, memtable switches, flushes, trivial moves, snapshots taken and released, and compactions whose start, output files and install (or abandoning) are steps of their own with all other steps in between. The invariant holds in every state of a run if and only if each compaction it installs was harmless: it shows no reader an older value, and its outputs meet no file that stays at their level |
| Database.RunsAreFaithful | Message/Pods/leveldb-library/db/db_impl.cc:1100-1145 | In every state of every such run, what memtables and files together say about a key at any live snapshot, or at the last sequence, is the newest logged write at or below it, and nothing if that is a deletion or absent |
| Database.RunsReadLastWrite | Message/Pods/leveldb-library/db/db_impl.cc:1100-1145 | The same in the users' terms: of the operations asked for, the last one on the key among those the reader counts decides; a Put shows its value, a Delete or no operation nothing |
| Database.LogShows | Message/Pods/leveldb-library/db/db_impl.cc:1100-1145 | The answer read off the log is decided by the last logged entry of the key among the first s: its value, or nothing if that is a deletion or there is none |
| Database.CarefulIsHarmless | Message/Pods/leveldb-library/db/version_set.cc:1403-1462 | It is enough to look at how compactions start: if each takes inputs without a gap and leaves no boundary file at level+1, every install is harmless, whatever is written, flushed or released while it runs |
| Database.NextKeepsInv | Message/Pods/leveldb-library/db/db_impl.cc:688-767 | Every kind of step keeps the database invariant (runs sorted, memory holding exactly the latest writes, levels disjoint and layered newest first, file numbers unique, a running compaction finding its inputs, and every read from the oldest snapshot, or from what is on disk, on faithful to the log), the install of a compaction exactly when it is harmless |
| Database.InitialInv | Message/Pods/leveldb-library/db/db_impl.cc:182-212 | The empty database satisfies the invariant |
| Database.AddKeepsInv | Message/Pods/leveldb-library/db/write_batch.cc:116-137 | A write stamped with the next sequence keeps the invariant, and the log grows by exactly that write |
| Database.SwitchKeepsInv | Message/Pods/leveldb-library/db/db_impl.cc:1361-1364 | Turning the memtable into the immutable one and starting an empty one keeps the invariant |
| Database.FlushKeepsInv | Message/Pods/leveldb-library/db/db_impl.cc:535-566 | Writing the immutable memtable out as a file on a level its path is clear to keeps the invariant, also in the middle of a compaction |
| Database.FlushWork | Message/Pods/leveldb-library/db/db_impl.cc:907-918 | A flush inside a running compaction leaves its inputs in place with only newer data beside them, keeps its base-level answers true, adds no boundary file, and adds no file to its range if the inputs have no gap |
| Database.StartKeepsInv | Message/Pods/leveldb-library/db/db_impl.cc:878-897 | Fixing the inputs and smallest_snapshot and releasing the mutex keeps the invariant |
| Database.OutputKeepsInv | Message/Pods/leveldb-library/db/db_impl.cc:786-858 | So does finishing an output file under a fresh number |
| Database.MoveKeepsInv | Message/Pods/leveldb-library/db/db_impl.cc:718-728 | Moving a single input file one level down without rewriting it keeps the invariant |
| Database.InstallIsSafeIff | Message/Pods/leveldb-library/db/db_impl.cc:860-876 | After the install of a compaction the levels are in order if and only if its outputs meet no file that stays at their level, and the invariant holds if and only if moreover no dropped tombstone lets a reader, or the database after a crash, see an older value outside the inputs |
| Database.NoBoundaryExposesNothing | Message/Pods/leveldb-library/db/version_set.cc:1403-1422 | Nothing is exposed whenever the level+1 inputs have no boundary file: none starts after their largest key with the same user key |
| Database.GaplessFits | Message/Pods/leveldb-library/db/db_impl.cc:522-525 | The outputs meet no file that stays whenever the inputs cover their range without a gap |
| Database.SnapshotsKeepInv | Message/Pods/leveldb-library/db/snapshot.h:47-90 | Taking a snapshot at the last sequence, or releasing any one, keeps the invariant, and the oldest snapshot never goes back |
| Database.OutputsOfInput | Message/Pods/leveldb-library/db/db_impl.cc:811-858 | Cutting the kept entries into files anywhere gives sorted, pairwise disjoint files that hold exactly those entries |
| BoundaryExample.DeletedKeyComesBack | Message/Pods/leveldb-library/db/version_set.cc:1403-1422 | A concrete run of the machine, its last compaction the one the code chooses, after which a read of a deleted key returns its old value |
| BoundaryExample.PicksMerge | Message/Pods/leveldb-library/db/version_set.cc:1270-1322 | In the state before it, PickCompaction returns exactly that compaction, whatever the compaction pointer |
| GapExample.WriteIsLost | Message/Pods/leveldb-library/db/db_impl.cc:907-918 | A concrete run of the machine in which a flush during a manual compaction puts a write between the inputs at level+1; after the install two files of that level overlap, while the log still holds the write as the newest of its key |
| GapExample.ReadsNothing | Message/Pods/leveldb-library/db/version_set.cc:326-421 | The search of Version::Get, level by level, then finds nothing for the key of that write |
| GapExample.PicksGapped | Message/Pods/leveldb-library/db/version_set.cc:1464-1495 | CompactRange without bounds returns exactly the compaction of that run |
| GapExample.PicksLevels | Message/Pods/leveldb-library/db/version_set.cc:491-516 | PickLevelForMemTableOutput returns exactly the levels at which that run places its flushes |
| DbImpls.DBImpl.Write | Message/Pods/leveldb-library/db/db_impl.cc:1185-1256 | A batch is applied as consecutive sequences after the last one, each logged entry with the key of its operation, the type Value and the value for a Put, the type Deletion for a Delete; nothing else changes |
| DbImpls.DBImpl.SwitchMemTable | Message/Pods/leveldb-library/db/db_impl.cc:1346-1366 | Is the memtable-switch step of the machine |
| DbImpls.DBImpl.CompactMemTable | Message/Pods/leveldb-library/db/db_impl.cc:535-566 | Is the flush step at some level, an empty memtable giving no file |
| DbImpls.DBImpl.WriteLevel0Table | Message/Pods/leveldb-library/db/db_impl.cc:491-533 | Is the flush step at the picked level, or at level 0 when there is no base version |
| DbImpls.DBImpl.StartCompaction | Message/Pods/leveldb-library/db/db_impl.cc:878-897 | Is the start step of a compaction; other methods may run before its install |
| DbImpls.DBImpl.PlaceFlush | Message/Pods/leveldb-library/db/version_set.cc:491-516 | The level chosen for a flush is at most 2 and has a clear path: no file of the flushed key range at any level down to it, unless it is level 0 |
| DbImpls.DBImpl.MoveFile | Message/Pods/leveldb-library/db/db_impl.cc:718-728 | Is the trivial-move step, through a version edit that deletes and adds the same file number |
| DbImpls.DBImpl.BackgroundCompaction | Message/Pods/leveldb-library/db/db_impl.cc:688-767 | Flushes first if there is something to flush; otherwise runs exactly the compaction that follows from what is wanted, as a trivial move exactly when it is not manual, has one file, nothing of the next level, and meets at most the given number of bytes one level further down; afterwards the database is valid whenever level+1 had no boundary file |
| DbImpls.DBImpl.Pick | Message/Pods/leveldb-library/db/db_impl.cc:696-713 | For a manual range, a large level or a file read in vain: exactly the compaction that CompactRange, or PickCompaction from the compaction pointer or the file, makes of it; it may be run on the current version, an automatic one has no gap, and none is picked only if a manual range meets no file |
| DbImpls.MergeInputs | Message/Pods/leveldb-library/db/version_set.cc:1237-1268 | The input of the compaction loop is sorted and holds exactly the entries of the input files |
| DbImpls.DBImpl.WriteOutputs | Message/Pods/leveldb-library/db/db_impl.cc:906-999 | The files written by the compaction loop carry fresh numbers and hold, in order, exactly the entries that the drop rules keep, for the version and the smallest snapshot of the start |
| DbImpls.DBImpl.InstallCompactionResults | Message/Pods/leveldb-library/db/db_impl.cc:860-876 | The edit built from the input deletions and the outputs, applied by the version builder to the version now current, is the install step; the object is valid afterwards if and only if the compaction was harmless |
| DbImpls.DBImpl.Compact | Message/Pods/leveldb-library/db/db_impl.cc:878-1048 | With nothing in between, start, outputs and install leave the object valid if and only if nothing was exposed, and always when level+1 has no boundary file |
| DbImpls.DBImpl.GetSnapshot | Message/Pods/leveldb-library/db/db_impl.cc:1166-1169 | The snapshot is the last sequence and becomes the newest of the list |
| DbImpls.DBImpl.ReleaseSnapshot | Message/Pods/leveldb-library/db/db_impl.cc:1171-1174 | Exactly that snapshot leaves the list |
| DbImpls.DBImpl.Get | Message/Pods/leveldb-library/db/db_impl.cc:1100-1145 | Reading memtable, then immutable memtable, then the version returns what the last logged entry of the key up to the snapshot says: its value, or nothing if that is a deletion or there is none |
| DbImpls.LayersAnswer | Message/Pods/leveldb-library/db/db_impl.cc:1122-1136 | The first layer that knows the key has the answer of all layers together |
| DbImpls.EditIsLevelEdit | Message/Pods/leveldb-library/db/version_set.cc:1525-1531 | Deleting by file number and adding fresh numbers removes and adds exactly the files meant |
| DbImpls.BatchKeepsInv | Message/Pods/leveldb-library/db/write_batch.cc:116-137 | Applying a batch keeps the invariant, for a log extended by the stamped operations |
| Keys.RankEmbedsBytes | Message/Pods/leveldb-library/include/leveldb/slice.h:101-111 | Bytewise order is order of the real numbers that the byte strings denote in base 257, so user keys may be ordered as reals |
| Entries.RunGetAnswers | Message/Pods/leveldb-library/db/memtable.cc:100-135 | The first entry at or past the lookup key of a sorted run, if it has the user key, is the newest the reader sees; otherwise the run has none |
| MemTables.LookupKey | Message/Pods/leveldb-library/db/dbformat.cc:121-138 | The lookup key carries the internal key at which the versions a reader may see begin |
| MemTables.EncodedOrder | Message/Pods/leveldb-library/db/memtable.cc:28-34 | Encoded entries compare as the internal keys in front of them |
| MemTables.MemTable.Add | Message/Pods/leveldb-library/db/memtable.cc:75-98 | Exactly one write is added, under its key, sequence and type; the encoded entry goes where the run of entries has its place for it |
| MemTables.MemTable.Get | Message/Pods/leveldb-library/db/memtable.cc:100-135 | Missing exactly when no entry of the key is visible; Deleted only when a newest visible one is a deletion, Found only when it is a value with these bytes; both over the entries and over the writes themselves |
| MemTables.TellsIff | Message/Pods/leveldb-library/db/memtable.cc:122-131 | With one entry to a sequence number both hold exactly when |
| MemTables.EntryShows | Message/Pods/leveldb-library/db/memtable.cc:106-118 | User key, tag and value are read from an entry where they were written |
| Memories.InsertInto | Message/Pods/leveldb-library/db/write_batch.cc:116-137 | Every operation that the batch hands out becomes one write, a Delete a deletion and a Put a value, numbered from the sequence in the header, also when the batch breaks off; the memtable stays that of the state machine |
| Memories.Get | Message/Pods/leveldb-library/db/db_impl.cc:1117-1133 | Encoded memtable, encoded immutable memtable and version, read in turn until one knows the key, give what the last logged entry of the key up to the snapshot says |
| Memories.FirstAnswers | Message/Pods/leveldb-library/db/db_impl.cc:1122-1132 | The first of the three layers that has a visible entry of the key has the newest of all |
| Entries.ShallowerAnswers | Message/Pods/leveldb-library/db/version_set.cc:338-341 | A layer whose entries are all newer answers for itself and the layer below it |
| Versions.FindFile | Message/Pods/leveldb-library/db/version_set.cc:88-106 | Binary search gives the least index whose largest key is at or past the target, for every file on both sides of it |
| Versions.Candidates | Message/Pods/leveldb-library/db/version_set.cc:349-360 | The files whose user-key range holds the key, no more and no fewer |
| Versions.SortNewestFirst | Message/Pods/leveldb-library/db/version_set.cc:278-280 | The same files in falling order of file number |
| Versions.GetLevelZero | Message/Pods/leveldb-library/db/version_set.cc:349-364 | Trying the overlapping level-0 files newest first finds the newest visible entry of all of them |
| Versions.LevelAnswers | Message/Pods/leveldb-library/db/version_set.cc:366-381 | The one file binary search picks answers for its whole level |
| Versions.GetSortedLevel | Message/Pods/leveldb-library/db/version_set.cc:366-381 | The level read finds the newest visible entry of the level |
| Versions.FoundIsFinal | Message/Pods/leveldb-library/db/version_set.cc:338-341 | An answer found at a shallower level is the answer of the whole version |
| Versions.Get | Message/Pods/leveldb-library/db/version_set.cc:326-421 | The layered search finds the same entry as scanning every file for the newest sequence at or below the snapshot |
| Inputs.SomeFileOverlapsRange | Message/Pods/leveldb-library/db/version_set.cc:122-157 | Says whether any file meets the range, by one binary search on a sorted level just as by the scan at level 0 |
| Inputs.OverlapInLevel | Message/Pods/leveldb-library/db/version_set.cc:485-489 | Says whether a file of the level meets the range, either bound of which may be missing |
| Inputs.GetOverlappingInputs | Message/Pods/leveldb-library/db/version_set.cc:519-559 | Terminates and returns exactly the files meeting a final range; at level 0 that range contains each file it meets and is the smallest such range around the one asked for |
| Inputs.SelectedConcat | Message/Pods/leveldb-library/db/version_set.cc:530-536 | The files that meet a range keep the order they have in the level |
| Inputs.TotalSizeAdds | Message/Pods/leveldb-library/db/version_set.cc:60-66 | The total size of two lists of files is the sum of theirs, and that of one file its size |
| Inputs.PickLevelForMemTableOutput | Message/Pods/leveldb-library/db/version_set.cc:491-516 | No file down to the chosen level meets the range, no passed level was too crowded two levels further down, and the choice stopped short of level 2 only for one of these reasons |
| Inputs.FindLargestKey | Message/Pods/leveldb-library/db/version_set.cc:1326-1341 | The greatest of the largest keys |
| Inputs.FindSmallestBoundaryFile | Message/Pods/leveldb-library/db/version_set.cc:1344-1362 | A boundary file with the least smallest key, or none when the level has none |
| Inputs.BoundaryAdvances | Message/Pods/leveldb-library/db/version_set.cc:1378-1401 | Adding the next boundary file raises the largest key strictly and leaves no gap in the level |
| Inputs.AddBoundaryInputs | Message/Pods/leveldb-library/db/version_set.cc:1378-1401 | Terminates; the result extends the chosen files, each added file is the first boundary file of those before it, and no boundary file is left |
| Picker.GetRange | Message/Pods/leveldb-library/db/version_set.cc:1205-1226 | The smallest and largest key of the files |
| Picker.SetupOtherInputs | Message/Pods/leveldb-library/db/version_set.cc:1403-1462 | The inputs are the chosen files with their boundary files, and exactly the level+1 files that meet their range; or their growth, under the rules of the code. They leave only newer data behind at level |
| Picker.GrowInputs | Message/Pods/leveldb-library/db/version_set.cc:1419-1447 | The grown inputs are the closure of all files that meet the range of both inputs; they replace the inputs exactly when they are more, stay within the size limit and meet no further level+1 file, which then is the same list of files |
| Picker.SelectedGrows | Message/Pods/leveldb-library/db/version_set.cc:1432-1434 | A wider range that meets equally many level+1 files meets the same ones |
| Picker.NewerStays | Message/Pods/leveldb-library/db/version_set.cc:1364-1401 | Once no boundary file is left, files left out of the inputs hold only newer versions of the keys they share |
| Picker.PickCompaction | Message/Pods/leveldb-library/db/version_set.cc:1270-1322 | The compaction that follows from the first file past the compaction pointer, wrapping around |
| Picker.CompactFile | Message/Pods/leveldb-library/db/version_set.cc:1305-1319 | At level 0 the setup of all files that the picked one drags in, elsewhere of the file alone |
| Picker.CompactRange | Message/Pods/leveldb-library/db/version_set.cc:1464-1495 | Nothing is returned only if no file meets the range; otherwise the setup of all files meeting it at level 0, and elsewhere of the first of them up to the one with which the size limit is reached |
| Gaps.OverlapFollows | Message/Pods/leveldb-library/db/version_set.cc:519-559 | The least closed range that GetOverlappingInputs grows to does not reach past a key that lies in none of the files it meets |
| Gaps.WiderIsGapless | Message/Pods/leveldb-library/db/version_set.cc:1419-1447 | Growing inputs that cover their range without a gap opens none |
| Gaps.AutomaticIsGapless | Message/Pods/leveldb-library/db/version_set.cc:1270-1322 | The inputs of every compaction that starts from one picked file cover their range without a gap: a key that lies in none of them lies before all or after all |
| Manifest.Builder.Apply | Message/Pods/leveldb-library/db/version_set.cc:650-692 | Each level remembers the deleted numbers and the added files of the edit, an addition undoing an earlier deletion of its number |
| Manifest.Builder.SaveTo | Message/Pods/leveldb-library/db/version_set.cc:695-739 | Every level of the new version is the merge of base and added files without the deleted ones |
| Manifest.SaveLevel | Message/Pods/leveldb-library/db/version_set.cc:698-725 | The loop over upper bounds is that merge |
| Manifest.InsertSpec | Message/Pods/leveldb-library/db/version_set.cc:593-610 | Inserting into the ordered file set keeps the order and adds exactly that file |
| Manifest.MergeSpec | Message/Pods/leveldb-library/db/version_set.cc:698-725 | Merging two ordered lists gives the ordered list of both |
| Manifest.SaveSpec | Message/Pods/leveldb-library/db/version_set.cc:695-739 | The saved level is ordered and holds a file if and only if it is in the base or added, and not deleted |
| Manifest.LogAndApply | Message/Pods/leveldb-library/db/version_set.cc:801-822 | The new version is the current one with one edit applied |
| Manifest.SameFiles | Message/Pods/leveldb-library/db/version_set.cc:924-1000 | Applying a sequence of edits through one builder gives the files of applying them one version at a time, when no number is added twice to a level |
| Manifest.SnapshotThenEdits | Message/Pods/leveldb-library/db/version_set.cc:1088-1116 | Starting from the snapshot record is starting from the version it was written for |
| Manifest.Recover | Message/Pods/leveldb-library/db/version_set.cc:924-1000 | Recovery gives the files of all records applied through one builder to the empty version |
| Manifest.RecoverReplaysManifest | Message/Pods/leveldb-library/db/version_set.cc:924-1000 | Recovering from a snapshot record and the edits after it gives exactly the files the running database had |
| Manifest.ReusedNumberComesBack | Message/Pods/leveldb-library/db/version_set.cc:688-689 | The premise is needed: when a deleted number is used again, recovery brings the deleted file back |
| History.StepHistory | Message/Pods/leveldb-library/db/db_impl.cc:718-728 | No step of the database adds a file number to a level it was added to before: a number handed out is new to every level, and a file that moves down has never been deeper |
| History.ManifestGivesFiles | Message/Pods/leveldb-library/db/version_set.cc:924-1000 | So in every run, reading the first record of the manifest and all edits after it through one builder gives exactly the files of the running database |
| Compactions.BaseLevelCursor.IsBaseLevelForKey | Message/Pods/leveldb-library/db/version_set.cc:1533-1552 | For keys asked in nondecreasing order, the forward-only cursors answer what a scan of all files two or more levels down answers |
| Compactions.ProcessEntry | Message/Pods/leveldb-library/db/db_impl.cc:946-996 | One turn of the loop writes the entry unless it is hidden by the previous one for every reader, or a tombstone every reader sees whose key no deeper level can hold |
| Compactions.DoCompactionWork | Message/Pods/leveldb-library/db/db_impl.cc:906-999 | The output files, wherever the size rules cut them, hold exactly the entries the drop rules keep, in order |
| Compactions.KeptMembers | Message/Pods/leveldb-library/db/db_impl.cc:946-960 | Membership of the kept entries, entry by entry |
| Compactions.KeptSorted | Message/Pods/leveldb-library/db/db_impl.cc:982-986 | The kept entries stay in key order |
| Compactions.PointPreserved | Message/Pods/leveldb-library/db/db_impl.cc:946-960 | A lookup at or past such a reader gives the same value before and after, if nothing is exposed |
| Compactions.ExposedIsLost | Message/Pods/leveldb-library/db/db_impl.cc:949-960 | An exposed older value is read after the compaction although the key was deleted before it |
| Compactions.CompactionPreservesMeaning | Message/Pods/leveldb-library/db/db_impl.cc:906-999 | Every lookup at every sequence from a reader no older than smallest_snapshot on is unchanged if and only if no dropped tombstone that this reader sees exposes an older value outside the inputs |
| Installs.InstallIsOkIff | Message/Pods/leveldb-library/db/db_impl.cc:860-876 | After an install into the version then current, levels past 0 are sorted and disjoint and every level is newer than the ones below it for each key, if and only if the outputs meet no file that stays at level+1 |
| Installs.CompactionKeepsInvariant | Message/Pods/leveldb-library/db/db_impl.cc:718-728 | So installing a compaction or a trivial move that takes every level+1 file of its range keeps the version invariant |
| Installs.FlushKeepsInvariant | Message/Pods/leveldb-library/db/version_set.cc:491-516 | So does placing a flushed file where its path is clear |
| Installs.InstalledLevelSorted | Message/Pods/leveldb-library/db/version_set.cc:741-753 | The files of level+1 are disjoint after the install if and only if the outputs fit between the files that stay |
| Installs.FlushKeepsHeld | Message/Pods/leveldb-library/db/db_impl.cc:907-918 | After a flush a running compaction still finds its inputs, and beside them only newer data for the keys it works on |
| Installs.FlushFitsGapless | Message/Pods/leveldb-library/db/version_set.cc:491-516 | A file flushed to level+1 of a running compaction lies outside its range if its inputs have no gap |
| Installs.FlushKeepsBase | Message/Pods/leveldb-library/db/version_set.cc:1533-1552 | A flush puts no key of the inputs below level+1, so that the answers of IsBaseLevelForKey for the version of the start stay true |
| Installs.FlushAddsNoBoundary | Message/Pods/leveldb-library/db/version_set.cc:1344-1362 | A flushed file is no boundary file of the inputs |
| Installs.InstalledBelow | Message/Pods/leveldb-library/db/version_set.cc:1403-1462 | After the install, what is left at level is still newer than level+1 |
| Installs.FlushedLevelsAbove | Message/Pods/leveldb-library/db/version_set.cc:491-516 | A flushed file skips no older entry of its keys |
| Installs.CompactionEntries | Message/Pods/leveldb-library/db/db_impl.cc:860-876 | An install exchanges exactly the input entries for the output entries |
| Installs.FlushEntries | Message/Pods/leveldb-library/db/db_impl.cc:535-566 | A flush adds exactly the entries of its file |
| Installs.ExposureNeedsBoundary | Message/Pods/leveldb-library/db/version_set.cc:1403-1422 | A tombstone can expose an older value only if a level+1 file left out starts after the largest level+1 input with the same user key |
| Merging.MergingIterator.SeekToFirst | Message/Pods/leveldb-library/table/merger.cc:31-37 | The iterator stands at the first entry of the sorted union |
| Merging.MergingIterator.SeekToLast | Message/Pods/leveldb-library/table/merger.cc:39-45 | It stands at the last entry |
| Merging.MergingIterator.Seek | Message/Pods/leveldb-library/table/merger.cc:47-53 | It stands at the first entry at or past the target |
| Merging.MergingIterator.Next | Message/Pods/leveldb-library/table/merger.cc:55-79 | It moves one entry forward in the union, whatever the direction was before |
| Merging.MergingIterator.Prev | Message/Pods/leveldb-library/table/merger.cc:81-108 | It moves one entry back in the union, whatever the direction was before |
| Merging.MergingIterator.TurnForward | Message/Pods/leveldb-library/table/merger.cc:63-75 | The switch to forward puts every other child just past the current key and does not move the iterator |
| Merging.MergingIterator.TurnReverse | Message/Pods/leveldb-library/table/merger.cc:88-104 | The switch to reverse puts every other child just before it |
| Merging.MergingIterator.SmallestIsNext | Message/Pods/leveldb-library/table/merger.cc:148-161 | The child with the least key shows the next entry of the union, and no child is valid only past its end |
| Merging.MergingIterator.LargestIsPrevious | Message/Pods/leveldb-library/table/merger.cc:163-176 | The mirror image for the greatest key |
| Merging.MergingIterator.OthersAreBeyond | Message/Pods/leveldb-library/table/merger.cc:57-62 | Every other valid child is strictly on the side of the current key that the direction says |
| Merging.MergingIterator.Current | Message/Pods/leveldb-library/table/merger.cc:110-118 | Key and value shown are those of the entry at the position in the union |
| DbIterators.VisibleIsSnapshotView | Message/Pods/leveldb-library/db/db_iter.cc:141-299 | The entries an iterator may show are, in key order, one for each key whose newest entry at or below the sequence is a value, with that value |
| DbIterators.DBIter.Next | Message/Pods/leveldb-library/db/db_iter.cc:141-166 | Moves to the next visible entry, also after moving backwards |
| DbIterators.DBIter.FindNextUserEntry | Message/Pods/leveldb-library/db/db_iter.cc:168-198 | The forward scan ends at the first visible entry, past deleted and hidden ones |
| DbIterators.DBIter.Prev | Message/Pods/leveldb-library/db/db_iter.cc:200-225 | Moves to the previous visible entry, also after moving forwards |
| DbIterators.DBIter.FindPrevUserEntry | Message/Pods/leveldb-library/db/db_iter.cc:227-267 | The backward scan, which must see all versions of a key before it knows the newest, ends at the last visible entry |
| DbIterators.DBIter.Seek | Message/Pods/leveldb-library/db/db_iter.cc:269-281 | Stands at the first visible entry at or past the lookup position |
| DbIterators.SeekIsLeast | Message/Pods/leveldb-library/db/db_iter.cc:269-281 | That entry has the least visible user key at or past the target |
| Iteration.LayersMerge | Message/Pods/leveldb-library/db/db_impl.cc:1062-1087 | Memtables, level-0 files and deeper levels are sorted runs without a common key, so that the merging iterator over them stands for the sorted list of everything the database holds |
| Iteration.IteratorShowsLog | Message/Pods/leveldb-library/db/db_impl.cc:1062-1087 | In every valid state, iterating over the merged layers at a live snapshot or the last sequence shows, in key order, exactly the keys to which the log gives a value there, each with that value |
| DbIterators.DBIter.SeekToFirst | Message/Pods/leveldb-library/db/db_iter.cc:283-292 | Stands at the first visible entry |
| DbIterators.DBIter.SeekToLast | Message/Pods/leveldb-library/db/db_iter.cc:294-299 | Stands at the last visible entry |
| DbIterators.DBIter.Key | Message/Pods/leveldb-library/db/db_iter.cc:64-67 | The user key shown in either direction is that of the visible entry |
| DbIterators.DBIter.Value | Message/Pods/leveldb-library/db/db_iter.cc:68-71 | So is the value |
| SkipLists.SkipList.FindGreaterOrEqual | Message/Pods/leveldb-library/db/skiplist.h:260-281 | Returns the first node not before the key, and for each level the last node before it |
| SkipLists.SkipList.FindLessThan | Message/Pods/leveldb-library/db/skiplist.h:283-302 | Returns the last node before the key |
| SkipLists.SkipList.FindLast | Message/Pods/leveldb-library/db/skiplist.h:304-322 | Returns the last node |
| SkipLists.SkipList.Contains | Message/Pods/leveldb-library/db/skiplist.h:370-378 | Says whether the key is in the list |
| SkipLists.SkipList.LinkLevel | Message/Pods/leveldb-library/db/skiplist.h:362-367 | One pointer publication inserts the node into that level and into no other |
| SkipLists.SkipList.LinkAll | Message/Pods/leveldb-library/db/skiplist.h:361-367 | After all publications every level is the list of the nodes that tall, the new one included |
| SkipLists.SkipList.Insert | Message/Pods/leveldb-library/db/skiplist.h:336-368 | For any height from 1 to 12 exactly the new key is added, at its sorted place, and every level stays a sublist of the one below |
| SkipLists.PublishedLevel | Message/Pods/leveldb-library/db/skiplist.h:365-366 | Setting the two links of a level makes it the level with the new node |
| SkipLists.TallLevel | Message/Pods/leveldb-library/db/skiplist.h:361-367 | Levels above the new node are not affected |
| Coding.PutVarint32 | Message/Pods/leveldb-library/util/coding.cc:47-79 | The five unrolled cases append the varint of the value |
| Coding.PutVarint64 | Message/Pods/leveldb-library/util/coding.cc:81-96 | The loop appends the varint of the value |
| Coding.VarintLength | Message/Pods/leveldb-library/util/coding.cc:103-110 | The number of bytes of the varint |
| Coding.GetVarintPtr | Message/Pods/leveldb-library/util/coding.cc:112-157 | The accumulating loop reads what the recursive reading of at most n groups gives, truncated to the word |
| Coding.Varint32RoundTrip | Message/Pods/leveldb-library/util/coding.cc:112-140 | Reading a written 32-bit value gives it back with the rest of the input, in at most 5 bytes |
| Coding.Varint64RoundTrip | Message/Pods/leveldb-library/util/coding.cc:142-169 | The same for 64 bits and 10 bytes |
| Coding.Fixed32RoundTrip | Message/Pods/leveldb-library/util/coding.cc:9-18 | Fixed 32-bit values read back |
| Coding.Fixed64RoundTrip | Message/Pods/leveldb-library/util/coding.cc:20-33 | Fixed 64-bit values read back |
| Coding.PrefixedRoundTrip | Message/Pods/leveldb-library/util/coding.cc:181-190 | A length-prefixed slice reads back with the rest of the input |
| Coding.GettersShrink | Message/Pods/leveldb-library/util/coding.cc:130-190 | A successful read consumes input, so loops that parse a slice terminate |
| Crc32c.ExtendConcat | Message/Pods/leveldb-library/util/crc32c.h:14-20 | The checksum of a concatenation is that of the second part extending that of the first |
| Crc32c.ChangedByteChangesSum | Message/Pods/leveldb-library/util/crc32c.cc:276-345 | Changing any one byte of a string changes its checksum |
| Crc32c.UnmaskMask | Message/Pods/leveldb-library/util/crc32c.h:29-38 | Unmask undoes Mask for every 32-bit value |
| Logs.Writer.AddRecord | Message/Pods/leveldb-library/db/log_writer.cc:34-80 | Appends the fragments of the record, with trailers, as the format lays them out from the current offset in the block |
| Logs.Writer.EmitPhysicalRecord | Message/Pods/leveldb-library/db/log_writer.cc:82-108 | Appends header and payload, and moves the block offset by their length |
| Logs.Reader.ReadPhysicalRecord | Message/Pods/leveldb-library/db/log_reader.cc:189-271 | From any position, the buffered reader returns the fragment, end of file or bad record that the file bytes determine, with the same reports |
| Logs.Reader.ReadRecord | Message/Pods/leveldb-library/db/log_reader.cc:56-174 | The state machine returns the record, position and reports that the file bytes determine |
| Logs.FragmentParses | Message/Pods/leveldb-library/db/log_reader.cc:189-271 | On a written log cut anywhere, the next fragment reads back if it lies inside the cut, and is end of file otherwise |
| Logs.ReadsEmitted | Message/Pods/leveldb-library/db/log_reader.cc:56-174 | The fragments of one record read back as that record, or as nothing if the cut goes through them |
| Logs.CutLogReadsBack | Message/Pods/leveldb-library/db/log_reader.cc:56-174 | After cutting a log at any byte, reading returns exactly the records that lie wholly inside the cut, in order, with no corruption report |
| Logs.DamageIsNoticed | Message/Pods/leveldb-library/db/log_reader.cc:242-258 | A stored fragment with one changed byte of its checksum, type or payload is never taken for a fragment: the rest of its block is dropped as a bad record, with a report unless it now looks like zeros |
| Blocks.BlockBuilder.Add | Message/Pods/leveldb-library/table/block_builder.cc:72-106 | The pair is appended, sharing with the previous key unless a restart point is due |
| Blocks.BlockBuilder.Finish | Message/Pods/leveldb-library/table/block_builder.cc:62-70 | The block is the layout of the added pairs, with its restart points |
| Blocks.BlockBuilder.Reset | Message/Pods/leveldb-library/table/block_builder.cc:47-54 | The builder is empty again |
| Blocks.SharedPrefix | Message/Pods/leveldb-library/table/block_builder.cc:81-84 | The loop finds the longest common prefix: the keys agree that far, and one ends there or they differ next |
| Blocks.DecodesEntry | Message/Pods/leveldb-library/table/block.cc:54-74 | A laid-out entry decodes to its lengths and bytes, on the fast path and on the varint path |
| Blocks.BuiltOpens | Message/Pods/leveldb-library/table/block.cc:24-39 | A finished block opens with its own restart count and data |
| Blocks.NewIterator | Message/Pods/leveldb-library/table/block.cc:254-265 | On a finished block the iterator is over the added pairs |
| Blocks.Iter.ParseNextKey | Message/Pods/leveldb-library/table/block.cc:224-251 | The iterator comes to stand at the entry that starts where the last one ended, with the whole key rebuilt |
| Blocks.Iter.Next | Message/Pods/leveldb-library/table/block.cc:137-140 | Moves to the next pair |
| Blocks.Iter.Prev | Message/Pods/leveldb-library/table/block.cc:142-161 | Moves to the previous pair, or to the end from the first |
| Blocks.Iter.Seek | Message/Pods/leveldb-library/table/block.cc:163-201 | Lands on the first pair at or past the target, the binary search over restart points agreeing with a linear scan |
| Blocks.Iter.ScanTo | Message/Pods/leveldb-library/table/block.cc:191-200 | The linear part of Seek does so from any pair all before which are smaller |
| Blocks.Iter.SeekToFirst | Message/Pods/leveldb-library/table/block.cc:203-206 | Stands at the first pair |
| Blocks.Iter.SeekToLast | Message/Pods/leveldb-library/table/block.cc:208-213 | Stands at the last pair |
| Blocks.Iter.IsAt | Message/Pods/leveldb-library/table/block.cc:126-135 | Valid exactly inside the pairs, where key and value are those of the pair |
| Caches.HandleTable.FindPointer | Message/Pods/leveldb-library/util/cache.cc:114-120 | The slot of the entry with key and hash, or the end of its chain |
| Caches.HandleTable.Lookup | Message/Pods/leveldb-library/util/cache.cc:74-76 | The entry the table maps key and hash to |
| Caches.HandleTable.Insert | Message/Pods/leveldb-library/util/cache.cc:78-92 | Adds or replaces that one mapping and returns the replaced entry |
| Caches.HandleTable.Remove | Message/Pods/leveldb-library/util/cache.cc:94-102 | Removes that one mapping and returns its entry |
| Caches.HandleTable.Resize | Message/Pods/leveldb-library/util/cache.cc:122-146 | The table is the same map, in at least as many chains as entries |
| Caches.WithoutCuts | Message/Pods/leveldb-library/util/cache.cc:239-242 | Unlinking the i-th entry leaves the i before it and those after it, where they were |
| Caches.WithoutKeepsOrder | Message/Pods/leveldb-library/util/cache.cc:239-242 | Of two entries that stay, the one that came first still does |
| Caches.LRUCache.Ref | Message/Pods/leveldb-library/util/cache.cc:217-223 | An idle entry moves to the end of the in-use list, any other stays; the entries that stay in a list keep their order |
| Caches.LRUCache.Unref | Message/Pods/leveldb-library/util/cache.cc:225-237 | The deleter runs exactly when the last reference goes, and an entry only the cache still holds becomes the newest idle one |
| Caches.LRUCache.Release | Message/Pods/leveldb-library/util/cache.cc:261-264 | The client gives one reference back, and the last one makes the entry the newest idle one; the entries that stay in a list keep their order; the invariant is kept |
| Caches.LRUCache.FinishErase | Message/Pods/leveldb-library/util/cache.cc:307-316 | The entry leaves its list, the usage and the cache; the entries that stay keep their order; the invariant is kept without it |
| Caches.LRUCache.Lookup | Message/Pods/leveldb-library/util/cache.cc:252-259 | Returns the mapped entry with one more client reference, moved to the in-use list if it was idle; nothing else changes, the order of the other entries included |
| Caches.LRUCache.Erase | Message/Pods/leveldb-library/util/cache.cc:318-321 | The mapping goes, and only its entry leaves the lists; the others keep their order |
| Caches.LRUCache.EvictOldest | Message/Pods/leveldb-library/util/cache.cc:293-300 | The oldest idle entry leaves and its deleter runs once |
| Caches.LRUCache.Insert | Message/Pods/leveldb-library/util/cache.cc:266-303 | The new entry replaces the mapping; as few oldest idle entries as needed are evicted, and those that stay keep their order; in the end usage is within capacity or nothing is idle; with capacity 0 nothing is cached |
| Caches.LRUCache.Prune | Message/Pods/leveldb-library/util/cache.cc:323-333 | All idle entries are deleted exactly once, the in-use list stays |
| WriteBatches.WriteBatch.Add | Message/Pods/leveldb-library/db/write_batch.cc:98-109 | The encoding of the batch becomes that of the operations with one more |
| WriteBatches.WriteBatch.Append | Message/Pods/leveldb-library/db/write_batch.cc:144-149 | The encoding becomes that of both operation lists in order |
| WriteBatches.WriteBatch.SetSequence | Message/Pods/leveldb-library/db/write_batch.cc:94-96 | The encoding becomes that of the same operations at the given sequence |
| WriteBatches.WriteBatch.Iterate | Message/Pods/leveldb-library/db/write_batch.cc:42-80 | Hands over the operations that parse, and succeeds only if the whole batch parsed and the count is right |
| WriteBatches.ReplaysRecords | Message/Pods/leveldb-library/db/write_batch.cc:42-80 | The records of any operations parse back to them |
| WriteBatches.BatchReadsBack | Message/Pods/leveldb-library/db/write_batch.cc:42-96 | An encoded batch replays to its operations, count and sequence |
| Recovery.ReopenKeepsInv | Message/Pods/leveldb-library/db/db_impl.cc:280-369 | The files alone, after a crash that loses the memtables, are a valid database for the writes up to the last one on disk |
| Recovery.RecordIsBatch | Message/Pods/leveldb-library/db/db_impl.cc:417-436 | Every whole record of a log gives back its batch, and the sequence that follows the writes before it |
| Recovery.RecoverLogFile | Message/Pods/leveldb-library/db/db_impl.cc:371-489 | From a log cut at any byte the writes of its whole batches come back in order, and no others, wherever the memtable is flushed on the way; every key then reads as its last operation in those batches left it, a deleted one as absent, and a key without one as before |
| Recovery.Recover | Message/Pods/leveldb-library/db/db_impl.cc:280-369 | After a crash of any run that cuts the current log at any byte, the reopened database is valid for a first part of the history of writes: all that was on disk or in the previous log, and the whole batches before the cut; every key reads as its last operation in these logs left it, or else as the files have it |
| Recovery.ReopenAndGet | Message/Pods/leveldb-library/db/db_impl.cc:371-489 | Reopening with nothing but a log cut at any byte and reading a key gives the value of the last Put on it in the whole batches before the cut, and nothing after a Delete or without an operation |
| Recovery.ReplayRestores | Message/Pods/leveldb-library/db/write_batch.cc:120-127 | Replaying batches leaves under a key what the last operation on it says |
| GroupCommits.BuildBatchGroup | Message/Pods/leveldb-library/db/db_impl.cc:1258-1306 | The group is the longest prefix of the queue in which every follower may join, within the size limit and never a sync writer behind a non-sync leader; each member that brought a batch has its operations as one stretch of the result, the stretches in queue order and nothing else in it; more than the leader's batch keeps to the size limit as encoded |
| GroupCommits.PopGroup | Message/Pods/leveldb-library/db/db_impl.cc:1239-1248 | Exactly the writers up to the last one of the group leave the queue |
| GroupCommits.NextInv | Message/Pods/leveldb-library/db/db_impl.cc:1185-1256 | Every step of the writers, in any interleaving, keeps the protocol invariant |
| GroupCommits.RunsKeepInv | Message/Pods/leveldb-library/db/db_impl.cc:1185-1256 | So it holds in every state of every run |
| GroupCommits.AnsweredOnce | Message/Pods/leveldb-library/db/db_impl.cc:1239-1248 | A writer that returned was answered in exactly one turn, with the status of its leader; its operations are its own stretch of what the turn logged, in queue order with those of the others and together all of it; a sync request had a sync leader; a writer answered without a group brought no batch or got an error |
| GroupCommits.AcknowledgedInOrder | Message/Pods/leveldb-library/db/db_impl.cc:1204-1237 | No acknowledged write is lost or torn: its operations stand together in what was applied, under consecutive sequences, and before those of every writer that queued up later |
| GroupCommits.AppliedInOrder | Message/Pods/leveldb-library/db/db_impl.cc:1204-1237 | Operations reach the memtable with strictly rising sequences in queue order, without a gap while no turn fails |
| Blooms.BloomFilterPolicy.CreateFilter | Message/Pods/leveldb-library/util/bloom.cc:28-54 | The bits set are those of the probes of the keys and no others, in an array of at least 64 bits, followed by the probe count |
| Blooms.BloomFilterPolicy.SetProbes | Message/Pods/leveldb-library/util/bloom.cc:44-52 | Exactly the bits of the probes of one key are added |
| Blooms.BloomFilterPolicy.KeyMayMatch | Message/Pods/leveldb-library/util/bloom.cc:56-80 | True exactly when all probed bits are set, or the probe count is a reserved one |
| Blooms.BloomFilterPolicy.AddedKeysMatch | Message/Pods/leveldb-library/util/bloom.cc:28-80 | Every key of a filter matches it, for any hash function |
| Blooms.BloomFilterPolicy.MatchesWanted | Message/Pods/leveldb-library/util/bloom.cc:56-80 | A key matches a filter exactly when each of its probes is at a bit that some key of the filter asked for |
| Filters.FilterBlockBuilder.StartBlock | Message/Pods/leveldb-library/table/filter_block.cc:21-27 | Filters are made up to the slot of the block offset, and no key is lost |
| Filters.FilterBlockBuilder.AddKey | Message/Pods/leveldb-library/table/filter_block.cc:29-33 | The key is recorded for the slot being filled |
| Filters.FilterBlockBuilder.GenerateFilter | Message/Pods/leveldb-library/table/filter_block.cc:51-75 | The pending keys become the next filter, an empty one without keys |
| Filters.FilterBlockBuilder.Unflatten | Message/Pods/leveldb-library/table/filter_block.cc:59-66 | The flattened keys are cut up into the keys that were added |
| Filters.FilterBlockBuilder.Finish | Message/Pods/leveldb-library/table/filter_block.cc:35-49 | Every key added for a slot matches in the finished block at every offset of that slot |
| Filters.FilterMatches | Message/Pods/leveldb-library/table/filter_block.cc:77-104 | The reader finds the slot, its bounds and its filter in the finished bytes |
| Filters.FilterRejects | Message/Pods/leveldb-library/table/filter_block.cc:90-104 | Every other key is turned away, and every key where the slot has none |
| Filters.FinishedMatches | Message/Pods/leveldb-library/table/filter_block.cc:77-104 | No false negatives: across empty and shared slots every added key may match |
| Separators.FindShortestSeparator | Message/Pods/leveldb-library/util/comparator.cc:29-50 | The result is unchanged, or lies strictly between start and limit and is start cut after its first differing byte, which is raised by one; it changes exactly when that byte leaves room |
| Separators.FindShortSuccessor | Message/Pods/leveldb-library/util/comparator.cc:52-64 | The result is past the key, its first byte below 0xff raised and the rest cut off; only a run of 0xff bytes stays as it is |
| Separators.InternalKeyParts | Message/Pods/leveldb-library/db/dbformat.h:93-96 | User key and packed number of an internal key read back |
| Separators.InternalOrder | Message/Pods/leveldb-library/db/dbformat.cc:51-67 | The order of encoded internal keys is rising user key, falling sequence, falling type |
| Separators.FindShortestInternalSeparator | Message/Pods/leveldb-library/db/dbformat.cc:69-86 | The separator is the start key, or has a user key strictly between those of start and limit |
| Separators.FindShortInternalSuccessor | Message/Pods/leveldb-library/db/dbformat.cc:88-101 | The successor is the key, or has a greater user key |
| Separators.SeparatorBetween | Message/Pods/leveldb-library/db/dbformat.cc:69-86 | A separator is at or past start and strictly before limit in internal key order |
| Separators.NothingBeyond | Message/Pods/leveldb-library/table/table.cc:216-244 | If the separator is at or past the target and start before it, no key from limit on has the target user key |
| Tables.HandleRoundTrip | Message/Pods/leveldb-library/table/format.cc:15-29 | A block handle reads back |
| Tables.StoredReadsBack | Message/Pods/leveldb-library/table/format.cc:64-110 | A block written with its trailer reads back, the checksum included |
| Tables.DamagedBlock | Message/Pods/leveldb-library/table/format.cc:84-99 | A stored block with one changed byte, be it of its contents, its type or its checksum, is not read |
| Tables.TableBuilder.Add | Message/Pods/leveldb-library/table/table_builder.cc:94-123 | The pair is appended to the table, whatever blocks, index entries and filters come of it |
| Tables.TableBuilder.EmitIndexEntry | Message/Pods/leveldb-library/table/table_builder.cc:102-109 | The index gets one entry per finished block, with a separator between its last key and the next one |
| Tables.TableBuilder.Flush | Message/Pods/leveldb-library/table/table_builder.cc:125-139 | The data block is written out and no pair is lost; the filter moves on to the new offset |
| Tables.TableBuilder.WriteBlock | Message/Pods/leveldb-library/table/table_builder.cc:141-175 | The finished block and its trailer are appended, and its handle says where |
| Tables.TableBuilder.WriteRawBlock | Message/Pods/leveldb-library/table/table_builder.cc:177-194 | Contents and trailer are appended |
| Tables.TableBuilder.Finish | Message/Pods/leveldb-library/table/table_builder.cc:198-253 | The file holds a table of exactly the added pairs whose index and filter are right |
| Tables.TableFinished | Message/Pods/leveldb-library/table/table_builder.cc:198-253 | What the builder kept while adding makes the finished file such a table |
| Tables.ChosenAnswers | Message/Pods/leveldb-library/table/table.cc:216-244 | The first entry at or past the target in the one block the index chooses is the newest visible entry of the user key in the table, or the table has none |
| Tables.InternalGet | Message/Pods/leveldb-library/table/table.cc:216-244 | With or without filter, the pair handed over is the newest visible entry of the user key whenever the table has one, and has another user key or is absent otherwise |
| EditCodecs.VersionEdit.EncodeTo | Message/Pods/leveldb-library/db/version_edit.cc:41-85 | Writes the tagged records of all fields that are set |
| EditCodecs.VersionEdit.DecodeFrom | Message/Pods/leveldb-library/db/version_edit.cc:107-205 | Clears the edit and then sets fields record by record, failing on the first that does not parse |
| EditCodecs.PayloadRoundTrip | Message/Pods/leveldb-library/db/version_edit.cc:107-205 | Each kind of record reads back with the rest of the input |
| EditCodecs.DecodesWritten | Message/Pods/leveldb-library/db/version_edit.cc:107-205 | Any sequence of records decodes to the fields they set |
| EditCodecs.EditRoundTrip | Message/Pods/leveldb-library/db/version_edit.cc:26-205 | Decoding an encoded edit succeeds and gives it back with the stale compaction pointers of the target in front, hence the same edit if and only if the target had none |
| EditCodecs.ManifestReadsBack | Message/Pods/leveldb-library/db/version_set.cc:924-1000 | From a manifest cut at any byte, recovery decodes exactly the edits whose records are whole |
| Formats.KnownIntegers | Message/Pods/leveldb-library/util/coding.cc:10-80 | 300 as a varint, a fixed 32-bit number low byte first, and a string behind its length |
| Formats.KnownBatch | Message/Pods/leveldb-library/db/write_batch.cc:5-14 | The bytes of a batch at sequence 7 that puts one key and deletes it |
| Formats.KnownEdits | Message/Pods/leveldb-library/db/version_edit.cc:13-22 | The tags of all eight kinds of records in a version edit |
| Formats.KnownFragment | Message/Pods/leveldb-library/db/log_format.h:14-30 | Length, type and payload of a log fragment, behind its checksum |
| Formats.KnownEntry | Message/Pods/leveldb-library/table/block_builder.cc:16-22 | A prefix-compressed entry of a block |
| Formats.KnownInternalKey | Message/Pods/leveldb-library/db/dbformat.cc:14-23 | The last eight bytes of an internal key |
| Formats.KnownFields | Message/Pods/nanopb/pb_encode.c:608-715 | Fields of Protocol Buffers messages in bytes: a varint, a string, fixed-width numbers and a negative number in ZigZag form |
| ProtoEncoders.OStream.Write | Message/Pods/nanopb/pb_encode.c:103-132 | Succeeds exactly if the bytes fit; the sizing stream only counts |
| ProtoEncoders.OStream.EncodeVarint | Message/Pods/nanopb/pb_encode.c:608-628 | Writes the base 128 varint |
| ProtoEncoders.VarintGroups | Message/Pods/nanopb/pb_encode.c:615-627 | The loop over groups of seven bits gives the varint |
| ProtoEncoders.OStream.EncodeTag | Message/Pods/nanopb/pb_encode.c:669-673 | Writes the tag number and wire type as one varint |
| ProtoEncoders.OStream.EncodeString | Message/Pods/nanopb/pb_encode.c:709-715 | Writes length and bytes |
| ProtoEncoders.OStream.EncodeValue | Message/Pods/nanopb/pb_encode.c:769-913 | Writes the wire form of the value, and fails exactly on values that exceed their field or on lack of room |
| ProtoEncoders.OStream.EncodeArray | Message/Pods/nanopb/pb_encode.c:147-236 | A repeated field, with or without a count of its own, is packed when its type allows, otherwise one tagged record per item |
| ProtoEncoders.OStream.EncodePacked | Message/Pods/nanopb/pb_encode.c:160-205 | The sizing of a packed array is the number of bytes then written |
| ProtoEncoders.OStream.EncodeField | Message/Pods/nanopb/pb_encode.c:341-426 | Absent optional fields, unchosen union members and zero proto3 fields write nothing, all others their records |
| ProtoEncoders.OStream.EncodeSubmessage | Message/Pods/nanopb/pb_encode.c:717-765 | The real pass writes exactly as many bytes as the sizing pass counted, so it fails only for want of room or unsendable contents, never because the size changed |
| ProtoEncoders.OStream.Encode | Message/Pods/nanopb/pb_encode.c:528-550 | Writes the message encoding; succeeds exactly when every field is sendable and it fits |
| ProtoDecoders.IStream.DecodeVarint | Message/Pods/nanopb/pb_decode.c:255-275 | Reads what the varint reading of at most ten groups gives |
| ProtoDecoders.IStream.DecodeVarint32 | Message/Pods/nanopb/pb_decode.c:187-253 | Reads back every written 32-bit varint |
| ProtoDecoders.IStream.MakeSubstream | Message/Pods/nanopb/pb_decode.c:372-385 | The substream holds exactly the length-delimited contents, and the parent goes on after them |
| ProtoDecoders.FieldIter.Next | Message/Pods/nanopb/pb_common.c:20-76 | The iterator goes round the descriptor circularly |
| ProtoDecoders.FieldIter.Find | Message/Pods/nanopb/pb_common.c:78-96 | Finds the field of a tag from any position, or says there is none and stays valid |
| ProtoDecoders.DecodeValue | Message/Pods/nanopb/pb_decode.c:1321-1550 | A value written by a sender whose structs may have more fields is accepted exactly when the common part can be received, and is stored in normal form; whatever the bytes, what is accepted is within the width or the array of its field |
| ProtoDecoders.DecodeField | Message/Pods/nanopb/pb_decode.c:406-483 | A written record is stored by the rule of its field (has-flag set, union switched, array extended) if and only if the field can receive it |
| ProtoDecoders.DecodePacked | Message/Pods/nanopb/pb_decode.c:425-456 | A packed array is read to its end and appended, and refused if and only if it does not fit |
| ProtoDecoders.EnterFixedCount | Message/Pods/nanopb/pb_decode.c:989-1013 | When another fixed-count array starts, the one before must be complete; in what an encoder wrote it always is, so that the error for a wrong size is never reported, and the array starts empty |
| ProtoDecoders.IsWhole | Message/Pods/nanopb/pb_decode.c:1026-1031 | A fixed-count array none of whose records are still to come holds exactly its declared number of elements |
| ProtoDecoders.DecodeNoInit | Message/Pods/nanopb/pb_decode.c:928-1076 | Decoding into a defaulted struct what was written by a descriptor with the same fields or more, at any depth, succeeds if and only if the common fields can be received, and then gives their normal form. For any bytes at all, no array exceeds its capacity, fields of which no record came are left alone, and success means that none of the first 64 required fields was missing and no fixed-count array came in part |
| ProtoDecoders.DecodeTag | Message/Pods/nanopb/pb_decode.c:298-318 | Tag number and wire type read back; a zero tag ends the message |
| ProtoDecoders.SkipField | Message/Pods/nanopb/pb_decode.c:321-331 | Of an unknown field exactly what the sender wrote after the tag is read over |
| ProtoDecoders.Decode | Message/Pods/nanopb/pb_decode.c:1078-1090 | Sets defaults first, then decodes |
| ProtoDecoders.DecodeSubmessage | Message/Pods/nanopb/pb_decode.c:1506-1528 | A nested message decodes inside its own substream |
| ProtoDecoders.DefaultsShaped | Message/Pods/nanopb/pb_decode.c:839-926 | The defaults of a well-formed descriptor fit their fields |
| ProtoDecoders.StoredExclusive | Message/Pods/nanopb/pb_decode.c:467-478 | Storing a member of a union takes the choice from the others, so that a decoded union never has two |
| ProtoDecoders.ZigZagRoundTrip | Message/Pods/nanopb/pb_decode.c:1272-1284 | Signed varints read back |
| ProtoDecoders.IntRoundTrip | Message/Pods/nanopb/pb_decode.c:1332-1367 | Plain integers survive widening to 64 bits and truncation |
| ProtoRecords.SlotsBytesAreRecords | Message/Pods/nanopb/pb_encode.c:528-550 | A message encodes as the sequence of its tagged records |
| ProtoRecords.PutAllMixed | Message/Pods/nanopb/pb_decode.c:928-1076 | Storing those records one by one into the defaults gives the normal form, field by field |
| ProtoRecords.RequiredAreSent | Message/Pods/nanopb/pb_encode.c:341-426 | Every required field has a record |
| ProtoVersions.KnownAll | Message/Pods/nanopb/pb_decode.c:960-987 | Of the records of a sender with more fields, those the receiver knows are the records of the common message, and those of structs that are empty only to the receiver |
| ProtoVersions.CommonIsAll | Message/Pods/nanopb/pb_decode.c:928-1076 | A message has everything in common with itself |
| ProtoVersions.ZeroCommon | Message/Pods/nanopb/pb_encode.c:341-426 | What is zero to the sender is zero to the receiver |
| ProtoRoundTrips.SendAndReceive | Message/Pods/nanopb/pb_decode.c:1078-1090 | Encoding a message into a buffer succeeds if and only if every field is sendable and it fits; decoding its output with a descriptor that may lack some of the fields then succeeds if and only if no string in the common part fills its array, and gives the common part up to normal form |
| ProtoRoundTrips.EncodeDecode | Message/Pods/nanopb/pb_decode.c:1078-1090 | With the same descriptor on both sides the message comes back up to normal form if and only if no string at any depth fills its array |
| ProtoRoundTrips.NormalIs | Message/Pods/nanopb/pb_decode.c:839-926 | The message comes back identical if and only if its unsent fields, at every depth, hold their defaults |
| ProtoRoundTrips.PlainComesBack | Message/Pods/nanopb/pb_encode.c:341-426 | Without default values of its own a message comes back identical once its absent fields hold their defaults: a zero that is not sent is not lost |
| ProtoRoundTrips.ReceivableIs | Message/Pods/nanopb/pb_encode.c:875-899 | At every depth a message that can be sent can be received if and only if each of its strings leaves room for the terminator |
| ProtoRoundTrips.FullStringIsSent | Message/Pods/nanopb/pb_encode.c:875-899 | A message with a string that fills its array can be sent but not received, so that by EncodeDecode its encoding is refused |

## Left out

Contracts that say less than the code does, by member:

- Database.RunsAreFaithful: the compactions a run installs are harmless; for the code without this premise the statement is false, and Database.RunsAreValidIff says exactly when it holds.
- Database.OutputKeepsInv: an output file is opened, filled and finished in one step, so that a flush takes its number before or after it and not in between.
- Database.FlushKeepsInv: writing the table and installing it is one step; the writes that may come in between only reach the memtable.
- Database.InstallIsSafeIff: the input of the loop is the sorted sequence of the input entries; that a merging iterator yields it is the subject of `Merging`.
- DbImpls.DBImpl.Compact: one method runs start, loop and install without a break; what may happen in between is in StartCompaction, WriteOutputs and InstallCompactionResults, and in the state machine.
- DbImpls.MergeInputs: entries are inserted one by one, standing for the merging iterator, which `Merging` proves to walk the same sequence.
- DbImpls.DBImpl.Write: one caller at a time, without the log record and its sync; how concurrent callers are grouped is the subject of `GroupCommits`, and what a log gives back that of `Recovery`.
- DbImpls.DBImpl.BackgroundCompaction: what is wanted is a parameter, and a manual range keeps no record of how far it has got.
- Recovery.Recover: the manifest's last sequence is taken to be that of the last write on disk, where the code may record a later one and leave a hole in the numbers; file numbers handed out after the last edit are not handed out again; the tables of recovered memtables are installed one by one instead of in one edit.
- Recovery.RecoverLogFile: a cut, and not other damage, is what a log may have suffered; reusing the last log is missing.
- History.ManifestGivesFiles: speaks of runs whose compactions were harmless.
- Manifest.RecoverReplaysManifest: edits carry files only; log numbers, last sequence and compaction pointers are part of `EditCodecs`.
- DbIterators.DBIter.Next: the iterator is over a cursor into a sorted run, which stands for the merging iterator.
- Merging.MergingIterator.Next: no two children hold the same internal key, as in a database.
- Logs.Reader.ReadRecord: reading starts at offset 0, so the search for an initial offset and the resynchronising after it are missing; the offset of the last record is not reported.
- Logs.CutLogReadsBack: speaks of a cut; what one changed byte does to a fragment is in Logs.DamageIsNoticed.
- Logs.DamageIsNoticed: more than one changed byte, and the two bytes of the length, are only covered by the refinement of the reader.
- Blocks.Iter.Seek: on bytes that no builder wrote only safety and termination are stated.
- Blocks.DecodesEntry: the 32-bit wrap-around of the sum of two lengths in a malformed entry is not modelled.
- Tables.TableBuilder.Finish: files of 4 GiB and more are excluded, as are write errors; the metaindex block and the footer are not written, and the handles they would hold are returned.
- Tables.InternalGet: blocks are stored uncompressed, there is no block cache, and checksums are always verified.
- Filters.FilterBlockBuilder.Finish: finished filter blocks of 4 GiB and more are excluded.
- Filters.FilterMatches: the internal filter policy, which strips the sequence from keys, is modelled by adding user keys.
- Caches.HandleTable.Resize: chains are sequences of entries and the bit mask is the remainder it equals for a power of two.
- Caches.LRUCache.Insert: the two intrusive lists are sequences; the destructor, the sixteen shards and the mutex are missing.
- MemTables.MemTable.Get: the two converses need one entry to a sequence number, which the database sees to; MemTables.TellsIff states them.
- Memories.Get: the three layers are those of a valid state; reference counts and the mutex are missing.
- MemTables.MemTable.Add: the skip list is the sequence of its keys, which `SkipLists` proves of the linked nodes; the arena is not modelled.
- SkipLists.SkipList.Insert: the height is a parameter, and the memory order of the pointer stores is not modelled.
- GroupCommits.RunsKeepInv: waiting for room is one step that succeeds or fails, without its sleeps and memory limits; the temporary batch is the concatenation of the batches.
- ProtoDecoders.DecodeNoInit: messages of 4 GiB and more are covered only if their parts have 32-bit lengths; for input that no encoder wrote, what the fields then hold is not stated, only safety, termination, staying within the stream and the capacities, which fields may have changed, and that no required field and no part of a fixed-count array is missing.
- ProtoDecoders.EnterFixedCount: a fixed-count array is the list of the elements received since it was entered last; what the C array holds past them is not modelled.
- ProtoDecoders.IStream.DecodeVarint32: varints longer than needed are not covered.
- ProtoRoundTrips.EncodeDecode: extensions, callbacks and pointer fields are not part of the descriptors; for buffers of 4 GiB and more the parts of the message must have 32-bit lengths.
- ProtoRoundTrips.SendAndReceive: the receiver knows no field that the sender lacks, and fields they share have the same rule and, structs apart, the same type.
- ProtoRoundTrips.NormalIs: an unchosen member of a union has a value of its own, where the C members share their storage.
- ProtoRoundTrips.FullStringIsSent: speaks of one field; ReceivableIs and EncodeDecode cover strings at any depth.

What the repository does beyond the model:

- The Swift app and its tests: user interface and Firebase calls.
- SnapshotList as a linked list: it is a sequence of sequence numbers.
- Corrupt keys, read errors, background errors, and checksum collisions of strings that differ in more than one byte.
- Seek charging, compaction scores, ShouldStopBefore and file size limits: parameters, or any choice.
- Table cache and two-level iterator: lookup is transparent, and a level is the sequence of its files.
- The sliced CRC32C tables: the checksum is a bitwise fold with the same polynomial.
- Snappy, repair, environment, loggers, file names, the C interface and other I/O.
- BoringSSL files and umbrella headers.
