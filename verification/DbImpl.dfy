/** The database object (class DBImpl in db_impl.cc); each method is one atomic step of `Database`. */
module DbImpls {
  import opened Keys
  import opened Entries
  import opened Versions
  import opened Inputs
  import opened Picker
  import opened Gaps
  import opened Manifest
  import opened Compactions
  import opened Installs
  import opened Database

  /** The writes of a batch, stamped with consecutive sequence numbers. */
  function Stamped(ops: seq<Op>, from: nat): seq<Entry> {
    seq(|ops|, i requires 0 <= i < |ops| => EntryOf(ops[i], from + i))
  }

  function NumbersOf(files: seq<File>): (r: set<nat>)
    ensures forall n :: n in r <==> exists f :: f in files && f.number == n
  {
    set f | f in files :: f.number
  }

  function FlushEdit(level: nat, f: File): Edit {
    Edit({}, [(level, f)])
  }

  /** AddInputDeletions, then one AddFile per output. */
  function CompactionEdit(c: Compaction, outs: seq<File>): Edit {
    Edit((set f | f in c.in0 :: (c.level, f.number)) + (set f | f in c.in1 :: (c.level + 1, f.number)),
         Tagged(outs, c.level + 1))
  }

  ghost predicate UniqueNumbers(files: seq<File>) {
    forall f, g | f in files && g in files && f.number == g.number :: f == g
  }

  /** Deleting by number and adding fresh numbers is removing and adding files. */
  lemma EditIsLevelEdit(files: seq<File>, e: Edit, l: nat, gone: seq<File>, came: seq<File>)
    requires BySmallest(files) && UniqueNumbers(files) && forall f | f in gone :: f in files
    requires DeletedAt(e, l) == NumbersOf(gone) && AddsAt(e.added, l) == came
    requires DistinctNumbers(came) && NoShared(files, came)
    ensures LevelEdit(files, gone, came, OneAtATime(files, [e], l))
  {
    assert [e][..0] == [];
    assert OneAtATime(files, [], l) == files;
    AddAllSpec(LevelState({} + DeletedAt(e, l), []), e.added, l);
    SaveSpec(files, ApplyLevel(EMPTY_LEVEL, e, l));
  }

  lemma UntouchedLevel(files: seq<File>, e: Edit, l: nat)
    requires BySmallest(files) && UniqueNumbers(files)
    requires DeletedAt(e, l) == {} && AddsAt(e.added, l) == []
    ensures OneAtATime(files, [e], l) == files
  {
    EditIsLevelEdit(files, e, l, [], []);
    SortedUnique(OneAtATime(files, [e], l), files);
  }

  lemma FlushInstalls(v: Version, nextFile: nat, level: nat, f: File, v': Version)
    requires |v.files| == NUM_LEVELS && NumbersOk(v, nextFile) && level < NUM_LEVELS && f.number == nextFile
    requires |v'.files| == NUM_LEVELS
    requires forall l | 0 <= l < NUM_LEVELS :: v'.files[l] == OneAtATime(v.files[l], [FlushEdit(level, f)], l)
    ensures FlushInstall(v, level, f, v')
  {
    var e := FlushEdit(level, f);
    forall l | 0 <= l < NUM_LEVELS
      ensures if l == level then LevelEdit(v.files[l], [], [f], v'.files[l]) else v'.files[l] == v.files[l]
    {
      assert e.added[..0] == [] && AddsAt([], l) == [];
      if l == level {
        EditIsLevelEdit(v.files[l], e, l, [], [f]);
      } else {
        UntouchedLevel(v.files[l], e, l);
      }
    }
  }

  lemma CompactionInstalls(v: Version, nextFile: nat, c: Compaction, outs: seq<File>, v': Version)
    requires |v.files| == NUM_LEVELS && NumbersOk(v, nextFile) && c.level + 1 < NUM_LEVELS
    requires (forall f | f in c.in0 :: f in v.files[c.level]) && forall f | f in c.in1 :: f in v.files[c.level + 1]
    requires DistinctNumbers(outs) && NoShared(v.files[c.level + 1], outs)
    requires |v'.files| == NUM_LEVELS
    requires forall l | 0 <= l < NUM_LEVELS :: v'.files[l] == OneAtATime(v.files[l], [CompactionEdit(c, outs)], l)
    ensures CompactionInstall(v, c, outs, v')
  {
    hide LevelEdit, OneAtATime, NumbersOk, DistinctNumbers, NoShared, CompactionEdit;
    forall l | 0 <= l < NUM_LEVELS
      ensures l == c.level ==> LevelEdit(v.files[l], c.in0, [], v'.files[l])
      ensures l == c.level + 1 ==> LevelEdit(v.files[l], c.in1, outs, v'.files[l])
      ensures l != c.level && l != c.level + 1 ==> v'.files[l] == v.files[l]
    {
      CompactionLevel(v, nextFile, c, outs, l);
    }
  }

  lemma CompactionLevel(v: Version, nextFile: nat, c: Compaction, outs: seq<File>, l: nat)
    requires |v.files| == NUM_LEVELS && NumbersOk(v, nextFile) && c.level + 1 < NUM_LEVELS && l < NUM_LEVELS
    requires (forall f | f in c.in0 :: f in v.files[c.level]) && forall f | f in c.in1 :: f in v.files[c.level + 1]
    requires DistinctNumbers(outs) && NoShared(v.files[c.level + 1], outs)
    ensures var files' := OneAtATime(v.files[l], [CompactionEdit(c, outs)], l);
      if l == c.level then LevelEdit(v.files[l], c.in0, [], files')
      else if l == c.level + 1 then LevelEdit(v.files[l], c.in1, outs, files')
      else files' == v.files[l]
  {
    hide LevelEdit, OneAtATime;
    var e := CompactionEdit(c, outs);
    AddsAtLevel(outs, c.level + 1, l);
    CompactionDeletes(c, outs, l);
    hide CompactionEdit;
    if l == c.level {
      EditIsLevelEdit(v.files[l], e, l, c.in0, []);
    } else if l == c.level + 1 {
      EditIsLevelEdit(v.files[l], e, l, c.in1, outs);
    } else {
      UntouchedLevel(v.files[l], e, l);
    }
  }

  lemma CompactionDeletes(c: Compaction, outs: seq<File>, l: nat)
    ensures DeletedAt(CompactionEdit(c, outs), l) ==
      if l == c.level then NumbersOf(c.in0) else if l == c.level + 1 then NumbersOf(c.in1) else {}
  {
    var d := DeletedAt(CompactionEdit(c, outs), l);
    forall n
      ensures n in d <==> (l == c.level && n in NumbersOf(c.in0)) || (l == c.level + 1 && n in NumbersOf(c.in1))
    {
      if l == c.level && n in NumbersOf(c.in0) {
        var f :| f in c.in0 && f.number == n;
        assert (l, n) in CompactionEdit(c, outs).deleted;
      }
      if l == c.level + 1 && n in NumbersOf(c.in1) {
        var f :| f in c.in1 && f.number == n;
        assert (l, n) in CompactionEdit(c, outs).deleted;
      }
    }
  }

  /** What the picker and the placement of flushes ask of the levels. */
  lemma LevelFacts(st: State, log: seq<Entry>, l: nat)
    requires Inv(st, log) && l < NUM_LEVELS
    ensures LevelOk(st.version.files[l], l == 0)
    ensures forall f | f in st.version.files[l] :: f.largest.sn <= MAX_SEQUENCE
  {
    LevelUnique(st, log, l);
    AllMembers(st.version);
    forall f | f in st.version.files[l]
      ensures f.largest.sn <= MAX_SEQUENCE
    {
      var e := f.run[|f.run| - 1];
      assert e in f.run && e in FileEntries(st.version.files[l]);
      assert e in Everything(st);
    }
  }

  lemma StampedRecords(log: seq<Entry>, ops: seq<Op>)
    ensures var log' := log + Stamped(ops, |log| + 1);
      && |log'| == |log| + |ops|
      && forall i | 0 <= i < |ops| :: RecordOf(log'[|log| + i], ops[i], |log| + i + 1)
  {
  }

  /** The effect of inserting a batch into the memtable, write by write. */
  function ApplyBatch(st: State, ops: seq<Op>): State {
    if ops == [] then st else AddOp(ApplyBatch(st, ops[..|ops| - 1]), ops[|ops| - 1])
  }

  lemma {:induction false} BatchKeepsInv(st: State, log: seq<Entry>, ops: seq<Op>)
    requires Inv(st, log) && |log| + |ops| < MAX_SEQUENCE
    ensures Inv(ApplyBatch(st, ops), log + Stamped(ops, |log| + 1))
  {
    hide Inv;
    StampedAppend(log, ops);
    if ops != [] {
      var before, op := ops[..|ops| - 1], ops[|ops| - 1];
      BatchKeepsInv(st, log, before);
      AddKeepsInv(ApplyBatch(st, before), log + Stamped(before, |log| + 1), op);
    }
  }

  lemma StampedAppend(log: seq<Entry>, ops: seq<Op>)
    ensures |Stamped(ops, |log| + 1)| == |ops|
    ensures if ops == [] then log + Stamped(ops, |log| + 1) == log else
      var log' := log + Stamped(ops[..|ops| - 1], |log| + 1);
      log + Stamped(ops, |log| + 1) == log' + [EntryOf(ops[|ops| - 1], |log'| + 1)]
  {
  }

  lemma {:induction false} BatchFrame(st: State, ops: seq<Op>)
    ensures ApplyBatch(st, ops) == st.(mem := ApplyBatch(st, ops).mem, lastSequence := st.lastSequence + |ops|)
  {
    if ops != [] { BatchFrame(st, ops[..|ops| - 1]); }
  }

  lemma BatchStep(st: State, ops: seq<Op>, i: nat)
    requires i < |ops|
    ensures ApplyBatch(st, ops[..i + 1]).mem == InsertRun(ApplyBatch(st, ops[..i]).mem, EntryOf(ops[i], st.lastSequence + i + 1))
  {
    hide InsertRun, EntryOf;
    var done := ops[..i + 1];
    assert done[..|done| - 1] == ops[..i] && done[|done| - 1] == ops[i];
    BatchFrame(st, ops[..i]);
    hide ApplyBatch;
    LastOp(st, done);
  }

  lemma LastOp(st: State, ops: seq<Op>)
    requires ops != []
    ensures ApplyBatch(st, ops) == AddOp(ApplyBatch(st, ops[..|ops| - 1]), ops[|ops| - 1])
  {
  }

  lemma FlushInstalled(st: State, log: seq<Entry>, level: nat, size: nat, v: Version)
    requires Inv(st, log) && st.imm.Some? && level < NUM_LEVELS && |v.files| == NUM_LEVELS
    requires if st.imm.value == [] then v == st.version else
      ClearPath(st.version, level, FlushedFile(st, st.imm.value, size))
      && forall l | 0 <= l < NUM_LEVELS ::
           v.files[l] == OneAtATime(st.version.files[l], [FlushEdit(level, FlushedFile(st, st.imm.value, size))], l)
    ensures FlushStep(st, level, size, st.(imm := None, version := v, nextFile := st.nextFile + 1))
    ensures Inv(st.(imm := None, version := v, nextFile := st.nextFile + 1), log)
  {
    hide MemoryOk, WorkOk, Logged, Faithful, OneAtATime, FlushEdit, ClearPath, FilesOk, SortedDisjoint, LevelsAbove,
      ZeroOrdered, NumbersOk;
    if st.imm.value != [] {
      FlushInstalls(st.version, st.nextFile, level, FlushedFile(st, st.imm.value, size), v);
    }
    FlushKeepsInv(st, log, level, size, st.(imm := None, version := v, nextFile := st.nextFile + 1));
  }

  lemma MoveInstalled(st: State, log: seq<Entry>, c: Compaction, v: Version)
    requires Inv(st, log) && c.level + 1 < NUM_LEVELS && |c.in0| == 1 && c.in1 == [] && |v.files| == NUM_LEVELS && st.running.None?
    requires Compactable(st.version.files[c.level], st.version.files[c.level + 1], c)
    requires forall l | 0 <= l < NUM_LEVELS :: v.files[l] == OneAtATime(st.version.files[l], [CompactionEdit(c, c.in0)], l)
    ensures MoveStep(st, c, st.(version := v)) && Inv(st.(version := v), log)
  {
    MoveIsInstall(st, c, v);
    hide Inv, MoveStep, OneAtATime, CompactionEdit, Compactable;
    MoveKeepsInv(st, log, c, st.(version := v));
  }

  lemma MoveIsInstall(st: State, c: Compaction, v: Version)
    requires DiskOk(st.version, st.nextFile) && c.level + 1 < NUM_LEVELS && |c.in0| == 1 && c.in1 == [] && |v.files| == NUM_LEVELS
    requires Compactable(st.version.files[c.level], st.version.files[c.level + 1], c) && st.running.None?
    requires forall l | 0 <= l < NUM_LEVELS :: v.files[l] == OneAtATime(st.version.files[l], [CompactionEdit(c, c.in0)], l)
    ensures MoveStep(st, c, st.(version := v))
  {
    hide OneAtATime, CompactionEdit, LeavesNewer, LevelsAbove, SortedDisjoint, ZeroOrdered;
    assert c.in0[0] in c.in0;
    CompactionInstalls(st.version, st.nextFile, c, c.in0, v);
  }

  lemma CompactInstalled(st: State, log: seq<Entry>, input: seq<Entry>, v: Version)
    requires Inv(st, log) && InstallReady(st) && |v.files| == NUM_LEVELS
    requires MergedInput(st.running.value.c, input) && Flatten(Runs(st.running.value.outs)) == KeptBy(st.running.value, input)
    requires forall l | 0 <= l < NUM_LEVELS ::
      v.files[l] == OneAtATime(st.version.files[l], [CompactionEdit(st.running.value.c, st.running.value.outs)], l)
    ensures InstallStep(st, input, st.(version := v, running := None))
    ensures Inv(st.(version := v, running := None), log) <==> Harmless(st, input)
  {
    hide VersionOk, MemoryOk, Logged, Faithful, MergedInput, Flatten, Runs, KeptBy, NumbersOk, OneAtATime,
      CompactionEdit, Harmless;
    var r := st.running.value;
    OutputNumbers(st.version, st.nextFile, r.c.level + 1, r.outs);
    CompactionInstalls(st.version, st.nextFile, r.c, r.outs, v);
    InstallIsSafeIff(st, log, input, st.(version := v, running := None));
  }

  /** What the background thread is asked for: a manual range, a level that grew too large, a file read in vain too often. */
  datatype Wanted =
    | Nothing
    | Manual(level: nat, begin: Option<UserKey>, end: Option<UserKey>)
    | BySize(level: nat, pointer: Option<IKey>)
    | BySeek(level: nat, file: File)

  predicate Possible(wanted: Wanted, v: Version) {
    wanted != Nothing ==>
      && wanted.level + 1 < NUM_LEVELS && |v.files| == NUM_LEVELS
      && (wanted.BySize? ==> v.files[wanted.level] != [])
      && (wanted.BySeek? ==> wanted.file in v.files[wanted.level])
  }

  /** The compaction that follows from what is wanted. */
  ghost predicate Picked(wanted: Wanted, v: Version, sizeLimit: nat, expandedLimit: nat, c: Compaction)
    requires wanted != Nothing && Possible(wanted, v)
  {
    var level := wanted.level;
    var files, next := v.files[level], v.files[level + 1];
    && c.level == level
    && match wanted
       case Manual(_, begin, end) => FromRange(files, next, level, begin, end, sizeLimit, expandedLimit, c)
       case BySize(_, pointer) => exists i: nat :: IsNext(files, pointer, i) && FromFile(files, next, level, files[i], expandedLimit, c)
       case BySeek(_, file) => FromFile(files, next, level, file, expandedLimit, c)
  }

  lemma PickedIsGapless(wanted: Wanted, v: Version, sizeLimit: nat, expandedLimit: nat, c: Compaction)
    requires wanted != Nothing && Possible(wanted, v) && Picked(wanted, v, sizeLimit, expandedLimit, c)
    requires FilesOk(v.files[wanted.level]) && FilesOk(v.files[wanted.level + 1])
    ensures !wanted.Manual? ==> Gapless(Both(c))
  {
    hide FromFile, FromRange, Gapless, FilesOk;
    var files, next := v.files[wanted.level], v.files[wanted.level + 1];
    match wanted
    case Manual(_, _, _) =>
    case BySize(level, pointer) =>
      var i: nat :| IsNext(files, pointer, i) && FromFile(files, next, level, files[i], expandedLimit, c);
      AutomaticIsGapless(files, next, level, files[i], expandedLimit, c);
    case BySeek(level, file) =>
      AutomaticIsGapless(files, next, level, file, expandedLimit, c);
  }

  /** One file, nothing to merge it with, and not too much data two levels down. */
  predicate IsTrivialMove(v: Version, c: Compaction, limit: nat) {
    && |c.in0| == 1
    && c.in1 == []
    && (c.level + 2 < |v.files| ==> TotalFileSize(Selected(v.files[c.level + 2], Some(c.lo), Some(c.hi))) <= limit)
  }

  lemma NothingBelow()
    ensures TotalFileSize([]) == 0
  {
  }

  /** A compaction was started, wrote its outputs and was installed, with nothing else in between. */
  ghost predicate Compacted(st: State, c: Compaction, input: seq<Entry>, st': State) {
    exists outs, nextFile ::
      InstallStep(st.(nextFile := nextFile, running := Some(Running(c, st.version, Oldest(st), outs))), input, st')
  }

  /** A compaction was run: as a trivial move, or over its merged input. */
  ghost predicate Ran(st: State, log: seq<Entry>, c: Compaction, moved: bool, input: seq<Entry>, st': State) {
    if moved then Next(st, log, Step.Move(c), st', log) else Compacted(st, c, input, st')
  }

  method MergeRun(run: seq<Entry>, into: seq<Entry>) returns (r: seq<Entry>)
    requires Sorted(into) && UniqueSeq(Elements(into) + Elements(run))
    ensures Sorted(r) && Elements(r) == Elements(into) + Elements(run)
  {
    r := into;
    for i := 0 to |run|
      invariant Sorted(r) && Elements(r) == Elements(into) + Elements(run[..i])
    {
      assert run[..i + 1] == run[..i] + [run[i]];
      if run[i] !in r {
        forall j | 0 <= j < |r|
          ensures r[j].ik != run[i].ik
        {
          assert r[j] in Elements(r) && r[j] in Elements(into) + Elements(run);
          assert run[i] in Elements(run);
        }
        InsertRunSorted(r, run[i]);
        r := InsertRun(r, run[i]);
      }
    }
    assert run[..|run|] == run;
  }

  /** The entries of the input files in order, as the merging iterator of MakeInputIterator yields them. */
  method MergeInputs(c: Compaction) returns (input: seq<Entry>)
    requires UniqueSeq(InputEntries(c))
    ensures MergedInput(c, input)
  {
    input := [];
    var files := c.in0 + c.in1;
    for i := 0 to |files|
      invariant Sorted(input) && Elements(input) == FileEntries(files[..i])
    {
      OneMoreFile(c, files, i);
      input := MergeRun(files[i].run, input);
    }
    assert files[..|files|] == files;
    BothInputs(c);
  }

  class DBImpl {
    var mem: seq<Entry>
    var imm: Option<seq<Entry>>
    var version: Version
    var snapshots: seq<nat>
    var lastSequence: nat
    var nextFile: nat
    var running: Option<Running>
    ghost var log: seq<Entry>

    ghost function Abs(): State
      reads this
    {
      State(mem, imm, version, snapshots, lastSequence, nextFile, running)
    }

    ghost predicate Valid()
      reads this
    {
      Inv(Abs(), log)
    }

    constructor ()
      ensures Valid() && Abs() == INITIAL && log == []
    {
      mem, imm, version, snapshots, lastSequence, nextFile, running := [], None, EMPTY_VERSION, [], 0, 2, None;
      log := [];
      new;
      InitialInv();
    }

    /** The database as a manifest describes it, before the logs are read. */
    constructor Reopen(v: Version, lastSequence: nat, nextFile: nat, ghost log: seq<Entry>)
      requires Inv(State([], None, v, [], lastSequence, nextFile, None), log)
      ensures Valid() && Abs() == State([], None, v, [], lastSequence, nextFile, None) && this.log == log
    {
      mem, imm, version, snapshots, this.lastSequence, this.nextFile, running := [], None, v, [], lastSequence, nextFile, None;
      this.log := log;
    }

    /** Write, after the group is built: the batch goes into the memtable, then LastSequence moves. */
    method Write(updates: seq<Op>)
      requires Valid() && |log| + |updates| < MAX_SEQUENCE
      modifies this
      ensures Valid() && log == old(log) + Stamped(updates, |old(log)| + 1)
      ensures forall i | 0 <= i < |updates| :: RecordOf(log[|old(log)| + i], updates[i], |old(log)| + i + 1)
      ensures lastSequence == old(lastSequence) + |updates|
      ensures Abs() == old(Abs()).(mem := mem, lastSequence := lastSequence)
    {
      hide Inv, Stamped, AddOp, InsertRun, EntryOf;
      ghost var st := Abs();
      var sequence := lastSequence;
      for i := 0 to |updates|
        invariant sequence == lastSequence + i
        invariant Abs() == st.(mem := mem) && log == old(log)
        invariant mem == ApplyBatch(st, updates[..i]).mem
      {
        BatchStep(st, updates, i);
        sequence := sequence + 1;
        mem := InsertRun(mem, EntryOf(updates[i], sequence));
      }
      assert updates[..|updates|] == updates;
      BatchFrame(st, updates);
      BatchKeepsInv(st, log, updates);
      lastSequence := sequence;
      log := log + Stamped(updates, |log| + 1);
      StampedRecords(old(log), updates);
    }

    /** The last branch of MakeRoomForWrite. */
    method SwitchMemTable()
      requires Valid() && imm.None?
      modifies this
      ensures Valid() && log == old(log)
      ensures Next(old(Abs()), log, Step.SwitchMemTable, Abs(), log)
    {
      SwitchKeepsInv(Abs(), log);
      imm, mem := Some(mem), [];
    }

    /** CompactMemTable: write the immutable memtable as a table, place it, install the version. */
    method CompactMemTable(fileSize: nat, maxGrandParentOverlap: nat)
      requires Valid() && imm.Some?
      modifies this
      ensures Valid() && log == old(log) && imm == None
      ensures exists level :: Next(old(Abs()), log, Step.Flush(level, fileSize), Abs(), log)
    {
      hide Inv, Next;
      var level := WriteLevel0Table(true, fileSize, maxGrandParentOverlap);
    }

    /** Only a table written during recovery has no version to be placed in; it goes to level 0. */
    method WriteLevel0Table(hasBase: bool, fileSize: nat, maxGrandParentOverlap: nat) returns (level: nat)
      requires Valid() && imm.Some?
      modifies this
      ensures Valid() && log == old(log) && (!hasBase ==> level == 0)
      ensures Next(old(Abs()), log, Step.Flush(level, fileSize), Abs(), log)
      ensures Abs() == old(Abs()).(imm := None, version := version, nextFile := nextFile)
    {
      hide Inv, FlushStep;
      ghost var st := Abs();
      Ready(st, log);
      var run := imm.value;
      level := 0;
      var v := version;
      if run != [] {
        var f := File(nextFile, fileSize, run[0].ik, run[|run| - 1].ik, run);
        if hasBase {
          level := PlaceFlush(f, maxGrandParentOverlap);
        }
        v := LogAndApply(version, FlushEdit(level, f));
      }
      FlushInstalled(st, log, level, fileSize, v);
      version, nextFile, imm := v, nextFile + 1, None;
    }

    method PlaceFlush(f: File, maxGrandParentOverlap: nat) returns (level: nat)
      requires Valid()
      ensures level <= MAX_MEM_COMPACT_LEVEL && ClearPath(version, level, f)
    {
      forall l | 0 <= l < NUM_LEVELS
        ensures forall g | g in version.files[l] :: g.largest.sn <= MAX_SEQUENCE
      {
        LevelFacts(Abs(), log, l);
      }
      level := PickLevelForMemTableOutput(version, f.smallest.user, f.largest.user, maxGrandParentOverlap);
    }

    /** The trivial-move branch of BackgroundCompaction. */
    method MoveFile(c: Compaction)
      requires Valid() && running.None? && c.level + 1 < NUM_LEVELS && |c.in0| == 1 && c.in1 == []
      requires Compactable(version.files[c.level], version.files[c.level + 1], c)
      modifies this
      ensures Valid() && log == old(log)
      ensures Next(old(Abs()), log, Step.Move(c), Abs(), log)
    {
      hide Inv, MoveStep;
      ghost var st := Abs();
      CompactionEditOk(st, log, c, c.in0);
      var v := LogAndApply(version, CompactionEdit(c, c.in0));
      MoveInstalled(st, log, c, v);
      version := v;
    }

    /** The part of DoCompactionWork before the mutex is released. Other methods may run from here to the install. */
    method StartCompaction(c: Compaction)
      requires Valid() && running.None? && c.level + 1 < NUM_LEVELS
      requires Compactable(version.files[c.level], version.files[c.level + 1], c)
      modifies this`running
      ensures Valid() && Next(old(Abs()), log, Step.Start(c), Abs(), log)
    {
      hide Inv, Compactable, VersionOk, NumbersOk, SortedDisjoint, FilesOk;
      ghost var st := Abs();
      Ready(st, log);
      var smallest := if snapshots == [] then lastSequence else snapshots[0];
      StartKeepsInv(st, log, c, st.(running := Some(Running(c, version, smallest, []))));
      running := Some(Running(c, version, smallest, []));
    }

    /** The merge loop of DoCompactionWork over `input`, the merged entries of the inputs; the finished tables
        become numbered output files. */
    method WriteOutputs(input: seq<Entry>, stopBefore: nat -> bool, full: nat -> bool, sizes: nat -> nat)
      requires Valid() && running.Some? && running.value.outs == [] && MergedInput(running.value.c, input)
      modifies this`running, this`nextFile
      ensures Valid() && running.Some? && running.value == old(running).value.(outs := running.value.outs)
      ensures Valid() && InstallReady(Abs()) && Flatten(Runs(running.value.outs)) == KeptBy(running.value, input)
    {
      hide Inv, BaseKeys, Outputs, Kept, Flatten, FilesOk, SortedDisjoint;
      ghost var st := Abs();
      RunningReady(st, log);
      var r := running.value;
      var compact := DoCompactionWork(r.base, r.c.level, input, r.smallest, stopBefore, full);
      ghost var tables := compact.outputs;
      for i := 0 to |compact.outputs|
        invariant running.Some? && running.value == r.(outs := running.value.outs)
        invariant compact.outputs == tables && Runs(running.value.outs) == tables[..i]
        invariant Abs() == st.(running := running, nextFile := nextFile) && Inv(Abs(), log)
      {
        var run := compact.outputs[i];
        assert run in tables;
        var f := File(nextFile, sizes(i), run[0].ik, run[|run| - 1].ik, run);
        FinishedOutput(Abs(), log, f);
        running, nextFile := Some(running.value.(outs := running.value.outs + [f])), nextFile + 1;
      }
      assert tables[..|tables|] == tables;
      RunningReady(Abs(), log);
    }

    method InstallCompactionResults(ghost input: seq<Entry>)
      requires Valid() && InstallReady(Abs()) && MergedInput(running.value.c, input)
      requires Flatten(Runs(running.value.outs)) == KeptBy(running.value, input)
      modifies this
      ensures log == old(log) && InstallStep(old(Abs()), input, Abs())
      ensures Valid() <==> old(Harmless(Abs(), input))
    {
      hide Inv, InstallStep, Flatten, Runs, KeptBy, MergedInput, Harmless;
      ghost var st := Abs();
      var r := running.value;
      CompactionEditOk(st, log, r.c, r.outs);
      var v := LogAndApply(version, CompactionEdit(r.c, r.outs));
      CompactInstalled(st, log, input, v);
      version, running := v, None;
    }

    /** A whole compaction. With nothing in between, the database stays correct exactly when it exposes no older
        value, and so whenever the next level has no boundary file past the inputs. */
    method Compact(c: Compaction, input: seq<Entry>, stopBefore: nat -> bool, full: nat -> bool, sizes: nat -> nat)
      requires Valid() && running.None? && c.level + 1 < NUM_LEVELS && MergedInput(c, input)
      requires Compactable(version.files[c.level], version.files[c.level + 1], c)
      modifies this
      ensures log == old(log) && Compacted(old(Abs()), c, input, Abs())
      ensures Valid() <==> NothingExposed(old(Untouched(Abs(), c)), input, old(Oldest(Abs())),
        BaseKeys(old(version), c.level, input), old(Horizon(Abs())))
      ensures NoBoundaryBelow(old(version).files[c.level + 1], c.in1) ==> Valid()
    {
      hide Inv, InstallStep, Compactable, NoBoundaryBelow, NothingExposed, BaseKeys, MergedInput, Outputs, Kept,
        Untouched, Harmless;
      ghost var st := Abs();
      StartCompaction(c);
      WriteOutputs(input, stopBefore, full, sizes);
      ghost var ready := Abs();
      assert ready == st.(nextFile := ready.nextFile, running := Some(Running(c, st.version, Oldest(st), ready.running.value.outs)));
      InstallCompactionResults(input);
      WholeCompaction(st, log, c, input, ready, Abs());
    }

    /** Which compaction to run, if any (PickCompaction, CompactRange). */
    method Pick(wanted: Wanted, sizeLimit: nat, expandedLimit: nat) returns (c: Option<Compaction>)
      requires Valid() && Possible(wanted, version)
      ensures c.Some? ==>
        && c.value.level + 1 < NUM_LEVELS
        && Compactable(version.files[c.value.level], version.files[c.value.level + 1], c.value)
      ensures c.Some? ==> wanted != Nothing && Picked(wanted, version, sizeLimit, expandedLimit, c.value)
      ensures c.Some? && !wanted.Manual? ==> Gapless(Both(c.value))
      ensures c.None? && wanted != Nothing ==>
        wanted.Manual? && forall f | f in version.files[wanted.level] :: !Overlaps(f, wanted.begin, wanted.end)
    {
      hide Inv, FromRange, FromFile, Gapless, Compactable, FilesOk, UniqueSeq, SortedDisjoint, Overlaps, IsNext,
        VersionOk, NumbersOk;
      c := None;
      if wanted != Nothing {
        var level := wanted.level;
        Ready(Abs(), log);
        LevelFacts(Abs(), log, level);
        LevelFacts(Abs(), log, level + 1);
        var files, next := version.files[level], version.files[level + 1];
        match wanted {
          case Manual(_, begin, end) =>
            c := CompactRange(files, next, level, begin, end, sizeLimit, expandedLimit);
          case BySize(_, pointer) =>
            var picked := PickCompaction(files, next, level, pointer, expandedLimit);
            c := Some(picked);
          case BySeek(_, file) =>
            var picked := CompactFile(files, next, level, file, expandedLimit);
            c := Some(picked);
        }
        if c.Some? {
          PickedIsGapless(wanted, version, sizeLimit, expandedLimit, c.value);
        }
      }
    }

    /** BackgroundCompaction: flush if there is something to flush, or else run the compaction that is wanted,
        moving a single file down when that is enough. */
    method BackgroundCompaction(wanted: Wanted, flushSize: nat, maxGrandParentOverlap: nat, sizeLimit: nat, expandedLimit: nat,
                                stopBefore: nat -> bool, full: nat -> bool, sizes: nat -> nat)
      returns (picked: Option<Compaction>, ghost input: seq<Entry>)
      requires Valid() && running.None? && Possible(wanted, version)
      modifies this
      ensures log == old(log)
      ensures picked.None? ==> Valid() && (old(imm).Some? ==> imm.None?) && (old(imm).None? ==> Abs() == old(Abs()))
      ensures picked.Some? ==>
        var (v, c) := (old(version), picked.value);
        var below := if c.level + 2 < |v.files| then Selected(v.files[c.level + 2], Some(c.lo), Some(c.hi)) else [];
        // A single file moves when nothing at the next level meets it and it meets little enough one level further down.
        var moved := !wanted.Manual? && |c.in0| == 1 && c.in1 == [] && TotalFileSize(below) <= maxGrandParentOverlap;
        Ran(old(Abs()), log, c, moved, input, Abs())
      ensures picked.Some? ==> wanted != Nothing && Picked(wanted, old(version), sizeLimit, expandedLimit, picked.value)
      ensures picked.Some? && NoBoundaryBelow(old(version).files[picked.value.level + 1], picked.value.in1) ==> Valid()
    {
      hide Inv, Compactable, Compacted, NoBoundaryBelow, NothingExposed, Next, Possible, Selected, TotalFileSize;
      hide UniqueSeq, InputEntries, MergedInput, Untouched, BaseKeys, VersionOk, NumbersOk, SortedLevels, Picked;
      picked, input := None, [];
      if imm.Some? {
        CompactMemTable(flushSize, maxGrandParentOverlap);
        return;
      }
      picked := Pick(wanted, sizeLimit, expandedLimit);
      if picked.None? {
        return;
      }
      var c := picked.value;
      Ready(Abs(), log);
      NothingBelow();
      if !wanted.Manual? && IsTrivialMove(version, c, maxGrandParentOverlap) {
        MoveFile(c);
      } else {
        InputsAreUnique(Abs(), log, c);
        var merged := MergeInputs(c);
        input := merged;
        Compact(c, merged, stopBefore, full, sizes);
      }
    }

    method GetSnapshot() returns (s: nat)
      requires Valid()
      modifies this`snapshots
      ensures Valid() && s == lastSequence && snapshots == old(snapshots) + [s]
    {
      SnapshotsKeepInv(Abs(), log, TakeSnapshot(Abs()));
      s := lastSequence;
      snapshots := snapshots + [s];
    }

    method ReleaseSnapshot(i: nat)
      requires Valid() && i < |snapshots|
      modifies this`snapshots
      ensures Valid() && snapshots == old(snapshots)[..i] + old(snapshots)[i + 1..]
    {
      SnapshotsKeepInv(Abs(), log, DropSnapshot(Abs(), i));
      snapshots := snapshots[..i] + snapshots[i + 1..];
    }

    /** DBImpl::Get: memtable, then immutable memtable, then the version; the answer is what the log says. */
    method Get(u: UserKey, snapshot: Option<nat>) returns (value: Option<Bytes>)
      requires Valid() && (snapshot.Some? ==> snapshot.value in snapshots)
      ensures var s := if snapshot.Some? then snapshot.value else lastSequence;
        value == View(LogNewest(log, u, s)) && Shown(log, u, s, value)
    {
      hide Shown;
      var s := if snapshot.Some? then snapshot.value else lastSequence;
      var o := RunGet(mem, u, s);
      RunGetAnswers(mem, u, s);
      ghost var below := ImmEntries(Abs()) + All(version);
      if o.None? {
        var diskOnly := imm.None?;
        if imm.Some? {
          o := RunGet(imm.value, u, s);
          RunGetAnswers(imm.value, u, s);
        }
        if o.None? {
          o := Versions.Get(version, u, s);
        }
        ShallowerAnswers(ImmEntries(Abs()), All(version), u, s, o);
      }
      LayersAnswer(Abs(), log, u, s, o);
      LogShows(log, u, s);
      value := View(o);
    }
  }

  lemma OneMoreFile(c: Compaction, files: seq<File>, i: nat)
    requires files == c.in0 + c.in1 && i < |files| && UniqueSeq(InputEntries(c))
    ensures FileEntries(files[..i + 1]) == FileEntries(files[..i]) + Elements(files[i].run)
    ensures UniqueSeq(FileEntries(files[..i]) + Elements(files[i].run))
  {
    BothInputs(c);
    assert files[..i + 1] == files[..i] + [files[i]];
    assert files[i] in files;
    assert FileEntries(files[..i + 1]) <= FileEntries(files);
  }

  lemma BothInputs(c: Compaction)
    ensures FileEntries(c.in0 + c.in1) == InputEntries(c)
  {
  }

  lemma InputsAreUnique(st: State, log: seq<Entry>, c: Compaction)
    requires Inv(st, log) && c.level + 1 < NUM_LEVELS && |st.version.files| == NUM_LEVELS
    requires Compactable(st.version.files[c.level], st.version.files[c.level + 1], c)
    ensures UniqueSeq(InputEntries(c))
  {
    LoggedUnique(Everything(st), log);
    InputsAreStored(st.version, c);
  }

  lemma Ready(st: State, log: seq<Entry>)
    requires Inv(st, log)
    ensures
      && DiskOk(st.version, st.nextFile)
      && SortedLevels(st.version)
      && Horizon(st) <= Oldest(st) < MAX_SEQUENCE
  {
  }

  lemma RunningReady(st: State, log: seq<Entry>)
    requires Inv(st, log) && st.running.Some?
    ensures
      && InstallReady(st)
      && SortedLevels(st.running.value.base)
      && st.running.value.smallest < MAX_SEQUENCE
  {
  }

  lemma FinishedOutput(st: State, log: seq<Entry>, f: File)
    requires Inv(st, log) && st.running.Some? && f.number == st.nextFile
    requires f.run != [] && f.smallest == f.run[0].ik && f.largest == f.run[|f.run| - 1].ik
    ensures var outs := st.running.value.outs + [f];
      && Inv(st.(nextFile := st.nextFile + 1, running := Some(st.running.value.(outs := outs))), log)
      && Runs(outs) == Runs(st.running.value.outs) + [f.run]
  {
    hide Inv;
    OutputKeepsInv(st, log, f, st.(nextFile := st.nextFile + 1, running := Some(st.running.value.(outs := st.running.value.outs + [f]))));
  }

  /** Right after its start a compaction takes all it meets, so that only an exposed value can do harm. */
  lemma WholeCompaction(st: State, log: seq<Entry>, c: Compaction, input: seq<Entry>, ready: State, st': State)
    requires Inv(st, log) && Inv(ready, log) && InstallStep(ready, input, st')
    requires c.level + 1 < NUM_LEVELS && Compactable(st.version.files[c.level], st.version.files[c.level + 1], c)
    requires ready == st.(nextFile := ready.nextFile, running := Some(Running(c, st.version, Oldest(st), ready.running.value.outs)))
    ensures InstallReady(ready)
    ensures Harmless(ready, input) <==> NothingExposed(Untouched(st, c), input, Oldest(st), BaseKeys(st.version, c.level, input), Horizon(st))
    ensures NoBoundaryBelow(st.version.files[c.level + 1], c.in1) ==> Harmless(ready, input)
  {
    hide Inv, CompactionInstall, Compactable, NothingExposed, NoBoundaryBelow, OutputsFit, KeptBy, Flatten, Rest,
      BaseKeys, MergedInput;
    OutputsFitAtOnce(st, log, c, input, ready, st');
    if NoBoundaryBelow(st.version.files[c.level + 1], c.in1) {
      NoBoundaryExposesNothing(ready, log, input, st');
    }
  }

  lemma OutputsFitAtOnce(st: State, log: seq<Entry>, c: Compaction, input: seq<Entry>, ready: State, st': State)
    requires Inv(ready, log) && InstallStep(ready, input, st')
    requires c.level + 1 < NUM_LEVELS && Compactable(ready.version.files[c.level], ready.version.files[c.level + 1], c)
    requires ready.running.value.c == c
    ensures InstallReady(ready) && OutputsFit(ready.version.files[c.level + 1], c, ready.running.value.outs)
  {
    hide Logged, Faithful, MemoryOk, NumbersOk, NumbersFree, KeptBy, Flatten, CompactionInstall, Compactable,
      SortedDisjoint, LevelsAbove,
      ZeroOrdered, OutputsFit, Held, TakesAll, Gapless, NoBoundaryBelow;
    var r := ready.running.value;
    OutputsOfInput(r, input);
    HeldAtStart(ready.version.files[c.level], ready.version.files[c.level + 1], c);
    TakingAllFits(ready.version.files[c.level], ready.version.files[c.level + 1], c, r.outs);
  }

  lemma CompactionEditOk(st: State, log: seq<Entry>, c: Compaction, outs: seq<File>)
    requires Inv(st, log) && c.level + 1 < NUM_LEVELS
    ensures |st.version.files| == NUM_LEVELS && EditOk(CompactionEdit(c, outs))
  {
  }

  lemma OutputNumbers(v: Version, nextFile: nat, l: nat, outs: seq<File>)
    requires l < |v.files| && NumbersFree(outs, v, nextFile)
    ensures DistinctNumbers(outs) && NoShared(v.files[l], outs)
  {
  }

  /** The three layers of a read, taken in turn, answer for the whole database. */
  lemma LayersAnswer(st: State, log: seq<Entry>, u: UserKey, s: nat, o: Option<Entry>)
    requires Inv(st, log) && s >= Oldest(st)
    requires var inMem := RunGet(st.mem, u, s);
      if inMem.Some? then o == inMem else Answers(ImmEntries(st) + All(st.version), u, s, o)
    ensures View(o) == View(LogNewest(log, u, s))
  {
    hide DiskOk, WorkOk, SnapshotsOk, Holds, RunGet, LogNewest;
    var below := ImmEntries(st) + All(st.version);
    MemoryAnswers(st, log, u, s);
    ShallowerAnswers(Elements(st.mem), below, u, s, o);
    assert Everything(st) == Elements(st.mem) + below;
    LoggedUnique(Everything(st), log);
    assert Newest(Everything(st), u, s) == o;
  }

  lemma MemoryAnswers(st: State, log: seq<Entry>, u: UserKey, s: nat)
    requires MemoryOk(st, log, All(st.version))
    ensures Answers(Elements(st.mem), u, s, RunGet(st.mem, u, s))
    ensures Above(Elements(st.mem), ImmEntries(st) + All(st.version))
  {
    MemoryAbove(st, log, All(st.version));
    RunGetAnswers(st.mem, u, s);
  }
}
