module History {
  // The edits a running database writes to its manifest never add a file number twice at a level, so that
  // recovery, which reads them all through one builder, arrives at the files of the running database.

  import opened Keys
  import opened Entries
  import opened Versions
  import opened Picker
  import opened Manifest
  import opened Compactions
  import opened Installs
  import opened Database
  import opened DbImpls

  /** What a step writes to the manifest. */
  ghost function EditOf(st: State, step: Step): seq<Edit> {
    match step
    case Flush(level, size) =>
      if st.imm.Some? && st.imm.value != [] then [FlushEdit(level, FlushedFile(st, st.imm.value, size))] else []
    case Move(c) => [CompactionEdit(c, c.in0)]
    case Install(_) => if st.running.Some? then [CompactionEdit(st.running.value.c, st.running.value.outs)] else []
    case _ => []
  }

  ghost function Edits(run: Run): seq<Edit> {
    if run.Opened? then [] else Edits(run.before) + EditOf(StateOf(run.before), run.step)
  }

  /** The files of level l are those the edits lead to, no number was added twice, and those added so far at l
      are neither numbers still to be handed out, nor numbers of outputs not yet installed, nor of files above l. */
  ghost predicate LevelHistory(edits: seq<Edit>, st: State, l: nat)
    requires l < |st.version.files|
  {
    var added := AllAtOnce(edits, l).added;
    && AddedOnce([], edits, l) && st.version.files[l] == OneAtATime([], edits, l)
    && (forall f | f in added :: f.number < st.nextFile)
    && (st.running.Some? ==> NoShared(added, st.running.value.outs))
    && forall k | 0 <= k < l :: NoShared(added, st.version.files[k])
  }

  ghost predicate HistoryOk(edits: seq<Edit>, st: State) {
    |st.version.files| == NUM_LEVELS && forall l | 0 <= l < NUM_LEVELS :: LevelHistory(edits, st, l)
  }

  /** At level l the edit deletes exactly the files `gone` and adds `came`. */
  ghost predicate Edits1(e: Edit, l: nat, gone: seq<File>, came: seq<File>) {
    DeletedAt(e, l) == NumbersOf(gone) && AddsAt(e.added, l) == came
  }

  lemma EditApplied(edits: seq<Edit>, e: Edit, l: nat, files: seq<File>, gone: seq<File>, came: seq<File>, files': seq<File>)
    requires AddedOnce([], edits, l) && files == OneAtATime([], edits, l)
    requires BySmallest(files) && UniqueNumbers(files) && forall f | f in gone :: f in files
    requires Edits1(e, l, gone, came) && LevelEdit(files, gone, came, files')
    requires DistinctNumbers(came) && NoShared(files, came) && NoShared(AllAtOnce(edits, l).added, came)
    ensures AddedOnce([], edits + [e], l) && files' == OneAtATime([], edits + [e], l)
    ensures forall f :: f in AllAtOnce(edits + [e], l).added <==> f in AllAtOnce(edits, l).added || f in came
  {
    hide AddedOnce, OneAtATime, AllAtOnce, ApplyLevel, UniqueNumbers, NoShared;
    SameFiles([], edits, l);
    LastEdit(edits, e, l);
    EditIsLevelEdit(files, e, l, gone, came);
    SortedUnique(files', OneAtATime(files, [e], l));
  }

  lemma LastEdit(edits: seq<Edit>, e: Edit, l: nat)
    requires AddedOnce([], edits, l) && BuilderOk([], AllAtOnce(edits, l)) && FreshAdds([], AllAtOnce(edits, l), e, l)
    ensures AddedOnce([], edits + [e], l)
    ensures OneAtATime([], edits + [e], l) == OneAtATime(OneAtATime([], edits, l), [e], l)
    ensures forall f :: f in AllAtOnce(edits + [e], l).added <==> f in AllAtOnce(edits, l).added || f in AddsAt(e.added, l)
  {
    var all, st := edits + [e], AllAtOnce(edits, l);
    assert all[..|all| - 1] == edits && [e][..0] == [];
    AddAllSpec(LevelState(st.deleted + DeletedAt(e, l), st.added), e.added, l);
  }

  /** One level after a step that writes the edit e. */
  lemma LevelAfter(edits: seq<Edit>, e: Edit, st: State, st': State, l: nat, gone: seq<File>, came: seq<File>)
    requires l < |st.version.files| == |st'.version.files| && LevelHistory(edits, st, l)
    requires BySmallest(st.version.files[l]) && UniqueNumbers(st.version.files[l]) && forall f | f in gone :: f in st.version.files[l]
    requires Edits1(e, l, gone, came) && LevelEdit(st.version.files[l], gone, came, st'.version.files[l])
    requires DistinctNumbers(came) && NoShared(st.version.files[l], came) && NoShared(AllAtOnce(edits, l).added, came)
    requires (forall f | f in came :: f.number < st'.nextFile) && st.nextFile <= st'.nextFile
    requires st'.running.Some? ==> st'.running == st.running && NoShared(came, st.running.value.outs)
    requires forall k | 0 <= k < l :: NoShared(AllAtOnce(edits, l).added, st'.version.files[k]) && NoShared(came, st'.version.files[k])
    ensures LevelHistory(edits + [e], st', l)
  {
    hide AddedOnce, OneAtATime, AllAtOnce, BySmallest, UniqueNumbers, LevelEdit, Edits1;
    EditApplied(edits, e, l, st.version.files[l], gone, came, st'.version.files[l]);
  }

  lemma LevelFiles(v: Version, nextFile: nat, l: nat)
    requires NumbersOk(v, nextFile) && l < |v.files|
    ensures BySmallest(v.files[l]) && UniqueNumbers(v.files[l]) && forall f | f in v.files[l] :: f.number < nextFile
  {
  }

  lemma Unchanged(files: seq<File>)
    requires BySmallest(files)
    ensures LevelEdit(files, [], [], files) && NumbersOf([]) == {}
  {
  }

  lemma FlushHistory(edits: seq<Edit>, st: State, level: nat, size: nat, st': State)
    requires NumbersOk(st.version, st.nextFile) && (st.running.Some? ==> NumbersFree(st.running.value.outs, st.version, st.nextFile))
    requires FlushStep(st, level, size, st') && st.imm.value != [] && HistoryOk(edits, st)
    ensures HistoryOk(edits + [FlushEdit(level, FlushedFile(st, st.imm.value, size))], st')
  {
    hide NumbersOk, ClearPath, AddedOnce, OneAtATime, AllAtOnce, BySmallest, UniqueNumbers, LevelEdit, Edits1;
    var f := FlushedFile(st, st.imm.value, size);
    forall l | 0 <= l < NUM_LEVELS
      ensures LevelHistory(edits + [FlushEdit(level, f)], st', l)
    {
      FlushLevel(edits, st, level, f, st', l);
    }
  }

  lemma FlushLevel(edits: seq<Edit>, st: State, level: nat, f: File, st': State, l: nat)
    requires |st.version.files| == |st'.version.files| == NUM_LEVELS && level < NUM_LEVELS && l < NUM_LEVELS
    requires NumbersOk(st.version, st.nextFile) && (st.running.Some? ==> NumbersFree(st.running.value.outs, st.version, st.nextFile))
    requires LevelHistory(edits, st, l) && f.number == st.nextFile < st'.nextFile && st'.running == st.running
    requires FlushInstall(st.version, level, f, st'.version)
    ensures LevelHistory(edits + [FlushEdit(level, f)], st', l)
  {
    hide NumbersOk, AddedOnce, OneAtATime, AllAtOnce, BySmallest, UniqueNumbers, Edits1;
    var came := if l == level then [f] else [];
    FlushEditAt(level, f, l);
    LevelFiles(st.version, st.nextFile, l);
    Unchanged(st.version.files[l]);
    AddedFile(st.version.files[level], f, st'.version.files[level]);
    hide LevelEdit;
    forall k | 0 <= k < l
      ensures NoShared(AllAtOnce(edits, l).added, st'.version.files[k]) && NoShared(came, st'.version.files[k])
    {
      LevelFiles(st.version, st.nextFile, k);
    }
    LevelAfter(edits, FlushEdit(level, f), st, st', l, [], came);
  }

  lemma FlushEditAt(level: nat, f: File, l: nat)
    ensures Edits1(FlushEdit(level, f), l, [], if l == level then [f] else [])
  {
    assert FlushEdit(level, f).added[..0] == [] && AddsAt([], l) == [];
  }

  lemma CompactionEditAt(c: Compaction, outs: seq<File>, l: nat)
    ensures Edits1(CompactionEdit(c, outs), l, if l == c.level then c.in0 else if l == c.level + 1 then c.in1 else [],
      if l == c.level + 1 then outs else [])
  {
    AddsAtLevel(outs, c.level + 1, l);
    CompactionDeletes(c, outs, l);
  }

  /** Outputs whose numbers no edit has added, at a level below all files that carry them. */
  lemma InstallHistory(edits: seq<Edit>, st: State, c: Compaction, outs: seq<File>, st': State)
    requires HistoryOk(edits, st) && |st'.version.files| == NUM_LEVELS && c.level + 1 < NUM_LEVELS
    requires NumbersOk(st.version, st.nextFile) && st.nextFile == st'.nextFile && st'.running.None?
    requires (forall f | f in c.in0 :: f in st.version.files[c.level]) && forall f | f in c.in1 :: f in st.version.files[c.level + 1]
    requires CompactionInstall(st.version, c, outs, st'.version)
    requires DistinctNumbers(outs) && NoShared(st.version.files[c.level + 1], outs) && forall f | f in outs :: f.number < st.nextFile
    requires forall l | c.level < l < NUM_LEVELS :: NoShared(AllAtOnce(edits, l).added, outs)
    requires forall k | 0 <= k <= c.level :: NoShared(outs, st'.version.files[k])
    ensures HistoryOk(edits + [CompactionEdit(c, outs)], st')
  {
    hide NumbersOk, AddedOnce, OneAtATime, AllAtOnce, BySmallest, UniqueNumbers, Edits1, CompactionEdit;
    forall l | 0 <= l < NUM_LEVELS
      ensures LevelHistory(edits + [CompactionEdit(c, outs)], st', l)
    {
      var gone := if l == c.level then c.in0 else if l == c.level + 1 then c.in1 else [];
      var came := if l == c.level + 1 then outs else [];
      CompactionEditAt(c, outs, l);
      LevelFiles(st.version, st.nextFile, l);
      Unchanged(st.version.files[l]);
      InstallLevels(edits, st, c, outs, st', l);
      assert forall k | 0 <= k < l :: NoShared(came, st'.version.files[k]);
      LevelAfter(edits, CompactionEdit(c, outs), st, st', l, gone, came);
    }
  }

  lemma InstallLevels(edits: seq<Edit>, st: State, c: Compaction, outs: seq<File>, st': State, l: nat)
    requires HistoryOk(edits, st) && |st'.version.files| == NUM_LEVELS && c.level + 1 < NUM_LEVELS && l < NUM_LEVELS
    requires CompactionInstall(st.version, c, outs, st'.version)
    requires forall l | c.level < l < NUM_LEVELS :: NoShared(AllAtOnce(edits, l).added, outs)
    requires forall k | 0 <= k <= c.level :: NoShared(outs, st'.version.files[k])
    ensures forall k | 0 <= k < l :: NoShared(AllAtOnce(edits, l).added, st'.version.files[k])
    ensures l == c.level + 1 ==> forall k | 0 <= k < l :: NoShared(outs, st'.version.files[k])
  {
    hide AddedOnce, OneAtATime, AllAtOnce, CompactionInstall;
    assert LevelHistory(edits, st, l);
    forall k | 0 <= k < l
      ensures NoShared(AllAtOnce(edits, l).added, st'.version.files[k])
    {
      forall f | f in st'.version.files[k]
        ensures f in st.version.files[k] || (k == c.level + 1 && f in outs)
      {
        InstalledFile(st.version, c, outs, st'.version, k, f);
      }
    }
  }

  lemma MoveHistory(edits: seq<Edit>, st: State, c: Compaction, st': State)
    requires HistoryOk(edits, st) && DiskOk(st.version, st.nextFile) && MoveStep(st, c, st')
    ensures HistoryOk(edits + [CompactionEdit(c, c.in0)], st')
  {
    hide NumbersOk, AllAtOnce, AddedOnce, OneAtATime, LevelEdit, LeavesNewer, IsRange, CompactionEdit, ZeroOrdered,
      LevelsAbove;
    var f := c.in0[0];
    assert f in c.in0 && f in st.version.files[c.level];
    LevelFiles(st.version, st.nextFile, c.level);
    forall l | c.level < l < NUM_LEVELS
      ensures NoShared(AllAtOnce(edits, l).added, c.in0)
    {
      assert LevelHistory(edits, st, l);
    }
    forall k | 0 <= k <= c.level
      ensures NoShared(c.in0, st'.version.files[k])
    {
      MovedAway(st, c, st', k);
    }
    MovedIsNew(st, c);
    InstallHistory(edits, st, c, c.in0, st');
  }

  lemma MovedAway(st: State, c: Compaction, st': State, k: nat)
    requires NumbersOk(st.version, st.nextFile) && MoveStep(st, c, st') && k <= c.level
    ensures NoShared(c.in0, st'.version.files[k])
  {
    hide BySmallest, LeavesNewer, IsRange;
    assert c.in0[0] in c.in0;
  }

  lemma MovedIsNew(st: State, c: Compaction)
    requires NumbersOk(st.version, st.nextFile) && |st.version.files| == NUM_LEVELS && c.level + 1 < NUM_LEVELS
    requires Compactable(st.version.files[c.level], st.version.files[c.level + 1], c) && |c.in0| == 1
    ensures DistinctNumbers(c.in0) && NoShared(st.version.files[c.level + 1], c.in0)
  {
    hide BySmallest, LeavesNewer, IsRange;
  }

  lemma CompactHistory(edits: seq<Edit>, st: State, input: seq<Entry>, st': State)
    requires HistoryOk(edits, st) && DiskOk(st.version, st.nextFile) && WorkOk(st) && InstallStep(st, input, st')
    ensures HistoryOk(edits + [CompactionEdit(st.running.value.c, st.running.value.outs)], st')
  {
    hide VersionOk, NumbersOk, Flatten, KeptBy, TakesAll, NoBoundaryBelow, BaseLevel, SortedLevels, AllAtOnce,
      AddedOnce, OneAtATime,
      LeavesNewer, IsRange, LevelEdit;
    var c, outs := st.running.value.c, st.running.value.outs;
    OutputNumbers(st.version, st.nextFile, c.level + 1, outs);
    forall l | c.level < l < NUM_LEVELS
      ensures NoShared(AllAtOnce(edits, l).added, outs)
    {
      assert LevelHistory(edits, st, l);
    }
    forall k | 0 <= k <= c.level
      ensures NoShared(outs, st'.version.files[k])
    {
      forall f | f in st'.version.files[k]
        ensures f in st.version.files[k]
      {
        InstalledFile(st.version, c, outs, st'.version, k, f);
      }
    }
    InstallHistory(edits, st, c, outs, st');
  }

  /** A step that writes no edit leaves the files alone, and hands out numbers no edit has used. */
  lemma QuietStep(edits: seq<Edit>, st: State, st': State)
    requires HistoryOk(edits, st) && st'.version == st.version && st.nextFile <= st'.nextFile
    requires st'.running.Some? ==> forall f | f in st'.running.value.outs ::
      f.number >= st.nextFile || (st.running.Some? && f in st.running.value.outs)
    ensures HistoryOk(edits, st')
  {
    hide AllAtOnce, AddedOnce, OneAtATime;
    forall l | 0 <= l < NUM_LEVELS
      ensures LevelHistory(edits, st', l)
    {
      assert LevelHistory(edits, st, l);
    }
  }

  lemma StepHistory(edits: seq<Edit>, st: State, log: seq<Entry>, step: Step, st': State, log': seq<Entry>)
    requires HistoryOk(edits, st) && Inv(st, log) && Next(st, log, step, st', log')
    ensures HistoryOk(edits + EditOf(st, step), st')
  {
    hide HistoryOk, MemoryOk, Logged, Faithful, VersionOk, NumbersOk, InputsOk, CompactionInstall, Compactable,
      FlushInstall, ClearPath,
      MergedInput, KeptBy, Flatten, CompactionEdit, FlushEdit;
    assert edits + [] == edits;
    match step {
      case Flush(level, size) =>
        if st.imm.value != [] {
          FlushHistory(edits, st, level, size, st');
        } else {
          QuietStep(edits, st, st');
        }
      case Move(c) => MoveHistory(edits, st, c, st');
      case Install(input) => CompactHistory(edits, st, input, st');
      case _ => QuietStep(edits, st, st');
    }
  }

  lemma {:induction false} RunHistory(run: Run)
    requires IsRun(run) && AllHarmless(run)
    ensures HistoryOk(Edits(run), StateOf(run)) && Inv(StateOf(run), LogOf(run))
  {
    hide HistoryOk, Inv, Next, EditOf;
    RunsAreValidIff(run);
    if run.Opened? {
      NoHistory();
    } else {
      RunHistory(run.before);
      StepHistory(Edits(run.before), StateOf(run.before), LogOf(run.before), run.step, run.st, run.log);
    }
  }

  lemma NoHistory()
    ensures HistoryOk([], INITIAL)
  {
  }

  /** Reading the manifest of any run, its first record and all edits after it, through one builder gives the
      files of the running database. */
  lemma ManifestGivesFiles(run: Run, l: nat)
    requires IsRun(run) && AllHarmless(run) && l < NUM_LEVELS
    ensures AddedOnce([], Edits(run), l)
    ensures |StateOf(run).version.files| == NUM_LEVELS
      && Save([], AllAtOnce([SnapshotOf(EMPTY_VERSION, NUM_LEVELS)] + Edits(run), l)) == StateOf(run).version.files[l]
  {
    hide AddedOnce, OneAtATime, AllAtOnce, IsRun, AllHarmless, Inv, SnapshotOf, Edits;
    RunHistory(run);
    assert LevelHistory(Edits(run), StateOf(run), l);
    RecoverReplaysManifest(EMPTY_VERSION, Edits(run), l);
  }
}
