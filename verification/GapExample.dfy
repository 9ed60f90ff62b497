/** A reachable state in which a write is lost. A manual compaction may take files with a gap between them
    (CompactRange, version_set.cc:1464); a memtable flushed while it runs (db_impl.cc:908) can be placed in that
    gap at the next level (db_impl.cc:522), and the output file then spans it. */
module GapExample {
  import opened Keys
  import opened Entries
  import opened Versions
  import opened Inputs
  import opened Picker
  import opened Manifest
  import opened Compactions
  import opened Installs
  import opened Database

  const A1 := Entry(IKey(1.0, 1, Value), [97])
  const Z1 := Entry(IKey(3.0, 2, Value), [98])
  const A2 := Entry(IKey(1.0, 3, Value), [99])
  const Z2 := Entry(IKey(3.0, 4, Value), [100])
  const M := Entry(IKey(2.0, 5, Value), [101])

  const FA1 := File(2, 40, A1.ik, A1.ik, [A1])
  const FZ1 := File(3, 40, Z1.ik, Z1.ik, [Z1])
  const FA2 := File(4, 40, A2.ik, A2.ik, [A2])
  const FZ2 := File(5, 40, Z2.ik, Z2.ik, [Z2])
  const FM := File(6, 40, M.ik, M.ik, [M])
  const OUTPUT := File(7, 60, A2.ik, Z2.ik, [A2, Z2])

  const V0 := EMPTY_VERSION
  const V1 := Version([[], [], [FA1], [], [], [], []])
  const V2 := Version([[], [], [FA1, FZ1], [], [], [], []])
  const V3 := Version([[], [FA2], [FA1, FZ1], [], [], [], []])
  const V4 := Version([[], [FA2, FZ2], [FA1, FZ1], [], [], [], []])
  const V5 := Version([[], [FA2, FZ2], [FA1, FM, FZ1], [], [], [], []])
  const V6 := Version([[], [], [OUTPUT, FM], [], [], [], []])

  const L1 := [A1]
  const L2 := [A1, Z1]
  const L3 := [A1, Z1, A2]
  const L4 := [A1, Z1, A2, Z2]
  const L5 := [A1, Z1, A2, Z2, M]

  const GAPPED := Compaction(1, [FA2, FZ2], [FA1, FZ1], 1.0, 3.0)

  /** With nothing in memory and a compaction under way or not. */
  function Resting(v: Version, last: nat, nextFile: nat, running: Option<Running>): State {
    State([], None, v, [], last, nextFile, running)
  }

  const STARTED := Some(Running(GAPPED, V4, 4, []))
  const WRITTEN := Some(Running(GAPPED, V4, 4, [OUTPUT]))

  /** A write, a memtable switch and a flush. */
  function WriteOut(run: Run, op: Op, level: nat, v: Version): Run {
    var st := StateOf(run);
    var e := EntryOf(op, |LogOf(run)| + 1);
    var log := LogOf(run) + [e];
    var r1 := Then(run, Step.Add(op), st.(mem := [e], lastSequence := st.lastSequence + 1), log);
    var r2 := Then(r1, Step.SwitchMemTable, StateOf(r1).(mem := [], imm := Some([e])), log);
    Then(r2, Step.Flush(level, 40), StateOf(r2).(imm := None, version := v, nextFile := st.nextFile + 1), log)
  }

  function Flushed(op: Op, last: nat, nextFile: nat): File {
    var e := EntryOf(op, last);
    File(nextFile, 40, e.ik, e.ik, [e])
  }

  lemma WriteOutIsRun(run: Run, op: Op, level: nat, v: Version)
    requires IsRun(run) && StateOf(run).mem == [] && StateOf(run).imm == None && StateOf(run).lastSequence == |LogOf(run)| < 10
    requires |StateOf(run).version.files| == NUM_LEVELS && level < NUM_LEVELS
    requires var f := Flushed(op, |LogOf(run)| + 1, StateOf(run).nextFile);
      FlushInstall(StateOf(run).version, level, f, v) && ClearPath(StateOf(run).version, level, f)
    ensures IsRun(WriteOut(run, op, level, v))
  {
    hide Next;
    var r3 := WriteOut(run, op, level, v);
    var r2 := r3.before;
    var r1 := r2.before;
    AddedAndSwitched(StateOf(run), LogOf(run), op);
    FlushedOut(r2.st, r2.log, level, v);
    assert IsRun(r1) && IsRun(r2) && IsRun(r3);
  }

  lemma AddedAndSwitched(st: State, log: seq<Entry>, op: Op)
    requires st.mem == [] && st.imm == None && st.lastSequence == |log| < 10
    ensures var e := EntryOf(op, |log| + 1);
      var added := st.(mem := [e], lastSequence := st.lastSequence + 1);
      && Next(st, log, Step.Add(op), added, log + [e])
      && Next(added, log + [e], Step.SwitchMemTable, added.(mem := [], imm := Some([e])), log + [e])
  {
    assert InsertRun([], EntryOf(op, |log| + 1)) == [EntryOf(op, |log| + 1)];
  }

  lemma FlushedOut(st: State, log: seq<Entry>, level: nat, v: Version)
    requires st.imm.Some? && |st.imm.value| == 1 && |st.version.files| == NUM_LEVELS && level < NUM_LEVELS
    requires var f := FlushedFile(st, st.imm.value, 40); FlushInstall(st.version, level, f, v) && ClearPath(st.version, level, f)
    ensures Next(st, log, Step.Flush(level, 40), st.(imm := None, version := v, nextFile := st.nextFile + 1), log)
  {
    hide FlushInstall, ClearPath;
  }

  const RUN1 := WriteOut(Opened, Put(1.0, [97]), 2, V1)
  const RUN2 := WriteOut(RUN1, Put(3.0, [98]), 2, V2)
  const RUN3 := WriteOut(RUN2, Put(1.0, [99]), 1, V3)
  const RUN4 := WriteOut(RUN3, Put(3.0, [100]), 1, V4)
  const RUN5 := Then(RUN4, Step.Start(GAPPED), Resting(V4, 4, 6, STARTED), L4)
  const RUN6 := WriteOut(RUN5, Put(2.0, [101]), 2, V5)
  const RUN7 := Then(RUN6, Step.Output(OUTPUT), Resting(V5, 5, 8, WRITTEN), L5)
  const RUN8 := Then(RUN7, Step.Install([A2, A1, Z2, Z1]), Resting(V6, 5, 8, None), L5)

  lemma Ends1()
    ensures StateOf(RUN1) == Resting(V1, 1, 3, None) && LogOf(RUN1) == L1
    ensures StateOf(RUN2) == Resting(V2, 2, 4, None) && LogOf(RUN2) == L2
  {
  }

  lemma Ends2()
    ensures StateOf(RUN3) == Resting(V3, 3, 5, None) && LogOf(RUN3) == L3
    ensures StateOf(RUN4) == Resting(V4, 4, 6, None) && LogOf(RUN4) == L4
  {
    Ends1();
  }

  lemma Ends3()
    ensures StateOf(RUN6) == Resting(V5, 5, 7, STARTED) && LogOf(RUN6) == L5
  {
  }

  lemma Flushes1()
    ensures FlushInstall(V0, 2, FA1, V1) && ClearPath(V0, 2, FA1)
    ensures FlushInstall(V1, 2, FZ1, V2) && ClearPath(V1, 2, FZ1)
  {
  }

  lemma Flushes2()
    ensures FlushInstall(V2, 1, FA2, V3) && ClearPath(V2, 1, FA2)
    ensures FlushInstall(V3, 1, FZ2, V4) && ClearPath(V3, 1, FZ2)
  {
  }

  lemma FlushIntoGap()
    ensures FlushInstall(V4, 2, FM, V5) && ClearPath(V4, 2, FM)
  {
  }

  lemma FourWrites()
    ensures IsRun(RUN1) && IsRun(RUN2) && IsRun(RUN3) && IsRun(RUN4)
  {
    hide IsRun, FlushInstall, ClearPath, WriteOut;
    Ends1();
    Ends2();
    Flushes1();
    Flushes2();
    assert IsRun(Opened) by { OpenedIsRun(); }
    WriteOutIsRun(Opened, Put(1.0, [97]), 2, V1);
    WriteOutIsRun(RUN1, Put(3.0, [98]), 2, V2);
    WriteOutIsRun(RUN2, Put(1.0, [99]), 1, V3);
    WriteOutIsRun(RUN3, Put(3.0, [100]), 1, V4);
  }

  lemma OpenedIsRun()
    ensures IsRun(Opened)
  {
  }

  lemma TwoFiles(f: File, g: File)
    ensures FileEntries([f, g]) == Elements(f.run) + Elements(g.run)
  {
    assert forall h | h in [f, g] :: h == f || h == g;
    assert f in [f, g] && g in [f, g];
  }

  lemma GappedInputs()
    ensures Compactable([FA2, FZ2], [FA1, FZ1], GAPPED)
  {
    hide LeavesNewer;
    assert LeavesNewer([FA2, FZ2], [FA2, FZ2]) by { AllTaken([FA2, FZ2]); }
    assert FA2 in [FA2, FZ2] && FZ2 in [FA2, FZ2];
  }

  lemma AllTaken(files: seq<File>)
    ensures LeavesNewer(files, files)
  {
  }

  lemma GappedMerge()
    ensures MergedInput(GAPPED, [A2, A1, Z2, Z1])
  {
    TwoFiles(FA2, FZ2);
    TwoFiles(FA1, FZ1);
    hide FileEntries;
  }

  /** Each newer value hides the older one; nothing else is dropped. */
  lemma GappedKeeps(base: set<UserKey>)
    ensures Kept([A2, A1, Z2, Z1], 4, 4, base) == [A2, Z2]
  {
    var input := [A2, A1, Z2, Z1];
    assert Kept(input, 0, 4, base) == [];
    assert Kept(input, 1, 4, base) == [A2];
    assert Kept(input, 2, 4, base) == [A2];
    assert Kept(input, 3, 4, base) == [A2, Z2];
  }

  lemma GappedInstalls()
    ensures CompactionInstall(V5, GAPPED, [OUTPUT], V6)
  {
  }

  lemma OneRun(f: File)
    ensures Flatten(Runs([f])) == f.run
  {
    assert Runs([f]) == [f.run] && [f.run][..0] == [];
  }

  lemma LastSteps()
    ensures Next(Resting(V4, 4, 6, None), L4, Step.Start(GAPPED), Resting(V4, 4, 6, STARTED), L4)
    ensures Next(Resting(V5, 5, 7, STARTED), L5, Step.Output(OUTPUT), Resting(V5, 5, 8, WRITTEN), L5)
  {
    hide Compactable;
    GappedInputs();
    assert STARTED.value.outs + [OUTPUT] == [OUTPUT];
  }

  lemma LastInstall()
    ensures Next(Resting(V5, 5, 8, WRITTEN), L5, Step.Install([A2, A1, Z2, Z1]), Resting(V6, 5, 8, None), L5)
  {
    hide Compactable, MergedInput, Outputs, CompactionInstall, Kept, BaseKeys, Flatten, Runs;
    GappedMerge();
    GappedKeeps(BaseKeys(V4, 1, [A2, A1, Z2, Z1]));
    GappedInstalls();
    OneRun(OUTPUT);
  }

  lemma GapIsRun()
    ensures IsRun(RUN8)
  {
    hide Next, WriteOut, FlushInstall, ClearPath;
    FourWrites();
    Ends2();
    LastSteps();
    assert IsRun(RUN5);
    FlushIntoGap();
    WriteOutIsRun(RUN5, Put(2.0, [101]), 2, V5);
    Ends3();
    LastInstall();
    assert IsRun(RUN7);
  }

  lemma TwoSelected(f: File, g: File, b: Option<UserKey>, e: Option<UserKey>)
    requires Overlaps(f, b, e) && Overlaps(g, b, e)
    ensures Selected([f, g], b, e) == [f, g]
  {
    assert [f, g][..1] == [f] && [f][..0] == [];
    assert Selected([f], b, e) == [f];
  }

  lemma BaseIsGapped(b: Compaction)
    requires IsBase([FA2, FZ2], [FA1, FZ1], 1, [FA2, FZ2], b)
    ensures b == GAPPED
  {
    hide IsClosure, Selected;
    ClosedAlready([FA2, FZ2], [FA2, FZ2], b.in0);
    RangeUnique([FA2, FZ2], b.lo, b.hi, 1.0, 3.0);
    TwoSelected(FA1, FZ1, Some(1.0), Some(3.0));
  }

  /** Both files of the level are inputs already, so that there is nothing to grow by. */
  lemma GrowthIsGapped(limit: nat, c: Compaction)
    requires IsGrowth([FA2, FZ2], [FA1, FZ1], GAPPED, limit, c)
    ensures c == GAPPED
  {
    hide IsClosure, IsOverlap, IsRange;
    var g :| IsWider([FA2, FZ2], [FA1, FZ1], GAPPED, g) && c == if Worthwhile(GAPPED, g, limit) then g else GAPPED;
    var lo, hi, sel :| IsRange([FA2, FZ2] + [FA1, FZ1], lo, hi) && IsOverlap([FA2, FZ2], false, Some(lo), Some(hi), sel)
      && IsClosure([FA2, FZ2], sel, g.in0);
    ClosedAlready([FA2, FZ2], sel, g.in0);
    AtMostTwo(Some(lo), Some(hi), sel);
  }

  lemma AtMostTwo(lo: Option<UserKey>, hi: Option<UserKey>, sel: seq<File>)
    requires IsOverlap([FA2, FZ2], false, lo, hi, sel)
    ensures |sel| <= 2
    ensures lo == None && hi == None ==> sel == [FA2, FZ2]
  {
    var b, e :| FinalRange([FA2, FZ2], false, lo, hi, b, e) && sel == Selected([FA2, FZ2], b, e);
    assert [FA2, FZ2][..1] == [FA2] && [FA2][..0] == [] && |Selected([], b, e)| == 0;
    assert |Selected([FA2], b, e)| <= 1;
    if lo == None && hi == None {
      TwoSelected(FA2, FZ2, b, e);
    }
  }

  lemma SetupIsGapped(limit: nat, c: Compaction)
    requires IsSetup([FA2, FZ2], [FA1, FZ1], 1, [FA2, FZ2], limit, c)
    ensures c == GAPPED
  {
    hide IsBase, IsGrowth;
    var b :| IsBase([FA2, FZ2], [FA1, FZ1], 1, [FA2, FZ2], b)
      && if b.in1 == [] then c == b else IsGrowth([FA2, FZ2], [FA1, FZ1], b, limit, c);
    BaseIsGapped(b);
    GrowthIsGapped(limit, c);
  }

  lemma RangeIsGapped(sizeLimit: nat, limit: nat, c: Compaction)
    requires sizeLimit > 40 && FromRange([FA2, FZ2], [FA1, FZ1], 1, None, None, sizeLimit, limit, c)
    ensures c == GAPPED
  {
    hide IsOverlap, IsSetup;
    var wanted, m :| IsOverlap([FA2, FZ2], false, None, None, wanted) && TakesUpTo(wanted, m, 1, sizeLimit)
      && IsSetup([FA2, FZ2], [FA1, FZ1], 1, wanted[..m], limit, c);
    AtMostTwo(None, None, wanted);
    assert [FA2, FZ2][..1] == [FA2] && [FA2][..0] == [] && TotalFileSize([FA2]) == 40;
    assert m == 2 && wanted[..m] == [FA2, FZ2];
    SetupIsGapped(limit, c);
  }

  lemma GapLevels()
    ensures LevelOk([FA2, FZ2], false) && FilesOk([FA1, FZ1])
  {
    TwoFiles(FA2, FZ2);
  }

  /** A manual compaction of level 1 without bounds takes both its files. */
  method PicksGapped(sizeLimit: nat, limit: nat) returns (o: Option<Compaction>)
    requires sizeLimit > 40
    ensures o == Some(GAPPED)
  {
    GapLevels();
    o := CompactRange([FA2, FZ2], [FA1, FZ1], 1, None, None, sizeLimit, limit);
    assert FA2 in [FA2, FZ2] && Overlaps(FA2, None, None);
    RangeIsGapped(sizeLimit, limit, o.value);
  }

  lemma WriteOutIsHarmless(run: Run, op: Op, level: nat, v: Version)
    requires AllHarmless(run)
    ensures AllHarmless(WriteOut(run, op, level, v))
  {
    var r3 := WriteOut(run, op, level, v);
    assert AllHarmless(r3.before.before) && AllHarmless(r3.before);
  }

  lemma StageIsOk(run: Run, v: Version)
    requires IsRun(run) && AllHarmless(run) && StateOf(run).version == v
    ensures VersionOk(v)
  {
    RunsAreValidIff(run);
  }

  lemma StagesAreOk()
    ensures VersionOk(V0) && VersionOk(V1) && VersionOk(V2) && VersionOk(V3) && VersionOk(V4)
  {
    hide IsRun, AllHarmless, WriteOut, VersionOk, FlushInstall, ClearPath;
    FourWrites();
    Ends1();
    Ends2();
    OpenedIsRun();
    StageIsOk(Opened, V0);
    WriteOutIsHarmless(Opened, Put(1.0, [97]), 2, V1);
    StageIsOk(RUN1, V1);
    WriteOutIsHarmless(RUN1, Put(3.0, [98]), 2, V2);
    StageIsOk(RUN2, V2);
    WriteOutIsHarmless(RUN2, Put(1.0, [99]), 1, V3);
    StageIsOk(RUN3, V3);
    WriteOutIsHarmless(RUN3, Put(3.0, [100]), 1, V4);
    StageIsOk(RUN4, V4);
  }

  lemma SmallSequences()
    ensures forall v | v in [V0, V1, V2, V3, V4] ::
      forall i, f | 0 <= i < NUM_LEVELS && f in v.files[i] :: f.largest.sn <= MAX_SEQUENCE
  {
  }

  lemma {:induction false} SelectedIsSmaller(files: seq<File>, b: Option<UserKey>, e: Option<UserKey>)
    ensures TotalFileSize(Selected(files, b, e)) <= TotalFileSize(files)
  {
    if files != [] {
      var r := Selected(files[..|files| - 1], b, e);
      SelectedIsSmaller(files[..|files| - 1], b, e);
      assert (r + [files[|files| - 1]])[..|r|] == r;
    }
  }

  lemma NotCrowded(v: Version, u: UserKey, limit: nat)
    requires v in [V0, V1, V2, V3, V4] && limit >= 80
    ensures !Crowded(v, 0, u, u, limit) && !Crowded(v, 1, u, u, limit)
  {
    SelectedIsSmaller(v.files[2], Some(u), Some(u));
    SelectedIsSmaller(v.files[3], Some(u), Some(u));
    assert [FA1, FZ1][..1] == [FA1] && [FA1][..0] == [];
    assert TotalFileSize([FA1]) == 40 && TotalFileSize([FA1, FZ1]) == 80;
  }

  /** The memtables go where PickLevelForMemTableOutput puts them. */
  method PicksLevels(limit: nat) returns (a1: nat, z1: nat, a2: nat, z2: nat, m: nat)
    requires limit >= 80
    ensures a1 == z1 == 2 && a2 == z2 == 1 && m == 2
  {
    StagesAreOk();
    SmallSequences();
    hide VersionOk, Crowded;
    NotCrowded(V0, 1.0, limit);
    a1 := PickLevelForMemTableOutput(V0, 1.0, 1.0, limit);
    NotCrowded(V1, 3.0, limit);
    z1 := PickLevelForMemTableOutput(V1, 3.0, 3.0, limit);
    NotCrowded(V2, 1.0, limit);
    a2 := PickLevelForMemTableOutput(V2, 1.0, 1.0, limit);
    assert FA1 in V2.files[2];
    NotCrowded(V3, 3.0, limit);
    z2 := PickLevelForMemTableOutput(V3, 3.0, 3.0, limit);
    assert FZ1 in V3.files[2];
    NotCrowded(V4, 2.0, limit);
    m := PickLevelForMemTableOutput(V4, 2.0, 2.0, limit);
  }

  lemma OutputLacksKey()
    ensures !Less(OUTPUT.largest, Target(2.0, 5)) && !Less(FM.largest, Target(2.0, 5))
    ensures RunGet(OUTPUT.run, 2.0, 5) == None
  {
    assert OUTPUT.run[1..] == [Z2];
  }

  /** The search of Version::Get, level by level, misses the write. */
  method ReadsNothing() returns (o: Option<Entry>)
    ensures o == None
  {
    OutputLacksKey();
    o := GetLevelZero(V6.files[0], 2.0, 5);
    for level := 1 to NUM_LEVELS
      invariant o == None
    {
      o := GetSortedLevel(V6.files[level], 2.0, 5);
      assert level == 2 ==> V6.files[level][0] == OUTPUT;
    }
  }

  /** A run of the database whose last compaction loses a write that no one deleted. */
  lemma WriteIsLost()
    ensures IsRun(RUN8) && StateOf(RUN8) == Resting(V6, 5, 8, None) && LogOf(RUN8) == L5
    ensures LogNewest(L5, 2.0, 5) == Some(M)
    ensures !VersionOk(V6) && !AllHarmless(RUN8)
  {
    hide IsRun, AllHarmless;
    GapIsRun();
    Ends3();
    assert !Less(V6.files[2][0].largest, V6.files[2][1].smallest);
    if AllHarmless(RUN8) {
      StageIsOk(RUN8, V6);
    }
  }
}
