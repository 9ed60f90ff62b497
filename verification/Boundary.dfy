/** A reachable state in which a compaction brings a deleted key back. SetupOtherInputs (version_set.cc:1403)
    extends the inputs of `level` with boundary files, but not those of `level + 1`. */
module BoundaryExample {
  import opened Keys
  import opened Entries
  import opened Versions
  import opened Inputs
  import opened Picker
  import opened Manifest
  import opened Compactions
  import opened Installs
  import opened Database

  const A1 := Entry(IKey(1.0, 2, Value), [97])
  const A2 := Entry(IKey(1.0, 4, Value), [98])
  const B1 := Entry(IKey(2.0, 1, Value), [120])
  const B2 := Entry(IKey(2.0, 3, Deletion), [])

  // The first flush goes to level 2; a manual compaction with a snapshot at 1 cuts it into two files at level 3.
  const FLUSHED := File(2, 100, A1.ik, B1.ik, [A1, B2, B1])
  const LEFT := File(3, 60, A1.ik, B2.ik, [A1, B2])
  const RIGHT := File(4, 40, B1.ik, B1.ik, [B1])
  // The second flush overlaps the left one only.
  const NEWER := File(5, 40, A2.ik, A2.ik, [A2])
  const OUTPUT := File(6, 40, A2.ik, A2.ik, [A2])

  const V0 := EMPTY_VERSION
  const V1 := Version([[], [], [FLUSHED], [], [], [], []])
  const V2 := Version([[], [], [], [LEFT, RIGHT], [], [], []])
  const V3 := Version([[], [], [NEWER], [LEFT, RIGHT], [], [], []])
  const V4 := Version([[], [], [], [OUTPUT, RIGHT], [], [], []])

  const S1 := State([B1], None, V0, [], 1, 2, None)
  const S2 := State([B1], None, V0, [1], 1, 2, None)
  const S3 := State([A1, B1], None, V0, [1], 2, 2, None)
  const S4 := State([A1, B2, B1], None, V0, [1], 3, 2, None)
  const S5 := State([], Some([A1, B2, B1]), V0, [1], 3, 2, None)
  const S6 := State([], None, V1, [1], 3, 3, None)
  const S7 := State([], None, V1, [1], 3, 5, Some(Running(SPLIT, V1, 1, [LEFT, RIGHT])))
  const S8 := State([], None, V2, [1], 3, 5, None)
  const S9 := State([], None, V2, [], 3, 5, None)
  const S10 := State([A2], None, V2, [], 4, 5, None)
  const S11 := State([], Some([A2]), V2, [], 4, 5, None)
  const S12 := State([], None, V3, [], 4, 6, None)
  const S13 := State([], None, V3, [], 4, 7, Some(Running(MERGE, V3, 4, [OUTPUT])))
  const S14 := State([], None, V4, [], 4, 7, None)

  const L1 := [B1]
  const L2 := [B1, A1]
  const L3 := [B1, A1, B2]
  const L4 := [B1, A1, B2, A2]

  const SPLIT := Compaction(2, [FLUSHED], [], 1.0, 2.0)
  const MERGE := Compaction(2, [NEWER], [LEFT], 1.0, 1.0)

  lemma FirstWrites()
    ensures Next(INITIAL, [], Step.Add(Put(2.0, [120])), S1, L1)
    ensures Next(S1, L1, Step.NewSnapshot, S2, L1)
    ensures Next(S2, L1, Step.Add(Put(1.0, [97])), S3, L2)
    ensures Next(S3, L2, Step.Add(Delete(2.0)), S4, L3)
    ensures Next(S4, L3, Step.SwitchMemTable, S5, L3)
  {
    FirstInserts();
    hide InsertRun;
  }

  lemma FirstInserts()
    ensures InsertRun([], B1) == [B1] && InsertRun([B1], A1) == [A1, B1] && InsertRun([A1, B1], B2) == [A1, B2, B1]
  {
    assert LowerBound([B1], A1.ik) == 0;
    assert LowerBound([A1, B1], B2.ik) == 1 by {
      assert [A1, B1][1..] == [B1];
    }
  }

  lemma FirstFlush()
    ensures Next(S5, L3, Step.Flush(2, 100), S6, L3)
  {
    assert FlushInstall(V0, 2, FLUSHED, V1);
  }

  lemma OneFile(f: File)
    ensures FileEntries([f]) == Elements(f.run) && FileEntries([]) == {}
  {
    assert FileEntries([f]) == set e | e in f.run;
  }

  /** With smallest_snapshot 1 the merge loop keeps every entry. */
  lemma SplitKeepsAll(base: set<UserKey>)
    ensures Kept([A1, B2, B1], 3, 1, base) == [A1, B2, B1]
  {
    var input := [A1, B2, B1];
    assert Kept(input, 0, 1, base) == [];
    assert Kept(input, 1, 1, base) == [A1];
    assert Kept(input, 2, 1, base) == [A1, B2];
  }

  lemma SplitInstalls()
    ensures CompactionInstall(V1, SPLIT, [LEFT, RIGHT], V2)
  {
  }

  lemma SplitInputs()
    ensures
      && Compactable(V1.files[2], V1.files[3], SPLIT)
      && MergedInput(SPLIT, [A1, B2, B1])
    ensures Outputs([LEFT]) && Outputs([RIGHT])
  {
    OneFile(FLUSHED);
  }

  const SPLIT0 := S6.(running := Some(Running(SPLIT, V1, 1, [])))
  const SPLIT1 := S6.(nextFile := 4, running := Some(Running(SPLIT, V1, 1, [LEFT])))

  /** The output is cut before the last entry. */
  lemma SplitSteps()
    ensures Next(S6, L3, Step.Start(SPLIT), SPLIT0, L3)
    ensures Next(SPLIT0, L3, Step.Output(LEFT), SPLIT1, L3)
    ensures Next(SPLIT1, L3, Step.Output(RIGHT), S7, L3)
  {
    SplitInputs();
    assert SPLIT0.running.value.outs + [LEFT] == [LEFT] && [LEFT] + [RIGHT] == [LEFT, RIGHT];
    hide Compactable, MergedInput, Outputs;
  }

  lemma Split()
    ensures Next(S7, L3, Step.Install([A1, B2, B1]), S8, L3)
  {
    SplitKeepsAll(BaseKeys(V1, 2, [A1, B2, B1]));
    SplitInputs();
    SplitInstalls();
    FlattenTwo(LEFT, RIGHT);
    hide CompactionInstall, Compactable, MergedInput, Outputs, BaseKeys, Kept, Flatten;
  }

  lemma FlattenTwo(f: File, g: File)
    ensures Flatten(Runs([f, g])) == f.run + g.run
    ensures Flatten(Runs([f])) == f.run
  {
    assert Runs([f, g])[..1] == [f.run] && Runs([f]) == [f.run] && [f.run][..0] == [];
    assert Flatten([f.run]) == f.run;
  }

  lemma SecondWrites()
    ensures Next(S8, L3, Step.ReleaseSnapshot(0), S9, L3)
    ensures Next(S9, L3, Step.Add(Put(1.0, [98])), S10, L4)
    ensures Next(S10, L4, Step.SwitchMemTable, S11, L4)
  {
  }

  lemma SecondFlush()
    ensures Next(S11, L4, Step.Flush(2, 40), S12, L4)
  {
    assert FlushInstall(V2, 2, NEWER, V3);
  }

  lemma MergeDrops()
    ensures Kept([A2, A1, B2], 3, 4, BaseKeys(V3, 2, [A2, A1, B2])) == [A2]
  {
    var input := [A2, A1, B2];
    var base := BaseKeys(V3, 2, input);
    assert 2.0 in base by {
      assert B2 in input && BaseLevel(V3, 2, B2.ik.user);
    }
    assert Kept(input, 0, 4, base) == [];
    assert Kept(input, 1, 4, base) == [A2];
    assert Kept(input, 2, 4, base) == [A2];
  }

  lemma MergeInputs()
    ensures
      && Compactable(V3.files[2], V3.files[3], MERGE)
      && MergedInput(MERGE, [A2, A1, B2])
    ensures Outputs([OUTPUT])
  {
    MergeIsCompactable();
    hide Compactable;
    OneFile(NEWER);
    OneFile(LEFT);
  }

  lemma MergeIsCompactable()
    ensures Compactable([NEWER], [LEFT, RIGHT], MERGE)
  {
  }

  lemma MergeInstalls()
    ensures CompactionInstall(V3, MERGE, [OUTPUT], V4)
  {
  }

  const MERGE0 := S12.(running := Some(Running(MERGE, V3, 4, [])))

  lemma MergeSteps()
    ensures Next(S12, L4, Step.Start(MERGE), MERGE0, L4)
    ensures Next(MERGE0, L4, Step.Output(OUTPUT), S13, L4)
  {
    MergeInputs();
    assert MERGE0.running.value.outs + [OUTPUT] == [OUTPUT];
    hide Compactable, MergedInput, Outputs;
  }

  /** NEWER meets LEFT but not RIGHT, which starts with the last user key of LEFT. */
  lemma Merge()
    ensures Next(S13, L4, Step.Install([A2, A1, B2]), S14, L4)
  {
    MergeDrops();
    MergeInputs();
    MergeInstalls();
    FlattenTwo(OUTPUT, OUTPUT);
    hide CompactionInstall, Compactable, MergedInput, Outputs, BaseKeys, Kept, Flatten;
  }

  lemma BaseIsMerge(b: Compaction)
    requires IsBase([NEWER], [LEFT, RIGHT], 2, [NEWER], b)
    ensures b == MERGE
  {
    hide IsClosure, Selected;
    ClosedAlready([NEWER], [NEWER], b.in0);
    RangeUnique([NEWER], b.lo, b.hi, 1.0, 1.0);
    SelectedBelow();
  }

  lemma GrowthIsMerge(limit: nat, c: Compaction)
    requires IsGrowth([NEWER], [LEFT, RIGHT], MERGE, limit, c)
    ensures c == MERGE
  {
    hide IsClosure, Selected, IsOverlap, IsRange;
    var g :| IsWider([NEWER], [LEFT, RIGHT], MERGE, g) && c == if Worthwhile(MERGE, g, limit) then g else MERGE;
    var lo, hi, sel :| IsRange([NEWER] + [LEFT], lo, hi) && IsOverlap([NEWER], false, Some(lo), Some(hi), sel)
      && IsClosure([NEWER], sel, g.in0);
    AtMostOne(Some(lo), Some(hi), sel);
    ClosedAlready([NEWER], sel, g.in0);
  }

  lemma AtMostOne(lo: Option<UserKey>, hi: Option<UserKey>, sel: seq<File>)
    requires IsOverlap([NEWER], false, lo, hi, sel)
    ensures |sel| <= 1
  {
    var b, e :| FinalRange([NEWER], false, lo, hi, b, e) && sel == Selected([NEWER], b, e);
    assert [NEWER][..0] == [] && |Selected([], b, e)| == 0;
  }

  /** Level 2 of V3 has one file, so the inputs that follow from it are those of MERGE. */
  lemma PickIsMerge(limit: nat, c: Compaction)
    requires FromFile([NEWER], [LEFT, RIGHT], 2, NEWER, limit, c)
    ensures c == MERGE
  {
    hide IsBase, IsGrowth;
    var b :| IsBase([NEWER], [LEFT, RIGHT], 2, [NEWER], b)
      && if b.in1 == [] then c == b else IsGrowth([NEWER], [LEFT, RIGHT], b, limit, c);
    BaseIsMerge(b);
    GrowthIsMerge(limit, c);
  }

  lemma SelectedBelow()
    ensures Selected([LEFT, RIGHT], Some(1.0), Some(1.0)) == [LEFT]
  {
    assert [LEFT, RIGHT][..1] == [LEFT] && [LEFT][..0] == [];
    assert Selected([LEFT], Some(1.0), Some(1.0)) == [LEFT];
  }

  /** Whatever the compaction pointer of level 2, PickCompaction chooses MERGE. */
  method PicksMerge(pointer: Option<IKey>, limit: nat) returns (c: Compaction)
    ensures c == MERGE
  {
    OneFile(NEWER);
    c := PickCompaction(V3.files[2], V3.files[3], 2, pointer, limit);
    ghost var i: nat :| IsNext(V3.files[2], pointer, i) && FromFile(V3.files[2], V3.files[3], 2, V3.files[2][i], limit, c);
    assert i == 0;
    PickIsMerge(limit, c);
  }

  function FirstRun(): Run {
    var r5 := Then(Then(Then(Then(Then(Opened, Step.Add(Put(2.0, [120])), S1, L1), Step.NewSnapshot, S2, L1),
      Step.Add(Put(1.0, [97])), S3, L2), Step.Add(Delete(2.0)), S4, L3), Step.SwitchMemTable, S5, L3);
    var r7 := Then(Then(Then(Then(r5, Step.Flush(2, 100), S6, L3), Step.Start(SPLIT), SPLIT0, L3),
      Step.Output(LEFT), SPLIT1, L3), Step.Output(RIGHT), S7, L3);
    Then(r7, Step.Install([A1, B2, B1]), S8, L3)
  }

  function ExampleRun(): Run {
    var r11 := Then(Then(Then(FirstRun(), Step.ReleaseSnapshot(0), S9, L3), Step.Add(Put(1.0, [98])), S10, L4),
      Step.SwitchMemTable, S11, L4);
    var r13 := Then(Then(Then(r11, Step.Flush(2, 40), S12, L4), Step.Start(MERGE), MERGE0, L4), Step.Output(OUTPUT), S13, L4);
    Then(r13, Step.Install([A2, A1, B2]), S14, L4)
  }

  lemma FirstIsRun()
    ensures IsRun(FirstRun())
  {
    hide Next;
    FirstWrites();
    FirstFlush();
    SplitSteps();
    Split();
  }

  lemma ExampleIsRun()
    ensures IsRun(ExampleRun())
  {
    hide Next, FirstRun;
    FirstIsRun();
    FirstEnds();
    SecondWrites();
    SecondFlush();
    MergeSteps();
    Merge();
  }

  lemma FirstEnds()
    ensures StateOf(FirstRun()) == S8 && LogOf(FirstRun()) == L3
  {
  }

  lemma ReadAfterMerge()
    ensures
      && View(LogNewest(L4, 2.0, 4)) == None
      && Meaning(Everything(S14), 2.0, 4) == Some([120])
  {
    assert L4[..3] == L3;
    AllMembers(V4);
    assert RIGHT in V4.files[3] && B1 in RIGHT.run;
    assert B1 in FileEntries(V4.files[3]) && B1 in Everything(S14);
    assert IsNewest(Everything(S14), 2.0, 4, B1);
  }

  /** A run of the database whose last compaction, the one PickCompaction chooses, makes a read of a deleted key
      return its old value. */
  lemma DeletedKeyComesBack()
    ensures IsRun(ExampleRun()) && StateOf(ExampleRun()) == S14 && LogOf(ExampleRun()) == L4
    ensures View(LogNewest(L4, 2.0, S14.lastSequence)) == None
    ensures Meaning(Everything(S14), 2.0, S14.lastSequence) == Some([120])
    ensures !AllHarmless(ExampleRun())
  {
    hide Next, IsRun, Everything, LogNewest, View, Meaning, AllHarmless;
    ExampleIsRun();
    ReadAfterMerge();
    if AllHarmless(ExampleRun()) {
      RunsAreFaithful(ExampleRun(), 2.0, S14.lastSequence);
    }
  }
}
