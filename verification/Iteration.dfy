module Iteration {
  // What a user iterator shows: NewInternalIterator (db_impl.cc) merges the memtables and the files, and DBIter
  // picks from the merged entries what a reader at a sequence may see.

  import opened Keys
  import opened Entries
  import opened Versions
  import opened Compactions
  import opened Installs
  import opened Database
  import opened Merging
  import opened DbIterators

  /** The children of the merging iterator for the first n levels: one per file of level 0, one per deeper level. */
  function LevelRuns(v: Version, n: nat): seq<seq<Entry>>
    requires n <= |v.files|
  {
    if n == 0 then []
    else if n == 1 then Runs(v.files[0])
    else LevelRuns(v, n - 1) + if v.files[n - 1] == [] then [] else [Flatten(Runs(v.files[n - 1]))]
  }

  /** The children of the merging iterator: memtable, immutable memtable, version. */
  function Layers(st: State): seq<seq<Entry>> {
    [st.mem] + (if st.imm.Some? then [st.imm.value] else []) + LevelRuns(st.version, |st.version.files|)
  }

  lemma {:induction false} FlattenMembers(files: seq<File>, e: Entry)
    ensures e in Flatten(Runs(files)) <==> e in FileEntries(files)
  {
    if files != [] {
      var n := |files| - 1;
      FlattenLast(files);
      FlattenMembers(files[..n], e);
      assert files == files[..n] + [files[n]];
      EntriesAppend(files[..n], files[n]);
    } else {
      assert Runs(files) == [];
    }
  }

  lemma SomeOfConcat(a: seq<seq<Entry>>, b: seq<seq<Entry>>, e: Entry)
    ensures InSome(a + b, e) <==> InSome(a, e) || InSome(b, e)
  {
    forall i | 0 <= i < |a|
      ensures (a + b)[i] == a[i]
    {
    }
    forall i | 0 <= i < |b|
      ensures (a + b)[|a| + i] == b[i]
    {
    }
  }

  lemma {:induction false} LevelMembers(v: Version, n: nat, e: Entry)
    requires n <= |v.files|
    ensures InSome(LevelRuns(v, n), e) <==> exists i :: 0 <= i < n && e in FileEntries(v.files[i])
  {
    if n == 1 {
      if InSome(Runs(v.files[0]), e) {
        var i :| 0 <= i < |v.files[0]| && e in Runs(v.files[0])[i];
        assert v.files[0][i] in v.files[0] && e in FileEntries(v.files[0]);
      }
      if e in FileEntries(v.files[0]) {
        var f :| f in v.files[0] && e in f.run;
        var i :| 0 <= i < |v.files[0]| && v.files[0][i] == f;
        assert e in Runs(v.files[0])[i];
      }
    } else if n > 1 {
      LevelMembers(v, n - 1, e);
      var last := if v.files[n - 1] == [] then [] else [Flatten(Runs(v.files[n - 1]))];
      SomeOfConcat(LevelRuns(v, n - 1), last, e);
      FlattenMembers(v.files[n - 1], e);
      assert last != [] ==> (InSome(last, e) <==> e in last[0]);
    }
  }

  /** The layers together hold what the database holds. */
  lemma LayersHoldEverything(st: State, e: Entry)
    ensures InSome(Layers(st), e) <==> e in Everything(st)
  {
    var imm := if st.imm.Some? then [st.imm.value] else [];
    SomeOfConcat([st.mem] + imm, LevelRuns(st.version, |st.version.files|), e);
    SomeOfConcat([st.mem], imm, e);
    LevelMembers(st.version, |st.version.files|, e);
    AllMembers(st.version);
    assert InSome([st.mem], e) <==> e in [st.mem][0];
    assert st.imm.Some? ==> (InSome(imm, e) <==> e in imm[0]);
  }

  /** Iterating at a sequence a reader may use shows, in the order of keys, exactly the keys that the log of
      writes gives a value at that sequence, each with that value. */
  lemma IteratorShowsLog(st: State, log: seq<Entry>, merged: seq<Entry>, s: nat, u: UserKey)
    requires Inv(st, log) && (s in st.snapshots || s == st.lastSequence) && IsMerge(Layers(st), merged)
    ensures View(LogNewest(log, u, s)).Some? <==> exists i :: Visible(merged, s, i) && merged[i].ik.user == u
    ensures forall i | Visible(merged, s, i) && merged[i].ik.user == u :: View(LogNewest(log, u, s)) == Some(merged[i].value)
    ensures forall i, j | Visible(merged, s, i) && Visible(merged, s, j) && i < j :: merged[i].ik.user < merged[j].ik.user
  {
    hide Inv, Layers, Everything, LogNewest, Visible;
    MergedIsEverything(st, merged);
    ReadersAreFaithful(st, log, u, s);
    StoredUnique(st, log);
    VisibleIsSnapshotView(merged, s, u);
  }

  lemma MergedIsEverything(st: State, merged: seq<Entry>)
    requires IsMerge(Layers(st), merged)
    ensures Sorted(merged) && Elements(merged) == Everything(st)
  {
    hide Layers, Everything;
    forall e
      ensures e in merged <==> e in Everything(st)
    {
      LayersHoldEverything(st, e);
    }
  }

  lemma StoredUnique(st: State, log: seq<Entry>)
    requires Inv(st, log)
    ensures UniqueSeq(Everything(st))
  {
    hide Everything;
    LoggedUnique(Everything(st), log);
  }

  // The layers are what the merging iterator asks for: sorted, and without a common key.

  ghost predicate Separate(runs: seq<seq<Entry>>) {
    && (forall i | 0 <= i < |runs| :: Sorted(runs[i]))
    && forall i, j, e | 0 <= i < j < |runs| && e in runs[i] :: e !in runs[j]
  }

  lemma SeparateConcat(a: seq<seq<Entry>>, b: seq<seq<Entry>>)
    requires Separate(a) && Separate(b) && forall e | InSome(a, e) :: !InSome(b, e)
    ensures Separate(a + b)
  {
    var all := a + b;
    forall i, j, e | 0 <= i < j < |all| && e in all[i]
      ensures e !in all[j]
    {
      if i < |a| <= j {
        assert InSome(a, e);
        assert e in b[j - |a|] ==> InSome(b, e);
      }
    }
  }

  lemma AboveIsSeparate(A: set<Entry>, B: set<Entry>)
    requires Above(A, B)
    ensures forall e | e in A :: e !in B
  {
  }

  lemma ZeroSeparate(files: seq<File>)
    requires FilesOk(files) && ZeroOrdered(files)
    ensures Separate(Runs(files))
  {
    var runs := Runs(files);
    forall i | 0 <= i < |runs|
      ensures Sorted(runs[i])
    {
      assert files[i] in files;
    }
    forall i, j, e | 0 <= i < j < |runs| && e in runs[i]
      ensures e !in runs[j]
    {
      assert files[i] in files && files[j] in files && files[i].number != files[j].number;
      var A, B := Elements(files[i].run), Elements(files[j].run);
      assert Above(A, B) || Above(B, A);
      assert e in A && (e in runs[j] ==> e in B);
    }
  }

  lemma {:induction false} LevelSorted(files: seq<File>)
    requires FilesOk(files) && SortedDisjoint(files)
    ensures Sorted(Flatten(Runs(files)))
  {
    if files == [] {
      assert Runs(files) == [];
    } else {
      var n := |files| - 1;
      assert forall f | f in files[..n] :: f in files;
      LevelSorted(files[..n]);
      FlattenLast(files);
      FollowsSorted(files, Flatten(Runs(files[..n])));
    }
  }

  lemma FollowsSorted(files: seq<File>, r: seq<Entry>)
    requires FilesOk(files) && SortedDisjoint(files) && files != [] && Sorted(r)
    requires r == Flatten(Runs(files[..|files| - 1]))
    ensures Sorted(r + files[|files| - 1].run)
  {
    var n := |files| - 1;
    var last := files[n].run;
    assert files[n] in files;
    forall i, j | 0 <= i < |r| && 0 <= j < |last|
      ensures Less(r[i].ik, last[j].ik)
    {
      FlattenMembers(files[..n], r[i]);
      var f :| f in files[..n] && r[i] in f.run;
      var k :| 0 <= k < n && files[k] == f;
      FileBounds(f, r[i]);
      FileBounds(files[n], last[j]);
      assert Less(files[k].largest, files[n].smallest);
    }
  }

  lemma {:induction false} LevelsSeparate(v: Version, n: nat)
    requires VersionOk(v) && n <= NUM_LEVELS
    ensures Separate(LevelRuns(v, n))
  {
    hide FilesOk, SortedDisjoint, ZeroOrdered, LevelsAbove, Flatten;
    if n == 1 {
      ZeroSeparate(v.files[0]);
    } else if n > 1 {
      LevelsSeparate(v, n - 1);
      var last := if v.files[n - 1] == [] then [] else [Flatten(Runs(v.files[n - 1]))];
      LevelSorted(v.files[n - 1]);
      ShallowAbove(v, n - 1);
      AboveIsSeparate(Shallow(v, n - 1), FileEntries(v.files[n - 1]));
      forall e | InSome(LevelRuns(v, n - 1), e)
        ensures !InSome(last, e)
      {
        LevelMembers(v, n - 1, e);
        ShallowMember(v, n - 1, e);
        FlattenMembers(v.files[n - 1], e);
      }
      SeparateConcat(LevelRuns(v, n - 1), last);
    }
  }

  lemma LayersSeparate(st: State, log: seq<Entry>)
    requires Inv(st, log)
    ensures Separate(Layers(st))
  {
    hide Logged, Faithful, WorkOk, NumbersOk, VersionOk, LevelRuns, Holds, All;
    assert |st.version.files| == NUM_LEVELS by { LevelCount(st.version); }
    MemoryAbove(st, log, All(st.version));
    AboveIsSeparate(InMemory(st), All(st.version));
    LevelsSeparate(st.version, NUM_LEVELS);
    var imm := if st.imm.Some? then [st.imm.value] else [];
    var memory := [st.mem] + imm;
    MemorySeparate(st, log);
    forall e | InSome(memory, e)
      ensures !InSome(LevelRuns(st.version, NUM_LEVELS), e)
    {
      LevelMembers(st.version, NUM_LEVELS, e);
      AllMembers(st.version);
      assert e in InMemory(st);
    }
    SeparateConcat(memory, LevelRuns(st.version, NUM_LEVELS));
  }

  lemma MemorySeparate(st: State, log: seq<Entry>)
    requires MemoryOk(st, log, All(st.version))
    ensures Separate([st.mem] + if st.imm.Some? then [st.imm.value] else [])
  {
    hide Holds;
    MemoryAbove(st, log, All(st.version));
    var runs := [st.mem] + if st.imm.Some? then [st.imm.value] else [];
    AboveIsSeparate(Elements(st.mem), ImmEntries(st));
    forall e | e in st.mem && st.imm.Some?
      ensures e !in st.imm.value
    {
      assert e in Elements(st.mem) && (e in st.imm.value ==> e in ImmEntries(st));
    }
  }

  lemma LevelCount(v: Version)
    requires VersionOk(v)
    ensures |v.files| == NUM_LEVELS
  {
  }

  /** So there is a merged order of them, and the iterator is never without one. */
  lemma LayersMerge(st: State, log: seq<Entry>) returns (merged: seq<Entry>)
    requires Inv(st, log)
    ensures IsMerge(Layers(st), merged)
  {
    hide Inv, Layers, Everything;
    LayersSeparate(st, log);
    StoredUnique(st, log);
    forall i, j | 0 <= i < j < |Layers(st)|
      ensures NoSharedKey(Layers(st)[i], Layers(st)[j])
    {
      NoKeyTwice(st, i, j);
    }
    merged := MergeAll(Layers(st), |Layers(st)|);
  }

  lemma NoKeyTwice(st: State, i: nat, j: nat)
    requires Separate(Layers(st)) && UniqueSeq(Everything(st)) && i < j < |Layers(st)|
    ensures NoSharedKey(Layers(st)[i], Layers(st)[j])
  {
    hide Layers, Everything;
    var runs := Layers(st);
    forall e: Entry, f: Entry | e in runs[i] && f in runs[j]
      ensures e.ik != f.ik
    {
      LayersHoldEverything(st, e);
      LayersHoldEverything(st, f);
      assert InSome(runs, e) && InSome(runs, f);
    }
  }

  lemma {:induction false} MergeAll(runs: seq<seq<Entry>>, n: nat) returns (merged: seq<Entry>)
    requires n <= |runs| && (forall i | 0 <= i < |runs| :: Sorted(runs[i]))
    requires forall i, j | 0 <= i < j < |runs| :: NoSharedKey(runs[i], runs[j])
    ensures IsMerge(runs[..n], merged)
  {
    if n == 0 {
      merged := [];
    } else {
      var before := MergeAll(runs, n - 1);
      merged := InsertAll(before, runs[n - 1], |runs[n - 1]|);
      assert runs[n - 1][..|runs[n - 1]|] == runs[n - 1];
      assert runs[..n] == runs[..n - 1] + [runs[n - 1]];
      forall e
        ensures e in merged <==> InSome(runs[..n], e)
      {
        SomeOfConcat(runs[..n - 1], [runs[n - 1]], e);
        assert InSome([runs[n - 1]], e) <==> e in [runs[n - 1]][0];
        assert e in merged <==> e in Elements(merged);
      }
    }
    assert n == |runs| ==> runs[..n] == runs;
  }

  lemma {:induction false} InsertAll(into: seq<Entry>, r: seq<Entry>, n: nat) returns (m: seq<Entry>)
    requires Sorted(into) && Sorted(r) && n <= |r| && forall e, f | e in into && f in r :: e.ik != f.ik
    ensures Sorted(m) && Elements(m) == Elements(into) + Elements(r[..n])
  {
    if n == 0 {
      m := into;
    } else {
      var before := InsertAll(into, r, n - 1);
      forall i | 0 <= i < |before|
        ensures before[i].ik != r[n - 1].ik
      {
        assert before[i] in Elements(into) + Elements(r[..n - 1]);
        if before[i] !in into {
          var j :| 0 <= j < n - 1 && r[j] == before[i];
          assert Less(r[j].ik, r[n - 1].ik);
        }
      }
      InsertRunSorted(before, r[n - 1]);
      m := InsertRun(before, r[n - 1]);
      assert r[..n] == r[..n - 1] + [r[n - 1]];
    }
  }
}
