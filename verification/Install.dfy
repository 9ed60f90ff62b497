/** What installing a flush, a trivial move or a compaction does to the version invariant and to readers. */
module Installs {
  import opened Keys
  import opened Entries
  import opened Versions
  import opened Inputs
  import opened Manifest
  import opened Picker
  import opened Gaps
  import opened Compactions

  /** The install of a compaction: its inputs leave both levels, its outputs join the deeper one. A trivial
      move is the install whose only output is its only input. */
  ghost predicate CompactionInstall(v: Version, c: Compaction, outs: seq<File>, v': Version)
    requires |v.files| == NUM_LEVELS && c.level + 1 < NUM_LEVELS
  {
    && |v'.files| == NUM_LEVELS
    && LevelEdit(v.files[c.level], c.in0, [], v'.files[c.level])
    && LevelEdit(v.files[c.level + 1], c.in1, outs, v'.files[c.level + 1])
    && forall i | 0 <= i < NUM_LEVELS && i != c.level && i != c.level + 1 :: v'.files[i] == v.files[i]
  }

  ghost predicate FlushInstall(v: Version, level: nat, f: File, v': Version)
    requires |v.files| == NUM_LEVELS && level < NUM_LEVELS
  {
    && |v'.files| == NUM_LEVELS
    && LevelEdit(v.files[level], [], [f], v'.files[level])
    && forall i | 0 <= i < NUM_LEVELS && i != level :: v'.files[i] == v.files[i]
  }

  ghost function InputEntries(c: Compaction): set<Entry> {
    FileEntries(c.in0) + FileEntries(c.in1)
  }

  /** What a compaction under way finds in the version that has become current: its inputs, and beside them
      only newer data for the keys it works on. */
  ghost predicate Held(files: seq<File>, next: seq<File>, c: Compaction) {
    && c.in0 != [] && (forall f | f in c.in0 :: f in files)
    && LeavesNewer(files, c.in0)
    && IsRange(c.in0, c.lo, c.hi)
    && (forall f | f in c.in1 :: f in next && Overlaps(f, Some(c.lo), Some(c.hi)))
    && forall f | f in next && f !in c.in1 && Overlaps(f, Some(c.lo), Some(c.hi)) :: Above(Elements(f.run), InputEntries(c))
  }

  /** The compaction takes every file of the next level that meets its range. */
  ghost predicate TakesAll(next: seq<File>, c: Compaction) {
    forall f | f in next && f !in c.in1 :: !Overlaps(f, Some(c.lo), Some(c.hi))
  }

  lemma HeldAtStart(files: seq<File>, next: seq<File>, c: Compaction)
    requires Compactable(files, next, c)
    ensures Held(files, next, c) && TakesAll(next, c)
  {
  }

  predicate Apart(f: File, g: File) {
    Less(f.largest, g.smallest) || Less(g.largest, f.smallest)
  }

  lemma ApartIsSorted(files: seq<File>)
    requires FilesOk(files) && BySmallest(files)
    requires forall f, g | f in files && g in files && f != g :: Apart(f, g)
    ensures SortedDisjoint(files)
  {
    FilesSpan(files);
    forall i, j | 0 <= i < j < |files|
      ensures Less(files[i].largest, files[j].smallest)
    {
      assert SmallestBefore(files[i], files[j]);
      assert files[i] in files && files[j] in files;
    }
  }

  /** A file of the next level outside the range lies wholly before or wholly after every input. */
  lemma LeftOutIsApart(files: seq<File>, next: seq<File>, c: Compaction, r: File)
    requires FilesOk(files) && FilesOk(next) && SortedDisjoint(next) && Held(files, next, c)
    requires r in next && r !in c.in1 && !Overlaps(r, Some(c.lo), Some(c.hi))
    ensures (forall g | g in c.in0 + c.in1 :: Less(r.largest, g.smallest))
         || (forall g | g in c.in0 + c.in1 :: Less(g.largest, r.smallest))
  {
    hide SortedDisjoint, FilesOk, LeavesNewer;
    FilesSpan(files);
    FilesSpan(next);
    if r.largest.user < c.lo {
      forall g | g in c.in0 + c.in1
        ensures Less(r.largest, g.smallest)
      {
        if g !in c.in0 {
          DistinctApart(next, r, g);
        }
      }
    } else {
      assert r.smallest.user > c.hi;
      forall g | g in c.in0 + c.in1
        ensures Less(g.largest, r.smallest)
      {
        if g !in c.in0 {
          DistinctApart(next, r, g);
        }
      }
    }
  }

  lemma WithinInput(c: Compaction, e: Entry) returns (g: File)
    requires FilesOk(c.in0) && FilesOk(c.in1) && e in InputEntries(c)
    ensures g in c.in0 + c.in1 && AtMost(g.smallest, e.ik) && AtMost(e.ik, g.largest)
  {
    if e in FileEntries(c.in0) {
      g :| g in c.in0 && e in g.run;
    } else {
      g :| g in c.in1 && e in g.run;
    }
    FileBounds(g, e);
  }

  /** No output meets a file that stays at the next level. */
  ghost predicate OutputsFit(next: seq<File>, c: Compaction, outs: seq<File>) {
    forall r, f | r in next && r !in c.in1 && f in outs :: Apart(r, f)
  }

  lemma TakingAllFits(files: seq<File>, next: seq<File>, c: Compaction, outs: seq<File>)
    requires FilesOk(files) && FilesOk(next) && SortedDisjoint(next) && Held(files, next, c)
    requires FilesOk(outs) && FileEntries(outs) <= InputEntries(c) && TakesAll(next, c)
    ensures OutputsFit(next, c, outs)
  {
    hide Held, SortedDisjoint, Apart, IsRange, LeavesNewer;
    forall r, f | r in next && r !in c.in1 && f in outs
      ensures Apart(r, f)
    {
      OutputsApart(files, next, c, outs, r, f);
    }
  }

  lemma OutputsApart(files: seq<File>, next: seq<File>, c: Compaction, outs: seq<File>, r: File, f: File)
    requires FilesOk(files) && FilesOk(next) && SortedDisjoint(next) && Held(files, next, c)
    requires FilesOk(outs) && FileEntries(outs) <= InputEntries(c)
    requires r in next && r !in c.in1 && !Overlaps(r, Some(c.lo), Some(c.hi)) && f in outs
    ensures Apart(r, f)
  {
    LeftOutIsApart(files, next, c, r);
    ApartFromOutput(c, r, f);
  }

  lemma ApartFromOutput(c: Compaction, r: File, f: File)
    requires FilesOk(c.in0) && FilesOk(c.in1) && FileOk(f) && Elements(f.run) <= InputEntries(c)
    requires (forall g | g in c.in0 + c.in1 :: Less(r.largest, g.smallest))
          || (forall g | g in c.in0 + c.in1 :: Less(g.largest, r.smallest))
    ensures Apart(r, f)
  {
    var a, b := f.run[0], f.run[|f.run| - 1];
    assert a in Elements(f.run) && b in Elements(f.run);
    var g := WithinInput(c, a);
    var h := WithinInput(c, b);
  }

  /** The new next level is in order exactly when the outputs fit between the files that stay. */
  lemma InstalledLevelSorted(next: seq<File>, c: Compaction, outs: seq<File>, next': seq<File>)
    requires FilesOk(next) && SortedDisjoint(next) && FilesOk(outs) && SortedDisjoint(outs)
    requires LevelEdit(next, c.in1, outs, next') && forall f | f in outs :: f !in next || f in c.in1
    ensures FilesOk(next')
    ensures SortedDisjoint(next') <==> OutputsFit(next, c, outs)
  {
    hide LevelEdit, SortedDisjoint, FileOk;
    assert FilesOk(next') by {
      Installed(next, c, outs, next');
    }
    if SortedDisjoint(next') {
      forall r, f | r in next && r !in c.in1 && f in outs
        ensures Apart(r, f)
      {
        Installed(next, c, outs, next');
        DistinctApart(next', r, f);
      }
    }
    if OutputsFit(next, c, outs) {
      forall f, g | f in next' && g in next' && f != g
        ensures Apart(f, g)
      {
        Installed(next, c, outs, next');
        if f in outs && g in outs {
          DistinctApart(outs, f, g);
        } else if f !in outs && g !in outs {
          DistinctApart(next, f, g);
        }
      }
      Installed(next, c, outs, next');
      ApartIsSorted(next');
    }
  }

  lemma Installed(next: seq<File>, c: Compaction, outs: seq<File>, next': seq<File>)
    requires LevelEdit(next, c.in1, outs, next')
    ensures BySmallest(next') && forall f :: f in next' <==> (f in next && f !in c.in1) || f in outs
  {
  }

  lemma DistinctApart(files: seq<File>, f: File, g: File)
    requires SortedDisjoint(files) && f in files && g in files && f != g
    ensures Apart(f, g)
  {
    var i :| 0 <= i < |files| && files[i] == f;
    var j :| 0 <= j < |files| && files[j] == g;
  }

  lemma ZeroShrinks(files: seq<File>, gone: seq<File>, files': seq<File>)
    requires ZeroOrdered(files) && LevelEdit(files, gone, [], files')
    ensures ZeroOrdered(files')
  {
    forall i, j | 0 <= i < j < |files'|
      ensures files'[i].number != files'[j].number
    {
      assert files'[i] in files' && files'[j] in files' && SmallestBefore(files'[i], files'[j]);
      var x :| 0 <= x < |files| && files[x] == files'[i];
      var y :| 0 <= y < |files| && files[y] == files'[j];
    }
  }

  /** The inputs that stay behind at the upper level are newer than everything installed below them. */
  lemma InstalledBelow(files: seq<File>, next: seq<File>, c: Compaction, outs: seq<File>, files': seq<File>, next': seq<File>)
    requires Above(FileEntries(files), FileEntries(next)) && Held(files, next, c)
    requires LevelEdit(files, c.in0, [], files') && LevelEdit(next, c.in1, outs, next')
    requires FileEntries(outs) <= InputEntries(c)
    ensures Above(FileEntries(files'), FileEntries(next'))
  {
    forall e, d | e in FileEntries(files') && d in FileEntries(next') && e.ik.user == d.ik.user
      ensures e.ik.sn > d.ik.sn
    {
      var f :| f in files' && e in f.run;
      assert f in files && f !in c.in0;
      assert e in FileEntries(files) && e in Elements(f.run);
      if d !in FileEntries(next) {
        InstalledFrom(files, next, c, outs, next');
        assert d in FileEntries(outs) && d in FileEntries(c.in0);
        NewerThanInput(files, c, f, e, d);
      }
    }
  }

  lemma NewerThanInput(files: seq<File>, c: Compaction, f: File, e: Entry, d: Entry)
    requires LeavesNewer(files, c.in0) && f in files && f !in c.in0 && e in f.run
    requires d in FileEntries(c.in0) && e.ik.user == d.ik.user
    ensures e.ik.sn > d.ik.sn
  {
    var g :| g in c.in0 && d in g.run;
    assert Above(Elements(f.run), Elements(g.run)) && e in Elements(f.run) && d in Elements(g.run);
  }

  /** The deeper level draws its entries from the two levels of the compaction. */
  lemma InstalledFrom(files: seq<File>, next: seq<File>, c: Compaction, outs: seq<File>, next': seq<File>)
    requires Held(files, next, c) && LevelEdit(next, c.in1, outs, next')
    requires FileEntries(outs) <= InputEntries(c)
    ensures forall e | e in FileEntries(next') :: e in FileEntries(next) || e in FileEntries(outs)
    ensures
      && FileEntries(c.in1) <= FileEntries(next)
      && FileEntries(c.in0) <= FileEntries(files)
    ensures FileEntries(next') <= FileEntries(files) + FileEntries(next)
  {
    forall e | e in FileEntries(next')
      ensures e in FileEntries(next) || e in FileEntries(outs)
    {
      var f :| f in next' && e in f.run;
      assert f in next || f in outs;
    }
  }

  /** Moving entries one level down keeps the levels in order. */
  lemma LevelsStayAbove(v: Version, v': Version, l: nat)
    requires LevelsAbove(v) && |v.files| == |v'.files| && l + 1 < |v.files|
    requires forall i | 0 <= i < |v.files| && i != l && i != l + 1 :: v'.files[i] == v.files[i]
    requires FileEntries(v'.files[l]) <= FileEntries(v.files[l])
    requires FileEntries(v'.files[l + 1]) <= FileEntries(v.files[l]) + FileEntries(v.files[l + 1])
    requires Above(FileEntries(v'.files[l]), FileEntries(v'.files[l + 1]))
    ensures LevelsAbove(v')
  {
    forall i, j | 0 <= i < j < |v.files|
      ensures Above(FileEntries(v'.files[i]), FileEntries(v'.files[j]))
    {
      if i < l {
        assert Above(FileEntries(v.files[i]), FileEntries(v.files[l]));
      }
      if l + 1 < j {
        assert Above(FileEntries(v.files[l]), FileEntries(v.files[j]));
      }
      assert Above(FileEntries(v.files[i]), FileEntries(v.files[j]));
    }
  }

  ghost predicate Installable(v: Version, c: Compaction, outs: seq<File>, v': Version) {
    && VersionOk(v) && c.level + 1 < NUM_LEVELS && CompactionInstall(v, c, outs, v')
    && Held(v.files[c.level], v.files[c.level + 1], c)
    && FilesOk(outs) && SortedDisjoint(outs) && FileEntries(outs) <= InputEntries(c)
    && forall f | f in outs :: f !in v.files[c.level + 1] || f in c.in1
  }

  /** An install keeps the version invariant exactly when the outputs fit. */
  lemma InstallIsOkIff(v: Version, c: Compaction, outs: seq<File>, v': Version)
    requires Installable(v, c, outs, v')
    ensures VersionOk(v') <==> OutputsFit(v.files[c.level + 1], c, outs)
  {
    hide Held, OutputsFit, FilesOk, SortedDisjoint, ZeroOrdered, LevelsAbove, LevelEdit;
    InstalledUpper(v, c, outs, v');
    InstalledLevelSorted(v.files[c.level + 1], c, outs, v'.files[c.level + 1]);
    InstalledLevelsAbove(v, c, outs, v');
  }

  /** Compactions that take all they meet, and trivial moves, keep the version invariant. */
  lemma CompactionKeepsInvariant(v: Version, c: Compaction, outs: seq<File>, v': Version)
    requires Installable(v, c, outs, v') && TakesAll(v.files[c.level + 1], c)
    ensures VersionOk(v')
  {
    hide Held, OutputsFit, FilesOk, SortedDisjoint, ZeroOrdered, LevelsAbove, LevelEdit, TakesAll;
    TakingAllFits(v.files[c.level], v.files[c.level + 1], c, outs);
    InstallIsOkIff(v, c, outs, v');
  }

  lemma InstalledUpper(v: Version, c: Compaction, outs: seq<File>, v': Version)
    requires Installable(v, c, outs, v')
    ensures
      && FilesOk(v'.files[c.level])
      && (c.level > 0 ==> SortedDisjoint(v'.files[c.level]))
    ensures ZeroOrdered(v'.files[0])
  {
    if c.level == 0 {
      ZeroShrinks(v.files[0], c.in0, v'.files[0]);
    } else {
      UpperLevelSorted(v.files[c.level], c.in0, v'.files[c.level]);
    }
  }

  lemma InstalledLevelsAbove(v: Version, c: Compaction, outs: seq<File>, v': Version)
    requires Installable(v, c, outs, v')
    ensures LevelsAbove(v')
  {
    hide Held, FilesOk, SortedDisjoint, ZeroOrdered, LevelEdit, Above;
    var l := c.level;
    assert Above(FileEntries(v.files[l]), FileEntries(v.files[l + 1]));
    UpperShrinks(v.files[l], c.in0, v'.files[l]);
    InstalledBelow(v.files[l], v.files[l + 1], c, outs, v'.files[l], v'.files[l + 1]);
    InstalledFrom(v.files[l], v.files[l + 1], c, outs, v'.files[l + 1]);
    LevelsStayAbove(v, v', l);
  }

  lemma UpperShrinks(files: seq<File>, gone: seq<File>, files': seq<File>)
    requires LevelEdit(files, gone, [], files')
    ensures FileEntries(files') <= FileEntries(files)
  {
  }

  lemma UpperLevelSorted(files: seq<File>, gone: seq<File>, files': seq<File>)
    requires FilesOk(files) && SortedDisjoint(files) && LevelEdit(files, gone, [], files')
    ensures FilesOk(files') && SortedDisjoint(files')
  {
    forall f, g | f in files' && g in files' && f != g
      ensures Apart(f, g)
    {
      var i :| 0 <= i < |files| && files[i] == f;
      var j :| 0 <= j < |files| && files[j] == g;
    }
    ApartIsSorted(files');
  }

  /** A flushed memtable: newer than every file, and below level 0 only where it meets no file on the way. */
  ghost predicate Flushable(v: Version, level: nat, f: File) {
    && VersionOk(v) && level < NUM_LEVELS && FileOk(f)
    && (forall i | 0 <= i < NUM_LEVELS :: Above(Elements(f.run), FileEntries(v.files[i])))
    && (forall g | g in v.files[0] :: g.number < f.number)
    && ClearPath(v, level, f)
  }

  /** A file placed below level 0 meets no file at its level or above. */
  ghost predicate ClearPath(v: Version, level: nat, f: File)
    requires level < |v.files|
  {
    level > 0 ==> forall i, g | 0 <= i <= level && g in v.files[i] ::
      !Overlaps(g, Some(f.smallest.user), Some(f.largest.user))
  }

  lemma FlushKeepsInvariant(v: Version, level: nat, f: File, v': Version)
    requires Flushable(v, level, f) && FlushInstall(v, level, f, v')
    ensures VersionOk(v')
  {
    if level == 0 {
      FlushedZero(v.files[0], f, v'.files[0]);
    } else {
      FlushedSorted(v.files[level], f, v'.files[level]);
    }
    FlushedLevelsAbove(v, level, f, v');
  }

  lemma FlushedZero(files: seq<File>, f: File, files': seq<File>)
    requires ZeroOrdered(files) && LevelEdit(files, [], [f], files')
    requires Above(Elements(f.run), FileEntries(files)) && forall g | g in files :: g.number < f.number
    ensures ZeroOrdered(files')
  {
    forall i, j | 0 <= i < j < |files'|
      ensures files'[i].number != files'[j].number
    {
      assert files'[i] in files' && files'[j] in files' && SmallestBefore(files'[i], files'[j]);
      if files'[i] != f && files'[j] != f {
        var x :| 0 <= x < |files| && files[x] == files'[i];
        var y :| 0 <= y < |files| && files[y] == files'[j];
      }
    }
  }

  lemma FlushedSorted(files: seq<File>, f: File, files': seq<File>)
    requires FilesOk(files) && SortedDisjoint(files) && FileOk(f) && LevelEdit(files, [], [f], files')
    requires forall g | g in files :: !Overlaps(g, Some(f.smallest.user), Some(f.largest.user))
    ensures SortedDisjoint(files')
  {
    forall g, h | g in files' && h in files' && g != h
      ensures Apart(g, h)
    {
      if g in files && h in files {
        var i :| 0 <= i < |files| && files[i] == g;
        var j :| 0 <= j < |files| && files[j] == h;
      }
    }
    ApartIsSorted(files');
  }

  lemma FlushedLevelsAbove(v: Version, level: nat, f: File, v': Version)
    requires Flushable(v, level, f) && FlushInstall(v, level, f, v')
    ensures LevelsAbove(v')
  {
    forall i, j | 0 <= i < j < NUM_LEVELS
      ensures Above(FileEntries(v'.files[i]), FileEntries(v'.files[j]))
    {
      FlushedAbove(v, level, f, v', i, j);
    }
  }

  lemma FlushedAbove(v: Version, level: nat, f: File, v': Version, i: nat, j: nat)
    requires Flushable(v, level, f) && FlushInstall(v, level, f, v') && i < j < NUM_LEVELS
    ensures Above(FileEntries(v'.files[i]), FileEntries(v'.files[j]))
  {
    hide Above, Elements, Overlaps, LevelEdit, FilesOk, FileOk, SortedDisjoint, ZeroOrdered;
    assert Above(FileEntries(v.files[i]), FileEntries(v.files[j]));
    if i == level {
      AddedEntries(v.files[i], f, v'.files[i]);
      AboveJoins(FileEntries(v.files[i]), Elements(f.run), FileEntries(v.files[j]), FileEntries(v'.files[i]));
    } else if j == level {
      AddedEntries(v.files[j], f, v'.files[j]);
      NothingShared(v.files[i], f);
      AboveJoins(FileEntries(v.files[j]), Elements(f.run), FileEntries(v.files[i]), FileEntries(v'.files[j]));
    }
  }

  lemma AboveJoins(A: set<Entry>, B: set<Entry>, C: set<Entry>, X: set<Entry>)
    requires X <= A + B
    ensures Above(A, C) && Above(B, C) ==> Above(X, C)
    ensures Above(C, A) && Above(C, B) ==> Above(C, X)
  {
  }

  lemma AddedEntries(files: seq<File>, f: File, files': seq<File>)
    requires LevelEdit(files, [], [f], files')
    ensures FileEntries(files') <= FileEntries(files) + Elements(f.run)
  {
  }

  lemma NothingShared(files: seq<File>, f: File)
    requires FilesOk(files) && FileOk(f)
    requires forall g | g in files :: !Overlaps(g, Some(f.smallest.user), Some(f.largest.user))
    ensures Above(FileEntries(files), Elements(f.run))
  {
    forall e, d | e in FileEntries(files) && d in f.run && e.ik.user == d.ik.user
      ensures false
    {
      var g :| g in files && e in g.run;
      FileBounds(g, e);
      FileBounds(f, d);
    }
  }

  /** File f of level i is not an input of c. */
  predicate Stays(c: Compaction, i: nat, f: File) {
    (i == c.level ==> f !in c.in0) && (i == c.level + 1 ==> f !in c.in1)
  }

  ghost function Rest(v: Version, c: Compaction): set<Entry> {
    set i: nat, f, e | i < |v.files| && f in v.files[i] && Stays(c, i, f) && e in f.run :: e
  }

  lemma AllMembers(v: Version)
    ensures forall e :: e in All(v) <==> exists i :: 0 <= i < |v.files| && e in FileEntries(v.files[i])
  {
    forall e {
      ShallowMember(v, |v.files|, e);
    }
  }

  lemma FlushEntries(v: Version, level: nat, f: File, v': Version)
    requires |v.files| == NUM_LEVELS && level < NUM_LEVELS && FlushInstall(v, level, f, v')
    ensures All(v') == All(v) + Elements(f.run)
  {
    AllMembers(v);
    AllMembers(v');
    forall e | e in All(v) + Elements(f.run)
      ensures e in All(v')
    {
      if e in f.run {
        assert f in v'.files[level] && e in FileEntries(v'.files[level]);
      } else {
        var i :| 0 <= i < NUM_LEVELS && e in FileEntries(v.files[i]);
        var g :| g in v.files[i] && e in g.run;
        assert g in v'.files[i] && e in FileEntries(v'.files[i]);
      }
    }
  }

  lemma CompactionEntries(v: Version, c: Compaction, outs: seq<File>, v': Version)
    requires |v.files| == NUM_LEVELS && c.level + 1 < NUM_LEVELS && CompactionInstall(v, c, outs, v')
    requires Held(v.files[c.level], v.files[c.level + 1], c)
    ensures All(v) == Rest(v, c) + InputEntries(c)
    ensures All(v') == Rest(v, c) + FileEntries(outs)
  {
    StoredBefore(v, c);
    AllMembers(v');
    forall e
      ensures e in All(v') <==> e in Rest(v, c) + FileEntries(outs)
    {
      StoredAfter(v, c, outs, v', e);
    }
  }

  lemma StoredBefore(v: Version, c: Compaction)
    requires |v.files| == NUM_LEVELS && c.level + 1 < NUM_LEVELS
    requires Held(v.files[c.level], v.files[c.level + 1], c)
    ensures All(v) == Rest(v, c) + InputEntries(c)
  {
    AllMembers(v);
    InputsAreStored(v, c);
    forall e | e in All(v) && e !in Rest(v, c)
      ensures e in InputEntries(c)
    {
      var i :| 0 <= i < NUM_LEVELS && e in FileEntries(v.files[i]);
      var f :| f in v.files[i] && e in f.run;
      assert !Stays(c, i, f);
    }
  }

  lemma StoredAfter(v: Version, c: Compaction, outs: seq<File>, v': Version, e: Entry)
    requires |v.files| == NUM_LEVELS && c.level + 1 < NUM_LEVELS && CompactionInstall(v, c, outs, v')
    ensures (exists i :: 0 <= i < NUM_LEVELS && e in FileEntries(v'.files[i])) <==> e in Rest(v, c) + FileEntries(outs)
  {
    if i :| 0 <= i < NUM_LEVELS && e in FileEntries(v'.files[i]) {
      var f :| f in v'.files[i] && e in f.run;
      assert f in outs || (f in v.files[i] && Stays(c, i, f));
    }
    if e in Rest(v, c) {
      var i: nat, f :| i < NUM_LEVELS && f in v.files[i] && Stays(c, i, f) && e in f.run;
      assert f in v'.files[i] && e in FileEntries(v'.files[i]);
    } else if e in FileEntries(outs) {
      var f :| f in outs && e in f.run;
      assert f in v'.files[c.level + 1] && e in FileEntries(v'.files[c.level + 1]);
    }
  }

  /** The next level holds no file that starts with the last user key of the inputs taken from it: what a
      call of AddBoundaryInputs for that level would establish. */
  ghost predicate NoBoundaryBelow(next: seq<File>, in1: seq<File>) {
    forall f, k | f in next && IsLargest(in1, k) :: !Boundary(f, k)
  }

  /** A compaction can expose an older value only in a boundary file of the next level. */
  lemma ExposureNeedsBoundary(v: Version, c: Compaction, newer: set<Entry>, input: seq<Entry>, smallest: nat,
                              base: set<UserKey>, from: nat, i: nat)
    requires VersionOk(v) && c.level + 1 < NUM_LEVELS && UniqueSeq(newer + All(v))
    requires Held(v.files[c.level], v.files[c.level + 1], c)
    requires Elements(input) == InputEntries(c) && Above(newer, All(v)) && i < |input|
    requires (forall u | u in base :: BaseLevel(v, c.level, u)) && Exposes(newer + Rest(v, c), input, smallest, base, from, i)
    ensures !NoBoundaryBelow(v.files[c.level + 1], c.in1)
  {
    hide FilesOk, SortedDisjoint, ZeroOrdered, LevelsAbove, Held, Above, Stays, NoBoundaryBelow, UniqueSeq, BaseLevel;
    var t := input[i];
    var r :| IsNewest(newer + Rest(v, c), t.ik.user, from, r) && r.ik.kind == Value;
    InputsAreStored(v, c);
    assert t in Elements(input);
    NewestIsAlone(v, c, newer, input, t, r, from);
    var lvl, f := OlderIsLeft(v, c, newer, t, r);
    ExposedLevel(v, c, t, r, lvl, f);
    ExposedAtNext(v, c, t, r, f);
  }

  lemma InputsAreStored(v: Version, c: Compaction)
    requires c.level + 1 < NUM_LEVELS && |v.files| == NUM_LEVELS
    requires Held(v.files[c.level], v.files[c.level + 1], c)
    ensures InputEntries(c) <= All(v)
  {
    AllMembers(v);
  }

  lemma NewestIsAlone(v: Version, c: Compaction, newer: set<Entry>, input: seq<Entry>, t: Entry, r: Entry, from: nat)
    requires UniqueSeq(newer + All(v)) && t in All(v)
    requires IsNewest(newer + Rest(v, c) + Elements(input), t.ik.user, from, t)
    requires r in newer + Rest(v, c) && Sees(r, t.ik.user, from) && r.ik.kind != t.ik.kind
    ensures r.ik.sn < t.ik.sn
    ensures |v.files| > c.level + 1 ==> UniqueSeq(FileEntries(v.files[c.level + 1]))
  {
    AllMembers(v);
    assert r in newer + All(v) && t in newer + All(v);
  }

  /** What is older than a stored entry and not newer than all of them lies in a file that stays. */
  lemma OlderIsLeft(v: Version, c: Compaction, newer: set<Entry>, t: Entry, r: Entry) returns (lvl: nat, f: File)
    requires Above(newer, All(v)) && t in All(v) && r in newer + Rest(v, c)
    requires r.ik.user == t.ik.user && r.ik.sn < t.ik.sn
    ensures lvl < |v.files| && f in v.files[lvl] && Stays(c, lvl, f) && r in f.run
  {
    assert r in Rest(v, c);
    lvl, f :| lvl < |v.files| && f in v.files[lvl] && Stays(c, lvl, f) && r in f.run;
  }

  lemma ExposedAtNext(v: Version, c: Compaction, t: Entry, r: Entry, f: File)
    requires VersionOk(v) && c.level + 1 < NUM_LEVELS && UniqueSeq(FileEntries(v.files[c.level + 1]))
    requires Held(v.files[c.level], v.files[c.level + 1], c)
    requires t in InputEntries(c) && t !in FileEntries(c.in0)
    requires f in v.files[c.level + 1] && Stays(c, c.level + 1, f) && r in f.run
    requires r.ik.user == t.ik.user && r.ik.sn < t.ik.sn
    ensures !NoBoundaryBelow(v.files[c.level + 1], c.in1)
  {
    hide LevelsAbove, Held, UniqueSeq, SortedDisjoint, FilesOk;
    ExposedIsBoundary(v.files[c.level], v.files[c.level + 1], c, t, r, f);
  }

  lemma ExposedLevel(v: Version, c: Compaction, t: Entry, r: Entry, lvl: nat, f: File)
    requires VersionOk(v) && c.level + 1 < NUM_LEVELS && Held(v.files[c.level], v.files[c.level + 1], c)
    requires t in InputEntries(c) && BaseLevel(v, c.level, t.ik.user)
    requires lvl < NUM_LEVELS && f in v.files[lvl] && Stays(c, lvl, f) && r in f.run
    requires r.ik.user == t.ik.user && r.ik.sn < t.ik.sn
    ensures lvl == c.level + 1 && t !in FileEntries(c.in0)
  {
    NotDeeper(v, c.level, r, lvl, f);
    ExposedNotUpper(v, c, t, r, lvl, f);
    assert t in FileEntries(v.files[c.level + 1]) && r in FileEntries(v.files[lvl]);
    OlderIsDeeper(v, c.level + 1, lvl, t, r);
  }

  lemma ExposedNotUpper(v: Version, c: Compaction, t: Entry, r: Entry, lvl: nat, f: File)
    requires VersionOk(v) && c.level + 1 < NUM_LEVELS && Held(v.files[c.level], v.files[c.level + 1], c)
    requires lvl <= c.level + 1 && f in v.files[lvl] && Stays(c, lvl, f) && r in f.run
    requires r.ik.user == t.ik.user && r.ik.sn < t.ik.sn
    ensures t !in FileEntries(c.in0)
  {
    if t in FileEntries(c.in0) {
      assert t in FileEntries(v.files[c.level]) && r in FileEntries(v.files[lvl]);
      OlderIsDeeper(v, c.level, lvl, t, r);
      KeyOfUpperInput(v.files[c.level], v.files[c.level + 1], c, t, r, f);
      assert false;
    }
  }

  lemma NotDeeper(v: Version, level: nat, r: Entry, lvl: nat, f: File)
    requires |v.files| == NUM_LEVELS && BaseLevel(v, level, r.ik.user)
    requires lvl < NUM_LEVELS && f in v.files[lvl] && FileOk(f) && r in f.run
    ensures lvl <= level + 1
  {
    FileBounds(f, r);
    assert Contains(f, r.ik.user);
  }

  lemma OlderIsDeeper(v: Version, i: nat, j: nat, t: Entry, r: Entry)
    requires LevelsAbove(v) && i < |v.files| && j < |v.files|
    requires t in FileEntries(v.files[i]) && r in FileEntries(v.files[j])
    requires r.ik.user == t.ik.user && r.ik.sn < t.ik.sn
    ensures i <= j
  {
  }

  /** Only a file outside the range of the compaction can hold an entry older than one of its inputs. */
  lemma MeetingIsNewer(files: seq<File>, next: seq<File>, c: Compaction, t: Entry, r: Entry, f: File)
    requires Held(files, next, c) && t in InputEntries(c)
    requires f in next && f !in c.in1 && r in f.run && r.ik.user == t.ik.user && r.ik.sn < t.ik.sn
    ensures !Overlaps(f, Some(c.lo), Some(c.hi))
  {
    assert r in Elements(f.run);
  }

  /** For a key of the upper inputs nothing older stays behind at either level. */
  lemma KeyOfUpperInput(files: seq<File>, next: seq<File>, c: Compaction, t: Entry, r: Entry, f: File)
    requires FilesOk(files) && FilesOk(next) && Held(files, next, c)
    requires t in FileEntries(c.in0) && r in f.run && r.ik.user == t.ik.user && r.ik.sn < t.ik.sn
    ensures f in files ==> f in c.in0
    ensures f in next ==> f in c.in1
  {
    var g :| g in c.in0 && t in g.run;
    assert t in Elements(g.run) && r in Elements(f.run);
    FileBounds(g, t);
    if f in next && f !in c.in1 {
      FileBounds(f, r);
      MeetingIsNewer(files, next, c, t, r, f);
    }
  }

  lemma ExposedIsBoundary(files: seq<File>, next: seq<File>, c: Compaction, t: Entry, r: Entry, f: File)
    requires FilesOk(files) && FilesOk(next) && SortedDisjoint(next) && UniqueSeq(FileEntries(next))
    requires Held(files, next, c) && t in FileEntries(c.in1)
    requires f in next && f !in c.in1 && r in f.run && r.ik.user == t.ik.user && r.ik.sn < t.ik.sn
    ensures exists k :: IsLargest(c.in1, k) && Boundary(f, k)
  {
    var g :| g in c.in1 && t in g.run;
    OlderFileIsAfter(next, f, g, r, t);
    MeetingIsNewer(files, next, c, t, r, f);
    LeftOutIsApart(files, next, c, f);
    AfterAllIsBoundary(c, f, g, r, t);
  }

  lemma OlderFileIsAfter(next: seq<File>, f: File, g: File, r: Entry, t: Entry)
    requires FilesOk(next) && SortedDisjoint(next) && UniqueSeq(FileEntries(next))
    requires f in next && g in next && f != g && r in f.run && t in g.run
    requires r.ik.user == t.ik.user && r.ik.sn < t.ik.sn
    ensures Less(g.largest, f.smallest)
  {
    var x :| 0 <= x < |next| && next[x] == f;
    var y :| 0 <= y < |next| && next[y] == g;
    OlderIsAfter(next, x, y, r, t);
  }

  lemma AfterAllIsBoundary(c: Compaction, f: File, g: File, r: Entry, t: Entry)
    requires FilesOk(c.in1) && FileOk(f) && g in c.in1 && t in g.run && r in f.run && r.ik.user == t.ik.user
    requires Less(g.largest, f.smallest)
    requires (forall h | h in c.in0 + c.in1 :: Less(f.largest, h.smallest))
          || (forall h | h in c.in0 + c.in1 :: Less(h.largest, f.smallest))
    ensures exists k :: IsLargest(c.in1, k) && Boundary(f, k)
  {
    FileBounds(f, r);
    FileBounds(g, t);
    assert g in c.in0 + c.in1;
    var k := LargestOf(c.in1);
    var h :| h in c.in1 && h.largest == k;
    assert h in c.in0 + c.in1;
  }

  lemma {:induction false} LargestOf(files: seq<File>) returns (k: IKey)
    requires files != []
    ensures IsLargest(files, k)
  {
    if |files| == 1 {
      k := files[0].largest;
    } else {
      k := LargestOf(files[1..]);
      if Less(k, files[0].largest) {
        k := files[0].largest;
      }
      assert forall f | f in files :: f == files[0] || f in files[1..];
    }
    assert files[0] in files && forall f | f in files[1..] :: f in files;
  }

  // A flush while a compaction is under way.

  lemma AddedFile(files: seq<File>, f: File, files': seq<File>)
    requires LevelEdit(files, [], [f], files')
    ensures forall g :: g in files' <==> g in files || g == f
  {
  }

  lemma FlushedIsNewer(v: Version, level: nat, f: File, l: nat, g: File)
    requires Flushable(v, level, f) && l < NUM_LEVELS && g in v.files[l]
    ensures Above(Elements(f.run), Elements(g.run))
  {
    assert Above(Elements(f.run), FileEntries(v.files[l]));
    assert Elements(g.run) <= FileEntries(v.files[l]);
  }

  /** The inputs stay where they are, and what the flush adds is newer. */
  lemma FlushKeepsHeld(v: Version, level: nat, f: File, v': Version, c: Compaction)
    requires Flushable(v, level, f) && FlushInstall(v, level, f, v') && c.level + 1 < NUM_LEVELS
    requires Held(v.files[c.level], v.files[c.level + 1], c)
    ensures Held(v'.files[c.level], v'.files[c.level + 1], c)
  {
    hide LevelEdit, Above, Elements, Overlaps, IsRange, InputEntries, FilesOk, SortedDisjoint, ZeroOrdered, LevelsAbove;
    var files, next := v.files[c.level], v.files[c.level + 1];
    if level == c.level {
      AddedFile(files, f, v'.files[level]);
      forall g | g in c.in0
        ensures Above(Elements(f.run), Elements(g.run))
      {
        FlushedIsNewer(v, level, f, level, g);
      }
    }
    if level == c.level + 1 {
      AddedFile(next, f, v'.files[level]);
      FlushedIsNewest(v, level, f, c);
    }
  }

  lemma FlushedIsNewest(v: Version, level: nat, f: File, c: Compaction)
    requires Flushable(v, level, f) && c.level + 1 < NUM_LEVELS
    requires Held(v.files[c.level], v.files[c.level + 1], c)
    ensures Above(Elements(f.run), InputEntries(c))
  {
    assert Above(Elements(f.run), FileEntries(v.files[c.level])) && Above(Elements(f.run), FileEntries(v.files[c.level + 1]));
    assert FileEntries(c.in0) <= FileEntries(v.files[c.level]) && FileEntries(c.in1) <= FileEntries(v.files[c.level + 1]);
  }

  /** A file flushed to the next level meets no input, so without a gap between the inputs it lies outside
      their range. */
  lemma FlushFitsGapless(v: Version, level: nat, f: File, v': Version, c: Compaction)
    requires Flushable(v, level, f) && FlushInstall(v, level, f, v') && c.level + 1 < NUM_LEVELS
    requires Held(v.files[c.level], v.files[c.level + 1], c)
    requires Gapless(Both(c)) && TakesAll(v.files[c.level + 1], c)
    ensures TakesAll(v'.files[c.level + 1], c)
  {
    hide LevelEdit, Above, IsRange, LeavesNewer, Gapless;
    if level == c.level + 1 {
      AddedFile(v.files[level], f, v'.files[level]);
      ClearOfInputs(v, level, f, c);
      OutsideRange(c, f);
    }
  }

  lemma ClearOfInputs(v: Version, level: nat, f: File, c: Compaction)
    requires Flushable(v, level, f) && c.level < level && c.level + 1 < NUM_LEVELS
    requires Held(v.files[c.level], v.files[c.level + 1], c)
    ensures forall g | g in Both(c) :: g.largest.user < f.smallest.user || f.largest.user < g.smallest.user
    ensures f.smallest.user <= f.largest.user && forall g | g in Both(c) :: g.smallest.user <= g.largest.user
  {
    hide Above, LevelsAbove, SortedDisjoint, ZeroOrdered, LeavesNewer, IsRange;
    FilesSpan([f]);
    assert f in [f];
    FilesSpan(v.files[c.level]);
    FilesSpan(v.files[c.level + 1]);
    forall g | g in Both(c)
      ensures !Overlaps(g, Some(f.smallest.user), Some(f.largest.user))
    {
      assert g in v.files[c.level] || g in v.files[c.level + 1];
    }
  }

  lemma OutsideRange(c: Compaction, f: File)
    requires Gapless(Both(c)) && IsRange(c.in0, c.lo, c.hi)
    requires f.smallest.user <= f.largest.user && forall g | g in Both(c) :: g.smallest.user <= g.largest.user
    requires forall g | g in Both(c) :: g.largest.user < f.smallest.user || f.largest.user < g.smallest.user
    ensures !Overlaps(f, Some(c.lo), Some(c.hi))
  {
    var x := f.smallest.user;
    assert Avoids(Both(c), x);
    AvoidsParts(c.in0, c.in1, x);
    SideOfRange(c.in0, c.lo, c.hi, x);
    var g :| g in c.in0 && g.smallest.user == c.lo;
    assert g in Both(c);
  }

  /** A key of the inputs that no deeper level holds is not brought there by a flush either. */
  lemma FlushKeepsBase(v: Version, level: nat, f: File, v': Version, c: Compaction, e: Entry)
    requires Flushable(v, level, f) && FlushInstall(v, level, f, v') && c.level + 1 < NUM_LEVELS
    requires Held(v.files[c.level], v.files[c.level + 1], c) && e in InputEntries(c) && BaseLevel(v, c.level, e.ik.user)
    ensures BaseLevel(v', c.level, e.ik.user)
  {
    if level >= c.level + 2 {
      AddedFile(v.files[level], f, v'.files[level]);
      ClearOfInputs(v, level, f, c);
      InputIsClear(v, level, f, c, e);
    }
  }

  lemma InputIsClear(v: Version, level: nat, f: File, c: Compaction, e: Entry)
    requires VersionOk(v) && c.level + 1 < NUM_LEVELS && Held(v.files[c.level], v.files[c.level + 1], c) && e in InputEntries(c)
    requires forall g | g in Both(c) :: g.largest.user < f.smallest.user || f.largest.user < g.smallest.user
    ensures !Contains(f, e.ik.user)
  {
    var g := WithinInput(c, e);
  }

  /** What is flushed is newer than the last entry of the inputs, so it is no boundary file of theirs. */
  lemma FlushAddsNoBoundary(v: Version, level: nat, f: File, v': Version, c: Compaction)
    requires Flushable(v, level, f) && FlushInstall(v, level, f, v') && c.level + 1 < NUM_LEVELS
    requires Held(v.files[c.level], v.files[c.level + 1], c) && NoBoundaryBelow(v.files[c.level + 1], c.in1)
    ensures NoBoundaryBelow(v'.files[c.level + 1], c.in1)
  {
    hide LevelEdit, Above, Overlaps, LevelsAbove, SortedDisjoint, ZeroOrdered, LeavesNewer;
    if level == c.level + 1 {
      AddedFile(v.files[level], f, v'.files[level]);
      forall k | IsLargest(c.in1, k)
        ensures !Boundary(f, k)
      {
        var g :| g in c.in1 && g.largest == k;
        FlushedIsNewer(v, level, f, level, g);
        NewerIsNoBoundary(f, g);
      }
    }
  }

  lemma NewerIsNoBoundary(f: File, g: File)
    requires FileOk(f) && FileOk(g) && Above(Elements(f.run), Elements(g.run))
    ensures !Boundary(f, g.largest)
  {
    assert f.run[0] in Elements(f.run) && g.run[|g.run| - 1] in Elements(g.run);
  }
}
