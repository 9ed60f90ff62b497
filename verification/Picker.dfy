/** Which files a compaction takes (PickCompaction, CompactRange and SetupOtherInputs in version_set.cc). */
module Picker {
  import opened Keys
  import opened Entries
  import opened Versions
  import opened Inputs

  /** Inputs from `level` and `level + 1`, and the user-key range of the former. */
  datatype Compaction = Compaction(level: nat, in0: seq<File>, in1: seq<File>, lo: UserKey, hi: UserKey)

  /** The user keys of the files lie within [lo, hi]. */
  ghost predicate Within(files: seq<File>, lo: UserKey, hi: UserKey) {
    forall f | f in files :: lo <= f.smallest.user && f.largest.user <= hi
  }

  /** The bounds are the least and the greatest user key of the files. */
  ghost predicate IsRange(files: seq<File>, lo: UserKey, hi: UserKey) {
    && (exists f :: f in files && f.smallest.user == lo)
    && (exists f :: f in files && f.largest.user == hi)
    && Within(files, lo, hi)
  }

  lemma RangeUnique(files: seq<File>, lo: UserKey, hi: UserKey, lo': UserKey, hi': UserKey)
    requires IsRange(files, lo, hi) && IsRange(files, lo', hi')
    ensures lo == lo' && hi == hi'
  {
  }

  lemma {:induction false} RangeExists(files: seq<File>) returns (lo: UserKey, hi: UserKey)
    requires files != []
    ensures IsRange(files, lo, hi)
  {
    var f := files[|files| - 1];
    lo, hi := f.smallest.user, f.largest.user;
    if |files| > 1 {
      var rest := files[..|files| - 1];
      var l, h := RangeExists(rest);
      assert forall g | g in rest :: g in files;
      assert forall g | g in files :: g == f || g in rest;
      lo, hi := if l < lo then l else lo, if h > hi then h else hi;
    } else {
      assert f in files;
    }
  }

  method GetRange(files: seq<File>) returns (smallest: IKey, largest: IKey)
    requires files != []
    ensures
      && (exists f :: f in files && f.smallest == smallest)
      && forall f | f in files :: AtMost(smallest, f.smallest)
    ensures IsLargest(files, largest)
    ensures IsRange(files, smallest.user, largest.user)
  {
    smallest, largest := files[0].smallest, files[0].largest;
    for i := 1 to |files|
      invariant exists f :: f in files && f.smallest == smallest
      invariant exists f :: f in files && f.largest == largest
      invariant forall j | 0 <= j < i :: AtMost(smallest, files[j].smallest) && AtMost(files[j].largest, largest)
    {
      if Less(files[i].smallest, smallest) {
        smallest := files[i].smallest;
      }
      if Less(largest, files[i].largest) {
        largest := files[i].largest;
      }
    }
  }

  /** The inputs chosen leave only newer entries behind at `level`, and take every file of `level + 1`
      that meets their user-key range. */
  ghost predicate Compactable(files: seq<File>, next: seq<File>, c: Compaction) {
    && c.in0 != [] && (forall f | f in c.in0 :: f in files)
    && LeavesNewer(files, c.in0)
    && IsRange(c.in0, c.lo, c.hi)
    && forall f :: f in c.in1 <==> f in next && Overlaps(f, Some(c.lo), Some(c.hi))
  }

  /** Every file left out of `chosen` holds only newer data for the keys it shares with a chosen one. */
  ghost predicate LeavesNewer(files: seq<File>, chosen: seq<File>) {
    forall f, g | f in files && f !in chosen && g in chosen :: Above(Elements(f.run), Elements(g.run))
  }

  ghost predicate LevelOk(files: seq<File>, levelZero: bool) {
    FilesOk(files) && UniqueSeq(FileEntries(files)) && (levelZero || SortedDisjoint(files))
  }

  /** What SetupOtherInputs may be given: no gap, and at level 0 every file the range of the chosen meets. */
  ghost predicate Seed(files: seq<File>, levelZero: bool, chosen: seq<File>) {
    && chosen != [] && (forall f | f in chosen :: f in files)
    && (levelZero ==> forall f, g, h | f in files && g in chosen && h in chosen
          && g.smallest.user <= f.largest.user && f.smallest.user <= h.largest.user :: f in chosen)
    && (!levelZero ==> Convex(files, chosen))
  }

  lemma NewerStays(files: seq<File>, levelZero: bool, chosen: seq<File>, k: IKey)
    requires LevelOk(files, levelZero)
    requires Seed(files, levelZero, chosen) && IsLargest(chosen, k)
    requires forall f | f in files :: !Boundary(f, k)
    ensures LeavesNewer(files, chosen)
  {
    hide LevelOk, Seed, IsLargest, Boundary;
    forall f, g, d, e | f in files && f !in chosen && g in chosen && d in f.run && e in g.run && d.ik.user == e.ik.user
      ensures d.ik.sn > e.ik.sn
    {
      if levelZero {
        NothingShared(files, chosen, f, g, d, e);
      } else {
        LeftOutIsNewer(files, chosen, k, f, g, d, e);
      }
    }
  }

  /** At level 0 a file that shares a key with a chosen one is chosen. */
  lemma NothingShared(files: seq<File>, chosen: seq<File>, f: File, g: File, d: Entry, e: Entry)
    requires LevelOk(files, true) && Seed(files, true, chosen)
    requires f in files && g in chosen && d in f.run && e in g.run && d.ik.user == e.ik.user
    ensures f in chosen
  {
    hide SortedDisjoint, UniqueSeq;
    FileBounds(f, d);
    FileBounds(g, e);
  }

  lemma LeftOutIsNewer(files: seq<File>, chosen: seq<File>, k: IKey, f: File, g: File, d: Entry, e: Entry)
    requires LevelOk(files, false) && Seed(files, false, chosen) && IsLargest(chosen, k)
    requires forall h | h in files :: !Boundary(h, k)
    requires f in files && f !in chosen && g in chosen && d in f.run && e in g.run && d.ik.user == e.ik.user
    ensures d.ik.sn > e.ik.sn
  {
    hide SortedDisjoint, UniqueSeq, Convex, IsLargest, Boundary;
    FileBounds(f, d);
    FileBounds(g, e);
    var i :| 0 <= i < |files| && files[i] == f;
    var j :| 0 <= j < |files| && files[j] == g;
    if d.ik.sn <= e.ik.sn {
      OlderIsAfter(files, i, j, d, e);
      LaterLeftOut(files, chosen, k, i, j);
      assert false;
    }
  }

  /** In a sorted level the older of two entries of one user key lies in the same or a later file. */
  lemma OlderIsAfter(files: seq<File>, i: nat, j: nat, d: Entry, e: Entry)
    requires FilesOk(files) && UniqueSeq(FileEntries(files)) && SortedDisjoint(files)
    requires i < |files| && j < |files| && d in files[i].run && e in files[j].run
    requires d.ik.user == e.ik.user && d.ik.sn <= e.ik.sn
    ensures i >= j
  {
    assert files[i] in files && files[j] in files;
    assert d in FileEntries(files) && e in FileEntries(files);
    FileBounds(files[i], d);
    FileBounds(files[j], e);
  }

  /** A file left out after a chosen one starts after every chosen key, and not with the last user key. */
  lemma LaterLeftOut(files: seq<File>, chosen: seq<File>, k: IKey, i: nat, j: nat)
    requires FilesOk(files) && SortedDisjoint(files) && Convex(files, chosen)
    requires IsLargest(chosen, k) && forall f | f in chosen :: f in files
    requires forall f | f in files :: !Boundary(f, k)
    requires j <= i < |files| && files[j] in chosen && files[i] !in chosen
    ensures files[i].smallest.user > k.user && files[j].largest.user <= k.user
  {
    var top :| top in chosen && top.largest == k;
    var t :| 0 <= t < |files| && files[t] == top;
    assert files[i] in files;
  }

  /** A range that no left-out file meets makes a seed of the files that meet it. */
  lemma SelectedIsSeed(files: seq<File>, levelZero: bool, b: Option<UserKey>, e: Option<UserKey>)
    requires FilesOk(files) && Selected(files, b, e) != []
    requires if levelZero then ClosedRange(files, b, e) else SortedDisjoint(files)
    ensures Seed(files, levelZero, Selected(files, b, e))
  {
    FilesSpan(files);
  }

  // Which files are taken.

  /** What GetOverlappingInputs returns. */
  ghost predicate IsOverlap(files: seq<File>, levelZero: bool, begin: Option<UserKey>, end: Option<UserKey>, r: seq<File>) {
    exists b, e :: FinalRange(files, levelZero, begin, end, b, e) && r == Selected(files, b, e)
  }

  /** The chosen files and their boundary files, and the files of the next level that meet their range. */
  ghost predicate IsBase(files: seq<File>, next: seq<File>, level: nat, chosen: seq<File>, b: Compaction) {
    && b.level == level
    && IsClosure(files, chosen, b.in0)
    && IsRange(b.in0, b.lo, b.hi)
    && b.in1 == Selected(next, Some(b.lo), Some(b.hi))
  }

  /** The same from all files that meet the range of both inputs of `b`. */
  ghost predicate IsWider(files: seq<File>, next: seq<File>, b: Compaction, g: Compaction) {
    && g.level == b.level
    && IsRange(g.in0, g.lo, g.hi)
    && g.in1 == Selected(next, Some(g.lo), Some(g.hi))
    && exists lo, hi, sel ::
         && IsRange(b.in0 + b.in1, lo, hi)
         && IsOverlap(files, b.level == 0, Some(lo), Some(hi), sel)
         && IsClosure(files, sel, g.in0)
  }

  /** Growing takes in more of `level`, no more of the next level, and not too much of both. */
  predicate Worthwhile(b: Compaction, g: Compaction, limit: nat) {
    && |g.in0| > |b.in0|
    && TotalFileSize(b.in1) + TotalFileSize(g.in0) < limit
    && |g.in1| == |b.in1|
  }

  ghost predicate IsGrowth(files: seq<File>, next: seq<File>, b: Compaction, limit: nat, c: Compaction) {
    exists g :: IsWider(files, next, b, g) && c == if Worthwhile(b, g, limit) then g else b
  }

  /** What SetupOtherInputs makes of the chosen files. */
  ghost predicate IsSetup(files: seq<File>, next: seq<File>, level: nat, chosen: seq<File>, limit: nat, c: Compaction) {
    exists b :: IsBase(files, next, level, chosen, b) && if b.in1 == [] then c == b else IsGrowth(files, next, b, limit, c)
  }

  /** The compaction that follows from one picked file. */
  ghost predicate FromFile(files: seq<File>, next: seq<File>, level: nat, picked: File, limit: nat, c: Compaction) {
    if level > 0 then IsSetup(files, next, level, [picked], limit, c)
    else exists chosen ::
      && IsOverlap(files, true, Some(picked.smallest.user), Some(picked.largest.user), chosen)
      && IsSetup(files, next, level, chosen, limit, c)
  }

  /** SetupOtherInputs: boundary files, the files of the next level, and growth of the upper inputs when
      that takes in no further file of the next level. */
  method SetupOtherInputs(files: seq<File>, next: seq<File>, level: nat, chosen: seq<File>, expandedLimit: nat) returns (c: Compaction)
    requires LevelOk(files, level == 0) && FilesOk(next)
    requires Seed(files, level == 0, chosen)
    ensures c.level == level && Compactable(files, next, c)
    ensures IsSetup(files, next, level, chosen, expandedLimit, c)
    ensures forall f | f in chosen :: f in c.in0
  {
    hide LevelOk, FilesOk, Seed, LeavesNewer, Within, IsClosure, IsRange, IsWider, Selected, Convex, Boundary,
      IsLargest;
    var in0 := CloseInputs(files, level == 0, chosen);
    var smallest, largest := GetRange(in0);
    var in1, _, _ := GetOverlappingInputs(level + 1 == 0, next, Some(smallest.user), Some(largest.user));
    c := Compaction(level, in0, in1, smallest.user, largest.user);
    BaseIsCompactable(files, next, level, chosen, c);
    if in1 != [] {
      c := GrowInputs(files, next, c, expandedLimit);
    }
  }

  method CloseInputs(files: seq<File>, levelZero: bool, chosen: seq<File>) returns (r: seq<File>)
    requires LevelOk(files, levelZero) && Seed(files, levelZero, chosen)
    ensures IsClosure(files, chosen, r) && LeavesNewer(files, r)
    ensures r != [] && (forall f | f in r :: f in files) && forall f | f in chosen :: f in r
  {
    hide IsClosure, LeavesNewer, UniqueSeq;
    r := AddBoundaryInputs(files, chosen);
    BoundaryKeepsSeed(files, levelZero, chosen, r);
  }

  lemma BaseIsCompactable(files: seq<File>, next: seq<File>, level: nat, chosen: seq<File>, b: Compaction)
    requires IsBase(files, next, level, chosen, b) && LeavesNewer(files, b.in0)
    ensures Compactable(files, next, b)
  {
  }

  /** The inputs of `level` may grow as long as the inputs of `level + 1` stay the same. */
  method GrowInputs(files: seq<File>, next: seq<File>, c: Compaction, expandedLimit: nat) returns (r: Compaction)
    requires LevelOk(files, c.level == 0) && FilesOk(next) && Compactable(files, next, c)
    requires c.in1 == Selected(next, Some(c.lo), Some(c.hi)) && IsRange(c.in0, c.lo, c.hi)
    ensures r.level == c.level && Compactable(files, next, r)
    ensures IsGrowth(files, next, c, expandedLimit, r)
    ensures forall f | f in c.in0 :: f in r.in0
    ensures r.in1 == c.in1
  {
    hide LevelOk, FilesOk, LeavesNewer, Within, IsClosure, IsRange, Selected, Seed, IsOverlap;
    r := c;
    var level := c.level;
    var allStart, allLimit := GetRange(c.in0 + c.in1);
    var grown, sel := ClosedOverlap(files, level == 0, c.in0, c.in1, allStart.user, allLimit.user);
    ghost var lo, hi := RangeExists(grown);
    ghost var g := Compaction(level, grown, Selected(next, Some(lo), Some(hi)), lo, hi);
    assert IsWider(files, next, c, g);
    GrownIsCompactable(files, next, c, g);
    if |grown| > |c.in0| && TotalFileSize(c.in1) + TotalFileSize(grown) < expandedLimit {
      var newStart, newLimit := GetRange(grown);
      RangeUnique(grown, lo, hi, newStart.user, newLimit.user);
      var expanded1, _, _ := GetOverlappingInputs(level + 1 == 0, next, Some(newStart.user), Some(newLimit.user));
      if |expanded1| == |c.in1| {
        r := Compaction(level, grown, expanded1, newStart.user, newLimit.user);
      }
    }
  }

  lemma GrownIsCompactable(files: seq<File>, next: seq<File>, c: Compaction, g: Compaction)
    requires IsRange(c.in0, c.lo, c.hi) && c.in1 == Selected(next, Some(c.lo), Some(c.hi))
    requires IsRange(g.in0, g.lo, g.hi) && g.in1 == Selected(next, Some(g.lo), Some(g.hi))
    requires g.in0 != [] && (forall f | f in g.in0 :: f in files) && LeavesNewer(files, g.in0) && forall f | f in c.in0 :: f in g.in0
    ensures Compactable(files, next, g)
    ensures |g.in1| == |c.in1| ==> g.in1 == c.in1
  {
    hide LeavesNewer;
    RangeWidens(c.in0, c.lo, c.hi, g.in0, g.lo, g.hi);
    SelectedGrows(next, c.lo, c.hi, g.lo, g.hi);
  }

  lemma RangeWidens(in0: seq<File>, lo: UserKey, hi: UserKey, grown: seq<File>, lo': UserKey, hi': UserKey)
    requires IsRange(in0, lo, hi) && (forall f | f in in0 :: f in grown) && Within(grown, lo', hi')
    ensures lo' <= lo && hi <= hi'
  {
    var f :| f in in0 && f.smallest.user == lo;
    var g :| g in in0 && g.largest.user == hi;
    assert f in grown && g in grown;
  }

  /** A wider range selects the same files or more of them. */
  lemma {:induction false} SelectedGrows(files: seq<File>, lo: UserKey, hi: UserKey, lo': UserKey, hi': UserKey)
    requires lo' <= lo && hi <= hi'
    ensures |Selected(files, Some(lo), Some(hi))| <= |Selected(files, Some(lo'), Some(hi'))|
    ensures |Selected(files, Some(lo), Some(hi))| == |Selected(files, Some(lo'), Some(hi'))| ==>
      Selected(files, Some(lo), Some(hi)) == Selected(files, Some(lo'), Some(hi'))
  {
    if files != [] {
      SelectedGrows(files[..|files| - 1], lo, hi, lo', hi');
    }
  }

  method ClosedOverlap(files: seq<File>, levelZero: bool, in0: seq<File>, in1: seq<File>, lo: UserKey, hi: UserKey)
    returns (grown: seq<File>, ghost expanded0: seq<File>)
    requires LevelOk(files, levelZero)
    requires in0 != [] && forall f | f in in0 :: f in files
    requires IsRange(in0 + in1, lo, hi)
    ensures IsOverlap(files, levelZero, Some(lo), Some(hi), expanded0) && IsClosure(files, expanded0, grown)
    ensures grown != [] && (forall f | f in grown :: f in files) && forall f | f in in0 :: f in grown
    ensures LeavesNewer(files, grown)
  {
    var inputs, b, e := GetOverlappingInputs(levelZero, files, Some(lo), Some(hi));
    InputsMeetRange(files, in0, in1, lo, hi, b, e);
    SelectedIsSeed(files, levelZero, b, e);
    expanded0 := inputs;
    grown := CloseInputs(files, levelZero, inputs);
  }

  lemma InputsMeetRange(files: seq<File>, in0: seq<File>, in1: seq<File>, lo: UserKey, hi: UserKey,
                        b: Option<UserKey>, e: Option<UserKey>)
    requires FilesOk(files) && in0 != [] && forall f | f in in0 :: f in files
    requires Within(in0 + in1, lo, hi) && Widens(b, e, Some(lo), Some(hi))
    ensures forall f | f in in0 :: f in Selected(files, b, e)
    ensures Selected(files, b, e) != []
  {
    FilesSpan(files);
    forall f | f in in0
      ensures f in Selected(files, b, e)
    {
      assert f in in0 + in1;
    }
    assert in0[0] in in0;
  }

  lemma BoundaryKeepsSeed(files: seq<File>, levelZero: bool, chosen: seq<File>, r: seq<File>)
    requires LevelOk(files, levelZero)
    requires Seed(files, levelZero, chosen) && chosen <= r && forall f | f in r :: f in files
    requires exists k :: IsLargest(r, k) && forall f | f in files :: !Boundary(f, k)
    requires !levelZero ==> Convex(files, r)
    requires r == chosen || exists k, f :: IsLargest(chosen, k) && f in files && Boundary(f, k)
    ensures Seed(files, levelZero, r)
    ensures LeavesNewer(files, r)
  {
    hide LevelOk, LeavesNewer, Convex;
    if levelZero {
      ZeroHasNoBoundary(files, chosen);
    }
    var k :| IsLargest(r, k) && forall f | f in files :: !Boundary(f, k);
    NewerStays(files, levelZero, r, k);
  }

  lemma ZeroHasNoBoundary(files: seq<File>, chosen: seq<File>)
    requires LevelOk(files, true) && Seed(files, true, chosen)
    ensures forall k, f | IsLargest(chosen, k) && f in files :: !Boundary(f, k)
  {
    hide UniqueSeq, SortedDisjoint, Convex;
    FilesSpan(files);
    forall k, f | IsLargest(chosen, k) && f in files
      ensures !Boundary(f, k)
    {
      var g :| g in chosen && g.largest == k;
      assert AtMost(g.smallest, k) && AtMost(f.smallest, f.largest);
      assert Boundary(f, k) ==> f in chosen && AtMost(f.largest, k);
    }
  }

  predicate IsAfter(pointer: Option<IKey>, f: File) {
    pointer.None? || Less(pointer.value, f.largest)
  }

  /** The first file after the compaction pointer, or the first of all when there is none. */
  ghost predicate IsNext(files: seq<File>, pointer: Option<IKey>, i: nat) {
    && i < |files|
    && if IsAfter(pointer, files[i]) then forall j | 0 <= j < i :: !IsAfter(pointer, files[j])
       else i == 0 && forall j | 0 <= j < |files| :: !IsAfter(pointer, files[j])
  }

  /** The size-triggered choice: the first file past the level's compaction pointer, wrapping around. */
  method PickCompaction(files: seq<File>, next: seq<File>, level: nat, pointer: Option<IKey>, expandedLimit: nat) returns (c: Compaction)
    requires LevelOk(files, level == 0) && FilesOk(next) && files != []
    ensures c.level == level && Compactable(files, next, c)
    ensures exists i: nat :: IsNext(files, pointer, i) && FromFile(files, next, level, files[i], expandedLimit, c)
  {
    var picked := files[0];
    ghost var at := 0;
    for i := 0 to |files|
      invariant picked == files[0] && at == 0
      invariant forall j | 0 <= j < i :: !IsAfter(pointer, files[j])
    {
      if pointer.None? || Less(pointer.value, files[i].largest) {
        picked := files[i];
        at := i;
        break;
      }
    }
    assert IsNext(files, pointer, at);
    c := CompactFile(files, next, level, picked, expandedLimit);
  }

  /** Both kinds of automatic compaction go on from one picked file. */
  method CompactFile(files: seq<File>, next: seq<File>, level: nat, picked: File, expandedLimit: nat) returns (c: Compaction)
    requires LevelOk(files, level == 0) && FilesOk(next)
    requires picked in files
    ensures c.level == level && Compactable(files, next, c) && picked in c.in0
    ensures FromFile(files, next, level, picked, expandedLimit, c)
  {
    var inputs := [picked];
    if level == 0 {
      var smallest, largest := GetRange(inputs);
      ghost var b, e;
      inputs, b, e := GetOverlappingInputs(true, files, Some(smallest.user), Some(largest.user));
      InputsMeetRange(files, [picked], [], smallest.user, largest.user, b, e);
      SelectedIsSeed(files, true, b, e);
    }
    c := SetupOtherInputs(files, next, level, inputs, expandedLimit);
  }

  /** On a sorted level the files meeting a range have no gap. */
  lemma SelectedIsConvex(files: seq<File>, lo: Option<UserKey>, hi: Option<UserKey>)
    requires FilesOk(files) && SortedDisjoint(files)
    ensures Convex(files, Selected(files, lo, hi))
  {
    FilesSpan(files);
    assert forall i | 0 <= i < |files| :: files[i] in files;
  }

  lemma ConvexInLonger(files: seq<File>, n: nat, chosen: seq<File>)
    requires n < |files| && Convex(files[..n], chosen) && forall i | n <= i < |files| :: files[i] !in chosen
    ensures Convex(files, chosen)
  {
    assert forall i | 0 <= i < n :: files[..n][i] == files[i];
  }

  /** Neither has any first part of them. */
  lemma {:induction false} PrefixIsConvex(files: seq<File>, lo: Option<UserKey>, hi: Option<UserKey>, m: nat)
    requires FilesOk(files) && SortedDisjoint(files) && m <= |Selected(files, lo, hi)|
    ensures Convex(files, Selected(files, lo, hi)[..m])
  {
    hide Convex, Selected, SortedDisjoint, FilesOk;
    var r := Selected(files, lo, hi);
    if m == |r| {
      assert r[..m] == r;
      SelectedIsConvex(files, lo, hi);
    } else {
      LastSelected(files, lo, hi, m);
      var n := |files| - 1;
      LastIsOutside(files);
      PrefixIsConvex(files[..n], lo, hi, m);
      ConvexInLonger(files, n, r[..m]);
    }
  }

  lemma LastSelected(files: seq<File>, lo: Option<UserKey>, hi: Option<UserKey>, m: nat)
    requires m < |Selected(files, lo, hi)|
    ensures
      && files != []
      && m <= |Selected(files[..|files| - 1], lo, hi)|
      && Selected(files, lo, hi)[..m] == Selected(files[..|files| - 1], lo, hi)[..m]
    ensures forall f | f in Selected(files, lo, hi)[..m] :: f in files[..|files| - 1]
  {
    hide Overlaps;
    var before := Selected(files[..|files| - 1], lo, hi);
    assert Selected(files, lo, hi)[..m] == before[..m];
    assert forall f | f in before[..m] :: f in before;
  }

  lemma LastIsOutside(files: seq<File>)
    requires FilesOk(files) && SortedDisjoint(files) && files != []
    ensures var before := files[..|files| - 1];
      FilesOk(before) && SortedDisjoint(before) && files[|files| - 1] !in before
  {
    DistinctAt(files, |files| - 1);
    assert forall f | f in files[..|files| - 1] :: f in files;
  }

  /** All the wanted files at level 0; at a sorted level the first of them, up to the size limit. */
  ghost predicate TakesUpTo(wanted: seq<File>, m: nat, level: nat, sizeLimit: nat) {
    && 0 < m <= |wanted|
    && (m < |wanted| ==> level > 0 && TotalFileSize(wanted[..m]) >= sizeLimit)
    && (level > 0 ==> forall k | 0 < k < m :: TotalFileSize(wanted[..k]) < sizeLimit)
  }

  /** The compaction that follows from a range of keys. */
  ghost predicate FromRange(files: seq<File>, next: seq<File>, level: nat, begin: Option<UserKey>, end: Option<UserKey>,
                            sizeLimit: nat, limit: nat, c: Compaction) {
    exists wanted, m ::
      && IsOverlap(files, level == 0, begin, end, wanted)
      && TakesUpTo(wanted, m, level, sizeLimit)
      && IsSetup(files, next, level, wanted[..m], limit, c)
  }

  /** A manual compaction of a sorted level takes a first part of the files meeting its range. */
  method CompactRange(files: seq<File>, next: seq<File>, level: nat, begin: Option<UserKey>, end: Option<UserKey>, sizeLimit: nat,
                      expandedLimit: nat)
    returns (o: Option<Compaction>)
    requires LevelOk(files, level == 0) && FilesOk(next)
    ensures o.Some? ==> o.value.level == level && Compactable(files, next, o.value)
    ensures o.None? ==> forall f | f in files :: !Overlaps(f, begin, end)
    ensures o.Some? ==> FromRange(files, next, level, begin, end, sizeLimit, expandedLimit, o.value)
  {
    hide FilesOk, UniqueSeq, SortedDisjoint, Convex, IsSetup, Compactable, Seed;
    var wanted, b, e := GetOverlappingInputs(level == 0, files, begin, end);
    if wanted == [] {
      return None;
    }
    SelectedIsSeed(files, level == 0, b, e);
    var m := TakeUpTo(wanted, level, sizeLimit);
    if level > 0 {
      PrefixIsSeed(files, begin, end, m);
    } else {
      assert wanted[..m] == wanted;
    }
    var inputs := wanted[..m];
    var c := SetupOtherInputs(files, next, level, inputs, expandedLimit);
    o := Some(c);
  }

  /** At a sorted level, the number of files after which the size limit is reached. */
  method TakeUpTo(wanted: seq<File>, level: nat, sizeLimit: nat) returns (m: nat)
    requires wanted != []
    ensures TakesUpTo(wanted, m, level, sizeLimit)
  {
    if level > 0 {
      var total := 0;
      for i := 0 to |wanted|
        invariant total == TotalFileSize(wanted[..i])
        invariant forall k | 0 < k <= i :: TotalFileSize(wanted[..k]) < sizeLimit
      {
        assert wanted[..i + 1][..i] == wanted[..i];
        total := total + wanted[i].size;
        if total >= sizeLimit {
          return i + 1;
        }
      }
    }
    m := |wanted|;
  }

  lemma PrefixIsSeed(files: seq<File>, begin: Option<UserKey>, end: Option<UserKey>, m: nat)
    requires LevelOk(files, false) && 0 < m <= |Selected(files, begin, end)|
    ensures Seed(files, false, Selected(files, begin, end)[..m])
  {
    PrefixIsConvex(files, begin, end, m);
    assert forall f | f in Selected(files, begin, end)[..m] :: f in Selected(files, begin, end);
  }
}
