/** Choosing files by key range: overlap queries, flush placement, compaction inputs (version_set.cc). */
module Inputs {
  import opened Keys
  import opened Entries
  import opened Versions

  const MAX_MEM_COMPACT_LEVEL: nat := 2

  /** Whether the user keys of `f` meet [lo, hi]; a missing bound is infinite. */
  predicate Overlaps(f: File, lo: Option<UserKey>, hi: Option<UserKey>) {
    && !(lo.Some? && lo.value > f.largest.user)
    && !(hi.Some? && hi.value < f.smallest.user)
  }

  function Selected(files: seq<File>, lo: Option<UserKey>, hi: Option<UserKey>): (r: seq<File>)
    ensures forall f :: f in r <==> f in files && Overlaps(f, lo, hi)
  {
    if files == [] then []
    else
      var r := Selected(files[..|files| - 1], lo, hi);
      if Overlaps(files[|files| - 1], lo, hi) then r + [files[|files| - 1]] else r
  }

  /** The files keep their order. */
  lemma {:induction false} SelectedConcat(a: seq<File>, b: seq<File>, lo: Option<UserKey>, hi: Option<UserKey>)
    ensures Selected(a + b, lo, hi) == Selected(a, lo, hi) + Selected(b, lo, hi)
  {
    hide Overlaps;
    if b == [] {
      assert a + b == a;
    } else {
      var n := |b| - 1;
      assert (a + b)[..|a| + n] == a + b[..n];
      SelectedConcat(a, b[..n], lo, hi);
    }
  }

  lemma SelectedOne(f: File, lo: Option<UserKey>, hi: Option<UserKey>)
    ensures Selected([f], lo, hi) == if Overlaps(f, lo, hi) then [f] else []
  {
    hide Overlaps;
    assert [f][..0] == [];
  }

  /** The linear scan used for level 0 and the binary search used for sorted levels give the same answer. */
  method SomeFileOverlapsRange(disjointSorted: bool, files: seq<File>, lo: Option<UserKey>, hi: Option<UserKey>)
    returns (r: bool)
    requires FilesOk(files)
    requires forall f | f in files :: f.largest.sn <= MAX_SEQUENCE
    requires disjointSorted ==> SortedDisjoint(files)
    ensures r <==> exists f :: f in files && Overlaps(f, lo, hi)
  {
    if !disjointSorted {
      for i := 0 to |files|
        invariant forall j | 0 <= j < i :: !Overlaps(files[j], lo, hi)
      {
        if Overlaps(files[i], lo, hi) {
          return true;
        }
      }
      return false;
    }
    var index := 0;
    if lo.Some? {
      SortedSplits(files, IKey(lo.value, MAX_SEQUENCE, Value));
      index := FindFile(files, IKey(lo.value, MAX_SEQUENCE, Value));
    }
    if index >= |files| {
      return false;
    }
    r := !(hi.Some? && hi.value < files[index].smallest.user);
    assert files[index] in files;
    assert !r ==> !Overlaps(files[index], lo, hi);
    forall j | index < j < |files|
      ensures Less(files[index].smallest, files[j].smallest)
    {
      FileBounds(files[index], files[index].run[0]);
    }
  }

  /** [b, e] takes in [lo, hi] and no file of level 0 that meets it sticks out. */
  ghost predicate ClosedRange(files: seq<File>, b: Option<UserKey>, e: Option<UserKey>) {
    forall f | f in files && Overlaps(f, b, e) ::
      (b.Some? ==> b.value <= f.smallest.user) && (e.Some? ==> f.largest.user <= e.value)
  }

  ghost predicate Widens(b: Option<UserKey>, e: Option<UserKey>, lo: Option<UserKey>, hi: Option<UserKey>) {
    && (b.Some? ==> lo.Some? && b.value <= lo.value)
    && (e.Some? ==> hi.Some? && hi.value <= e.value)
  }

  ghost function StartBefore(files: seq<File>, b: Option<UserKey>): set<nat> {
    set i: nat | i < |files| && b.Some? && files[i].smallest.user < b.value
  }

  ghost function LimitAfter(files: seq<File>, e: Option<UserKey>): set<nat> {
    set i: nat | i < |files| && e.Some? && files[i].largest.user > e.value
  }

  /** Every closed range around the one asked for takes in [b, e]. */
  ghost predicate Least(files: seq<File>, begin: Option<UserKey>, end: Option<UserKey>, b: Option<UserKey>, e: Option<UserKey>) {
    forall b', e' | Widens(b', e', begin, end) && ClosedRange(files, b', e') :: Widens(b', e', b, e)
  }

  ghost predicate Asked(begin: Option<UserKey>, end: Option<UserKey>, b: Option<UserKey>, e: Option<UserKey>) {
    Widens(b, e, begin, end) && begin.Some? == b.Some? && end.Some? == e.Some?
  }

  /** At level 0 the least closed range around the one asked for, elsewhere that one. */
  ghost predicate FinalRange(files: seq<File>, levelZero: bool, begin: Option<UserKey>, end: Option<UserKey>,
                             b: Option<UserKey>, e: Option<UserKey>) {
    && Asked(begin, end, b, e)
    && if levelZero then ClosedRange(files, b, e) && Least(files, begin, end, b, e) else b == begin && e == end
  }

  lemma WidenLeft(files: seq<File>, begin: Option<UserKey>, end: Option<UserKey>, b: Option<UserKey>, e: Option<UserKey>, at: nat)
    requires Asked(begin, end, b, e) && Least(files, begin, end, b, e) && at < |files|
    requires Overlaps(files[at], b, e) && b.Some? && files[at].smallest.user < b.value
    ensures var b' := Some(files[at].smallest.user);
      && Asked(begin, end, b', e)
      && Least(files, begin, end, b', e)
      && StartBefore(files, b') < StartBefore(files, b)
  {
    var b' := Some(files[at].smallest.user);
    assert files[at] in files;
    assert at in StartBefore(files, b) && at !in StartBefore(files, b');
    assert forall lo, hi | Widens(lo, hi, b, e) :: Overlaps(files[at], lo, hi);
  }

  lemma WidenRight(files: seq<File>, begin: Option<UserKey>, end: Option<UserKey>, b: Option<UserKey>, e: Option<UserKey>, at: nat)
    requires Asked(begin, end, b, e) && Least(files, begin, end, b, e) && at < |files|
    requires Overlaps(files[at], b, e) && e.Some? && files[at].largest.user > e.value
    ensures var e' := Some(files[at].largest.user);
      && Asked(begin, end, b, e')
      && Least(files, begin, end, b, e')
      && LimitAfter(files, e') < LimitAfter(files, e)
  {
    var e' := Some(files[at].largest.user);
    assert files[at] in files;
    assert at in LimitAfter(files, e) && at !in LimitAfter(files, e');
    assert forall lo, hi | Widens(lo, hi, b, e) :: Overlaps(files[at], lo, hi);
  }

  lemma OneMoreSelected(files: seq<File>, i: nat, b: Option<UserKey>, e: Option<UserKey>)
    requires i < |files|
    ensures Selected(files[..i + 1], b, e) == Selected(files[..i], b, e) + if Overlaps(files[i], b, e) then [files[i]] else []
    ensures ClosedRange(files[..i], b, e)
      && (Overlaps(files[i], b, e) ==> (b.Some? ==> b.value <= files[i].smallest.user) && (e.Some? ==> files[i].largest.user <= e.value))
      ==> ClosedRange(files[..i + 1], b, e)
  {
    assert files[..i + 1][..i] == files[..i];
    assert files[..i + 1] == files[..i] + [files[i]];
  }

  lemma NoneSelected(files: seq<File>, b: Option<UserKey>, e: Option<UserKey>)
    ensures Selected(files[..0], b, e) == [] && ClosedRange(files[..0], b, e) && files[..|files|] == files
  {
  }

  /** Files that meet the range; at level 0 the range grows until no chosen file sticks out, restarting the
      scan each time. The final range is the least closed one. */
  method GetOverlappingInputs(levelZero: bool, files: seq<File>, begin: Option<UserKey>, end: Option<UserKey>)
    returns (inputs: seq<File>, ghost b: Option<UserKey>, ghost e: Option<UserKey>)
    ensures inputs == Selected(files, b, e) && FinalRange(files, levelZero, begin, end, b, e)
  {
    hide Selected, ClosedRange, Least, StartBefore, LimitAfter;
    inputs := [];
    var userBegin, userEnd := begin, end;
    var i := 0;
    NoneSelected(files, begin, end);
    WholeRange(files, begin, end);
    while i < |files|
      invariant i <= |files|
      invariant inputs == Selected(files[..i], userBegin, userEnd)
      invariant Asked(begin, end, userBegin, userEnd)
      invariant !levelZero ==> userBegin == begin && userEnd == end
      invariant levelZero ==> ClosedRange(files[..i], userBegin, userEnd) && Least(files, begin, end, userBegin, userEnd)
      decreases StartBefore(files, userBegin), LimitAfter(files, userEnd), |files| - i
    {
      var f := files[i];
      OneMoreSelected(files, i, userBegin, userEnd);
      ghost var at := i;
      i := i + 1;
      if userBegin.Some? && f.largest.user < userBegin.value {
      } else if userEnd.Some? && f.smallest.user > userEnd.value {
      } else {
        inputs := inputs + [f];
        if levelZero {
          if userBegin.Some? && f.smallest.user < userBegin.value {
            WidenLeft(files, begin, end, userBegin, userEnd, at);
            userBegin := Some(f.smallest.user);
            inputs := [];
            i := 0;
            NoneSelected(files, userBegin, userEnd);
          } else if userEnd.Some? && f.largest.user > userEnd.value {
            WidenRight(files, begin, end, userBegin, userEnd, at);
            userEnd := Some(f.largest.user);
            inputs := [];
            i := 0;
            NoneSelected(files, userBegin, userEnd);
          }
        }
      }
    }
    b, e := userBegin, userEnd;
    NoneSelected(files, b, e);
  }

  lemma WholeRange(files: seq<File>, begin: Option<UserKey>, end: Option<UserKey>)
    ensures Least(files, begin, end, begin, end)
  {
  }

  function TotalFileSize(files: seq<File>): nat {
    if files == [] then 0 else TotalFileSize(files[..|files| - 1]) + files[|files| - 1].size
  }

  lemma {:induction false} TotalSizeAdds(a: seq<File>, b: seq<File>, f: File)
    ensures TotalFileSize(a + b) == TotalFileSize(a) + TotalFileSize(b)
    ensures TotalFileSize([f]) == f.size
  {
    assert [f][..0] == [];
    if b == [] {
      assert a + b == a;
    } else {
      var n := |b| - 1;
      assert (a + b)[..|a| + n] == a + b[..n];
      TotalSizeAdds(a, b[..n], f);
    }
  }

  ghost predicate Meets(files: seq<File>, lo: Option<UserKey>, hi: Option<UserKey>) {
    exists f :: f in files && Overlaps(f, lo, hi)
  }

  /** A file at the level below would meet too many bytes two levels down. */
  predicate Crowded(v: Version, level: nat, lo: UserKey, hi: UserKey, limit: nat) {
    level + 2 < |v.files| && TotalFileSize(Selected(v.files[level + 2], Some(lo), Some(hi))) > limit
  }

  method OverlapInLevel(v: Version, level: nat, lo: Option<UserKey>, hi: Option<UserKey>) returns (r: bool)
    requires VersionOk(v) && level < NUM_LEVELS
    requires forall i, f | 0 <= i < NUM_LEVELS && f in v.files[i] :: f.largest.sn <= MAX_SEQUENCE
    ensures r <==> Meets(v.files[level], lo, hi)
  {
    r := SomeFileOverlapsRange(level > 0, v.files[level], lo, hi);
  }

  /** Where a flushed memtable goes: level 0, or deeper while nothing it could shadow is skipped. */
  method PickLevelForMemTableOutput(v: Version, lo: UserKey, hi: UserKey, maxGrandParentOverlap: nat)
    returns (level: nat)
    requires VersionOk(v)
    requires forall i, f | 0 <= i < NUM_LEVELS && f in v.files[i] :: f.largest.sn <= MAX_SEQUENCE
    ensures level <= MAX_MEM_COMPACT_LEVEL
    ensures level > 0 ==> forall i | 0 <= i <= level :: !Meets(v.files[i], Some(lo), Some(hi))
    ensures forall l | 0 <= l < level :: !Crowded(v, l, lo, hi, maxGrandParentOverlap)
    ensures level < MAX_MEM_COMPACT_LEVEL ==>
      || (level == 0 && Meets(v.files[0], Some(lo), Some(hi)))
      || Meets(v.files[level + 1], Some(lo), Some(hi))
      || Crowded(v, level, lo, hi, maxGrandParentOverlap)
  {
    hide FilesOk, SortedDisjoint, ZeroOrdered, LevelsAbove, Meets, Overlaps, TotalFileSize;
    level := 0;
    var overlap := OverlapInLevel(v, 0, Some(lo), Some(hi));
    if !overlap {
      while level < MAX_MEM_COMPACT_LEVEL
        invariant level <= MAX_MEM_COMPACT_LEVEL
        invariant forall i | 0 <= i <= level :: !Meets(v.files[i], Some(lo), Some(hi))
        invariant forall l | 0 <= l < level :: !Crowded(v, l, lo, hi, maxGrandParentOverlap)
      {
        overlap := OverlapInLevel(v, level + 1, Some(lo), Some(hi));
        if overlap {
          break;
        }
        if level + 2 < NUM_LEVELS {
          var overlaps, _, _ := GetOverlappingInputs(level + 2 == 0, v.files[level + 2], Some(lo), Some(hi));
          if TotalFileSize(overlaps) > maxGrandParentOverlap {
            break;
          }
        }
        level := level + 1;
      }
      assert level > 0 ==> forall i | 0 <= i <= level :: !Meets(v.files[i], Some(lo), Some(hi));
    }
  }

  ghost predicate IsLargest(files: seq<File>, k: IKey) {
    (exists f :: f in files && f.largest == k) && forall f | f in files :: AtMost(f.largest, k)
  }

  method FindLargestKey(files: seq<File>) returns (k: IKey)
    requires files != []
    ensures IsLargest(files, k)
  {
    k := files[0].largest;
    for i := 1 to |files|
      invariant IsLargest(files[..i], k)
    {
      assert files[..i + 1] == files[..i] + [files[i]];
      if Less(k, files[i].largest) {
        k := files[i].largest;
      }
      assert files[i] in files[..i + 1];
    }
    assert files[..|files|] == files;
  }

  /** `f` starts after `k` with the same user key: its older entries would be left behind. */
  predicate Boundary(f: File, k: IKey) {
    Less(k, f.smallest) && f.smallest.user == k.user
  }

  method FindSmallestBoundaryFile(files: seq<File>, k: IKey) returns (o: Option<File>)
    ensures o.None? ==> forall f | f in files :: !Boundary(f, k)
    ensures o.Some? ==> o.value in files && Boundary(o.value, k)
    ensures o.Some? ==> forall f | f in files && Boundary(f, k) :: AtMost(o.value.smallest, f.smallest)
  {
    o := None;
    for i := 0 to |files|
      invariant o.None? ==> forall j | 0 <= j < i :: !Boundary(files[j], k)
      invariant o.Some? ==> o.value in files && Boundary(o.value, k)
      invariant o.Some? ==> forall j | 0 <= j < i && Boundary(files[j], k) :: AtMost(o.value.smallest, files[j].smallest)
    {
      if Boundary(files[i], k) && (o.None? || Less(files[i].smallest, o.value.smallest)) {
        o := Some(files[i]);
      }
    }
  }

  /** No gap: a file of the level between two chosen files is chosen. */
  ghost predicate Convex(files: seq<File>, chosen: seq<File>) {
    forall i, j, k | 0 <= i < j < k < |files| && files[i] in chosen && files[k] in chosen :: files[j] in chosen
  }

  /** `f` is the first boundary file of the files chosen so far. */
  ghost predicate Follows(files: seq<File>, chosen: seq<File>, f: File) {
    exists k :: IsLargest(chosen, k) && Boundary(f, k) && forall g | g in files && Boundary(g, k) :: AtMost(f.smallest, g.smallest)
  }

  /** `r` is `chosen` with one boundary file after the other, until the level has no more. */
  ghost predicate IsClosure(files: seq<File>, chosen: seq<File>, r: seq<File>) {
    && chosen <= r
    && (forall f | f in r :: f in files)
    && (forall i | |chosen| <= i < |r| :: Follows(files, r[..i], r[i]))
    && forall k, f | IsLargest(r, k) && f in files :: !Boundary(f, k)
  }

  /** Where no file starts with the last user key of another, the chosen files are all. */
  lemma ClosedAlready(files: seq<File>, chosen: seq<File>, r: seq<File>)
    requires IsClosure(files, chosen, r) && forall f, g | f in files && g in files :: !Boundary(f, g.largest)
    ensures r == chosen
  {
    hide Follows;
    assert |chosen| < |r| ==> Follows(files, r[..|chosen|], r[|chosen|]);
    forall n | 0 <= n < |r|
      ensures !Follows(files, r[..n], r[n])
    {
      assert r[n] in r && forall f | f in r[..n] :: f in r;
      NoneFollows(files, r[..n], r[n]);
    }
  }

  lemma NoneFollows(files: seq<File>, chosen: seq<File>, f: File)
    requires f in files && (forall g | g in chosen :: g in files)
    requires forall g | g in files :: !Boundary(f, g.largest)
    ensures !Follows(files, chosen, f)
  {
    hide Boundary;
  }

  ghost function StartAfter(files: seq<File>, k: IKey): set<nat> {
    set i: nat | i < |files| && Less(k, files[i].smallest)
  }

  /** Extend the chosen files until the level holds no boundary file for their largest key. */
  method AddBoundaryInputs(files: seq<File>, chosen: seq<File>) returns (r: seq<File>)
    requires FilesOk(files)
    requires forall f | f in chosen :: f in files
    ensures chosen <= r && forall f | f in r :: f in files
    ensures chosen == [] ==> r == []
    ensures chosen != [] ==> exists k :: IsLargest(r, k) && forall f | f in files :: !Boundary(f, k)
    ensures SortedDisjoint(files) && Convex(files, chosen) ==> Convex(files, r)
    ensures r == chosen || exists k, f :: IsLargest(chosen, k) && f in files && Boundary(f, k)
    ensures IsClosure(files, chosen, r)
  {
    hide Follows, IsClosure, Convex, SortedDisjoint, FilesOk, IsLargest;
    r := chosen;
    if chosen == [] {
      NothingFollows(files);
      return;
    }
    var largestKey := FindLargestKey(chosen);
    var searching := true;
    while searching
      invariant chosen <= r && forall f | f in r :: f in files
      invariant IsLargest(r, largestKey)
      invariant SortedDisjoint(files) && Convex(files, chosen) ==> Convex(files, r)
      invariant !searching ==> forall f | f in files :: !Boundary(f, largestKey)
      invariant forall i | |chosen| <= i < |r| :: Follows(files, r[..i], r[i])
      decreases StartAfter(files, largestKey), searching
    {
      var found := FindSmallestBoundaryFile(files, largestKey);
      if found.Some? {
        BoundaryAdvances(files, r, largestKey, found.value);
        FollowsMore(files, |chosen|, r, largestKey, found.value);
        r := r + [found.value];
        largestKey := found.value.largest;
      } else {
        searching := false;
      }
    }
    FirstFollower(files, chosen, r);
    ClosureIs(files, chosen, r, largestKey);
  }

  lemma NothingFollows(files: seq<File>)
    ensures IsClosure(files, [], [])
  {
  }

  lemma ClosureIs(files: seq<File>, chosen: seq<File>, r: seq<File>, k: IKey)
    requires chosen <= r && (forall f | f in r :: f in files) && forall i | |chosen| <= i < |r| :: Follows(files, r[..i], r[i])
    requires IsLargest(r, k) && forall f | f in files :: !Boundary(f, k)
    ensures IsClosure(files, chosen, r)
  {
    forall m | IsLargest(r, m)
      ensures m == k
    {
      var f :| f in r && f.largest == k;
      var g :| g in r && g.largest == m;
      assert AtMost(m, k) && AtMost(k, m);
    }
  }

  lemma FirstFollower(files: seq<File>, chosen: seq<File>, r: seq<File>)
    requires chosen <= r && (forall f | f in r :: f in files) && forall i | |chosen| <= i < |r| :: Follows(files, r[..i], r[i])
    ensures r == chosen || exists k, f :: IsLargest(chosen, k) && f in files && Boundary(f, k)
  {
    if r != chosen {
      assert Follows(files, r[..|chosen|], r[|chosen|]) && r[..|chosen|] == chosen && r[|chosen|] in r;
    }
  }

  lemma FollowsMore(files: seq<File>, n: nat, r: seq<File>, k: IKey, f: File)
    requires forall i | n <= i < |r| :: Follows(files, r[..i], r[i])
    requires IsLargest(r, k) && Boundary(f, k) && forall g | g in files && Boundary(g, k) :: AtMost(f.smallest, g.smallest)
    ensures forall i | n <= i < |r + [f]| :: Follows(files, (r + [f])[..i], (r + [f])[i])
  {
    forall i | n <= i < |r + [f]|
      ensures Follows(files, (r + [f])[..i], (r + [f])[i])
    {
      assert (r + [f])[..i] == r[..i];
      assert r[..|r|] == r;
    }
  }

  /** Adding the next boundary file raises the largest key strictly and leaves no gap. */
  lemma BoundaryAdvances(files: seq<File>, chosen: seq<File>, k: IKey, f: File)
    requires FilesOk(files) && forall g | g in chosen :: g in files
    requires IsLargest(chosen, k) && f in files && Boundary(f, k)
    requires forall g | g in files && Boundary(g, k) :: AtMost(f.smallest, g.smallest)
    ensures Less(k, f.largest) && IsLargest(chosen + [f], f.largest)
    ensures StartAfter(files, f.largest) < StartAfter(files, k)
    ensures SortedDisjoint(files) && Convex(files, chosen) ==> Convex(files, chosen + [f])
  {
    hide StartAfter, IsLargest, Convex, Boundary, Less;
    var at :| 0 <= at < |files| && files[at] == f;
    KeyAdvances(files, chosen, k, at);
    if SortedDisjoint(files) && Convex(files, chosen) {
      BoundaryIsNext(files, chosen, k, at);
      DistinctAt(files, at);
      ConvexExtends(files, chosen, at);
    }
  }

  lemma KeyAdvances(files: seq<File>, chosen: seq<File>, k: IKey, at: nat)
    requires FilesOk(files) && at < |files| && IsLargest(chosen, k) && Boundary(files[at], k)
    ensures Less(k, files[at].largest) && IsLargest(chosen + [files[at]], files[at].largest)
    ensures StartAfter(files, files[at].largest) < StartAfter(files, k)
  {
    hide SortedDisjoint, Sorted;
    var f := files[at];
    assert f in files && f in chosen + [f];
    FileBounds(f, f.run[0]);
    assert at in StartAfter(files, k) && at !in StartAfter(files, f.largest);
  }

  lemma DistinctAt(files: seq<File>, at: nat)
    requires FilesOk(files) && SortedDisjoint(files) && at < |files|
    ensures forall i | 0 <= i < |files| && i != at :: files[i] != files[at]
  {
    FilesSpan(files);
    assert files[at] in files;
  }

  lemma ConvexExtends(files: seq<File>, chosen: seq<File>, at: nat)
    requires 0 < at < |files| && Convex(files, chosen)
    requires files[at - 1] in chosen && forall i | at <= i < |files| :: files[i] !in chosen
    requires forall i | 0 <= i < |files| && i != at :: files[i] != files[at]
    ensures Convex(files, chosen + [files[at]])
  {
    forall i, j, k | 0 <= i < j < k < |files| && files[i] in chosen + [files[at]] && files[k] in chosen + [files[at]]
      ensures files[j] in chosen + [files[at]]
    {
      assert files[i] in chosen || i == at;
      assert files[k] in chosen || k == at;
      if j < at - 1 {
        assert files[i] in chosen && files[at - 1] in chosen;
      }
    }
  }

  lemma BoundaryIsNext(files: seq<File>, chosen: seq<File>, k: IKey, at: nat)
    requires FilesOk(files) && SortedDisjoint(files)
    requires forall f | f in chosen :: f in files
    requires IsLargest(chosen, k) && at < |files| && Boundary(files[at], k)
    requires forall f | f in files && Boundary(f, k) :: AtMost(files[at].smallest, f.smallest)
    ensures at > 0 && files[at - 1] in chosen
    ensures forall i | at <= i < |files| :: files[i] !in chosen
  {
    var g :| g in chosen && g.largest == k;
    var top :| 0 <= top < |files| && files[top] == g;
    FilesSpan(files);
    assert files[at] in files && top < at;
    var before := files[at - 1];
    assert before in files;
    assert top < at - 1 ==> Boundary(before, k);
  }
}
