/** Version edits and the builder that applies them (VersionSet::Builder, LogAndApply, Recover in version_set.cc). */
module Manifest {
  import opened Keys
  import opened Versions

  /** The order of Builder::BySmallestKey. */
  predicate SmallestBefore(f: File, g: File) {
    Less(f.smallest, g.smallest) || (f.smallest == g.smallest && f.number < g.number)
  }

  ghost predicate BySmallest(files: seq<File>) {
    forall i, j | 0 <= i < j < |files| :: SmallestBefore(files[i], files[j])
  }

  /** `files'` is `files` without `gone` and with `came`, in order of smallest key. */
  ghost predicate LevelEdit(files: seq<File>, gone: seq<File>, came: seq<File>, files': seq<File>) {
    && BySmallest(files')
    && forall f :: f in files' <==> (f in files && f !in gone) || f in came
  }

  /** Files are listed by level; deletions name a level and a file number. */
  datatype Edit = Edit(deleted: set<(nat, nat)>, added: seq<(nat, File)>)

  ghost predicate EditOk(e: Edit) {
    && (forall d | d in e.deleted :: d.0 < NUM_LEVELS)
    && (forall i | 0 <= i < |e.added| :: e.added[i].0 < NUM_LEVELS)
  }

  /** The order of BySmallest leaves no choice. */
  lemma {:induction false} SortedUnique(a: seq<File>, b: seq<File>)
    requires BySmallest(a) && BySmallest(b) && forall f :: f in a <==> f in b
    ensures a == b
  {
    HasMember(a);
    HasMember(b);
    if a != [] && b != [] {
      var m, n := |a| - 1, |b| - 1;
      assert a[m] in b && b[n] in a;
      forall f
        ensures f in a[..m] <==> f in b[..n]
      {
        InPrefix(a, f);
        InPrefix(b, f);
      }
      SortedUnique(a[..m], b[..n]);
    }
  }

  lemma HasMember(a: seq<File>)
    ensures a != [] ==> exists f :: f in a
  {
    if a != [] { assert a[0] in a; }
  }

  lemma InPrefix(a: seq<File>, f: File)
    requires a != [] && BySmallest(a)
    ensures f in a[..|a| - 1] <==> f in a && f != a[|a| - 1]
  {
    var m := |a| - 1;
    assert a == a[..m] + [a[m]];
    assert forall i | 0 <= i < m :: SmallestBefore(a[i], a[m]);
  }

  /** Builder::LevelState: the numbers deleted and the files added so far; `added` mirrors an ordered set. */
  datatype LevelState = LevelState(deleted: set<nat>, added: seq<File>)

  const EMPTY_LEVEL := LevelState({}, [])

  /** Insertion into the ordered set: an equivalent element already there stays. */
  function Insert(files: seq<File>, f: File): seq<File> {
    if files == [] then [f]
    else if SmallestBefore(files[0], f) then [files[0]] + Insert(files[1..], f)
    else if SmallestBefore(f, files[0]) then [f] + files
    else files
  }

  function AddAll(st: LevelState, added: seq<(nat, File)>, l: nat): LevelState {
    if added == [] then st
    else
      var st' := AddAll(st, added[..|added| - 1], l);
      var (lvl, f) := added[|added| - 1];
      if lvl == l then LevelState(st'.deleted - {f.number}, Insert(st'.added, f)) else st'
  }

  function DeletedAt(e: Edit, l: nat): set<nat> {
    set d | d in e.deleted && d.0 == l :: d.1
  }

  /** One edit: deletions first, then additions. */
  function ApplyLevel(st: LevelState, e: Edit, l: nat): LevelState {
    AddAll(LevelState(st.deleted + DeletedAt(e, l), st.added), e.added, l)
  }

  /** Merge the added files into the base files; equivalent base files come first. */
  function Merge(base: seq<File>, added: seq<File>): seq<File>
    decreases |base| + |added|
  {
    if added == [] then base
    else if base == [] then added
    else if SmallestBefore(added[0], base[0]) then [added[0]] + Merge(base, added[1..])
    else [base[0]] + Merge(base[1..], added)
  }

  function Undeleted(files: seq<File>, deleted: set<nat>): seq<File> {
    if files == [] then []
    else
      var r := Undeleted(files[..|files| - 1], deleted);
      if files[|files| - 1].number in deleted then r else r + [files[|files| - 1]]
  }

  function Save(base: seq<File>, st: LevelState): seq<File> {
    Undeleted(Merge(base, st.added), st.deleted)
  }

  /** VersionSet::Builder over the files of `base`. */
  class Builder {
    const base: Version
    var levels: seq<LevelState>

    ghost predicate Valid()
      reads this
    {
      |base.files| == |levels| == NUM_LEVELS
    }

    constructor (base: Version)
      requires |base.files| == NUM_LEVELS
      ensures Valid() && this.base == base
      ensures forall l | 0 <= l < NUM_LEVELS :: levels[l] == EMPTY_LEVEL
    {
      this.base := base;
      levels := seq(NUM_LEVELS, _ => EMPTY_LEVEL);
    }

    method Apply(e: Edit)
      requires Valid() && EditOk(e)
      modifies this
      ensures Valid()
      ensures forall l | 0 <= l < NUM_LEVELS :: levels[l] == ApplyLevel(old(levels[l]), e, l)
    {
      var was := levels;
      levels := seq(NUM_LEVELS, l requires 0 <= l < NUM_LEVELS => LevelState(was[l].deleted + DeletedAt(e, l), was[l].added));
      for i := 0 to |e.added|
        invariant Valid()
        invariant forall l | 0 <= l < NUM_LEVELS ::
          levels[l] == AddAll(LevelState(was[l].deleted + DeletedAt(e, l), was[l].added), e.added[..i], l)
      {
        var (l, f) := e.added[i];
        assert e.added[..i + 1][..i] == e.added[..i];
        levels := levels[l := LevelState(levels[l].deleted - {f.number}, Insert(levels[l].added, f))];
      }
      assert e.added[..|e.added|] == e.added;
    }

    method SaveTo() returns (v: Version)
      requires Valid()
      ensures |v.files| == NUM_LEVELS
      ensures forall l | 0 <= l < NUM_LEVELS :: v.files[l] == Save(base.files[l], levels[l])
    {
      var files: seq<seq<File>> := [];
      for l := 0 to NUM_LEVELS
        invariant |files| == l
        invariant forall i | 0 <= i < l :: files[i] == Save(base.files[i], levels[i])
      {
        var saved := SaveLevel(base.files[l], levels[l]);
        files := files + [saved];
      }
      v := Version(files);
    }
  }

  method MaybeAddFile(files: seq<File>, f: File, deleted: set<nat>) returns (r: seq<File>)
    ensures r == files + Survives(f, deleted)
  {
    r := files;
    if f.number !in deleted {
      r := r + [f];
    }
  }

  lemma {:induction false} UndeletedAppend(a: seq<File>, b: seq<File>, deleted: set<nat>)
    ensures Undeleted(a + b, deleted) == Undeleted(a, deleted) + Undeleted(b, deleted)
  {
    if b == [] {
      assert a + b == a;
    } else {
      UndeletedAppend(a, b[..|b| - 1], deleted);
      assert (a + b)[..|a + b| - 1] == a + b[..|b| - 1];
    }
  }

  function Survives(f: File, deleted: set<nat>): seq<File> {
    if f.number in deleted then [] else [f]
  }

  /** The part of the saved list still to come, with cursors at i and j. */
  function Remaining(base: seq<File>, st: LevelState, i: nat, j: nat): seq<File>
    requires i <= |base| && j <= |st.added|
  {
    Undeleted(Merge(base[i..], st.added[j..]), st.deleted)
  }

  lemma TakesBase(r: seq<File>, base: seq<File>, st: LevelState, i: nat, j: nat)
    requires i < |base| && j <= |st.added| && (j == |st.added| || !SmallestBefore(st.added[j], base[i]))
    ensures r + Remaining(base, st, i, j) == r + Survives(base[i], st.deleted) + Remaining(base, st, i + 1, j)
  {
    assert base[i..] == [base[i]] + base[i + 1..];
    UndeletedAppend([base[i]], Merge(base[i + 1..], st.added[j..]), st.deleted);
    assert Undeleted([base[i]], st.deleted) == Survives(base[i], st.deleted);
  }

  lemma TakesAdded(r: seq<File>, base: seq<File>, st: LevelState, i: nat, j: nat)
    requires i <= |base| && j < |st.added| && (i == |base| || SmallestBefore(st.added[j], base[i]))
    ensures r + Remaining(base, st, i, j) == r + Survives(st.added[j], st.deleted) + Remaining(base, st, i, j + 1)
  {
    assert st.added[j..] == [st.added[j]] + st.added[j + 1..];
    UndeletedAppend([st.added[j]], Merge(base[i..], st.added[j + 1..]), st.deleted);
    assert Undeleted([st.added[j]], st.deleted) == Survives(st.added[j], st.deleted);
  }

  lemma RemainingEnds(base: seq<File>, st: LevelState)
    ensures
      && Remaining(base, st, 0, 0) == Save(base, st)
      && Remaining(base, st, |base|, |st.added|) == []
  {
    assert base[0..] == base && st.added[0..] == st.added;
  }

  /** The loop of SaveTo for one level: two cursors, base files up to each added file first. */
  method SaveLevel(base: seq<File>, st: LevelState) returns (r: seq<File>)
    ensures r == Save(base, st)
  {
    hide Remaining, Save, Survives;
    r := [];
    var i := 0;
    RemainingEnds(base, st);
    for j := 0 to |st.added|
      invariant 0 <= i <= |base|
      invariant Save(base, st) == r + Remaining(base, st, i, j)
    {
      while i < |base| && !SmallestBefore(st.added[j], base[i])
        invariant 0 <= i <= |base|
        invariant Save(base, st) == r + Remaining(base, st, i, j)
      {
        TakesBase(r, base, st, i, j);
        r := MaybeAddFile(r, base[i], st.deleted);
        i := i + 1;
      }
      TakesAdded(r, base, st, i, j);
      r := MaybeAddFile(r, st.added[j], st.deleted);
    }
    while i < |base|
      invariant 0 <= i <= |base|
      invariant Save(base, st) == r + Remaining(base, st, i, |st.added|)
    {
      TakesBase(r, base, st, i, |st.added|);
      r := MaybeAddFile(r, base[i], st.deleted);
      i := i + 1;
    }
  }

  // What the builder's functions mean, when no file number is added twice to a level.

  function AddsAt(added: seq<(nat, File)>, l: nat): seq<File> {
    if added == [] then []
    else
      var r := AddsAt(added[..|added| - 1], l);
      if added[|added| - 1].0 == l then r + [added[|added| - 1].1] else r
  }

  lemma RestAfterFirst(files: seq<File>)
    requires files != [] && BySmallest(files)
    ensures
      && BySmallest(files[1..])
      && forall g | g in files[1..] :: SmallestBefore(files[0], g)
    ensures forall g | g in files :: g == files[0] || g in files[1..]
  {
  }

  lemma {:induction false} InsertSpec(files: seq<File>, f: File)
    requires BySmallest(files) && forall g | g in files :: g.number != f.number
    ensures BySmallest(Insert(files, f))
    ensures forall g :: g in Insert(files, f) <==> g in files || g == f
  {
    if files != [] {
      assert files[0] in files && files == [files[0]] + files[1..];
      RestAfterFirst(files);
      if SmallestBefore(files[0], f) {
        InsertSpec(files[1..], f);
        PrependSmallest(files[0], Insert(files[1..], f));
      } else {
        PrependSmallest(f, files);
      }
    }
  }

  ghost predicate NoShared(a: seq<File>, b: seq<File>) {
    forall f, g | f in a && g in b :: f.number != g.number
  }

  lemma LastIsNew(files: seq<File>, f: File)
    requires DistinctNumbers(files + [f])
    ensures DistinctNumbers(files) && forall g | g in files :: g.number != f.number
  {
    var all := files + [f];
    assert forall i | 0 <= i < |files| :: all[i] == files[i] && all[i].number != all[|files|].number;
  }

  lemma {:induction false} AddAllSpec(st: LevelState, added: seq<(nat, File)>, l: nat)
    requires BySmallest(st.added) && DistinctNumbers(AddsAt(added, l)) && NoShared(st.added, AddsAt(added, l))
    ensures var r := AddAll(st, added, l);
      && BySmallest(r.added)
      && (forall f :: f in r.added <==> f in st.added || f in AddsAt(added, l))
      && (forall n :: n in r.deleted <==> n in st.deleted && forall f | f in AddsAt(added, l) :: f.number != n)
  {
    if added != [] {
      var (lvl, f) := added[|added| - 1];
      var before := added[..|added| - 1];
      var adds := AddsAt(before, l);
      if lvl == l {
        LastIsNew(adds, f);
      }
      AddAllSpec(st, before, l);
      if lvl == l {
        InsertSpec(AddAll(st, before, l).added, f);
      }
    }
  }

  lemma {:induction false} MergeSpec(base: seq<File>, added: seq<File>)
    requires BySmallest(base) && BySmallest(added) && NoShared(base, added)
    ensures BySmallest(Merge(base, added))
    ensures forall f :: f in Merge(base, added) <==> f in base || f in added
    decreases |base| + |added|
  {
    if base != [] && added != [] {
      RestAfterFirst(base);
      RestAfterFirst(added);
      assert base[0] in base && added[0] in added;
      if SmallestBefore(added[0], base[0]) {
        MergeSpec(base, added[1..]);
        PrependSmallest(added[0], Merge(base, added[1..]));
      } else {
        MergeSpec(base[1..], added);
        PrependSmallest(base[0], Merge(base[1..], added));
      }
    }
  }

  lemma PrependSmallest(f: File, files: seq<File>)
    requires BySmallest(files) && forall g | g in files :: SmallestBefore(f, g)
    ensures BySmallest([f] + files)
  {
    assert forall i | 0 <= i < |files| :: files[i] in files;
  }

  lemma {:induction false} UndeletedSpec(files: seq<File>, deleted: set<nat>)
    requires BySmallest(files)
    ensures BySmallest(Undeleted(files, deleted))
    ensures forall f :: f in Undeleted(files, deleted) <==> f in files && f.number !in deleted
  {
    if files != [] {
      var n := |files| - 1;
      UndeletedSpec(files[..n], deleted);
      var r := Undeleted(files[..n], deleted);
      assert files == files[..n] + [files[n]];
      assert forall i | 0 <= i < |r| :: r[i] in r;
    }
  }

  ghost predicate BuilderOk(base: seq<File>, st: LevelState) {
    BySmallest(base) && BySmallest(st.added) && NoShared(base, st.added)
  }

  lemma SaveSpec(base: seq<File>, st: LevelState)
    requires BuilderOk(base, st)
    ensures BySmallest(Save(base, st))
    ensures forall f :: f in Save(base, st) <==> (f in base || f in st.added) && f.number !in st.deleted
  {
    MergeSpec(base, st.added);
    UndeletedSpec(Merge(base, st.added), st.deleted);
  }

  /** The files an edit adds at level l carry numbers that neither the base nor earlier edits used there. */
  ghost predicate FreshAdds(base: seq<File>, st: LevelState, e: Edit, l: nat) {
    var adds := AddsAt(e.added, l);
    DistinctNumbers(adds) && NoShared(base, adds) && NoShared(st.added, adds)
  }

  /** All edits through one builder. */
  function AllAtOnce(edits: seq<Edit>, l: nat): LevelState {
    if edits == [] then EMPTY_LEVEL
    else ApplyLevel(AllAtOnce(edits[..|edits| - 1], l), edits[|edits| - 1], l)
  }

  /** One version per edit, each from a builder of its own: what LogAndApply did while the database ran. */
  function OneAtATime(base: seq<File>, edits: seq<Edit>, l: nat): seq<File> {
    if edits == [] then base
    else
      var before := OneAtATime(base, edits[..|edits| - 1], l);
      Save(before, ApplyLevel(EMPTY_LEVEL, edits[|edits| - 1], l))
  }

  /** No (level, file number) pair is added twice. */
  ghost predicate AddedOnce(base: seq<File>, edits: seq<Edit>, l: nat) {
    edits != [] ==>
      var before := edits[..|edits| - 1];
      AddedOnce(base, before, l) && FreshAdds(base, AllAtOnce(before, l), edits[|edits| - 1], l)
  }

  lemma {:induction false} SameFiles(base: seq<File>, edits: seq<Edit>, l: nat)
    requires BySmallest(base) && AddedOnce(base, edits, l)
    ensures BuilderOk(base, AllAtOnce(edits, l))
    ensures OneAtATime(base, edits, l) == Save(base, AllAtOnce(edits, l))
  {
    if edits == [] {
      SaveSpec(base, EMPTY_LEVEL);
      SortedUnique(base, Save(base, EMPTY_LEVEL));
    } else {
      var n := |edits| - 1;
      var before := edits[..n];
      SameFiles(base, before, l);
      OneMoreEdit(base, AllAtOnce(before, l), edits[n], l);
    }
  }

  lemma OneMoreEdit(base: seq<File>, st: LevelState, e: Edit, l: nat)
    requires BuilderOk(base, st) && FreshAdds(base, st, e, l)
    ensures BuilderOk(base, ApplyLevel(st, e, l))
    ensures Save(Save(base, st), ApplyLevel(EMPTY_LEVEL, e, l)) == Save(base, ApplyLevel(st, e, l))
  {
    var both, alone := ApplyLevel(st, e, l), ApplyLevel(EMPTY_LEVEL, e, l);
    AddAllSpec(LevelState(st.deleted + DeletedAt(e, l), st.added), e.added, l);
    AddAllSpec(LevelState({} + DeletedAt(e, l), []), e.added, l);
    SaveSpec(base, st);
    SaveSpec(Save(base, st), alone);
    SaveSpec(base, both);
    SortedUnique(Save(Save(base, st), alone), Save(base, both));
  }

  /** WriteSnapshot: one edit that adds every file of the version. */
  function Tagged(files: seq<File>, l: nat): (r: seq<(nat, File)>)
    ensures |r| == |files| && forall i | 0 <= i < |files| :: r[i] == (l, files[i])
  {
    seq(|files|, i requires 0 <= i < |files| => (l, files[i]))
  }

  function SnapshotOf(v: Version, n: nat): Edit
    requires n <= |v.files|
  {
    if n == 0 then Edit({}, [])
    else Edit({}, SnapshotOf(v, n - 1).added + Tagged(v.files[n - 1], n - 1))
  }

  lemma {:induction false} AddsAtAppend(a: seq<(nat, File)>, b: seq<(nat, File)>, l: nat)
    ensures AddsAt(a + b, l) == AddsAt(a, l) + AddsAt(b, l)
  {
    if b == [] {
      assert a + b == a;
    } else {
      AddsAtAppend(a, b[..|b| - 1], l);
      assert (a + b)[..|a + b| - 1] == a + b[..|b| - 1];
    }
  }

  lemma {:induction false} AddsAtLevel(files: seq<File>, lvl: nat, l: nat)
    ensures AddsAt(Tagged(files, lvl), l) == if lvl == l then files else []
  {
    if files != [] {
      var n := |files| - 1;
      AddsAtLevel(files[..n], lvl, l);
      assert Tagged(files, lvl)[..n] == Tagged(files[..n], lvl);
    }
  }

  lemma AddsNone(l: nat)
    ensures AddsAt([], l) == []
  {
  }

  lemma {:induction false} SnapshotLevel(v: Version, n: nat, l: nat)
    requires n <= |v.files|
    ensures SnapshotOf(v, n).deleted == {}
    ensures AddsAt(SnapshotOf(v, n).added, l) == if l < n then v.files[l] else []
  {
    hide AddsAt, Tagged;
    AddsNone(l);
    if n > 0 {
      SnapshotLevel(v, n - 1, l);
      AddsAtLevel(v.files[n - 1], n - 1, l);
      AddsAtAppend(SnapshotOf(v, n - 1).added, Tagged(v.files[n - 1], n - 1), l);
    }
  }

  ghost predicate IsSnapshot(snapshot: Edit, files: seq<File>, l: nat) {
    && snapshot.deleted == {} && AddsAt(snapshot.added, l) == files
    && BySmallest(files) && DistinctNumbers(files)
  }

  lemma {:induction false} SnapshotFirst(files: seq<File>, snapshot: Edit, edits: seq<Edit>, l: nat)
    requires IsSnapshot(snapshot, files, l) && AddedOnce(files, edits, l)
    ensures AddedOnce([], [snapshot] + edits, l)
    ensures forall f :: f in AllAtOnce([snapshot] + edits, l).added <==> f in files || f in AllAtOnce(edits, l).added
  {
    var all := [snapshot] + edits;
    var n := |edits|;
    if n == 0 {
      assert all[..0] == [] && all == [snapshot];
      AddAllSpec(EMPTY_LEVEL, snapshot.added, l);
      assert {} + DeletedAt(snapshot, l) == {};
    } else {
      var before := edits[..n - 1];
      assert all[..n] == [snapshot] + before;
      SnapshotFirst(files, snapshot, before, l);
      SameFiles(files, before, l);
      SameFiles([], [snapshot] + before, l);
      SnapshotStep(files, AllAtOnce(before, l), AllAtOnce([snapshot] + before, l), edits[n - 1], l);
    }
  }

  lemma SnapshotStep(files: seq<File>, st: LevelState, st': LevelState, e: Edit, l: nat)
    requires BuilderOk(files, st) && BuilderOk([], st') && FreshAdds(files, st, e, l)
    requires forall f :: f in st'.added <==> f in files || f in st.added
    ensures FreshAdds([], st', e, l)
    ensures forall f :: f in ApplyLevel(st', e, l).added <==> f in files || f in ApplyLevel(st, e, l).added
  {
    AddAllSpec(LevelState(st.deleted + DeletedAt(e, l), st.added), e.added, l);
    AddAllSpec(LevelState(st'.deleted + DeletedAt(e, l), st'.added), e.added, l);
  }

  lemma {:induction false} SnapshotThenEdits(files: seq<File>, snapshot: Edit, edits: seq<Edit>, l: nat)
    requires IsSnapshot(snapshot, files, l)
    ensures OneAtATime([], [snapshot] + edits, l) == OneAtATime(files, edits, l)
  {
    var all := [snapshot] + edits;
    var n := |edits|;
    if n == 0 {
      assert all[..0] == [] && all == [snapshot];
      AddAllSpec(LevelState({} + DeletedAt(snapshot, l), []), snapshot.added, l);
      SaveSpec([], ApplyLevel(EMPTY_LEVEL, snapshot, l));
      SortedUnique(Save([], ApplyLevel(EMPTY_LEVEL, snapshot, l)), files);
    } else {
      assert all[..n] == [snapshot] + edits[..n - 1];
      SnapshotThenEdits(files, snapshot, edits[..n - 1], l);
    }
  }

  /** Recovery reads the snapshot record and the edits after it through one builder over an empty version,
      and arrives at the files the edits led to one version at a time. */
  lemma RecoverReplaysManifest(v: Version, edits: seq<Edit>, l: nat)
    requires |v.files| == NUM_LEVELS && l < NUM_LEVELS && BySmallest(v.files[l]) && DistinctNumbers(v.files[l])
    requires AddedOnce(v.files[l], edits, l)
    ensures Save([], AllAtOnce([SnapshotOf(v, NUM_LEVELS)] + edits, l)) == OneAtATime(v.files[l], edits, l)
  {
    var snapshot := SnapshotOf(v, NUM_LEVELS);
    SnapshotLevel(v, NUM_LEVELS, l);
    SnapshotFirst(v.files[l], snapshot, edits, l);
    SameFiles([], [snapshot] + edits, l);
    SnapshotThenEdits(v.files[l], snapshot, edits, l);
  }

  /** The premise is needed: under a file number used again, a replay brings the deleted file back. */
  lemma ReusedNumberComesBack(f: File, g: File, l: nat)
    requires f.number == g.number && Less(f.smallest, g.smallest)
    ensures var edits := [Edit({}, [(l, f)])] + [Edit({(l, f.number)}, [])] + [Edit({}, [(l, g)])];
      OneAtATime([], edits, l) == [g] && Save([], AllAtOnce(edits, l)) == [f, g]
  {
    hide Save, ApplyLevel, Insert;
    var a, b, c := Edit({}, [(l, f)]), Edit({(l, f.number)}, []), Edit({}, [(l, g)]);
    AddsOne(EMPTY_LEVEL, f, l);
    AddsOne(EMPTY_LEVEL, g, l);
    AddsOne(LevelState({f.number}, [f]), g, l);
    DeletesOne(EMPTY_LEVEL, f, l);
    DeletesOne(LevelState({}, [f]), f, l);
    OneMore([], [], a, l);
    OneMore([], [a], b, l);
    OneMore([], [a] + [b], c, l);
    assert [] + [a] == [a];
    var none, one: set<nat> := {}, {f.number};
    assert none + one == one && none - one == none && one - one == none;
    InsertsPair(f, g);
    SavesOne(f);
    DropsOne(f);
    SavesOne(g);
    SavesPair(f, g);
  }

  lemma OneMore(base: seq<File>, edits: seq<Edit>, e: Edit, l: nat)
    ensures AllAtOnce(edits + [e], l) == ApplyLevel(AllAtOnce(edits, l), e, l)
    ensures OneAtATime(base, edits + [e], l) == Save(OneAtATime(base, edits, l), ApplyLevel(EMPTY_LEVEL, e, l))
  {
    assert (edits + [e])[..|edits|] == edits;
  }

  lemma DeletesOne(st: LevelState, f: File, l: nat)
    ensures ApplyLevel(st, Edit({(l, f.number)}, []), l) == LevelState(st.deleted + {f.number}, st.added)
  {
    var e := Edit({(l, f.number)}, []);
    assert (l, f.number) in e.deleted && DeletedAt(e, l) == {f.number};
  }

  lemma InsertsPair(f: File, g: File)
    requires SmallestBefore(f, g)
    ensures Insert([], f) == [f] && Insert([], g) == [g] && Insert([f], g) == [f, g]
  {
  }

  lemma SavesPair(f: File, g: File)
    ensures Save([], LevelState({}, [f, g])) == [f, g]
  {
    assert [f, g][..1] == [f] && [f][..0] == [] && Merge([], [f, g]) == [f, g];
    assert Undeleted([f], {}) == Undeleted([], {}) + [f];
  }

  lemma AddsOne(st: LevelState, f: File, l: nat)
    ensures DeletedAt(Edit({}, [(l, f)]), l) == {}
    ensures ApplyLevel(st, Edit({}, [(l, f)]), l) == LevelState(st.deleted - {f.number}, Insert(st.added, f))
  {
    assert [(l, f)][..0] == [];
    assert st.deleted + {} == st.deleted;
    assert AddAll(st, [], l) == st;
  }

  lemma SavesOne(f: File)
    ensures Save([], LevelState({}, [f])) == [f]
  {
    assert [f][..0] == [] && Merge([], [f]) == [f];
    assert Undeleted([f], {}) == Undeleted([], {}) + [f];
  }

  lemma DropsOne(f: File)
    ensures Save([f], LevelState({f.number}, [])) == []
  {
    assert [f][..0] == [] && Merge([f], []) == [f];
    assert Undeleted([f], {f.number}) == Undeleted([], {f.number});
  }

  /** LogAndApply: the new version is the old one with one edit applied. */
  method LogAndApply(v: Version, e: Edit) returns (v': Version)
    requires |v.files| == NUM_LEVELS && EditOk(e)
    ensures |v'.files| == NUM_LEVELS
    ensures forall l | 0 <= l < NUM_LEVELS :: v'.files[l] == OneAtATime(v.files[l], [e], l)
  {
    var builder := new Builder(v);
    builder.Apply(e);
    v' := builder.SaveTo();
    forall l | 0 <= l < NUM_LEVELS
      ensures OneAtATime(v.files[l], [e], l) == Save(v.files[l], ApplyLevel(EMPTY_LEVEL, e, l))
    {
      assert [e][..0] == [];
      assert OneAtATime(v.files[l], [], l) == v.files[l];
    }
  }

  /** The records of a MANIFEST, from the snapshot on, through one builder over an empty version. */
  method Recover(records: seq<Edit>) returns (v: Version)
    requires forall e | e in records :: EditOk(e)
    ensures |v.files| == NUM_LEVELS
    ensures forall l | 0 <= l < NUM_LEVELS :: v.files[l] == Save([], AllAtOnce(records, l))
  {
    var builder := new Builder(Version(seq(NUM_LEVELS, _ => [])));
    for i := 0 to |records|
      invariant builder.Valid() && builder.base == Version(seq(NUM_LEVELS, _ => []))
      invariant fresh(builder)
      invariant forall l | 0 <= l < NUM_LEVELS :: builder.levels[l] == AllAtOnce(records[..i], l)
    {
      assert records[..i + 1][..i] == records[..i];
      builder.Apply(records[i]);
    }
    assert records[..|records|] == records;
    v := builder.SaveTo();
  }
}
