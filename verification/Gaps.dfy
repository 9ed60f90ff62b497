/** The inputs of an automatic compaction cover their key range without a gap. */
module Gaps {
  import opened Keys
  import opened Entries
  import opened Versions
  import opened Inputs
  import opened Picker

  predicate Before(files: seq<File>, x: UserKey) {
    forall f | f in files :: f.largest.user < x
  }

  predicate After(files: seq<File>, x: UserKey) {
    forall f | f in files :: x < f.smallest.user
  }

  predicate OneSide(files: seq<File>, x: UserKey) {
    Before(files, x) || After(files, x)
  }

  predicate Avoids(files: seq<File>, x: UserKey) {
    forall f | f in files :: f.largest.user < x || x < f.smallest.user
  }

  /** A key that lies in none of the files lies before all of them or after all of them. */
  ghost predicate Gapless(files: seq<File>) {
    forall x | Avoids(files, x) :: OneSide(files, x)
  }

  /** Both inputs of a compaction. */
  function Both(c: Compaction): seq<File> {
    c.in0 + c.in1
  }

  lemma AvoidsParts(a: seq<File>, b: seq<File>, x: UserKey)
    ensures Avoids(a + b, x) <==> Avoids(a, x) && Avoids(b, x)
    ensures Before(a + b, x) <==> Before(a, x) && Before(b, x)
    ensures After(a + b, x) <==> After(a, x) && After(b, x)
  {
    assert forall f | f in a || f in b :: f in a + b;
  }

  lemma SideOfRange(files: seq<File>, lo: UserKey, hi: UserKey, x: UserKey)
    requires IsRange(files, lo, hi)
    ensures Before(files, x) <==> hi < x
    ensures After(files, x) <==> x < lo
  {
  }

  /** Files of a sorted level that meet a range lie on the side of it. */
  lemma MeetingFollow(files: seq<File>, lo: UserKey, hi: UserKey, r: seq<File>, x: UserKey)
    requires FilesOk(files) && (forall f | f in r :: f in files && Overlaps(f, Some(lo), Some(hi))) && Avoids(r, x)
    ensures hi < x ==> Before(r, x)
    ensures x < lo ==> After(r, x)
  {
    FilesSpan(files);
  }

  /** Boundary files lie on the side of the files they belong to. */
  lemma ClosureFollows(files: seq<File>, chosen: seq<File>, r: seq<File>, x: UserKey)
    requires FilesOk(files) && IsClosure(files, chosen, r) && Avoids(r, x)
    ensures Before(chosen, x) ==> Before(r, x)
    ensures After(chosen, x) ==> After(r, x)
  {
    hide Follows, Before, After;
    FilesSpan(files);
    assert r[..|r|] == r;
    FirstFollow(files, chosen, r, |r|, x);
  }

  lemma {:induction false} FirstFollow(files: seq<File>, chosen: seq<File>, r: seq<File>, n: nat, x: UserKey)
    requires (forall f | f in r :: f.smallest.user <= f.largest.user) && Avoids(r, x)
    requires chosen <= r && forall i | |chosen| <= i < |r| :: Follows(files, r[..i], r[i])
    requires |chosen| <= n <= |r|
    ensures Before(chosen, x) ==> Before(r[..n], x)
    ensures After(chosen, x) ==> After(r[..n], x)
  {
    hide Follows, Before, After;
    if n == |chosen| {
      assert r[..n] == chosen;
    } else {
      FirstFollow(files, chosen, r, n - 1, x);
      assert r[n - 1] in r && forall f | f in r[..n - 1] :: f in r;
      FollowsAtSide(files, r[..n - 1], r[n - 1], x);
      assert r[..n] == r[..n - 1] + [r[n - 1]];
    }
  }

  lemma FollowsAtSide(files: seq<File>, chosen: seq<File>, f: File, x: UserKey)
    requires Follows(files, chosen, f) && (f.largest.user < x || x < f.smallest.user)
    requires forall g | g in chosen :: g.smallest.user <= g.largest.user
    ensures Before(chosen, x) ==> Before(chosen + [f], x)
    ensures After(chosen, x) ==> After(chosen + [f], x)
  {
    var k :| IsLargest(chosen, k) && Boundary(f, k);
    var g :| g in chosen && g.largest == k;
  }

  /** The files that GetOverlappingInputs adds to a range lie on the side of it: the least closed range does
      not reach past a key that it avoids. */
  lemma OverlapFollows(files: seq<File>, levelZero: bool, lo: UserKey, hi: UserKey, r: seq<File>, x: UserKey)
    requires FilesOk(files) && IsOverlap(files, levelZero, Some(lo), Some(hi), r) && lo <= hi && Avoids(r, x)
    ensures hi < x ==> Before(r, x)
    ensures x < lo ==> After(r, x)
  {
    var b, e :| FinalRange(files, levelZero, Some(lo), Some(hi), b, e) && r == Selected(files, b, e);
    if levelZero {
      if hi < x < e.value {
        CutRight(files, b, e, x);
      }
      if b.value < x < lo {
        CutLeft(files, b, e, x);
      }
    }
    MeetingFollow(files, b.value, e.value, r, x);
  }

  lemma CutRight(files: seq<File>, b: Option<UserKey>, e: Option<UserKey>, x: UserKey)
    requires FilesOk(files) && ClosedRange(files, b, e) && b.Some? && e.Some? && b.value <= x <= e.value
    requires Avoids(Selected(files, b, e), x)
    ensures ClosedRange(files, b, Some(x))
  {
    FilesSpan(files);
  }

  lemma CutLeft(files: seq<File>, b: Option<UserKey>, e: Option<UserKey>, x: UserKey)
    requires FilesOk(files) && ClosedRange(files, b, e) && b.Some? && e.Some? && b.value <= x <= e.value
    requires Avoids(Selected(files, b, e), x)
    ensures ClosedRange(files, Some(x), e)
  {
    FilesSpan(files);
  }

  lemma BaseIsGapless(files: seq<File>, next: seq<File>, level: nat, picked: File, chosen: seq<File>, b: Compaction)
    requires FilesOk(files) && FilesOk(next) && IsBase(files, next, level, chosen, b)
    requires picked in chosen && picked in files
    requires chosen == [picked] || IsOverlap(files, true, Some(picked.smallest.user), Some(picked.largest.user), chosen)
    ensures Gapless(Both(b))
  {
    hide IsClosure, IsOverlap, IsRange, Before, After;
    FilesSpan(files);
    forall x | Avoids(Both(b), x)
      ensures OneSide(Both(b), x)
    {
      AvoidsParts(b.in0, b.in1, x);
      BaseAtSide(files, level, picked, chosen, b, x);
      SideOfRange(b.in0, b.lo, b.hi, x);
      MeetingFollow(next, b.lo, b.hi, b.in1, x);
    }
  }

  lemma BaseAtSide(files: seq<File>, level: nat, picked: File, chosen: seq<File>, b: Compaction, x: UserKey)
    requires FilesOk(files) && IsClosure(files, chosen, b.in0) && picked in chosen && picked in files
    requires picked.smallest.user <= picked.largest.user
    requires chosen == [picked] || IsOverlap(files, true, Some(picked.smallest.user), Some(picked.largest.user), chosen)
    requires Avoids(b.in0, x)
    ensures OneSide(b.in0, x)
  {
    hide IsOverlap, Follows;
    assert Avoids(chosen, x);
    if chosen != [picked] {
      OverlapFollows(files, true, picked.smallest.user, picked.largest.user, chosen, x);
    }
    hide IsClosure;
    ClosureFollows(files, chosen, b.in0, x);
  }

  /** Growing closes no gap and opens none. */
  lemma WiderIsGapless(files: seq<File>, next: seq<File>, b: Compaction, g: Compaction)
    requires FilesOk(files) && FilesOk(next) && (forall f | f in b.in0 :: f in files)
    requires IsRange(b.in0, b.lo, b.hi) && b.in1 == Selected(next, Some(b.lo), Some(b.hi))
    requires IsWider(files, next, b, g) && Gapless(Both(b))
    ensures Gapless(Both(g))
  {
    hide IsClosure, IsOverlap, IsRange, Before, After;
    var lo, hi, sel :| IsRange(Both(b), lo, hi) && IsOverlap(files, b.level == 0, Some(lo), Some(hi), sel)
      && IsClosure(files, sel, g.in0);
    GrownContains(files, next, b, lo, hi, sel, g);
    forall x | Avoids(Both(g), x)
      ensures OneSide(Both(g), x)
    {
      AvoidsParts(g.in0, g.in1, x);
      AvoidsParts(b.in0, b.in1, x);
      assert OneSide(Both(b), x);
      SideOfRange(Both(b), lo, hi, x);
      OverlapFollows(files, b.level == 0, lo, hi, sel, x);
      ClosureFollows(files, sel, g.in0, x);
      SideOfRange(g.in0, g.lo, g.hi, x);
      MeetingFollow(next, g.lo, g.hi, g.in1, x);
      AvoidsParts(g.in0, g.in1, x);
    }
  }

  lemma GrownContains(files: seq<File>, next: seq<File>, b: Compaction, lo: UserKey, hi: UserKey, sel: seq<File>, g: Compaction)
    requires FilesOk(files) && FilesOk(next) && (forall f | f in b.in0 :: f in files)
    requires IsRange(b.in0, b.lo, b.hi) && b.in1 == Selected(next, Some(b.lo), Some(b.hi))
    requires IsRange(Both(b), lo, hi) && IsOverlap(files, b.level == 0, Some(lo), Some(hi), sel) && IsClosure(files, sel, g.in0)
    requires IsRange(g.in0, g.lo, g.hi) && g.in1 == Selected(next, Some(g.lo), Some(g.hi))
    ensures lo <= hi && (forall f | f in sel :: f in g.in0)
    ensures (forall f | f in b.in0 :: f in g.in0) && (forall f | f in b.in1 :: f in g.in1)
  {
    hide Selected, FilesOk, Follows;
    MeetsItsRange(files, b, lo, hi, sel);
    assert forall f | f in sel :: f in g.in0;
    RangeWidens(b.in0, b.lo, b.hi, g.in0, g.lo, g.hi);
  }

  lemma MeetsItsRange(files: seq<File>, b: Compaction, lo: UserKey, hi: UserKey, sel: seq<File>)
    requires FilesOk(files) && b.in0 != [] && (forall f | f in b.in0 :: f in files)
    requires IsRange(Both(b), lo, hi) && IsOverlap(files, b.level == 0, Some(lo), Some(hi), sel)
    ensures lo <= hi && forall f | f in b.in0 :: f in sel
  {
    hide FilesOk, Selected, Least, ClosedRange;
    FilesSpan(files);
    assert b.in0[0] in Both(b);
    var x, y :| FinalRange(files, b.level == 0, Some(lo), Some(hi), x, y) && sel == Selected(files, x, y);
    InputsMeetRange(files, b.in0, b.in1, lo, hi, x, y);
  }

  lemma SetupIsGapless(files: seq<File>, next: seq<File>, level: nat, picked: File, chosen: seq<File>, limit: nat, c: Compaction)
    requires FilesOk(files) && FilesOk(next) && IsSetup(files, next, level, chosen, limit, c)
    requires picked in chosen && picked in files
    requires chosen == [picked] || IsOverlap(files, true, Some(picked.smallest.user), Some(picked.largest.user), chosen)
    ensures Gapless(Both(c))
  {
    hide Gapless, IsOverlap, IsWider, IsRange, Selected;
    var b :| IsBase(files, next, level, chosen, b) && if b.in1 == [] then c == b else IsGrowth(files, next, b, limit, c);
    BaseIsGapless(files, next, level, picked, chosen, b);
    if b.in1 != [] {
      var g :| IsWider(files, next, b, g) && c == if Worthwhile(b, g, limit) then g else b;
      WiderIsGapless(files, next, b, g);
    }
  }

  /** An automatic compaction covers its key range without a gap. */
  lemma AutomaticIsGapless(files: seq<File>, next: seq<File>, level: nat, picked: File, limit: nat, c: Compaction)
    requires FilesOk(files) && FilesOk(next) && picked in files && FromFile(files, next, level, picked, limit, c)
    ensures Gapless(Both(c))
  {
    hide Gapless, IsSetup;
    if level > 0 {
      SetupIsGapless(files, next, level, picked, [picked], limit, c);
    } else {
      var chosen :| IsOverlap(files, true, Some(picked.smallest.user), Some(picked.largest.user), chosen)
        && IsSetup(files, next, level, chosen, limit, c);
      PickedIsChosen(files, picked, chosen);
      SetupIsGapless(files, next, level, picked, chosen, limit, c);
    }
  }

  lemma PickedIsChosen(files: seq<File>, picked: File, chosen: seq<File>)
    requires FilesOk(files) && picked in files
    requires IsOverlap(files, true, Some(picked.smallest.user), Some(picked.largest.user), chosen)
    ensures picked in chosen
  {
    FilesSpan(files);
  }
}
