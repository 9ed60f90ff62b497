/** The user-facing iterator: one entry per live user key at a snapshot, in both directions (db_iter.cc). */
module DbIterators {
  import opened Keys
  import opened Entries
  import opened Merging

  /** Entry i is what a reader at sequence `s` sees of its user key, and it is not a deletion. */
  predicate Visible(run: seq<Entry>, s: nat, i: int) {
    && 0 <= i < |run| && run[i].ik.kind == Value && run[i].ik.sn <= s
    && (i > 0 && run[i - 1].ik.user == run[i].ik.user ==> run[i - 1].ik.sn > s)
  }

  /** The first visible position at or after n; |run| if there is none. */
  ghost predicate IsNextVisible(run: seq<Entry>, s: nat, n: int, i: int) {
    && n <= i <= |run| && (i < |run| ==> Visible(run, s, i))
    && forall j | n <= j < i :: !Visible(run, s, j)
  }

  /** The last visible position at or before n; -1 if there is none. */
  ghost predicate IsPrevVisible(run: seq<Entry>, s: nat, n: int, i: int) {
    && -1 <= i <= n && (i >= 0 ==> Visible(run, s, i))
    && forall j | i < j <= n :: !Visible(run, s, j)
  }

  /** The visible entries are the snapshot view: exactly the keys a read at `s` finds, with their values. */
  lemma VisibleIsSnapshotView(run: seq<Entry>, s: nat, u: UserKey)
    requires Sorted(run) && UniqueSeq(Elements(run))
    ensures Meaning(Elements(run), u, s).Some? <==> exists i :: Visible(run, s, i) && run[i].ik.user == u
    ensures forall i | Visible(run, s, i) && run[i].ik.user == u :: Meaning(Elements(run), u, s) == Some(run[i].value)
    ensures forall i, j | Visible(run, s, i) && Visible(run, s, j) && i < j :: run[i].ik.user < run[j].ik.user
  {
    var E := Elements(run);
    forall i | Visible(run, s, i) && run[i].ik.user == u
      ensures Newest(E, u, s) == Some(run[i])
    {
      forall j | 0 <= j < |run| && Sees(run[j], u, s)
        ensures j >= i
      {
        if j < i { OlderNotVisible(run, s, j, i); }
      }
      assert run[i] in E;
      var e := Newest(E, u, s).value;
      var j :| 0 <= j < |run| && run[j] == e;
      assert j == i || Less(run[i].ik, run[j].ik);
      assert run[j].ik.sn == run[i].ik.sn;
    }
    if Meaning(E, u, s).Some? {
      var i :| 0 <= i < |run| && run[i] == Newest(E, u, s).value;
      if i > 0 && run[i - 1].ik.user == u {
        assert Less(run[i - 1].ik, run[i].ik) && run[i - 1] in E;
      }
      assert Visible(run, s, i);
    }
    forall i, j | Visible(run, s, i) && Visible(run, s, j) && i < j
      ensures run[i].ik.user < run[j].ik.user
    {
      if run[i].ik.user == run[j].ik.user { OlderNotVisible(run, s, i, j); }
      assert Less(run[i].ik, run[j].ik);
    }
  }

  /** Past an entry that the reader may see, the older entries of its key are hidden. */
  lemma OlderNotVisible(run: seq<Entry>, s: nat, i: nat, j: nat)
    requires Sorted(run) && i < j < |run| && run[i].ik.user == run[j].ik.user && run[i].ik.sn <= s
    ensures !Visible(run, s, j)
  {
    assert Less(run[i].ik, run[j].ik) && Less(run[j - 1].ik, run[j].ik);
    assert i == j - 1 || Less(run[i].ik, run[j - 1].ik);
  }

  /** What a forward scan at position p has learnt: keys up to the saved one are to be skipped, and the entry
      at p is either to be skipped or the newest the reader may see of its key. */
  ghost predicate Skipping(run: seq<Entry>, s: nat, p: int, saved: Option<UserKey>, skip: bool, from: int)
    requires 0 <= p <= |run|
  {
    && (skip ==> saved.Some? && forall j | from <= j < |run| && p <= j && run[j].ik.user <= saved.value :: !Visible(run, s, j))
    && (p < from <= |run| ==> skip && forall j | p <= j < from ::
          run[j].ik.user <= saved.value && (run[j].ik.sn > s || run[j].ik.kind.Value?))
    && (from <= p < |run| && p > 0 && run[p - 1].ik.user == run[p].ik.user && run[p - 1].ik.sn <= s ==>
          skip && run[p].ik.user <= saved.value)
  }

  lemma FoundVisible(run: seq<Entry>, s: nat, p: int, saved: Option<UserKey>, skip: bool, from: int)
    requires 0 <= p < |run| && from <= |run| && Skipping(run, s, p, saved, skip, from)
    requires run[p].ik.sn <= s && run[p].ik.kind.Value? && !(skip && run[p].ik.user <= saved.value)
    ensures from <= p && Visible(run, s, p)
  {
  }

  /** One turn of the scan that does not stop. */
  lemma PassEntry(run: seq<Entry>, s: nat, p: int, saved: Option<UserKey>, skip: bool, from: int,
                  saved': Option<UserKey>, skip': bool)
    requires Sorted(run) && 0 <= p < |run| && from <= |run| && Skipping(run, s, p, saved, skip, from)
    requires if run[p].ik.sn <= s && run[p].ik.kind.Deletion? then skip' && saved' == Some(run[p].ik.user)
             else skip' == skip && saved' == saved && (run[p].ik.sn <= s ==> skip && run[p].ik.user <= saved.value)
    ensures Skipping(run, s, p + 1, saved', skip', from)
    ensures from <= p ==> !Visible(run, s, p)
  {
    if run[p].ik.sn <= s && run[p].ik.kind.Deletion? {
      NothingOlderVisible(run, s, p);
    }
  }

  /** Past an entry the reader may see, nothing with a user key at most its own is visible. */
  lemma NothingOlderVisible(run: seq<Entry>, s: nat, p: int)
    requires Sorted(run) && 0 <= p < |run| && run[p].ik.sn <= s
    ensures forall j | p < j < |run| && run[j].ik.user <= run[p].ik.user :: !Visible(run, s, j)
  {
    forall j | p < j < |run| && run[j].ik.user <= run[p].ik.user
      ensures !Visible(run, s, j)
    {
      assert Less(run[p].ik, run[j].ik);
      OlderNotVisible(run, s, p, j);
    }
  }

  lemma SeekStartsFresh(run: seq<Entry>, s: nat, target: UserKey)
    requires Sorted(run)
    ensures var n := LowerBound(run, Target(target, s));
      n < |run| ==> Skipping(run, s, n, None, false, n)
  {
  }

  /** Seek stands on the first visible entry whose key is at least the target. */
  lemma SeekIsLeast(run: seq<Entry>, s: nat, target: UserKey, i: int)
    requires Sorted(run) && IsNextVisible(run, s, LowerBound(run, Target(target, s)), i)
    ensures i < |run| ==> run[i].ik.user >= target
    ensures forall j | Visible(run, s, j) && run[j].ik.user >= target :: i <= j
  {
    var n := LowerBound(run, Target(target, s));
    if i < |run| {
      assert i == n || Less(run[n].ik, run[i].ik);
    }
  }

  class DBIter {
    const iter: Cursor
    const sequence: nat
    var savedKey: Option<UserKey>
    var savedValue: Bytes
    var direction: Direction
    var valid: bool
    /** The position in the internal run of the entry shown, when valid. */
    ghost var at: int

    ghost predicate Ok()
      reads this, iter
    {
      && Sorted(iter.run) && -1 <= iter.pos <= |iter.run|
      && (valid ==> Visible(iter.run, sequence, at))
      && (valid && direction == Forward ==> iter.pos == at)
      && (valid && direction == Reverse ==> ReversePosition())
    }

    /** In reverse the shown entry is saved; the internal iterator stands before it, and what lies between
        is too new for this reader. */
    ghost predicate ReversePosition()
      requires Visible(iter.run, sequence, at)
      reads this, iter
    {
      && savedKey == Some(iter.run[at].ik.user) && savedValue == iter.run[at].value
      && -1 <= iter.pos < at
      && (iter.pos >= 0 ==> iter.run[iter.pos].ik.user < iter.run[at].ik.user)
      && forall j | iter.pos < j < at :: iter.run[j].ik.sn > sequence
    }

    constructor (iter: Cursor, sequence: nat)
      requires Sorted(iter.run) && -1 <= iter.pos <= |iter.run|
      ensures Ok() && !valid && this.iter == iter && this.sequence == sequence
    {
      this.iter, this.sequence := iter, sequence;
      savedKey, savedValue, direction, valid, at := None, [], Forward, false, 0;
    }

    method Key() returns (u: UserKey)
      requires Ok() && valid
      ensures u == iter.run[at].ik.user
    {
      u := if direction == Forward then iter.run[iter.pos].ik.user else savedKey.value;
    }

    method Value() returns (v: Bytes)
      requires Ok() && valid
      ensures v == iter.run[at].value
    {
      v := if direction == Forward then iter.run[iter.pos].value else savedValue;
    }

    method Next()
      requires Ok() && valid
      modifies this, iter
      ensures
        && Ok()
        && IsNextVisible(iter.run, sequence, old(at) + 1, at)
        && (valid <==> at < |iter.run|)
    {
      ghost var was := at;
      if direction == Reverse {
        direction := Forward;
        if !iter.Valid() {
          iter.SeekToFirst();
        } else {
          iter.Next();
        }
        if !iter.Valid() {
          assert false;
        }
      } else {
        savedKey := Some(iter.run[iter.pos].ik.user);
      }
      NothingOlderVisible(iter.run, sequence, was);
      assert forall j | iter.pos <= j <= was :: j == was || Less(iter.run[j].ik, iter.run[was].ik);
      FindNextUserEntry(true, was + 1);
    }

    /** Scan forward to the first visible entry at or after `from`, skipping the entries up to the saved key
        when `skipping`. */
    method FindNextUserEntry(skipping: bool, ghost from: int)
      requires Sorted(iter.run) && iter.Valid() && direction == Forward && 0 <= from <= |iter.run|
      requires skipping ==> savedKey.Some?
      requires Skipping(iter.run, sequence, iter.pos, savedKey, skipping, from) && (from <= iter.pos ==> from == iter.pos)
      modifies this, iter
      ensures
        && Ok()
        && IsNextVisible(iter.run, sequence, from, at)
        && (valid <==> at < |iter.run|)
    {
      hide Skipping, Visible;
      var skip := skipping;
      while iter.Valid()
        invariant 0 <= iter.pos <= |iter.run| && direction == Forward
        invariant Skipping(iter.run, sequence, iter.pos, savedKey, skip, from)
        invariant skip ==> savedKey.Some?
        invariant forall j | from <= j < iter.pos :: !Visible(iter.run, sequence, j)
        decreases |iter.run| - iter.pos
      {
        var e := iter.run[iter.pos];
        ghost var was, wasSkip := savedKey, skip;
        if e.ik.sn <= sequence {
          match e.ik.kind {
            case Deletion =>
              savedKey := Some(e.ik.user);
              skip := true;
            case Value =>
              if skip && e.ik.user <= savedKey.value {
                // Entry hidden
              } else {
                FoundVisible(iter.run, sequence, iter.pos, savedKey, skip, from);
                valid := true;
                savedKey := None;
                at := iter.pos;
                return;
              }
          }
        }
        PassEntry(iter.run, sequence, iter.pos, was, wasSkip, from, savedKey, skip);
        iter.Next();
      }
      savedKey := None;
      valid := false;
      at := |iter.run|;
    }

    method Prev()
      requires Ok() && valid
      modifies this, iter
      ensures
        && Ok()
        && IsPrevVisible(iter.run, sequence, old(at) - 1, at)
        && (valid <==> at >= 0)
    {
      ghost var was := at;
      if direction == Forward {
        savedKey := Some(iter.run[iter.pos].ik.user);
        while true
          invariant Sorted(iter.run) && 0 <= iter.pos <= was < |iter.run| && direction == Forward
          invariant Visible(iter.run, sequence, was) && savedKey == Some(iter.run[was].ik.user)
          invariant forall j | iter.pos <= j <= was :: iter.run[j].ik.user == iter.run[was].ik.user
          decreases iter.pos
        {
          iter.Prev();
          if !iter.Valid() {
            valid := false;
            savedKey, savedValue := None, [];
            at := -1;
            NewerNotVisible(was, 0);
            return;
          }
          if iter.run[iter.pos].ik.user < savedKey.value {
            break;
          }
          assert Less(iter.run[iter.pos].ik, iter.run[was].ik);
        }
        NewerNotVisible(was, iter.pos + 1);
        direction := Reverse;
      }
      FindPrevUserEntry(was - 1);
    }

    /** Entries of a key that precede its visible one are too new. */
    lemma NewerNotVisible(was: int, first: int)
      requires Sorted(iter.run) && Visible(iter.run, sequence, was) && 0 <= first <= was
      requires forall j | first <= j <= was :: iter.run[j].ik.user == iter.run[was].ik.user
      ensures forall j | first <= j < was :: iter.run[j].ik.sn > sequence
    {
      forall j | first <= j < was
        ensures iter.run[j].ik.sn > sequence
      {
        assert j == was - 1 || Less(iter.run[j].ik, iter.run[was - 1].ik);
        assert iter.run[was - 1].ik.user == iter.run[j].ik.user;
      }
    }

    /** Scan backward from the internal position to the last visible entry at or before `to`. */
    method FindPrevUserEntry(ghost to: int)
      requires Sorted(iter.run) && -1 <= iter.pos <= to < |iter.run| && direction == Reverse
      requires forall j | iter.pos < j <= to :: !Visible(iter.run, sequence, j)
      modifies this, iter
      ensures Ok() && IsPrevVisible(iter.run, sequence, to, at) && (valid <==> at >= 0)
    {
      var valueType := Deletion;
      at := -1;
      while iter.Valid()
        invariant Sorted(iter.run) && -1 <= iter.pos <= to < |iter.run| && direction == Reverse
        invariant valueType.Value? ==> iter.pos < at <= to && Candidate(at)
        invariant forall j | iter.pos < j <= to && !(valueType.Value? && j == at) :: !Visible(iter.run, sequence, j)
        invariant valueType == Deletion ==> at == -1
        decreases iter.pos
      {
        var e := iter.run[iter.pos];
        if e.ik.sn <= sequence {
          if valueType != Deletion && e.ik.user < savedKey.value {
            break;
          }
          if valueType.Value? {
            SameKeyCandidate(iter.pos, at);
            OlderNotVisible(iter.run, sequence, iter.pos, at);
          }
          valueType := e.ik.kind;
          if valueType == Deletion {
            savedKey, savedValue := None, [];
            at := -1;
          } else {
            savedKey, savedValue := Some(e.ik.user), e.value;
            at := iter.pos;
          }
        }
        iter.Prev();
      }
      if valueType == Deletion {
        valid := false;
        savedKey, savedValue := None, [];
        direction := Forward;
      } else {
        valid := true;
      }
    }

    /** Entry c is saved, visible as far as the scan has come, and what lies in between is too new. */
    ghost predicate Candidate(c: int)
      reads this, iter
    {
      && 0 <= c < |iter.run|
      && iter.run[c].ik.kind.Value?
      && iter.run[c].ik.sn <= sequence
      && savedKey == Some(iter.run[c].ik.user) && savedValue == iter.run[c].value
      && forall j | iter.pos < j < c && j >= 0 :: iter.run[j].ik.sn > sequence
    }

    lemma SameKeyCandidate(p: int, c: int)
      requires Sorted(iter.run) && 0 <= p < c < |iter.run| && savedKey == Some(iter.run[c].ik.user)
      requires !(iter.run[p].ik.user < savedKey.value)
      ensures iter.run[p].ik.user == iter.run[c].ik.user
    {
      assert Less(iter.run[p].ik, iter.run[c].ik);
    }

    method Seek(target: UserKey)
      requires Ok()
      modifies this, iter
      ensures
        && Ok()
        && IsNextVisible(iter.run, sequence, LowerBound(iter.run, Target(target, sequence)), at)
      ensures valid <==> at < |iter.run|
    {
      direction := Forward;
      savedKey, savedValue := None, [];
      iter.Seek(Target(target, sequence));
      if iter.Valid() {
        SeekStartsFresh(iter.run, sequence, target);
        FindNextUserEntry(false, iter.pos);
      } else {
        valid := false;
        at := |iter.run|;
      }
    }

    method SeekToFirst()
      requires Ok()
      modifies this, iter
      ensures
        && Ok()
        && IsNextVisible(iter.run, sequence, 0, at)
        && (valid <==> at < |iter.run|)
    {
      direction := Forward;
      savedValue := [];
      iter.SeekToFirst();
      if iter.Valid() {
        FindNextUserEntry(false, 0);
      } else {
        valid := false;
        at := |iter.run|;
      }
    }

    method SeekToLast()
      requires Ok()
      modifies this, iter
      ensures
        && Ok()
        && IsPrevVisible(iter.run, sequence, |iter.run| - 1, at)
        && (valid <==> at >= 0)
    {
      direction := Reverse;
      savedValue := [];
      iter.SeekToLast();
      FindPrevUserEntry(|iter.run| - 1);
    }
  }
}
