module Compactions {
  // The merge step of a compaction: which entries it drops, and what that means for readers (DoCompactionWork).

  import opened Keys
  import opened Entries
  import opened Versions

  predicate Contains(f: File, u: UserKey) {
    f.smallest.user <= u <= f.largest.user
  }

  /** No file at least two levels below `level` can hold `u`. */
  ghost predicate BaseLevel(v: Version, level: nat, u: UserKey)
    requires |v.files| == NUM_LEVELS
  {
    forall lvl, f | level + 2 <= lvl < NUM_LEVELS && f in v.files[lvl] :: !Contains(f, u)
  }

  ghost predicate SortedLevels(v: Version) {
    && |v.files| == NUM_LEVELS
    && forall i | 1 <= i < NUM_LEVELS :: FilesOk(v.files[i]) && SortedDisjoint(v.files[i])
  }

  /** The cursors level_ptrs_ of one compaction. They only move forward, so keys must be asked in order. */
  class BaseLevelCursor {
    const v: Version
    const level: nat
    var levelPtrs: array<nat>

    ghost predicate Valid()
      reads this, levelPtrs
    {
      && SortedLevels(v) && level + 1 < NUM_LEVELS && levelPtrs.Length == NUM_LEVELS
      && forall lvl | 1 <= lvl < NUM_LEVELS :: levelPtrs[lvl] <= |v.files[lvl]|
    }

    /** No file that a cursor has left behind can hold `u` or any larger key. */
    ghost predicate Passed(u: UserKey)
      requires Valid()
      reads this, levelPtrs
    {
      forall lvl, i | 1 <= lvl < NUM_LEVELS && 0 <= i < levelPtrs[lvl] :: v.files[lvl][i].largest.user < u
    }

    constructor (v: Version, level: nat)
      requires SortedLevels(v) && level + 1 < NUM_LEVELS
      ensures Valid() && this.v == v && this.level == level && fresh(levelPtrs)
      ensures forall u :: Passed(u)
    {
      this.v := v;
      this.level := level;
      levelPtrs := new nat[NUM_LEVELS](_ => 0);
    }

    method IsBaseLevelForKey(u: UserKey) returns (r: bool)
      requires Valid() && Passed(u)
      modifies levelPtrs
      ensures Valid() && levelPtrs == old(levelPtrs)
      ensures r <==> BaseLevel(v, level, u)
      ensures forall w | u <= w :: Passed(w)
    {
      for lvl := level + 2 to NUM_LEVELS
        invariant Valid() && levelPtrs == old(levelPtrs)
        invariant forall l, i | 1 <= l < NUM_LEVELS && 0 <= i < levelPtrs[l] :: v.files[l][i].largest.user < u
        invariant forall l, f | level + 2 <= l < lvl && f in v.files[l] :: !Contains(f, u)
      {
        var files := v.files[lvl];
        while levelPtrs[lvl] < |files|
          invariant Valid() && levelPtrs == old(levelPtrs)
          invariant forall l, i | 1 <= l < NUM_LEVELS && 0 <= i < levelPtrs[l] :: v.files[l][i].largest.user < u
          decreases |files| - levelPtrs[lvl]
        {
          var f := files[levelPtrs[lvl]];
          if u <= f.largest.user {
            if u >= f.smallest.user {
              assert f in v.files[lvl] && Contains(f, u);
              return false;
            }
            break;
          }
          levelPtrs[lvl] := levelPtrs[lvl] + 1;
        }
        NothingHolds(files, levelPtrs[lvl], u);
      }
      return true;
    }
  }

  lemma NothingHolds(files: seq<File>, p: nat, u: UserKey)
    requires FilesOk(files) && SortedDisjoint(files) && p <= |files|
    requires forall i | 0 <= i < p :: files[i].largest.user < u
    requires p < |files| ==> u < files[p].smallest.user
    ensures forall f | f in files :: !Contains(f, u)
  {
    FilesSpan(files);
    forall i | p <= i < |files|
      ensures u < files[i].smallest.user
    {
      assert files[p] in files;
    }
  }

  /** Rule (A): the preceding entry has the same user key and every reader already sees it. */
  predicate Hidden(input: seq<Entry>, i: nat, smallest: nat)
    requires i < |input|
  {
    i > 0 && input[i - 1].ik.user == input[i].ik.user && input[i - 1].ik.sn <= smallest
  }

  /** The tombstone rule: every reader sees the deletion and no deeper level can hold the key. */
  predicate Obsolete(e: Entry, smallest: nat, base: set<UserKey>) {
    e.ik.kind == Deletion && e.ik.sn <= smallest && e.ik.user in base
  }

  function Kept(input: seq<Entry>, n: nat, smallest: nat, base: set<UserKey>): seq<Entry>
    requires n <= |input|
  {
    if n == 0 then []
    else
      var r := Kept(input, n - 1, smallest, base);
      if Hidden(input, n - 1, smallest) || Obsolete(input[n - 1], smallest, base) then r else r + [input[n - 1]]
  }

  lemma {:induction false} KeptMembers(input: seq<Entry>, n: nat, smallest: nat, base: set<UserKey>)
    requires n <= |input|
    ensures forall e :: e in Kept(input, n, smallest, base) <==>
      exists i :: 0 <= i < n && input[i] == e && !Hidden(input, i, smallest) && !Obsolete(e, smallest, base)
  {
    if n > 0 { KeptMembers(input, n - 1, smallest, base); }
  }

  lemma {:induction false} KeptSorted(input: seq<Entry>, n: nat, smallest: nat, base: set<UserKey>)
    requires Sorted(input) && n <= |input|
    ensures Sorted(Kept(input, n, smallest, base))
  {
    if n > 0 {
      KeptSorted(input, n - 1, smallest, base);
      KeptMembers(input, n - 1, smallest, base);
      var r := Kept(input, n - 1, smallest, base);
      SortedAppend(r, input, n - 1);
    }
  }

  lemma SortedAppend(r: seq<Entry>, input: seq<Entry>, n: nat)
    requires Sorted(r) && Sorted(input) && n < |input|
    requires forall e | e in r :: exists i :: 0 <= i < n && input[i] == e
    ensures Sorted(r + [input[n]])
  {
    forall i | 0 <= i < |r|
      ensures Less(r[i].ik, input[n].ik)
    {
      assert r[i] in r;
    }
  }

  /** The keys of the input for which no deeper level can hold anything. */
  ghost function BaseKeys(v: Version, level: nat, input: seq<Entry>): set<UserKey>
    requires |v.files| == NUM_LEVELS
  {
    set e | e in input && BaseLevel(v, level, e.ik.user) :: e.ik.user
  }

  /** The table files a compaction has written: the finished ones and the one being built. */
  class CompactionState {
    var outputs: seq<seq<Entry>>
    var builder: seq<Entry>

    ghost function Written(): seq<Entry>
      reads this
    {
      Flatten(outputs) + builder
    }

    constructor ()
      ensures Written() == [] && outputs == []
    {
      outputs, builder := [], [];
    }

    method Add(e: Entry)
      modifies this
      ensures Written() == old(Written()) + [e] && outputs == old(outputs)
    {
      builder := builder + [e];
    }

    /** FinishCompactionOutputFile, when a file is open. */
    method Finish()
      requires forall r | r in outputs :: r != []
      modifies this
      ensures Written() == old(Written()) && builder == []
      ensures forall r | r in outputs :: r != []
    {
      if builder != [] {
        outputs, builder := outputs + [builder], [];
        assert outputs[..|outputs| - 1] == old(outputs);
      }
    }
  }

  predicate Drops(c: bool, e: Entry, lastSequenceForKey: nat, smallest: nat) {
    lastSequenceForKey <= smallest || (e.ik.kind == Deletion && e.ik.sn <= smallest && c)
  }

  /** One turn of the loop: decide whether to drop the entry, else write it and maybe close the file. */
  method ProcessEntry(cursor: BaseLevelCursor, compact: CompactionState, e: Entry, lastSequenceForKey: nat,
                      smallest: nat, full: bool)
    requires cursor.Valid() && cursor.Passed(e.ik.user)
    requires forall r | r in compact.outputs :: r != []
    modifies cursor.levelPtrs, compact
    ensures cursor.Valid() && cursor.levelPtrs == old(cursor.levelPtrs)
    ensures forall w | e.ik.user <= w :: cursor.Passed(w)
    ensures compact.Written() == old(compact.Written())
      + if Drops(BaseLevel(cursor.v, cursor.level, e.ik.user), e, lastSequenceForKey, smallest) then [] else [e]
    ensures forall r | r in compact.outputs :: r != []
  {
    var drop := false;
    if lastSequenceForKey <= smallest {
      drop := true;
    } else if e.ik.kind == Deletion && e.ik.sn <= smallest {
      drop := cursor.IsBaseLevelForKey(e.ik.user);
    }
    if !drop {
      compact.Add(e);
      if full {
        compact.Finish();
      }
    }
  }

  /** The compaction loop. `stopBefore` and `full` stand for the size decisions that cut the output into files. */
  method DoCompactionWork(v: Version, level: nat, input: seq<Entry>, smallest: nat,
                          stopBefore: nat -> bool, full: nat -> bool)
    returns (compact: CompactionState)
    requires SortedLevels(v) && level + 1 < NUM_LEVELS && Sorted(input) && smallest < MAX_SEQUENCE
    ensures Flatten(compact.outputs) == Kept(input, |input|, smallest, BaseKeys(v, level, input))
    ensures forall r | r in compact.outputs :: r != []
  {
    hide BaseKeys, Drops, BaseLevel, FilesOk, SortedDisjoint;
    var cursor := new BaseLevelCursor(v, level);
    compact := new CompactionState();
    ghost var base := BaseKeys(v, level, input);
    var currentUserKey: Option<UserKey> := None;
    var lastSequenceForKey := MAX_SEQUENCE;
    for i := 0 to |input|
      invariant fresh(cursor) && fresh(cursor.levelPtrs) && fresh(compact)
      invariant cursor.Valid() && cursor.v == v && cursor.level == level
      invariant i < |input| ==> cursor.Passed(input[i].ik.user)
      invariant currentUserKey == if i == 0 then None else Some(input[i - 1].ik.user)
      invariant i > 0 ==> lastSequenceForKey == input[i - 1].ik.sn
      invariant compact.Written() == Kept(input, i, smallest, base)
      invariant forall r | r in compact.outputs :: r != []
    {
      var e := input[i];
      if stopBefore(i) {
        compact.Finish();
      }
      if currentUserKey != Some(e.ik.user) {
        currentUserKey := Some(e.ik.user);
        lastSequenceForKey := MAX_SEQUENCE;
      }
      KeptStep(v, level, input, i, lastSequenceForKey, smallest);
      ProcessEntry(cursor, compact, e, lastSequenceForKey, smallest, full(i));
      lastSequenceForKey := e.ik.sn;
    }
    compact.Finish();
  }

  /** The loop tells the entries to drop by the sequence of the preceding entry of the same user key. */
  lemma KeptStep(v: Version, level: nat, input: seq<Entry>, i: nat, lastSequenceForKey: nat, smallest: nat)
    requires |v.files| == NUM_LEVELS && i < |input| && smallest < MAX_SEQUENCE
    requires lastSequenceForKey
      == if i > 0 && input[i - 1].ik.user == input[i].ik.user then input[i - 1].ik.sn else MAX_SEQUENCE
    ensures var base := BaseKeys(v, level, input);
      Kept(input, i + 1, smallest, base) == Kept(input, i, smallest, base)
        + if Drops(BaseLevel(v, level, input[i].ik.user), input[i], lastSequenceForKey, smallest) then [] else [input[i]]
  {
  }

  /** A reader at `from` sees entry i, a deletion that the tombstone rule drops, and without it would see an
      older value that is not part of the input. */
  ghost predicate Exposes(rest: set<Entry>, input: seq<Entry>, smallest: nat, base: set<UserKey>, from: nat, i: nat)
    requires i < |input|
  {
    var t := input[i];
    && Obsolete(t, smallest, base)
    && IsNewest(rest + Elements(input), t.ik.user, from, t)
    && exists r :: IsNewest(rest, t.ik.user, from, r) && r.ik.kind == Value
  }

  /** Reading at any sequence from `from` on gives the same answer before and after the compaction. */
  ghost predicate SameForReaders(E: set<Entry>, E': set<Entry>, from: nat) {
    forall u, s | s >= from :: Meaning(E, u, s) == Meaning(E', u, s)
  }

  /** An entry the first rule drops has a newer one that every reader sees. */
  lemma HiddenIsNotNewest(input: seq<Entry>, i: nat, smallest: nat, s: nat, E: set<Entry>)
    requires Sorted(input) && i < |input| && Hidden(input, i, smallest) && smallest <= s
    requires Elements(input) <= E && UniqueSeq(E)
    ensures !IsNewest(E, input[i].ik.user, s, input[i])
  {
    var p := input[i - 1];
    assert Less(p.ik, input[i].ik) && p in Elements(input) && input[i] in Elements(input);
  }

  /** Past a dropped tombstone the first rule drops every older entry of the key. */
  lemma OlderIsHidden(input: seq<Entry>, i: nat, j: nat, smallest: nat)
    requires Sorted(input) && i < |input| && j < |input| && input[i].ik.user == input[j].ik.user
    requires input[j].ik.sn < input[i].ik.sn <= smallest
    ensures Hidden(input, j, smallest)
  {
    assert i == j - 1 || Less(input[i].ik, input[j - 1].ik);
    assert Less(input[j - 1].ik, input[j].ik);
  }

  /** What is kept for a key whose newest entry the tombstone rule dropped lies outside the input. */
  lemma OlderIsElsewhere(rest: set<Entry>, input: seq<Entry>, smallest: nat, base: set<UserKey>, s: nat, i: nat, e: Entry)
    requires Sorted(input) && UniqueSeq(rest + Elements(input)) && i < |input|
    requires Obsolete(input[i], smallest, base) && IsNewest(rest + Elements(input), input[i].ik.user, s, input[i])
    requires e in rest + Elements(Kept(input, |input|, smallest, base)) && Sees(e, input[i].ik.user, s)
    ensures e in rest
  {
    KeptMembers(input, |input|, smallest, base);
    forall j | 0 <= j < |input| && input[j] == e
      ensures Hidden(input, j, smallest) || Obsolete(e, smallest, base)
    {
      assert e in Elements(input) && e in rest + Elements(input);
      if e != input[i] {
        OlderIsHidden(input, i, j, smallest);
      }
    }
  }

  lemma PointPreserved(rest: set<Entry>, input: seq<Entry>, smallest: nat, base: set<UserKey>, from: nat, u: UserKey, s: nat)
    requires Sorted(input) && UniqueSeq(rest + Elements(input)) && smallest <= from <= s
    requires forall i | 0 <= i < |input| :: !Exposes(rest, input, smallest, base, from, i)
    ensures Meaning(rest + Elements(input), u, s)
         == Meaning(rest + Elements(Kept(input, |input|, smallest, base)), u, s)
  {
    hide Exposes, Hidden, Obsolete, UniqueSeq, Kept;
    var E := rest + Elements(input);
    var kept := Kept(input, |input|, smallest, base);
    var E' := rest + Elements(kept);
    KeptMembers(input, |input|, smallest, base);
    var o, o' := Newest(E, u, s), Newest(E', u, s);
    assert E' <= E;
    if o.None? || o.value in E' {
      SameNewest(E, E', u, s);
    } else {
      var i :| 0 <= i < |input| && input[i] == o.value;
      DroppedIsObsolete(rest, input, smallest, base, s, i);
      if o'.Some? && o'.value.ik.kind == Value {
        TombstoneExposes(rest, input, smallest, base, from, s, i, o'.value);
      }
      ObsoleteIsDeletion(o.value, smallest, base);
    }
  }

  lemma SameNewest(E: set<Entry>, E': set<Entry>, u: UserKey, s: nat)
    requires E' <= E && UniqueSeq(E) && var o := Newest(E, u, s); o.None? || o.value in E'
    ensures Newest(E', u, s) == Newest(E, u, s)
  {
  }

  lemma ObsoleteIsDeletion(e: Entry, smallest: nat, base: set<UserKey>)
    requires Obsolete(e, smallest, base)
    ensures View(Some(e)) == None
  {
  }

  lemma DroppedIsObsolete(rest: set<Entry>, input: seq<Entry>, smallest: nat, base: set<UserKey>, s: nat, i: nat)
    requires Sorted(input) && UniqueSeq(rest + Elements(input)) && smallest <= s && i < |input|
    requires IsNewest(rest + Elements(input), input[i].ik.user, s, input[i])
    requires input[i] !in Kept(input, |input|, smallest, base)
    ensures Obsolete(input[i], smallest, base)
  {
    KeptMembers(input, |input|, smallest, base);
    if Hidden(input, i, smallest) {
      HiddenIsNotNewest(input, i, smallest, s, rest + Elements(input));
    }
  }

  lemma TombstoneExposes(rest: set<Entry>, input: seq<Entry>, smallest: nat, base: set<UserKey>, from: nat, s: nat,
                         i: nat, r: Entry)
    requires Sorted(input) && UniqueSeq(rest + Elements(input)) && smallest <= from <= s && i < |input|
    requires Obsolete(input[i], smallest, base) && IsNewest(rest + Elements(input), input[i].ik.user, s, input[i])
    requires IsNewest(rest + Elements(Kept(input, |input|, smallest, base)), input[i].ik.user, s, r) && r.ik.kind == Value
    ensures Exposes(rest, input, smallest, base, from, i)
  {
    var t, u := input[i], input[i].ik.user;
    OlderIsElsewhere(rest, input, smallest, base, s, i, r);
    assert r in rest + Elements(input);
    assert IsNewest(rest, u, from, r);
  }

  lemma ExposedIsLost(rest: set<Entry>, input: seq<Entry>, smallest: nat, base: set<UserKey>, from: nat, i: nat)
    requires Sorted(input) && UniqueSeq(rest + Elements(input)) && i < |input|
    requires Exposes(rest, input, smallest, base, from, i)
    ensures Meaning(rest + Elements(input), input[i].ik.user, from) == None
    ensures Meaning(rest + Elements(Kept(input, |input|, smallest, base)), input[i].ik.user, from) != None
  {
    hide Kept, Sorted;
    var t, u := input[i], input[i].ik.user;
    var E := rest + Elements(input);
    var E' := rest + Elements(Kept(input, |input|, smallest, base));
    assert Newest(E, u, from) == Some(t);
    var r :| IsNewest(rest, u, from, r) && r.ik.kind == Value;
    var o' := Newest(E', u, from);
    assert r in E' && o'.Some?;
    OlderIsElsewhere(rest, input, smallest, base, from, i, o'.value);
    assert r in E && o'.value in E;
    assert o'.value == r;
  }

  /** A compaction keeps the meaning of the database for every reader from `from` on exactly when it exposes
      no older value that it left outside its inputs. */
  lemma CompactionPreservesMeaning(rest: set<Entry>, input: seq<Entry>, smallest: nat, base: set<UserKey>, from: nat)
    requires Sorted(input) && UniqueSeq(rest + Elements(input)) && smallest <= from
    ensures SameForReaders(rest + Elements(input), rest + Elements(Kept(input, |input|, smallest, base)), from)
       <==> forall i | 0 <= i < |input| :: !Exposes(rest, input, smallest, base, from, i)
  {
    hide Exposes, Kept, UniqueSeq, Sorted, Meaning;
    if i :| 0 <= i < |input| && Exposes(rest, input, smallest, base, from, i) {
      ExposedIsLost(rest, input, smallest, base, from, i);
    } else {
      forall u, s | s >= from
        ensures Meaning(rest + Elements(input), u, s)
             == Meaning(rest + Elements(Kept(input, |input|, smallest, base)), u, s)
      {
        PointPreserved(rest, input, smallest, base, from, u, s);
      }
    }
  }
}
