/** Iterators over sorted runs, and the merge of several into one (table/merger.cc). */
module Merging {
  import opened Keys
  import opened Entries

  /** An iterator over one sorted run: not valid before the first and after the last entry. */
  class Cursor {
    const run: seq<Entry>
    var pos: int

    constructor (run: seq<Entry>)
      ensures this.run == run && pos == |run|
    {
      this.run := run;
      pos := |run|;
    }

    predicate Valid()
      reads this
    {
      0 <= pos < |run|
    }

    function Key(): IKey
      requires Valid()
      reads this
    {
      run[pos].ik
    }

    method Seek(target: IKey)
      modifies this
      ensures pos == LowerBound(run, target)
    {
      pos := 0;
      while pos < |run| && Less(run[pos].ik, target)
        invariant 0 <= pos <= |run|
        invariant LowerBound(run, target) == pos + LowerBound(run[pos..], target)
      {
        assert run[pos..][1..] == run[pos + 1..];
        pos := pos + 1;
      }
    }

    method SeekToFirst()
      modifies this
      ensures pos == 0
    {
      pos := 0;
    }

    method SeekToLast()
      modifies this
      ensures pos == |run| - 1
    {
      pos := |run| - 1;
    }

    method Next()
      requires Valid()
      modifies this
      ensures pos == old(pos) + 1
    {
      pos := pos + 1;
    }

    method Prev()
      requires Valid()
      modifies this
      ensures pos == old(pos) - 1
    {
      pos := pos - 1;
    }
  }

  /** `merged` is the sorted union of the runs, and no key is in two of them. */
  ghost predicate IsMerge(runs: seq<seq<Entry>>, merged: seq<Entry>) {
    && Sorted(merged) && (forall i | 0 <= i < |runs| :: Sorted(runs[i]))
    && (forall e :: e in merged <==> InSome(runs, e))
    && forall i, j | 0 <= i < j < |runs| :: NoSharedKey(runs[i], runs[j])
  }

  ghost predicate InSome(runs: seq<seq<Entry>>, e: Entry) {
    exists i :: 0 <= i < |runs| && e in runs[i]
  }

  ghost predicate NoSharedKey(a: seq<Entry>, b: seq<Entry>) {
    forall e, f | e in a && f in b :: e.ik != f.ik
  }

  /** How many entries of the run come before position n of the merge. */
  function CountBefore(run: seq<Entry>, merged: seq<Entry>, n: nat): nat
    requires n <= |merged|
  {
    if n == |merged| then |run| else LowerBound(run, merged[n].ik)
  }

  lemma SeekIsCount(run: seq<Entry>, merged: seq<Entry>, n: nat)
    requires n < |merged|
    ensures CountBefore(run, merged, n) == LowerBound(run, merged[n].ik)
  {
  }

  lemma LowerBoundUnique(run: seq<Entry>, k: IKey, n: nat)
    requires Sorted(run) && n <= |run|
    requires forall i | 0 <= i < n :: Less(run[i].ik, k)
    requires n < |run| ==> !Less(run[n].ik, k)
    ensures LowerBound(run, k) == n
  {
  }

  /** Entry n of the merge is exactly what its run shows at the count. */
  lemma CountStep(runs: seq<seq<Entry>>, merged: seq<Entry>, i: nat, n: nat)
    requires IsMerge(runs, merged) && i < |runs| && n < |merged|
    ensures CountBefore(runs[i], merged, n + 1) == CountBefore(runs[i], merged, n) + if merged[n] in runs[i] then 1 else 0
    ensures if merged[n] in runs[i]
            then CountBefore(runs[i], merged, n) < |runs[i]| && runs[i][CountBefore(runs[i], merged, n)] == merged[n]
            else forall j | CountBefore(runs[i], merged, n) <= j < |runs[i]| :: Less(merged[n].ik, runs[i][j].ik)
  {
    var run := runs[i];
    var p := CountBefore(run, merged, n);
    EntryAtCount(runs, merged, i, n);
    var q := if merged[n] in run then p + 1 else p;
    if q < |run| {
      NextInMerge(runs, merged, i, q, n);
    }
    CountIs(run, merged, n + 1, q);
  }

  lemma CountIs(run: seq<Entry>, merged: seq<Entry>, n: nat, q: nat)
    requires Sorted(run) && Sorted(merged) && 0 < n <= |merged| && q <= |run|
    requires forall j | 0 <= j < q :: AtMost(run[j].ik, merged[n - 1].ik)
    requires q < |run| ==> n < |merged| && AtMost(merged[n].ik, run[q].ik)
    ensures CountBefore(run, merged, n) == q
  {
    if n < |merged| {
      assert Less(merged[n - 1].ik, merged[n].ik);
      LowerBoundUnique(run, merged[n].ik, q);
    }
  }

  lemma EntryAtCount(runs: seq<seq<Entry>>, merged: seq<Entry>, i: nat, n: nat)
    requires IsMerge(runs, merged) && i < |runs| && n < |merged|
    ensures var p := CountBefore(runs[i], merged, n);
      && (merged[n] in runs[i] ==> p < |runs[i]| && runs[i][p] == merged[n])
      && (forall j | 0 <= j < p :: Less(runs[i][j].ik, merged[n].ik))
      && forall j | p <= j < |runs[i]| :: Less(merged[n].ik, runs[i][j].ik) || (j == p && runs[i][j] == merged[n])
  {
    var run := runs[i];
    var p := CountBefore(run, merged, n);
    if p < |run| {
      InMerge(runs, merged, i, p);
      AfterFirst(run, p, merged[n]);
    }
  }

  lemma AfterFirst(run: seq<Entry>, p: nat, e: Entry)
    requires Sorted(run) && p < |run| && AtMost(e.ik, run[p].ik) && (e.ik == run[p].ik ==> e == run[p])
    ensures forall j | p <= j < |run| :: Less(e.ik, run[j].ik) || (j == p && run[j] == e)
  {
    assert forall j | p < j < |run| :: Less(run[p].ik, run[j].ik);
  }

  lemma InMerge(runs: seq<seq<Entry>>, merged: seq<Entry>, i: nat, j: nat)
    requires IsMerge(runs, merged) && i < |runs| && j < |runs[i]|
    ensures runs[i][j] in merged
    ensures forall e | e in merged && e.ik == runs[i][j].ik :: e == runs[i][j]
  {
    assert InSome(runs, runs[i][j]);
    var b :| 0 <= b < |merged| && merged[b] == runs[i][j];
  }

  lemma Owner(runs: seq<seq<Entry>>, merged: seq<Entry>, n: nat) returns (h: nat)
    requires IsMerge(runs, merged) && n < |merged|
    ensures h < |runs| && merged[n] in runs[h]
  {
    assert InSome(runs, merged[n]);
    h :| h < |runs| && merged[n] in runs[h];
  }

  lemma NextInMerge(runs: seq<seq<Entry>>, merged: seq<Entry>, i: nat, j: nat, n: nat)
    requires IsMerge(runs, merged) && i < |runs| && j < |runs[i]| && n < |merged|
    requires Less(merged[n].ik, runs[i][j].ik)
    ensures n + 1 < |merged| && AtMost(merged[n + 1].ik, runs[i][j].ik)
  {
    InMerge(runs, merged, i, j);
    var b :| 0 <= b < |merged| && merged[b] == runs[i][j];
    assert b > n;
  }

  /** Seeking every run is seeking the merge. */
  lemma CountOfSeek(runs: seq<seq<Entry>>, merged: seq<Entry>, i: nat, target: IKey)
    requires IsMerge(runs, merged) && i < |runs|
    ensures LowerBound(runs[i], target) == CountBefore(runs[i], merged, LowerBound(merged, target))
  {
    var run, n := runs[i], LowerBound(merged, target);
    forall j | 0 <= j < |run|
      ensures Less(run[j].ik, target) <==> n == |merged| || Less(run[j].ik, merged[n].ik)
    {
      InMerge(runs, merged, i, j);
      var b :| 0 <= b < |merged| && merged[b] == run[j];
      assert b < n ==> n == |merged| || Less(merged[b].ik, merged[n].ik);
      assert b > n ==> Less(merged[n].ik, merged[b].ik);
    }
    LowerBoundUnique(run, target, CountBefore(run, merged, n));
  }

  lemma CountOfFirst(runs: seq<seq<Entry>>, merged: seq<Entry>, i: nat)
    requires IsMerge(runs, merged) && i < |runs|
    ensures CountBefore(runs[i], merged, 0) == 0
  {
    if runs[i] != [] {
      InMerge(runs, merged, i, 0);
      var b :| 0 <= b < |merged| && merged[b] == runs[i][0];
      assert b == 0 || Less(merged[0].ik, merged[b].ik);
    }
  }

  datatype Direction = Forward | Reverse

  class MergingIterator {
    const children: seq<Cursor>
    var current: Option<nat>
    var direction: Direction
    ghost const merged: seq<Entry>
    /** Where the iterator stands in the merge; not valid at -1 and at |merged|. */
    ghost var at: int

    ghost predicate Static()
      reads this
    {
      && (forall i, j | 0 <= i < j < |children| :: children[i] != children[j])
      && IsMerge(RunsOf(children), merged)
    }

    /** Forward, every child stands at its first entry at or after the position; in reverse, at its last
        entry at or before it. */
    ghost predicate Positioned(n: int, dir: Direction)
      reads this, children
    {
      if dir == Forward then
        0 <= n <= |merged| && forall i | 0 <= i < |children| :: children[i].pos == CountBefore(children[i].run, merged, n)
      else
        -1 <= n < |merged| && forall i | 0 <= i < |children| :: children[i].pos == CountBefore(children[i].run, merged, n + 1) - 1
    }

    ghost predicate Ok()
      reads this, children
    {
      && Static() && Positioned(at, direction)
      && (current.None? <==> !(0 <= at < |merged|))
      && (current.Some? ==> ShowsCurrent())
    }

    ghost predicate ShowsCurrent()
      requires current.Some?
      reads this, children
    {
      && current.value < |children|
      && children[current.value].Valid()
      && 0 <= at < |merged|
      && children[current.value].run[children[current.value].pos] == merged[at]
    }

    constructor (children: seq<Cursor>, ghost merged: seq<Entry>)
      requires forall i, j | 0 <= i < j < |children| :: children[i] != children[j]
      requires IsMerge(RunsOf(children), merged)
      requires forall c | c in children :: c.pos == |c.run|
      ensures Ok() && this.children == children && this.merged == merged && !Valid()
    {
      this.children, this.merged := children, merged;
      current, direction, at := None, Forward, |merged|;
    }

    predicate Valid()
      reads this
    {
      current.Some?
    }

    /** What key() and value() show. */
    method Current() returns (e: Entry)
      requires Ok() && Valid()
      ensures 0 <= at < |merged| && e == merged[at]
    {
      e := children[current.value].run[children[current.value].pos];
    }

    method SeekToFirst()
      requires Ok()
      modifies this, children
      ensures Ok() && at == 0
    {
      for i := 0 to |children|
        invariant Static()
        invariant forall j | 0 <= j < i :: children[j].pos == 0
      {
        children[i].SeekToFirst();
      }
      forall i | 0 <= i < |children|
        ensures CountBefore(children[i].run, merged, 0) == 0
      {
        CountOfFirst(RunsOf(children), merged, i);
      }
      at := 0;
      direction := Forward;
      FindSmallest();
    }

    method SeekToLast()
      requires Ok()
      modifies this, children
      ensures Ok() && at == |merged| - 1
    {
      for i := 0 to |children|
        invariant Static()
        invariant forall j | 0 <= j < i :: children[j].pos == |children[j].run| - 1
      {
        children[i].SeekToLast();
      }
      at := |merged| - 1;
      direction := Reverse;
      FindLargest();
    }

    method Seek(target: IKey)
      requires Ok()
      modifies this, children
      ensures Ok() && at == LowerBound(merged, target)
    {
      for i := 0 to |children|
        invariant Static()
        invariant forall j | 0 <= j < i :: children[j].pos == LowerBound(children[j].run, target)
      {
        children[i].Seek(target);
      }
      forall i | 0 <= i < |children|
        ensures LowerBound(children[i].run, target) == CountBefore(children[i].run, merged, LowerBound(merged, target))
      {
        CountOfSeek(RunsOf(children), merged, i, target);
      }
      at := LowerBound(merged, target);
      direction := Forward;
      FindSmallest();
    }

    method FindSmallest()
      requires Static() && Positioned(at, Forward) && direction == Forward
      modifies this`current
      ensures Ok()
    {
      hide Less, IsMerge, CountBefore;
      current := None;
      for i := 0 to |children|
        invariant current.Some? ==> current.value < i && children[current.value].Valid()
        invariant forall j | 0 <= j < i && children[j].Valid() ::
          current.Some? && AtMost(children[current.value].Key(), children[j].Key())
      {
        if children[i].Valid() {
          if current.None? || Less(children[i].Key(), children[current.value].Key()) {
            forall j | 0 <= j <= i && children[j].Valid()
              ensures AtMost(children[i].Key(), children[j].Key())
            {
              LessThrough(children[i].Key(), children[if current.Some? then current.value else i].Key(), children[j].Key());
            }
            current := Some(i);
          }
        }
      }
      SmallestIsNext();
    }

    /** Forward, the child with the smallest key shows the entry at the position. */
    lemma SmallestIsNext()
      requires Static() && Positioned(at, Forward)
      requires current.Some? ==> current.value < |children| && children[current.value].Valid()
      requires forall j | 0 <= j < |children| && children[j].Valid() ::
        current.Some? && AtMost(children[current.value].Key(), children[j].Key())
      ensures current.None? <==> at == |merged|
      ensures current.Some? ==> at < |merged| && children[current.value].run[children[current.value].pos] == merged[at]
    {
      if at < |merged| {
        var runs := RunsOf(children);
        var h := Owner(runs, merged, at);
        CountStep(runs, merged, h, at);
        assert children[h].Valid() && children[h].run[children[h].pos] == merged[at];
        CountStep(runs, merged, current.value, at);
      }
    }

    method FindLargest()
      requires Static() && Positioned(at, Reverse) && direction == Reverse
      modifies this`current
      ensures Ok()
    {
      hide Less, IsMerge, CountBefore;
      current := None;
      for i := |children| downto 0
        invariant current.Some? ==> i <= current.value < |children| && children[current.value].Valid()
        invariant forall j | i <= j < |children| && children[j].Valid() ::
          current.Some? && AtMost(children[j].Key(), children[current.value].Key())
      {
        if children[i].Valid() {
          if current.None? || Less(children[current.value].Key(), children[i].Key()) {
            forall j | i <= j < |children| && children[j].Valid()
              ensures AtMost(children[j].Key(), children[i].Key())
            {
              LessThrough(children[j].Key(), children[if current.Some? then current.value else i].Key(), children[i].Key());
            }
            current := Some(i);
          }
        }
      }
      LargestIsPrevious();
    }

    lemma LargestIsPrevious()
      requires Static() && Positioned(at, Reverse)
      requires current.Some? ==> current.value < |children| && children[current.value].Valid()
      requires forall j | 0 <= j < |children| && children[j].Valid() ::
        current.Some? && AtMost(children[j].Key(), children[current.value].Key())
      ensures current.None? <==> at == -1
      ensures current.Some? ==> 0 <= at && children[current.value].run[children[current.value].pos] == merged[at]
    {
      var runs := RunsOf(children);
      hide LowerBound, CountBefore, IsMerge;
      if at >= 0 {
        var h := Owner(runs, merged, at);
        CountStep(runs, merged, h, at);
        assert children[h].Valid() && children[h].run[children[h].pos] == merged[at];
        CountStep(runs, merged, current.value, at);
        EntryAtCount(runs, merged, current.value, at);
      } else if current.Some? {
        CountOfFirst(runs, merged, current.value);
      }
    }

    /** Next moves one entry forward in the merge, whatever the direction before. */
    method Next()
      requires Ok() && Valid()
      modifies this, children
      ensures Ok() && at == old(at) + 1 && direction == Forward
    {
      hide CountBefore, IsMerge, LowerBound;
      if direction != Forward {
        TurnForward();
      }
      var runs := RunsOf(children);
      forall i | 0 <= i < |children|
        ensures CountBefore(children[i].run, merged, at + 1) == CountBefore(children[i].run, merged, at) + if i == current.value then 1 else 0
      {
        CountStep(runs, merged, i, at);
        OnlyIn(current.value, i);
      }
      label before:
      children[current.value].Next();
      assert forall i | 0 <= i < |children| && i != current.value :: children[i].pos == old@before(children[i].pos);
      at := at + 1;
      FindSmallest();
    }

    lemma OnlyIn(i: nat, j: nat)
      requires Ok() && Valid() && i == current.value && j < |children|
      ensures merged[at] in children[j].run <==> i == j
    {
      var runs := RunsOf(children);
      assert merged[at] in runs[i];
    }

    /** The repositioning loop of Next: each other child goes strictly past the current key. */
    method TurnForward()
      requires Ok() && Valid() && direction == Reverse
      modifies this`direction, children
      ensures Ok() && direction == Forward
    {
      hide CountBefore, IsMerge;
      var key := children[current.value].Key();
      ghost var runs := RunsOf(children);
      forall i | 0 <= i < |children|
        ensures i != current.value ==> merged[at] !in children[i].run
        ensures i == current.value ==> children[i].pos == CountBefore(children[i].run, merged, at)
      {
        OnlyIn(current.value, i);
        CountStep(runs, merged, i, at);
      }
      for i := 0 to |children|
        invariant Static() && children[current.value].pos == old(children[current.value].pos)
        invariant forall j | 0 <= j < i && j != current.value :: children[j].pos == CountBefore(children[j].run, merged, at)
      {
        if i != current.value {
          var child := children[i];
          child.Seek(key);
          SeekIsCount(child.run, merged, at);
          CountStep(runs, merged, i, at);
          if child.Valid() && child.Key() == key {
            // The source steps past an equal key here; no key is in two runs.
            assert false;
          }
        }
      }
      direction := Forward;
    }

    /** Prev moves one entry backward in the merge, whatever the direction before. */
    method Prev()
      requires Ok() && Valid()
      modifies this, children
      ensures Ok() && at == old(at) - 1 && direction == Reverse
    {
      hide CountBefore, IsMerge, LowerBound, Less, AtMost;
      if direction != Reverse {
        TurnReverse();
      }
      var runs := RunsOf(children);
      forall i | 0 <= i < |children|
        ensures CountBefore(children[i].run, merged, at + 1) == CountBefore(children[i].run, merged, at) + if i == current.value then 1 else 0
      {
        CountStep(runs, merged, i, at);
        OnlyIn(current.value, i);
      }
      label before:
      children[current.value].Prev();
      assert forall i | 0 <= i < |children| && i != current.value :: children[i].pos == old@before(children[i].pos);
      at := at - 1;
      FindLargest();
    }

    /** The repositioning loop of Prev: each other child goes strictly before the current key. */
    method TurnReverse()
      requires Ok() && Valid() && direction == Forward
      modifies this`direction, children
      ensures Ok() && direction == Reverse
    {
      hide CountBefore, IsMerge, Less, AtMost;
      var key := children[current.value].Key();
      ghost var runs := RunsOf(children);
      forall i | 0 <= i < |children|
        ensures CountBefore(children[i].run, merged, at + 1) == CountBefore(children[i].run, merged, at) + if i == current.value then 1 else 0
      {
        OnlyIn(current.value, i);
        CountStep(runs, merged, i, at);
      }
      for i := 0 to |children|
        invariant Static() && children[current.value].pos == old(children[current.value].pos)
        invariant forall j | 0 <= j < i && j != current.value :: children[j].pos == CountBefore(children[j].run, merged, at) - 1
      {
        if i != current.value {
          var child := children[i];
          child.Seek(key);
          SeekIsCount(child.run, merged, at);
          if child.Valid() {
            child.Prev();
          } else {
            child.SeekToLast();
          }
        }
      }
      direction := Reverse;
    }

    /** Between operations every other child lies strictly on the far side of key(). */
    lemma OthersAreBeyond(i: nat)
      requires Ok() && Valid() && i < |children| && i != current.value && children[i].Valid()
      ensures if direction == Forward then Less(children[current.value].Key(), children[i].Key())
              else Less(children[i].Key(), children[current.value].Key())
    {
      OnlyIn(current.value, i);
      CountStep(RunsOf(children), merged, i, at);
    }
  }

  lemma LessThrough(a: IKey, b: IKey, c: IKey)
    ensures AtMost(a, a)
    ensures Less(a, b) && AtMost(b, c) ==> AtMost(a, c)
    ensures AtMost(a, b) && Less(b, c) ==> AtMost(a, c)
  {
  }

  function RunsOf(children: seq<Cursor>): (r: seq<seq<Entry>>)
    ensures |r| == |children| && forall i | 0 <= i < |children| :: r[i] == children[i].run
  {
    seq(|children|, i requires 0 <= i < |children| => children[i].run)
  }
}
