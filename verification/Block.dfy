/** Blocks of prefix-compressed entries with restart points (table/block_builder.cc, table/block.cc).
    `Data` lays pairs out as bytes; the builder writes that layout, and the iterator over it is proved against
    an index into the pairs. */
module Blocks {
  import opened Keys
  import opened Entries
  import opened Coding

  datatype Pair = Pair(key: Bytes, value: Bytes)

  /** The length of the longest common prefix. */
  function Common(a: Bytes, b: Bytes): (n: nat)
    ensures n <= |a| && n <= |b| && a[..n] == b[..n]
  {
    if a == [] || b == [] || a[0] != b[0] then 0 else
      var n := Common(a[1..], b[1..]);
      assert a[..n + 1] == [a[0]] + a[1..][..n] && b[..n + 1] == [b[0]] + b[1..][..n];
      n + 1
  }

  /** The three lengths in front of an entry, each truncated to 32 bits. */
  function Lengths(shared: nat, nonShared: nat, value: nat): Bytes {
    Varint(shared % WORD32) + (Varint(nonShared % WORD32) + Varint(value % WORD32))
  }

  function EntryBytes(shared: nat, p: Pair): Bytes
    requires shared <= |p.key|
  {
    Lengths(shared, |p.key| - shared, |p.value|) + (p.key[shared..] + p.value)
  }

  // A block of pairs `ps` with restart points at the entries `at`.

  ghost function SharedAt(ps: seq<Pair>, at: seq<nat>, i: nat): (n: nat)
    requires i < |ps|
    ensures
      && n <= |ps[i].key|
      && (i in at ==> n == 0)
      && (i > 0 ==> n <= |ps[i - 1].key| && ps[i].key[..n] == ps[i - 1].key[..n])
  {
    if i in at || i == 0 then 0 else Common(ps[i - 1].key, ps[i].key)
  }

  /** The encoding of the first i entries. */
  ghost function Data(ps: seq<Pair>, at: seq<nat>, i: nat): Bytes
    requires i <= |ps|
  {
    if i == 0 then [] else Data(ps, at, i - 1) + EntryBytes(SharedAt(ps, at, i - 1), ps[i - 1])
  }

  ghost function Offset(ps: seq<Pair>, at: seq<nat>, i: nat): nat
    requires i <= |ps|
  {
    |Data(ps, at, i)|
  }

  /** Restart points start at entry 0 and rise. */
  ghost predicate Rising(at: seq<nat>, n: nat) {
    && |at| > 0 && at[0] == 0 && at[|at| - 1] <= n
    && forall i, j | 0 <= i < j < |at| :: at[i] < at[j]
  }

  ghost predicate RestartsAre(restarts: seq<nat>, ps: seq<Pair>, at: seq<nat>) {
    && Rising(at, |ps|) && |restarts| == |at|
    && forall j | 0 <= j < |at| :: at[j] <= |ps| && restarts[j] == Offset(ps, at, at[j])
  }

  class BlockBuilder {
    const interval: nat
    var buffer: Bytes
    var restarts: seq<nat>
    var counter: nat
    var lastKey: Bytes
    var finished: bool
    ghost var pairs: seq<Pair>
    ghost var at: seq<nat>

    ghost predicate Valid()
      reads this
    {
      && RestartsAre(restarts, pairs, at) && Counts(pairs, at, interval, counter, lastKey)
      && (!finished ==> buffer == Data(pairs, at, |pairs|))
    }

    constructor (interval: nat)
      requires interval >= 1
      ensures Valid() && pairs == [] && !finished && this.interval == interval
    {
      this.interval := interval;
      buffer, restarts, counter, lastKey, finished, pairs, at := [], [0], 0, [], false, [], [0];
    }

    /** Ready for the next block. */
    method Reset()
      requires Valid()
      modifies this
      ensures Valid() && pairs == [] && !finished
    {
      buffer, restarts, counter, lastKey, finished, pairs, at := [], [0], 0, [], false, [], [0];
    }

    function CurrentSizeEstimate(): nat
      reads this
    {
      |buffer| + 4 * |restarts| + 4
    }

    method Add(key: Bytes, value: Bytes)
      requires Valid() && !finished
      modifies this
      ensures Valid() && !finished && pairs == old(pairs) + [Pair(key, value)]
    {
      hide Data, RestartsAre, Counts, Common, SharedAt, EntryBytes, Offset;
      var shared := 0;
      ghost var ps, p := pairs, Pair(key, value);
      ghost var next := if counter < interval then at else at + [|ps|];
      Added(restarts, buffer, ps, at, interval, counter, lastKey, p);
      if counter < interval {
        // See how much sharing to do with the previous key.
        shared := SharedPrefix(lastKey, key);
      } else {
        restarts := restarts + [|buffer|];
        counter := 0;
      }
      PutEntry(shared, key, value);
      lastKey := lastKey[..shared] + key[shared..];
      counter := counter + 1;
      pairs, at := ps + [p], next;
    }

    /** The three lengths, then the part of the key that is not shared, then the value. */
    method PutEntry(shared: nat, key: Bytes, value: Bytes)
      requires shared <= |key|
      modifies this`buffer
      ensures buffer == old(buffer) + EntryBytes(shared, Pair(key, value))
    {
      hide Varint, EntryBytes;
      ghost var before := buffer;
      buffer := PutVarint32(buffer, shared % WORD32);
      buffer := PutVarint32(buffer, (|key| - shared) % WORD32);
      buffer := PutVarint32(buffer, |value| % WORD32);
      buffer := buffer + key[shared..];
      buffer := buffer + value;
      EntryAppended(before, shared, Pair(key, value));
    }

    method Finish() returns (block: Bytes)
      requires Valid() && !finished
      modifies this
      ensures Valid() && finished && pairs == old(pairs) && at == old(at)
      ensures Built(block, pairs, at)
    {
      hide Built, Data, RestartsAre, Counts, FixedAll, Fixed;
      FixedNone();
      assert restarts[..0] == [] && buffer + [] == buffer;
      for i := 0 to |restarts|
        invariant restarts == old(restarts)
        invariant buffer == Data(pairs, at, |pairs|) + FixedAll(restarts[..i])
        invariant pairs == old(pairs) && at == old(at)
        invariant counter == old(counter) && lastKey == old(lastKey)
      {
        FixedOneMore(restarts[..i], restarts[i]);
        assert restarts[..i + 1] == restarts[..i] + [restarts[i]];
        buffer := buffer + Fixed(restarts[i], 4);
      }
      FixedOneMore(restarts, |restarts|);
      assert restarts[..|restarts|] == restarts;
      buffer := buffer + Fixed(|restarts|, 4);
      finished := true;
      block := buffer;
      FinishedBlock(block, restarts, pairs, at, interval, counter, lastKey);
    }
  }

  method SharedPrefix(a: Bytes, b: Bytes) returns (shared: nat)
    ensures shared == Common(a, b)
    ensures shared <= |a| && shared <= |b| && a[..shared] == b[..shared]
    ensures shared == |a| || shared == |b| || a[shared] != b[shared]
  {
    var minLength := if |a| < |b| then |a| else |b|;
    shared := 0;
    while shared < minLength && a[shared] == b[shared]
      invariant 0 <= shared <= minLength && shared + Common(a[shared..], b[shared..]) == Common(a, b)
    {
      assert a[shared..][1..] == a[shared + 1..] && b[shared..][1..] == b[shared + 1..];
      shared := shared + 1;
    }
  }

  lemma EntryAppended(before: Bytes, shared: nat, p: Pair)
    requires shared <= |p.key|
    ensures before + Varint(shared % WORD32) + Varint((|p.key| - shared) % WORD32)
        + Varint(|p.value| % WORD32) + p.key[shared..] + p.value
      == before + EntryBytes(shared, p)
  {
    hide Varint;
  }

  /** Exactly `interval` entries from one restart point to the next, and `counter` since the last. */
  ghost predicate Counts(ps: seq<Pair>, at: seq<nat>, interval: nat, counter: nat, last: Bytes) {
    && interval >= 1
    && |at| > 0
    && (forall j | 0 < j < |at| :: at[j] == at[j - 1] + interval)
    && at[|at| - 1] + counter == |ps|
    && counter <= interval
    && (at[|at| - 1] > 0 ==> counter > 0)
    && last == if ps == [] then [] else ps[|ps| - 1].key
  }

  lemma Added(restarts: seq<nat>, buffer: Bytes, ps: seq<Pair>, at: seq<nat>, interval: nat, counter: nat, last: Bytes, p: Pair)
    requires Counts(ps, at, interval, counter, last) && RestartsAre(restarts, ps, at) && buffer == Data(ps, at, |ps|)
    ensures var more := counter < interval;
      var n, next := if more then Common(last, p.key) else 0, if more then at else at + [|ps|];
      && n <= |last| && n <= |p.key| && last[..n] + p.key[n..] == p.key
      && Counts(ps + [p], next, interval, (if more then counter else 0) + 1, p.key)
      && RestartsAre(if more then restarts else restarts + [|buffer|], ps + [p], next)
      && Data(ps + [p], next, |ps| + 1) == buffer + EntryBytes(n, p)
  {
    hide Data, EntryBytes, Common, RestartsAre, Counts, SharedAt;
    var more := counter < interval;
    var next := if more then at else at + [|ps|];
    AddedCounts(ps, at, interval, counter, last, p);
    RestartsRise(restarts, ps, at);
    AddedRestarts(restarts, if more then restarts else restarts + [|buffer|], ps, at, next, p);
    AddedShared(ps, at, next, p, last);
  }

  lemma FinishedBlock(block: Bytes, restarts: seq<nat>, ps: seq<Pair>, at: seq<nat>, interval: nat, counter: nat, last: Bytes)
    requires Counts(ps, at, interval, counter, last) && RestartsAre(restarts, ps, at)
    requires block == Data(ps, at, |ps|) + FixedAll(restarts + [|restarts|])
    ensures Built(block, ps, at)
  {
    assert BuiltFrom(block, ps, at, restarts);
  }

  lemma RestartsRise(restarts: seq<nat>, ps: seq<Pair>, at: seq<nat>)
    requires RestartsAre(restarts, ps, at)
    ensures Rising(at, |ps|)
  {
  }

  lemma AddedCounts(ps: seq<Pair>, at: seq<nat>, interval: nat, counter: nat, last: Bytes, p: Pair)
    requires Counts(ps, at, interval, counter, last)
    ensures var more := counter < interval;
      Counts(ps + [p], if more then at else at + [|ps|], interval, (if more then counter else 0) + 1, p.key)
    ensures |at| > 0 && (at[|at| - 1] < |ps| || (ps == [] && counter < interval))
    ensures last == if ps == [] then [] else ps[|ps| - 1].key
  {
  }

  /** Adding a pair, and perhaps a restart point for it, leaves the encoding of the earlier ones alone. */
  lemma {:induction false} SameData(ps: seq<Pair>, at: seq<nat>, next: seq<nat>, p: Pair, i: nat)
    requires i <= |ps| && (next == at || next == at + [|ps|])
    ensures Data(ps + [p], next, i) == Data(ps, at, i)
  {
    hide EntryBytes, Common;
    if i > 0 {
      SameData(ps, at, next, p, i - 1);
      assert i - 1 in next <==> i - 1 in at;
    }
  }

  lemma AddedRestarts(restarts: seq<nat>, restarts': seq<nat>, ps: seq<Pair>, at: seq<nat>, next: seq<nat>, p: Pair)
    requires RestartsAre(restarts, ps, at)
    requires (next == at && restarts' == restarts)
      || (next == at + [|ps|] && restarts' == restarts + [Offset(ps, at, |ps|)] && at[|at| - 1] < |ps|)
    ensures RestartsAre(restarts', ps + [p], next)
    ensures Data(ps + [p], next, |ps| + 1) == Data(ps, at, |ps|) + EntryBytes(SharedAt(ps + [p], next, |ps|), p)
  {
    hide EntryBytes, SharedAt;
    SameData(ps, at, next, p, |ps|);
    AddedRising(at, next, |ps|);
    forall j | 0 <= j < |next|
      ensures next[j] <= |ps| && restarts'[j] == Offset(ps + [p], next, next[j])
    {
      if j < |at| {
        SameData(ps, at, next, p, at[j]);
      }
    }
  }

  lemma AddedRising(at: seq<nat>, next: seq<nat>, n: nat)
    requires Rising(at, n) && (next == at || (next == at + [n] && at[|at| - 1] < n))
    ensures Rising(next, n + 1)
  {
    forall i | 0 <= i < |at| - 1
      ensures at[i] < at[|at| - 1]
    {
    }
  }

  lemma CommonShares(a: Bytes, b: Bytes)
    ensures var n := Common(a, b);
      n <= |a| && n <= |b| && a[..n] + b[n..] == b
  {
    var n := Common(a, b);
    assert a[..n] + b[n..] == b[..n] + b[n..] == b;
  }

  lemma AddedShared(ps: seq<Pair>, at: seq<nat>, next: seq<nat>, p: Pair, last: Bytes)
    requires Rising(at, |ps|) && (next == at + [|ps|] || (next == at && (at[|at| - 1] < |ps| || ps == [])))
    requires last == if ps == [] then [] else ps[|ps| - 1].key
    ensures SharedAt(ps + [p], next, |ps|) == if next == at then Common(last, p.key) else 0
    ensures var n := Common(last, p.key);
      n <= |last| && n <= |p.key| && last[..n] + p.key[n..] == p.key
    ensures last[..0] + p.key[0..] == p.key
  {
    hide Data, Common;
    CommonShares(last, p.key);
    if ps == [] {
      CommonShares([], p.key);
    }
    if next == at && ps != [] {
      forall j | 0 <= j < |at|
        ensures at[j] < |ps|
      {
        assert j < |at| - 1 ==> at[j] < at[|at| - 1];
      }
    }
  }

  // What a reader finds in such a block.

  lemma {:induction false} DataPrefix(ps: seq<Pair>, at: seq<nat>, i: nat, n: nat)
    requires i <= n <= |ps|
    ensures
      && Offset(ps, at, i) <= Offset(ps, at, n)
      && Data(ps, at, n)[..Offset(ps, at, i)] == Data(ps, at, i)
    ensures i < n ==> Offset(ps, at, i) + 3 <= Offset(ps, at, n)
    decreases n - i
  {
    hide EntryBytes, SharedAt;
    if i < n {
      DataPrefix(ps, at, i, n - 1);
      EntrySize(SharedAt(ps, at, n - 1), ps[n - 1]);
    }
  }

  lemma EntrySize(shared: nat, p: Pair)
    requires shared <= |p.key|
    ensures |EntryBytes(shared, p)| >= 3 + |p.key| - shared + |p.value|
  {
  }

  /** From the offset of entry i on, the block goes on with that entry. */
  lemma DataSplits(ps: seq<Pair>, at: seq<nat>, i: nat)
    requires i < |ps|
    ensures var data, o, next := Data(ps, at, |ps|), Offset(ps, at, i), Offset(ps, at, i + 1);
      o + 3 <= next <= |data| && data[o..] == EntryBytes(SharedAt(ps, at, i), ps[i]) + data[next..]
      && next == o + |EntryBytes(SharedAt(ps, at, i), ps[i])|
  {
    hide EntryBytes, SharedAt;
    DataPrefix(ps, at, i, |ps|);
    DataPrefix(ps, at, i, i + 1);
    DataPrefix(ps, at, i + 1, |ps|);
    var data, next := Data(ps, at, |ps|), Offset(ps, at, i + 1);
    assert data[..next] == Data(ps, at, i) + EntryBytes(SharedAt(ps, at, i), ps[i]);
    assert data[Offset(ps, at, i)..] == data[..next][Offset(ps, at, i)..] + data[next..];
  }

  datatype Head = Head(shared: nat, nonShared: nat, valueLength: nat, rest: Bytes)

  function Enough(shared: nat, nonShared: nat, valueLength: nat, rest: Bytes): Option<Head> {
    if |rest| < nonShared + valueLength then None else Some(Head(shared, nonShared, valueLength, rest))
  }

  /** The three lengths at the front of `s`: one byte each, or varints. */
  function DecodeEntry(s: Bytes): (r: Option<Head>)
    ensures r.Some? ==> |r.value.rest| <= |s| - 3 && r.value.nonShared + r.value.valueLength <= |r.value.rest|
  {
    if |s| < 3 then None
    else if s[0] < 128 && s[1] < 128 && s[2] < 128 then Enough(s[0], s[1], s[2], s[3..])
    else match GetVarint32(s)
      case None => None
      case Some((shared, s1)) =>
        match GetVarint32(s1)
        case None => None
        case Some((nonShared, s2)) =>
          match GetVarint32(s2)
          case None => None
          case Some((valueLength, s3)) =>
            GettersShrink(s);
            GettersShrink(s1);
            GettersShrink(s2);
            Enough(shared, nonShared, valueLength, s3)
  }

  lemma HeadBounds(s: Bytes)
    ensures var r := DecodeEntry(s);
      r.Some? ==> |r.value.rest| <= |s| - 3 && r.value.nonShared + r.value.valueLength <= |r.value.rest|
  {
  }

  /** The fast path and the slow path read what the builder wrote. */
  lemma DecodesEntry(shared: nat, p: Pair, rest: Bytes)
    requires shared <= |p.key| && |p.key| + |p.value| < WORD32
    ensures DecodeEntry(EntryBytes(shared, p) + rest)
         == Some(Head(shared, |p.key| - shared, |p.value|, p.key[shared..] + p.value + rest))
  {
    hide Varint, GetVarint32;
    var a, b, c := shared, |p.key| - shared, |p.value|;
    var s3 := p.key[shared..] + p.value + rest;
    var s2 := Varint(c) + s3;
    var s1 := Varint(b) + s2;
    var s := EntryBytes(shared, p) + rest;
    assert s == Varint(a) + s1;
    Varint32RoundTrip(a, s1);
    Varint32RoundTrip(b, s2);
    Varint32RoundTrip(c, s3);
    OneByte(a, s1);
    OneByte(b, s2);
    OneByte(c, s3);
  }

  /** A first byte below 128 is the whole number. */
  lemma OneByte(v: nat, rest: Bytes)
    ensures var s := Varint(v) + rest;
      |s| > |rest| && (s[0] < 128 ==> s[0] == v && s[1..] == rest)
  {
  }

  function RestartPoint(data: Bytes, restarts: nat, j: nat): nat
    requires restarts + 4 * j + 4 <= |data|
  {
    ReadFixed(data[restarts + 4 * j..], 4)
  }

  /** `data` holds the pairs, followed at `restarts` by the offsets of the restart points. */
  ghost predicate Laid(data: Bytes, restarts: nat, num: nat, ps: seq<Pair>, at: seq<nat>) {
    && num == |at|
    && restarts + 4 * num + 4 <= |data|
    && data[..restarts] == Data(ps, at, |ps|)
    && Rising(at, |ps|) && (at[|at| - 1] < |ps| || ps == [])
    && (forall j | 0 <= j < num :: at[j] <= |ps| && RestartPoint(data, restarts, j) == Offset(ps, at, at[j]))
    && forall i | 0 <= i < |ps| :: |ps[i].key| + |ps[i].value| < WORD32
  }

  /** A cursor on entry i of the block, or past the end. */
  ghost predicate Sits(data: Bytes, restarts: nat, ps: seq<Pair>, at: seq<nat>, i: nat,
                       current: nat, key: Bytes, valueStart: nat, valueSize: nat, restartIndex: nat) {
    if i >= |ps| then i == |ps| && current == restarts
    else
      && current == Offset(ps, at, i)
      && key == ps[i].key
      && valueStart + valueSize == Offset(ps, at, i + 1) <= |data|
      && data[valueStart..valueStart + valueSize] == ps[i].value
      && restartIndex < |at|
      && at[restartIndex] <= i
  }

  /** The next entry to be parsed is entry i. */
  ghost predicate Before(ps: seq<Pair>, at: seq<nat>, i: nat, offset: nat, key: Bytes, restartIndex: nat) {
    && i <= |ps|
    && offset == Offset(ps, at, i)
    && restartIndex < |at|
    && at[restartIndex] <= i
    && (i in at || (0 < i && key == ps[i - 1].key))
  }

  /** What ParseNextKey makes of entry i. */
  lemma ParsesEntry(data: Bytes, restarts: nat, num: nat, ps: seq<Pair>, at: seq<nat>, i: nat, offset: nat, key: Bytes, r: nat)
    requires Laid(data, restarts, num, ps, at) && Before(ps, at, i, offset, key, r)
    ensures i <= |ps| && (i == |ps| <==> offset >= restarts)
    ensures i < |ps| ==> Steps(data, restarts, ps, at, i, offset, key, r, DecodeEntry(data[offset..restarts]))
  {
    hide DecodeEntry, EntryBytes, Common, RestartPoint, Data, Rising;
    if i < |ps| {
      DataSplits(ps, at, i);
      DecodesAt(data, restarts, offset, SharedAt(ps, at, i), ps[i], data[..restarts][Offset(ps, at, i + 1)..]);
      var n := SharedAt(ps, at, i);
      assert n <= |key| && key[..n] + ps[i].key[n..] == ps[i].key by {
        assert ps[i].key[..n] + ps[i].key[n..] == ps[i].key;
      }
    }
  }

  lemma Slices(s: Bytes, from: nat, to: nat, a: nat, b: nat)
    requires from <= to <= |s| && a <= b <= to - from
    ensures s[from..to][a..b] == s[from + a..from + b]
  {
    forall k | 0 <= k < b - a
      ensures s[from..to][a..b][k] == s[from + a..from + b][k]
    {
      assert s[from..to][a..b][k] == s[from..to][a + k] == s[from + (a + k)];
    }
  }

  lemma DecodesAt(data: Bytes, restarts: nat, offset: nat, n: nat, p: Pair, after: Bytes)
    requires offset <= restarts <= |data| && n <= |p.key| && |p.key| + |p.value| < WORD32
    requires data[..restarts][offset..] == EntryBytes(n, p) + after
    ensures var h := DecodeEntry(data[offset..restarts]);
      && h.Some?
      && h.value.shared == n
      && |h.value.rest| <= restarts
      && h.value.nonShared <= |h.value.rest|
      && h.value.rest[..h.value.nonShared] == p.key[n..]
      && h.value.valueLength == |p.value|
      && var start := restarts - |h.value.rest| + h.value.nonShared;
      && start + |p.value| == offset + |EntryBytes(n, p)| <= restarts && data[start..start + |p.value|] == p.value
  {
    hide DecodeEntry, EntryBytes;
    assert data[offset..restarts] == EntryBytes(n, p) + after;
    DecodesEntry(n, p, after);
    EntryEnds(n, p);
    EntrySize(n, p);
    var e := |EntryBytes(n, p)|;
    assert data[offset..restarts][e - |p.value|..e] == EntryBytes(n, p)[e - |p.value|..];
    Slices(data, offset, restarts, e - |p.value|, e);
    assert |EntryBytes(n, p) + after| == e + |after| && restarts - offset == e + |after|;
    assert |p.key[n..] + p.value + after| == |p.key| - n + |p.value| + |after|;
    assert restarts - |p.key[n..] + p.value + after| + (|p.key| - n) == offset + e - |p.value|;
    assert (p.key[n..] + p.value + after)[..|p.key| - n] == p.key[n..];
  }

  ghost predicate Steps(data: Bytes, restarts: nat, ps: seq<Pair>, at: seq<nat>, i: nat, offset: nat, key: Bytes, r: nat, h: Option<Head>)
    requires h.Some? ==> h.value.nonShared <= |h.value.rest|
  {
    && h.Some? && h.value.shared <= |key| && |h.value.rest| <= restarts
    && Sits(data, restarts, ps, at, i, offset, key[..h.value.shared] + h.value.rest[..h.value.nonShared],
            restarts - |h.value.rest| + h.value.nonShared, h.value.valueLength, r)
  }

  lemma EntryEnds(shared: nat, p: Pair)
    requires shared <= |p.key|
    ensures |EntryBytes(shared, p)| >= |p.value|
    ensures EntryBytes(shared, p)[|EntryBytes(shared, p)| - |p.value|..] == p.value
  {
    hide Lengths;
  }

  lemma SitsAtEnd(data: Bytes, restarts: nat, ps: seq<Pair>, at: seq<nat>, key: Bytes, valueStart: nat, valueSize: nat, r: nat)
    ensures Sits(data, restarts, ps, at, |ps|, restarts, key, valueStart, valueSize, r)
  {
  }

  /** Offsets compare like entries. */
  lemma OffsetsRise(ps: seq<Pair>, at: seq<nat>, i: nat, j: nat)
    requires i <= |ps| && j <= |ps|
    ensures i < j <==> Offset(ps, at, i) < Offset(ps, at, j)
  {
    if i < j {
      DataPrefix(ps, at, i, j);
    } else {
      DataPrefix(ps, at, j, i);
    }
  }

  lemma RestartAdvances(data: Bytes, restarts: nat, num: nat, ps: seq<Pair>, at: seq<nat>, i: nat,
                        current: nat, key: Bytes, valueStart: nat, valueSize: nat, r: nat)
    requires Laid(data, restarts, num, ps, at) && Sits(data, restarts, ps, at, i, current, key, valueStart, valueSize, r)
    requires r + 1 < num && RestartPoint(data, restarts, r + 1) < current < restarts
    ensures Sits(data, restarts, ps, at, i, current, key, valueStart, valueSize, r + 1)
  {
    OffsetsRise(ps, at, at[r + 1], i);
  }

  // The order of keys, as far as a search needs it.

  ghost predicate InOrder(less: (Bytes, Bytes) -> bool, ps: seq<Pair>) {
    && (forall a, b, c | less(a, b) && less(b, c) :: less(a, c))
    && forall i, j | 0 <= i < j < |ps| :: less(ps[i].key, ps[j].key)
  }

  predicate AllLess(less: (Bytes, Bytes) -> bool, ps: seq<Pair>, target: Bytes, i: nat) {
    forall j | 0 <= j < i && j < |ps| :: less(ps[j].key, target)
  }

  predicate NoneLess(less: (Bytes, Bytes) -> bool, ps: seq<Pair>, target: Bytes, i: nat) {
    forall j | i <= j < |ps| :: !less(ps[j].key, target)
  }

  /** i is the first entry whose key is not less than the target, or the end. */
  predicate IsLowerBound(less: (Bytes, Bytes) -> bool, ps: seq<Pair>, target: Bytes, i: nat) {
    i <= |ps| && AllLess(less, ps, target, i) && NoneLess(less, ps, target, i)
  }

  /** One comparison tells about every entry on one side. */
  lemma Restarts(less: (Bytes, Bytes) -> bool, ps: seq<Pair>, target: Bytes, i: nat)
    requires InOrder(less, ps) && i < |ps|
    ensures if less(ps[i].key, target) then AllLess(less, ps, target, i) else NoneLess(less, ps, target, i)
  {
  }

  lemma LaidRestarts(data: Bytes, restarts: nat, num: nat, ps: seq<Pair>, at: seq<nat>)
    requires Laid(data, restarts, num, ps, at)
    ensures num == |at| && at[0] == 0
  {
  }

  lemma DecodesRestart(data: Bytes, restarts: nat, num: nat, ps: seq<Pair>, at: seq<nat>, j: nat)
    requires Laid(data, restarts, num, ps, at) && 0 < j < num
    ensures at[j] < |ps|
    ensures var o := RestartPoint(data, restarts, j);
      && o < restarts
      && var h := DecodeEntry(data[o..restarts]);
      && h.Some? && h.value.shared == 0 && h.value.nonShared <= |h.value.rest| && h.value.rest[..h.value.nonShared] == ps[at[j]].key
  {
    var i := BeforeRestart(data, restarts, num, ps, at, j);
    hide Laid, DecodeEntry, RestartPoint;
    assert at[j] < |ps|;
    ParsesEntry(data, restarts, num, ps, at, i, RestartPoint(data, restarts, j), [], j);
  }

  class Iter {
    const less: (Bytes, Bytes) -> bool
    const data: Bytes
    const restarts: nat
    const numRestarts: nat
    ghost const layout: Option<(seq<Pair>, seq<nat>)>
    var current: nat
    var restartIndex: nat
    var valueStart: nat
    var valueSize: nat
    var key: Bytes
    var corrupt: bool
    ghost var index: nat

    constructor (less: (Bytes, Bytes) -> bool, data: Bytes, restarts: nat, numRestarts: nat, ghost layout: Option<(seq<Pair>, seq<nat>)>)
      requires numRestarts >= 1 && restarts + 4 * numRestarts + 4 <= |data|
      requires layout.Some? ==> Laid(data, restarts, numRestarts, layout.value.0, layout.value.1)
      ensures Valid() && this.layout == layout && this.less == less && this.data == data
      ensures layout.Some? ==> index == |layout.value.0|
    {
      this.less, this.data, this.restarts, this.numRestarts, this.layout := less, data, restarts, numRestarts, layout;
      current, restartIndex, valueStart, valueSize, key, corrupt := restarts, numRestarts, 0, 0, [], false;
      index := if layout.Some? then |layout.value.0| else 0;
    }

    lemma Bounds()
      requires Valid() && current < restarts
      ensures valueStart + valueSize <= restarts <= |data|
    {
    }

    /** The cursor is on entry `index`, if there is one. */
    lemma IsAt()
      requires Valid() && layout.Some?
      ensures
        && index <= |layout.value.0|
        && (current < restarts <==> index < |layout.value.0|)
      ensures current < restarts ==>
        key == layout.value.0[index].key && data[valueStart..valueStart + valueSize] == layout.value.0[index].value
    {
      hide Laid, Sits;
      SitsIffBefore(data, restarts, numRestarts, layout.value.0, layout.value.1, index, current, key, valueStart, valueSize, restartIndex);
    }

    ghost predicate Shape() {
      && numRestarts >= 1 && restarts + 4 * numRestarts + 4 <= |data|
      && (layout.Some? ==> Laid(data, restarts, numRestarts, layout.value.0, layout.value.1))
    }

    ghost predicate Valid()
      reads this
    {
      && Shape() && current <= restarts
      && (current < restarts ==> restartIndex < numRestarts && current < valueStart && valueStart + valueSize <= restarts)
      && (layout.Some? ==> !corrupt)
      && (layout.Some? ==> Sits(data, restarts, layout.value.0, layout.value.1, index, current, key, valueStart, valueSize, restartIndex))
    }

    method GetRestartPoint(j: nat) returns (offset: nat)
      requires Shape() && j < numRestarts
      ensures offset == RestartPoint(data, restarts, j)
    {
      offset := ReadFixed(data[restarts + 4 * j..], 4);
    }

    method SeekToRestartPoint(j: nat)
      requires Shape() && j < numRestarts
      modifies this
      ensures current == old(current) && corrupt == old(corrupt)
      ensures
        && restartIndex == j
        && key == []
        && valueSize == 0
        && valueStart == RestartPoint(data, restarts, j)
    {
      key := [];
      restartIndex := j;
      valueStart := GetRestartPoint(j);
      valueSize := 0;
    }

    method CorruptionError()
      modifies this
      ensures current == restarts && corrupt
    {
      current, restartIndex, corrupt, key, valueStart, valueSize := restarts, numRestarts, true, [], 0, 0;
    }

    /** Move to the entry that starts where the value ends; false at the end of the entries or a bad one. */
    method ParseNextKey(ghost i: nat) returns (ok: bool)
      requires Shape() && restartIndex < numRestarts
      requires layout.Some? ==> !corrupt
      requires layout.Some? ==> Before(layout.value.0, layout.value.1, i, valueStart + valueSize, key, restartIndex)
      modifies this
      ensures Valid() && (ok <==> current < restarts)
      ensures ok ==> valueStart + valueSize > old(valueStart + valueSize)
      ensures layout.Some? ==> index == i
    {
      hide Laid, Before, Sits, DecodeEntry, RestartPoint;
      if layout.Some? {
        ParsesEntry(data, restarts, numRestarts, layout.value.0, layout.value.1, i, valueStart + valueSize, key, restartIndex);
        SitsAtEnd(data, restarts, layout.value.0, layout.value.1, key, valueStart, valueSize, numRestarts);
      }
      index := i;
      current := valueStart + valueSize;
      if current >= restarts {
        current, restartIndex := restarts, numRestarts;
        return false;
      }
      var h := DecodeEntry(data[current..restarts]);
      HeadBounds(data[current..restarts]);
      if h.None? || |key| < h.value.shared {
        CorruptionError();
        return false;
      }
      key := key[..h.value.shared] + h.value.rest[..h.value.nonShared];
      valueStart := restarts - |h.value.rest| + h.value.nonShared;
      valueSize := h.value.valueLength;
      while restartIndex + 1 < numRestarts && RestartPoint(data, restarts, restartIndex + 1) < current
        invariant Valid() && current < restarts && restartIndex < numRestarts
        invariant valueStart + valueSize > old(valueStart + valueSize)
        invariant index == i
      {
        if layout.Some? {
          RestartAdvances(data, restarts, numRestarts, layout.value.0, layout.value.1, i, current, key, valueStart, valueSize, restartIndex);
        }
        restartIndex := restartIndex + 1;
      }
      ok := true;
    }

    method Next()
      requires Valid() && current < restarts
      modifies this
      ensures Valid() && (layout.Some? ==> index == old(index) + 1)
    {
      hide Laid, Sits, Before, RestartPoint;
      if layout.Some? {
        SitsBeforeNext(data, restarts, numRestarts, layout.value.0, layout.value.1, index, current, key, valueStart, valueSize, restartIndex);
      }
      var _ := ParseNextKey(index + 1);
    }

    /** Back to a restart point before the current entry, then forward to the entry that ends where it starts. */
    method Prev()
      requires Valid() && current < restarts
      modifies this
      ensures Valid()
      ensures layout.Some? ==> index == if old(index) == 0 then |layout.value.0| else old(index) - 1
    {
      hide Laid, Sits, Before, RestartPoint;
      var original := current;
      while GetRestart(restartIndex) >= original
        invariant Valid() && current == original < restarts && restartIndex < numRestarts && index == old(index)
        decreases restartIndex
      {
        if restartIndex == 0 {
          if layout.Some? {
            FirstRestart(data, restarts, numRestarts, layout.value.0, layout.value.1, index, current, key, valueStart, valueSize);
            SitsAtEnd(data, restarts, layout.value.0, layout.value.1, key, valueStart, valueSize, numRestarts);
            index := |layout.value.0|;
          }
          current, restartIndex := restarts, numRestarts;
          return;
        }
        if layout.Some? {
          RestartRetreats(data, restarts, numRestarts, layout.value.0, layout.value.1, index, current, key, valueStart, valueSize, restartIndex);
        }
        restartIndex := restartIndex - 1;
      }
      ghost var i: nat := 0;
      if layout.Some? {
        i := BeforeRestart(data, restarts, numRestarts, layout.value.0, layout.value.1, restartIndex);
        RestartBefore(data, restarts, numRestarts, layout.value.0, layout.value.1, index, current, key, valueStart, valueSize, restartIndex);
      }
      SeekToRestartPoint(restartIndex);
      var more := true;
      while more
        invariant Shape() && original < restarts && (!more ==> Valid()) && (more ==> restartIndex < numRestarts)
        invariant layout.Some? && more ==> !corrupt && i < old(index)
        invariant layout.Some? && more ==> Before(layout.value.0, layout.value.1, i, valueStart + valueSize, key, restartIndex)
        invariant layout.Some? && !more ==> index == old(index) - 1
        decreases more, restarts - (valueStart + valueSize)
      {
        var ok := ParseNextKey(i);
        if layout.Some? {
          EndsBefore(data, restarts, numRestarts, layout.value.0, layout.value.1, i, current, key, valueStart, valueSize, restartIndex, old(index), original);
          i := i + 1;
        }
        more := ok && valueStart + valueSize < original;
      }
    }

    function GetRestart(j: nat): nat
      requires Shape() && j < numRestarts
    {
      RestartPoint(data, restarts, j)
    }

    /** Binary search over the restart points, then a scan for the first key that is not less than the target. */
    method Seek(target: Bytes)
      requires Valid()
      modifies this
      ensures Valid()
      ensures layout.Some? && InOrder(less, layout.value.0) ==> IsLowerBound(less, layout.value.0, target, index)
    {
      hide Laid, Sits, Before, RestartPoint, InOrder, DecodeEntry;
      ghost var ps, at := [], [];
      if layout.Some? {
        ps, at := layout.value.0, layout.value.1;
        LaidRestarts(data, restarts, numRestarts, ps, at);
      }
      ghost var ordered := layout.Some? && InOrder(less, ps);
      var left, right := 0, numRestarts - 1;
      while left < right
        invariant Valid() && 0 <= left <= right < numRestarts
        invariant ordered ==> AllLess(less, ps, target, at[left])
        invariant ordered && right + 1 < numRestarts ==> NoneLess(less, ps, target, at[right + 1])
      {
        var mid := (left + right + 1) / 2;
        var offset := GetRestartPoint(mid);
        var h := DecodeEntry(data[if offset < restarts then offset else restarts..restarts]);
        HeadBounds(data[if offset < restarts then offset else restarts..restarts]);
        if layout.Some? {
          DecodesRestart(data, restarts, numRestarts, ps, at, mid);
        }
        if h.None? || h.value.shared != 0 {
          CorruptionError();
          return;
        }
        var midKey := h.value.rest[..h.value.nonShared];
        if ordered {
          Restarts(less, ps, target, at[mid]);
        }
        if less(midKey, target) {
          left := mid;
        } else {
          right := mid - 1;
        }
      }
      ghost var i: nat := 0;
      if layout.Some? {
        i := BeforeRestart(data, restarts, numRestarts, ps, at, left);
      }
      SeekToRestartPoint(left);
      ScanTo(target, i);
    }

    /** Linear search within the restart block for the first key that is not less than the target. */
    method ScanTo(target: Bytes, ghost first: nat)
      requires Shape() && restartIndex < numRestarts
      requires layout.Some? ==> !corrupt
      requires layout.Some? ==> Before(layout.value.0, layout.value.1, first, valueStart + valueSize, key, restartIndex)
      requires layout.Some? && InOrder(less, layout.value.0) ==> AllLess(less, layout.value.0, target, first)
      modifies this
      ensures Valid()
      ensures layout.Some? && InOrder(less, layout.value.0) ==> IsLowerBound(less, layout.value.0, target, index)
    {
      hide Laid, Sits, Before, RestartPoint, InOrder, DecodeEntry;
      ghost var ps, at := [], [];
      if layout.Some? {
        ps, at := layout.value.0, layout.value.1;
      }
      ghost var i, ordered := first, layout.Some? && InOrder(less, ps);
      while true
        invariant Shape() && restartIndex < numRestarts
        invariant layout.Some? ==> !corrupt && Before(ps, at, i, valueStart + valueSize, key, restartIndex)
        invariant ordered ==> AllLess(less, ps, target, i)
        decreases restarts - (valueStart + valueSize)
      {
        var ok := ParseNextKey(i);
        if layout.Some? {
          SitsIffBefore(data, restarts, numRestarts, ps, at, i, current, key, valueStart, valueSize, restartIndex);
        }
        if !ok {
          return;
        }
        if !less(key, target) {
          if ordered {
            Restarts(less, ps, target, i);
          }
          return;
        }
        if layout.Some? {
          SitsBeforeNext(data, restarts, numRestarts, ps, at, i, current, key, valueStart, valueSize, restartIndex);
        }
        i := i + 1;
      }
    }

    method SeekToFirst()
      requires Valid()
      modifies this
      ensures Valid() && (layout.Some? ==> index == 0)
    {
      hide Laid, Sits, Before, RestartPoint;
      ghost var i: nat := 0;
      if layout.Some? {
        i := BeforeRestart(data, restarts, numRestarts, layout.value.0, layout.value.1, 0);
      }
      SeekToRestartPoint(0);
      var _ := ParseNextKey(i);
    }

    method SeekToLast()
      requires Valid()
      modifies this
      ensures Valid()
      ensures layout.Some? ==> index == if layout.value.0 == [] then 0 else |layout.value.0| - 1
    {
      hide Laid, Sits, Before, RestartPoint;
      ghost var i: nat := 0;
      if layout.Some? {
        i := BeforeRestart(data, restarts, numRestarts, layout.value.0, layout.value.1, numRestarts - 1);
      }
      SeekToRestartPoint(numRestarts - 1);
      var more := true;
      while more
        invariant Shape() && (!more ==> Valid()) && (more ==> restartIndex < numRestarts)
        invariant layout.Some? && more ==> !corrupt && (i < |layout.value.0| || (layout.value.0 == [] && i == 0))
        invariant layout.Some? && more ==> Before(layout.value.0, layout.value.1, i, valueStart + valueSize, key, restartIndex)
        invariant layout.Some? && !more ==> index == if layout.value.0 == [] then 0 else |layout.value.0| - 1
        decreases more, restarts - (valueStart + valueSize)
      {
        var ok := ParseNextKey(i);
        if layout.Some? && layout.value.0 != [] {
          EndsBefore(data, restarts, numRestarts, layout.value.0, layout.value.1, i, current, key, valueStart, valueSize, restartIndex, |layout.value.0|, restarts);
          i := i + 1;
        } else if layout.Some? {
          SitsIffBefore(data, restarts, numRestarts, layout.value.0, layout.value.1, i, current, key, valueStart, valueSize, restartIndex);
        }
        more := ok && valueStart + valueSize < restarts;
      }
    }
  }

  lemma SitsIffBefore(data: Bytes, restarts: nat, num: nat, ps: seq<Pair>, at: seq<nat>, i: nat,
                      current: nat, key: Bytes, valueStart: nat, valueSize: nat, r: nat)
    requires Laid(data, restarts, num, ps, at) && Sits(data, restarts, ps, at, i, current, key, valueStart, valueSize, r)
    ensures i <= |ps| && (current < restarts <==> i < |ps|)
    ensures i < |ps| ==> key == ps[i].key && valueStart + valueSize <= |data| && data[valueStart..valueStart + valueSize] == ps[i].value
  {
    hide Data;
    if i < |ps| {
      LaidEnds(data, restarts, num, ps, at);
      OffsetsRise(ps, at, i, |ps|);
    }
  }

  lemma SitsBeforeNext(data: Bytes, restarts: nat, num: nat, ps: seq<Pair>, at: seq<nat>, i: nat,
                       current: nat, key: Bytes, valueStart: nat, valueSize: nat, r: nat)
    requires Laid(data, restarts, num, ps, at) && Sits(data, restarts, ps, at, i, current, key, valueStart, valueSize, r)
    requires current < restarts
    ensures i < |ps| && Before(ps, at, i + 1, valueStart + valueSize, key, r)
  {
  }

  /** At a restart point any key will do for the previous one. */
  lemma BeforeRestart(data: Bytes, restarts: nat, num: nat, ps: seq<Pair>, at: seq<nat>, j: nat)
    returns (i: nat)
    requires Laid(data, restarts, num, ps, at) && j < num
    ensures
      && j < |at|
      && i == at[j]
      && Before(ps, at, i, RestartPoint(data, restarts, j), [], j)
    ensures
      && (j == 0 ==> i == 0)
      && (i < |ps| || (ps == [] && i == 0))
      && restarts == Offset(ps, at, |ps|)
  {
    i := at[j];
    assert j < num - 1 ==> at[j] < at[num - 1];
  }

  lemma FirstRestart(data: Bytes, restarts: nat, num: nat, ps: seq<Pair>, at: seq<nat>, i: nat,
                     current: nat, key: Bytes, valueStart: nat, valueSize: nat)
    requires Laid(data, restarts, num, ps, at) && Sits(data, restarts, ps, at, i, current, key, valueStart, valueSize, 0)
    requires RestartPoint(data, restarts, 0) >= current && current < restarts
    ensures i == 0
  {
    OffsetsRise(ps, at, 0, i);
  }

  lemma RestartRetreats(data: Bytes, restarts: nat, num: nat, ps: seq<Pair>, at: seq<nat>, i: nat,
                        current: nat, key: Bytes, valueStart: nat, valueSize: nat, r: nat)
    requires Laid(data, restarts, num, ps, at) && Sits(data, restarts, ps, at, i, current, key, valueStart, valueSize, r)
    requires 0 < r && current < restarts
    ensures Sits(data, restarts, ps, at, i, current, key, valueStart, valueSize, r - 1)
  {
    assert at[r - 1] < at[r];
  }

  lemma RestartBefore(data: Bytes, restarts: nat, num: nat, ps: seq<Pair>, at: seq<nat>, i: nat,
                      current: nat, key: Bytes, valueStart: nat, valueSize: nat, r: nat)
    requires Laid(data, restarts, num, ps, at) && Sits(data, restarts, ps, at, i, current, key, valueStart, valueSize, r)
    requires current < restarts && RestartPoint(data, restarts, r) < current && r < num
    ensures r < |at| && at[r] < i < |ps| && current == Offset(ps, at, i)
  {
    OffsetsRise(ps, at, at[r], i);
  }

  lemma LaidEnds(data: Bytes, restarts: nat, num: nat, ps: seq<Pair>, at: seq<nat>)
    requires Laid(data, restarts, num, ps, at)
    ensures restarts == Offset(ps, at, |ps|)
  {
  }

  /** Scanning on from entry i: stop with the entry that ends where entry `stop` starts. */
  lemma EndsBefore(data: Bytes, restarts: nat, num: nat, ps: seq<Pair>, at: seq<nat>, i: nat,
                   current: nat, key: Bytes, valueStart: nat, valueSize: nat, r: nat, stop: nat, original: nat)
    requires Laid(data, restarts, num, ps, at) && Sits(data, restarts, ps, at, i, current, key, valueStart, valueSize, r)
    requires stop <= |ps| && original == Offset(ps, at, stop) && i < stop
    ensures current < restarts
    ensures valueStart + valueSize < original <==> i + 1 < stop
    ensures Before(ps, at, i + 1, valueStart + valueSize, key, r)
  {
    hide Data;
    OffsetsRise(ps, at, i + 1, stop);
    OffsetsRise(ps, at, i, |ps|);
    LaidEnds(data, restarts, num, ps, at);
  }

  // Opening what the builder finished.

  /** The trailer of a block: restart offsets and their number. */
  ghost predicate Built(block: Bytes, ps: seq<Pair>, at: seq<nat>) {
    exists rs :: BuiltFrom(block, ps, at, rs)
  }

  ghost predicate BuiltFrom(block: Bytes, ps: seq<Pair>, at: seq<nat>, rs: seq<nat>) {
    && RestartsAre(rs, ps, at) && (at[|at| - 1] < |ps| || ps == [])
    && block == Data(ps, at, |ps|) + FixedAll(rs + [|rs|])
  }

  /** Offsets in the block fit the 32-bit fields. */
  predicate Fits(block: Bytes) {
    |block| < WORD32
  }

  /** Every byte of a key is stored with it or with a key before it, so keys and values fit if the block does. */
  lemma {:induction false} KeysFit(ps: seq<Pair>, at: seq<nat>, i: nat)
    requires i < |ps|
    ensures |ps[i].key| + |ps[i].value| <= Offset(ps, at, i + 1)
  {
    hide EntryBytes;
    EntrySize(SharedAt(ps, at, i), ps[i]);
    if i > 0 {
      KeysFit(ps, at, i - 1);
    }
  }

  lemma BuiltIsLaid(block: Bytes, ps: seq<Pair>, at: seq<nat>, rs: seq<nat>)
    requires BuiltFrom(block, ps, at, rs) && Fits(block)
    ensures |rs| >= 1 && |block| == Offset(ps, at, |ps|) + 4 * |rs| + 4
    ensures ReadFixed(block[|block| - 4..], 4) == |rs|
    ensures Laid(block, Offset(ps, at, |ps|), |rs|, ps, at)
  {
    hide ReadFixed, FixedAll, EntryBytes, SharedAt;
    var data, xs := Data(ps, at, |ps|), rs + [|rs|];
    FixedAllSize(xs);
    assert data + FixedAll(xs) + [] == block;
    ReadsFixed(data, xs, [], |rs|);
    assert |data| + 4 * |rs| == |block| - 4;
    forall j | 0 <= j < |rs|
      ensures at[j] <= |ps| && RestartPoint(block, |data|, j) == Offset(ps, at, at[j])
    {
      DataPrefix(ps, at, at[j], |ps|);
      assert xs[j] == rs[j] == Offset(ps, at, at[j]);
      ReadsFixed(data, xs, [], j);
    }
    assert block[..|data|] == data;
    forall i | 0 <= i < |ps|
      ensures |ps[i].key| + |ps[i].value| < WORD32
    {
      KeysFit(ps, at, i);
      DataPrefix(ps, at, i + 1, |ps|);
    }
  }

  lemma BuiltOpens(block: Bytes, ps: seq<Pair>, at: seq<nat>)
    requires Built(block, ps, at) && Fits(block)
    ensures |block| >= 4
    ensures var num := ReadFixed(block[|block| - 4..], 4);
      1 <= num <= (|block| - 4) / 4 && Laid(block, |block| - (1 + num) * 4, num, ps, at)
  {
    hide Laid, BuiltFrom, ReadFixed;
    var rs :| BuiltFrom(block, ps, at, rs);
    BuiltIsLaid(block, ps, at, rs);
  }

  /** Block::Block and NewIterator: no iterator for a block too short for its restart array or without one. */
  method NewIterator(less: (Bytes, Bytes) -> bool, block: Bytes, ghost ps: seq<Pair>, ghost at: seq<nat>) returns (r: Option<Iter>)
    ensures r.Some? ==> fresh(r.value) && r.value.Valid() && r.value.less == less && r.value.data == block
    ensures Built(block, ps, at) && Fits(block) ==>
      r.Some? && r.value.layout == Some((ps, at)) && r.value.index == |ps|
  {
    hide Laid, Built, ReadFixed;
    ghost var layout := None;
    if Built(block, ps, at) && Fits(block) {
      BuiltOpens(block, ps, at);
      layout := Some((ps, at));
    }
    if |block| < 4 {
      return None;
    }
    var numRestarts := ReadFixed(block[|block| - 4..], 4);
    if numRestarts > (|block| - 4) / 4 || numRestarts == 0 {
      return None;
    }
    var it := new Iter(less, block, |block| - (1 + numRestarts) * 4, numRestarts, layout);
    r := Some(it);
  }
}
