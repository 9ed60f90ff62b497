/** Tables: data blocks, their index and the lookup of one key (table/table_builder.cc, table/table.cc, table/format.cc). */
module Tables {
  import opened Keys
  import opened Entries
  import opened Coding
  import opened Crc32c
  import opened Blocks
  import opened Blooms
  import opened Filters
  import opened Separators

  datatype Handle = Handle(offset: nat, size: nat)

  function EncodeHandle(h: Handle): Bytes {
    Varint(h.offset) + Varint(h.size)
  }

  function DecodeHandle(s: Bytes): Option<Handle> {
    match GetVarint64(s)
    case None => None
    case Some((offset, rest)) =>
      match GetVarint64(rest)
      case None => None
      case Some((size, _)) => Some(Handle(offset, size))
  }

  lemma HandleRoundTrip(h: Handle)
    requires h.offset < WORD64 && h.size < WORD64
    ensures DecodeHandle(EncodeHandle(h)) == Some(h)
  {
    hide Varint, GetVarint64;
    Varint64RoundTrip(h.offset, Varint(h.size));
    Varint64RoundTrip(h.size, []);
    assert Varint(h.size) + [] == Varint(h.size);
  }

  // Blocks in a file: the contents, a type byte and a checksum of both.

  const BLOCK_TRAILER: nat := 5
  const NO_COMPRESSION: byte := 0

  function BlockTrailer(contents: Bytes): (r: Bytes)
    ensures |r| == BLOCK_TRAILER
  {
    [NO_COMPRESSION] + Fixed(Mask(Extend(Sum(contents), [NO_COMPRESSION])), 4)
  }

  function ReadBlock(file: Bytes, h: Handle): Option<Bytes> {
    var end := h.offset + h.size;
    if end + BLOCK_TRAILER > |file| then None
    else
      var sum := ReadFixed(file[end + 1..], 4);
      if sum >= WORD32 || Unmask(sum) != Sum(file[h.offset..end + 1]) then None
      else if file[end] == NO_COMPRESSION then Some(file[h.offset..end])
      else None
  }

  ghost predicate Stored(file: Bytes, h: Handle, contents: Bytes) {
    && h.size == |contents| && h.offset + h.size + BLOCK_TRAILER <= |file|
    && file[h.offset..h.offset + h.size + BLOCK_TRAILER] == contents + BlockTrailer(contents)
  }

  lemma StoredReadsBack(file: Bytes, h: Handle, contents: Bytes)
    requires Stored(file, h, contents)
    ensures ReadBlock(file, h) == Some(contents) && |contents| <= |file|
  {
    hide BlockTrailer, Stored, Fixed, ReadFixed, Sum, Extend, Mask, Unmask;
    var end, crc := h.offset + h.size, Extend(Sum(contents), [NO_COMPRESSION]);
    TrailerIs(contents);
    StoredPieces(file, h, contents);
    UnmaskMask(crc);
    SumConcat(contents, [NO_COMPRESSION]);
    FixedSize(Mask(crc), 4);
    Fixed32RoundTrip(Mask(crc), file[end + BLOCK_TRAILER..]);
    assert file[end..end + BLOCK_TRAILER][0] == file[end] == NO_COMPRESSION;
    assert file[end..end + BLOCK_TRAILER][1..] == Fixed(Mask(crc), 4);
    assert file[h.offset..end + 1] == contents + [NO_COMPRESSION];
    assert file[end + 1..] == file[end..end + BLOCK_TRAILER][1..] + file[end + BLOCK_TRAILER..];
  }

  /** One changed byte of a stored block, wherever it is, makes the block one that is not read. */
  lemma DamagedBlock(file: Bytes, h: Handle, contents: Bytes, i: nat, x: byte)
    requires Stored(file, h, contents) && h.offset <= i < h.offset + h.size + BLOCK_TRAILER && file[i] != x
    ensures ReadBlock(file[i := x], h) == None
  {
    hide BlockTrailer, Sum, Unmask, ReadFixed;
    StoredReadsBack(file, h, contents);
    var end, damaged := h.offset + h.size, file[i := x];
    var sum, sum' := ReadFixed(file[end + 1..], 4), ReadFixed(damaged[end + 1..], 4);
    StoredSum(file, h);
    ReadFixedSmall(damaged[end + 1..]);
    if i <= end {
      SameFixed(file[end + 1..], damaged[end + 1..], 4);
      ChangedByteChangesSum(file[h.offset..end + 1], i - h.offset, x);
      assert damaged[h.offset..end + 1] == file[h.offset..end + 1][i - h.offset := x];
    } else {
      ReadFixedDiffers(file[end + 1..], 4, i - end - 1, x);
      assert damaged[end + 1..] == file[end + 1..][i - end - 1 := x];
      assert damaged[h.offset..end + 1] == file[h.offset..end + 1];
      UnmaskDiffers(sum, sum');
    }
  }

  lemma StoredSum(file: Bytes, h: Handle)
    requires ReadBlock(file, h).Some?
    ensures var end := h.offset + h.size;
      && end + BLOCK_TRAILER <= |file| && ReadFixed(file[end + 1..], 4) < WORD32
      && Unmask(ReadFixed(file[end + 1..], 4)) == Sum(file[h.offset..end + 1])
  {
    hide Sum, Unmask, ReadFixed;
  }

  lemma StoredPieces(file: Bytes, h: Handle, contents: Bytes)
    requires Stored(file, h, contents)
    ensures var end := h.offset + h.size;
      && end + BLOCK_TRAILER <= |file| && h.size == |contents|
      && file[h.offset..end] == contents && file[end..end + BLOCK_TRAILER] == BlockTrailer(contents)
  {
    hide BlockTrailer;
    TrailerIs(contents);
    var n, stored := h.size, contents + BlockTrailer(contents);
    Slices(file, h.offset, h.offset + n + BLOCK_TRAILER, 0, n);
    Slices(file, h.offset, h.offset + n + BLOCK_TRAILER, n, n + BLOCK_TRAILER);
    assert stored[0..n] == contents && stored[n..n + BLOCK_TRAILER] == BlockTrailer(contents);
  }

  lemma TrailerIs(contents: Bytes)
    ensures BlockTrailer(contents) == [NO_COMPRESSION] + Fixed(Mask(Extend(Sum(contents), [NO_COMPRESSION])), 4)
    ensures |BlockTrailer(contents)| == BLOCK_TRAILER
  {
  }

  lemma SumConcat(s: Bytes, t: Bytes)
    ensures Sum(s + t) == Extend(Sum(s), t)
  {
    ExtendConcat(0, s, t);
  }

  // The pairs of a table, block by block, and the separators of its index.

  ghost predicate Sorted(ps: seq<Pair>) {
    && (forall i | 0 <= i < |ps| :: |ps[i].key| >= 8)
    && forall i, j | 0 <= i < j < |ps| :: InternalLess(ps[i].key, ps[j].key)
  }

  function FirstKey(ps: seq<Pair>): Bytes
    requires ps != []
  {
    ps[0].key
  }

  function LastKey(ps: seq<Pair>): Bytes
    requires ps != []
  {
    ps[|ps| - 1].key
  }

  ghost predicate Chained(blocks: seq<seq<Pair>>) {
    && (forall i | 0 <= i < |blocks| :: blocks[i] != [] && Sorted(blocks[i]))
    && forall i | 0 < i < |blocks| :: InternalLess(LastKey(blocks[i - 1]), FirstKey(blocks[i]))
  }

  /** Separator i lies between the last key of block i and the first key of the next block, if there is one. */
  ghost predicate SeparatorOk(blocks: seq<seq<Pair>>, i: nat, sep: Bytes)
    requires i < |blocks| && forall k | 0 <= k < |blocks| :: blocks[k] != []
  {
    if i + 1 < |blocks| then Separates(LastKey(blocks[i]), FirstKey(blocks[i + 1]), sep)
    else |sep| >= 8 && (sep == LastKey(blocks[i]) || InternalLess(LastKey(blocks[i]), sep))
  }

  ghost predicate Separated(blocks: seq<seq<Pair>>, seps: seq<Bytes>) {
    Chained(blocks) && |seps| <= |blocks| && forall i | 0 <= i < |seps| :: SeparatorOk(blocks, i, seps[i])
  }

  /** Entry p of the table is a write to the target's user key that the target's sequence number sees. */
  predicate Sees(p: Pair, target: Bytes) {
    |p.key| >= 8 && |target| >= 8 && UserOf(p.key) == UserOf(target) && !InternalLess(p.key, target)
  }

  /** The newest such entry of the whole table. */
  ghost predicate IsNewest(blocks: seq<seq<Pair>>, target: Bytes, p: Pair) {
    && Sees(p, target) && (exists i :: 0 <= i < |blocks| && p in blocks[i])
    && forall i, q | 0 <= i < |blocks| && q in blocks[i] && Sees(q, target) :: q == p || InternalLess(p.key, q.key)
  }

  ghost predicate NoneSeen(blocks: seq<seq<Pair>>, target: Bytes) {
    forall i, q | 0 <= i < |blocks| && q in blocks[i] :: !Sees(q, target)
  }

  // Where a target falls.

  /** Between the target and an entry it sees, every key has their user key. */
  lemma Between(target: Bytes, k: Bytes, p: Pair)
    requires Sees(p, target) && |k| >= 8 && !InternalLess(k, target) && (p.key == k || InternalLess(k, p.key))
    ensures UserOf(k) == UserOf(target)
  {
    hide NumOf;
    LessTotal(UserOf(k), UserOf(target));
    LessIrreflexive(UserOf(k));
  }

  lemma {:induction false} ChainRises(blocks: seq<seq<Pair>>, i: nat, j: nat, a: nat, b: nat)
    requires Chained(blocks) && i < j < |blocks| && a < |blocks[i]| && b < |blocks[j]|
    ensures InternalLess(blocks[i][a].key, blocks[j][b].key)
    decreases j - i
  {
    hide InternalLess;
    var last, first := LastKey(blocks[j - 1]), FirstKey(blocks[j]);
    if i < j - 1 {
      ChainRises(blocks, i, j - 1, a, |blocks[j - 1]| - 1);
    }
    assert InternalLess(last, first);
    if blocks[i][a].key != last {
      InternalTransitive(blocks[i][a].key, last, first);
    }
    if b > 0 {
      InternalTransitive(blocks[i][a].key, first, blocks[j][b].key);
    }
  }

  /** A block whose separator is below the target holds nothing the target sees. */
  lemma BelowSeparator(blocks: seq<seq<Pair>>, seps: seq<Bytes>, target: Bytes, i: nat, q: Pair)
    requires Separated(blocks, seps) && |seps| == |blocks| && i < |blocks| && q in blocks[i]
    requires InternalLess(seps[i], target)
    ensures !Sees(q, target)
  {
    var last := LastKey(blocks[i]);
    assert SeparatorOk(blocks, i, seps[i]);
    if i + 1 < |blocks| {
      SeparatorBetween(last, FirstKey(blocks[i + 1]), seps[i]);
    }
    hide InternalLess;
    if last != seps[i] {
      InternalTransitive(last, seps[i], target);
    }
    if q.key != last {
      InternalTransitive(q.key, last, target);
    }
  }

  /** A block past the chosen one holds something the target sees only if the chosen block does. */
  lemma PastSeparator(blocks: seq<seq<Pair>>, seps: seq<Bytes>, target: Bytes, j: nat, i: nat, q: Pair)
    requires Separated(blocks, seps) && |seps| == |blocks| && j < i < |blocks| && q in blocks[i] && |target| >= 8
    requires !InternalLess(seps[j], target) && Sees(q, target)
    ensures Sees(blocks[j][|blocks[j]| - 1], target)
  {
    var last := LastKey(blocks[j]);
    var b :| 0 <= b < |blocks[i]| && blocks[i][b] == q;
    if InternalLess(last, target) {
      assert SeparatorOk(blocks, j, seps[j]);
      if i == j + 1 && b == 0 {
      } else if i == j + 1 {
        assert InternalLess(blocks[i][0].key, q.key);
      } else {
        ChainRises(blocks, j + 1, i, 0, b);
      }
      NothingBeyond(last, FirstKey(blocks[j + 1]), seps[j], target, q.key);
    } else {
      ChainRises(blocks, j, i, |blocks[j]| - 1, b);
      Between(target, last, q);
    }
  }

  /** The index chooses block j, and the first entry of it at or after the target is entry i: that answers for the table. */
  lemma ChosenAnswers(blocks: seq<seq<Pair>>, seps: seq<Bytes>, target: Bytes, j: nat, i: nat)
    requires Separated(blocks, seps) && |seps| == |blocks| && j < |blocks| && |target| >= 8
    requires !InternalLess(seps[j], target) && forall k | 0 <= k < j :: InternalLess(seps[k], target)
    requires IsLowerBound(InternalLess, blocks[j], target, i)
    ensures if i < |blocks[j]| && UserOf(blocks[j][i].key) == UserOf(target) then IsNewest(blocks, target, blocks[j][i])
            else NoneSeen(blocks, target)
  {
    forall k, q | 0 <= k < |blocks| && q in blocks[k] && Sees(q, target)
      ensures i < |blocks[j]| && UserOf(blocks[j][i].key) == UserOf(target)
      ensures q == blocks[j][i] || InternalLess(blocks[j][i].key, q.key)
    {
      ChosenIsFirst(blocks, seps, target, j, i, k, q);
    }
  }

  lemma ChosenIsFirst(blocks: seq<seq<Pair>>, seps: seq<Bytes>, target: Bytes, j: nat, i: nat, k: nat, q: Pair)
    requires Separated(blocks, seps) && |seps| == |blocks| && j < |blocks| && |target| >= 8
    requires !InternalLess(seps[j], target) && forall l | 0 <= l < j :: InternalLess(seps[l], target)
    requires IsLowerBound(InternalLess, blocks[j], target, i) && k < |blocks| && q in blocks[k] && Sees(q, target)
    ensures i < |blocks[j]| && UserOf(blocks[j][i].key) == UserOf(target)
    ensures q == blocks[j][i] || InternalLess(blocks[j][i].key, q.key)
  {
    if k < j {
      BelowSeparator(blocks, seps, target, k, q);
    } else {
      if k > j {
        PastSeparator(blocks, seps, target, j, k, q);
      }
      var b :| 0 <= b < |blocks[k]| && blocks[k][b] == q;
      hide InternalLess;
      assert i < |blocks[j]|;
      if k > j {
        ChainRises(blocks, j, k, i, b);
      }
      Between(target, blocks[j][i].key, q);
    }
  }

  // The lookup.

  function IndexPairs(seps: seq<Bytes>, handles: seq<Handle>): (r: seq<Pair>)
    requires |seps| <= |handles|
    ensures
      && |r| == |seps|
      && forall i | 0 <= i < |seps| :: r[i] == Pair(seps[i], EncodeHandle(handles[i]))
  {
    seq(|seps|, i requires 0 <= i < |seps| => Pair(seps[i], EncodeHandle(handles[i])))
  }

  ghost predicate BlockAt(file: Bytes, h: Handle, ps: seq<Pair>, at: seq<nat>) {
    exists contents :: Stored(file, h, contents) && Built(contents, ps, at)
  }

  /** What a table is made of: data blocks with their restart points, where they lie, and the index over them. */
  datatype Parts = Parts(blocks: seq<seq<Pair>>, ats: seq<seq<nat>>, handles: seq<Handle>, seps: seq<Bytes>, indexAt: seq<nat>)

  ghost predicate TableIs(file: Bytes, index: Bytes, filter: Option<Bytes>, policy: BloomFilterPolicy, t: Parts) {
    && |t.blocks| == |t.ats| == |t.handles| == |t.seps| && Separated(t.blocks, t.seps)
    && (forall i | 0 <= i < |t.handles| :: t.handles[i].offset < WORD64 && t.handles[i].size < WORD64)
    && (forall i | 0 <= i < |t.blocks| :: BlockAt(file, t.handles[i], t.blocks[i], t.ats[i]))
    && Built(index, IndexPairs(t.seps, t.handles), t.indexAt)
    && Fits(index)
    && |file| < WORD32
    && (filter.Some? ==> forall i, p | 0 <= i < |t.blocks| && p in t.blocks[i] && |p.key| >= 8 ::
          KeyMayMatchIn(policy, filter.value, t.handles[i].offset, UserOf(p.key)))
  }

  lemma {:induction false} SepsRise(blocks: seq<seq<Pair>>, seps: seq<Bytes>, i: nat, j: nat)
    requires Separated(blocks, seps) && i < j < |seps|
    ensures InternalLess(seps[i], seps[j])
    decreases j - i
  {
    var last, first := LastKey(blocks[j - 1]), FirstKey(blocks[j]);
    assert SeparatorOk(blocks, j - 1, seps[j - 1]) && SeparatorOk(blocks, j, seps[j]);
    SeparatorBetween(last, first, seps[j - 1]);
    if j + 1 < |blocks| {
      SeparatorBetween(LastKey(blocks[j]), FirstKey(blocks[j + 1]), seps[j]);
    }
    hide InternalLess;
    if |blocks[j]| > 1 {
      InternalTransitive(seps[j - 1], first, LastKey(blocks[j]));
    }
    if seps[j] != LastKey(blocks[j]) {
      InternalTransitive(seps[j - 1], LastKey(blocks[j]), seps[j]);
    }
    if i < j - 1 {
      SepsRise(blocks, seps, i, j - 1);
      InternalTransitive(seps[i], seps[j - 1], seps[j]);
    }
  }

  lemma SortedInOrder(ps: seq<Pair>)
    requires forall i, j | 0 <= i < j < |ps| :: InternalLess(ps[i].key, ps[j].key)
    ensures InOrder(InternalLess, ps)
  {
    hide InternalLess;
    forall a, b, c | InternalLess(a, b) && InternalLess(b, c)
      ensures InternalLess(a, c)
    {
      InternalTransitive(a, b, c);
    }
  }

  lemma IndexInOrder(t: Parts)
    requires |t.seps| <= |t.handles| && Separated(t.blocks, t.seps)
    ensures InOrder(InternalLess, IndexPairs(t.seps, t.handles))
  {
    var ps := IndexPairs(t.seps, t.handles);
    forall i, j | 0 <= i < j < |ps|
      ensures InternalLess(ps[i].key, ps[j].key)
    {
      SepsRise(t.blocks, t.seps, i, j);
    }
    SortedInOrder(ps);
  }

  lemma BlockReads(file: Bytes, h: Handle, ps: seq<Pair>, at: seq<nat>) returns (contents: Bytes)
    requires BlockAt(file, h, ps, at) && |file| < WORD32
    ensures
      && ReadBlock(file, h) == Some(contents)
      && Built(contents, ps, at)
      && Fits(contents)
  {
    contents :| Stored(file, h, contents) && Built(contents, ps, at);
    StoredReadsBack(file, h, contents);
  }

  /** Open a block and seek in it. */
  method SeekBlock(contents: Bytes, k: Bytes, ghost ps: seq<Pair>, ghost at: seq<nat>) returns (r: Option<Pair>, ghost i: nat)
    ensures Built(contents, ps, at) && Fits(contents) && InOrder(InternalLess, ps) ==>
      IsLowerBound(InternalLess, ps, k, i) && r == if i < |ps| then Some(ps[i]) else None
  {
    hide Built, Fits, InOrder, InternalLess, IsLowerBound, Laid, Sits;
    r, i := None, 0;
    var it := NewIterator(InternalLess, contents, ps, at);
    if it.Some? {
      it.value.Seek(k);
      i := it.value.index;
      if it.value.layout == Some((ps, at)) {
        it.value.IsAt();
      }
      if it.value.current < it.value.restarts {
        it.value.Bounds();
        r := Some(Pair(it.value.key, contents[it.value.valueStart..it.value.valueStart + it.value.valueSize]));
      }
    }
  }

  /** What the index entry says about the table. */
  lemma IndexChooses(file: Bytes, index: Bytes, filter: Option<Bytes>, policy: BloomFilterPolicy, t: Parts, k: Bytes, j: nat)
    requires TableIs(file, index, filter, policy, t) && |k| >= 8
    requires IsLowerBound(InternalLess, IndexPairs(t.seps, t.handles), k, j)
    ensures j >= |t.blocks| ==> NoneSeen(t.blocks, k)
    ensures j < |t.blocks| ==>
      && DecodeHandle(IndexPairs(t.seps, t.handles)[j].value) == Some(t.handles[j])
      && (exists contents :: ReadBlock(file, t.handles[j]) == Some(contents) && Built(contents, t.blocks[j], t.ats[j]) && Fits(contents))
      && InOrder(InternalLess, t.blocks[j])
  {
    hide InternalLess, Stored, Built, Fits;
    var ips := IndexPairs(t.seps, t.handles);
    if j < |t.blocks| {
      HandleRoundTrip(t.handles[j]);
      var _ := BlockReads(file, t.handles[j], t.blocks[j], t.ats[j]);
      SortedInOrder(t.blocks[j]);
    } else {
      forall i, q | 0 <= i < |t.blocks| && q in t.blocks[i]
        ensures !Sees(q, k)
      {
        assert InternalLess(ips[i].key, k);
        BelowSeparator(t.blocks, t.seps, k, i, q);
      }
    }
  }

  /** Whatever stands at or after the target in the chosen block answers for the whole table. */
  lemma BlockAnswers(t: Parts, k: Bytes, j: nat, i: nat)
    requires |t.seps| == |t.blocks| <= |t.handles| && Separated(t.blocks, t.seps) && |k| >= 8 && j < |t.blocks|
    requires IsLowerBound(InternalLess, IndexPairs(t.seps, t.handles), k, j) && IsLowerBound(InternalLess, t.blocks[j], k, i)
    ensures i < |t.blocks[j]| ==> |t.blocks[j][i].key| >= 8
    ensures if i < |t.blocks[j]| && UserOf(t.blocks[j][i].key) == UserOf(k) then IsNewest(t.blocks, k, t.blocks[j][i])
            else NoneSeen(t.blocks, k)
  {
    hide InternalLess;
    var ips := IndexPairs(t.seps, t.handles);
    assert forall l | 0 <= l < j :: InternalLess(ips[l].key, k);
    assert !InternalLess(ips[j].key, k);
    ChosenAnswers(t.blocks, t.seps, k, j, i);
  }

  lemma FilterAnswers(file: Bytes, index: Bytes, filter: Option<Bytes>, policy: BloomFilterPolicy, t: Parts, k: Bytes, j: nat)
    requires TableIs(file, index, filter, policy, t) && |k| >= 8 && j < |t.blocks|
    requires IsLowerBound(InternalLess, IndexPairs(t.seps, t.handles), k, j)
    requires filter.Some? && !KeyMayMatchIn(policy, filter.value, t.handles[j].offset, UserOf(k))
    ensures NoneSeen(t.blocks, k)
  {
    hide InternalLess, KeyMayMatchIn;
    var i := LowerBoundExists(t.blocks[j], k);
    BlockAnswers(t, k, j, i);
    if i < |t.blocks[j]| {
      assert t.blocks[j][i] in t.blocks[j];
    }
  }

  lemma {:induction false} LowerBoundExists(ps: seq<Pair>, k: Bytes) returns (i: nat)
    requires Sorted(ps)
    ensures IsLowerBound(InternalLess, ps, k, i)
  {
    hide InternalLess;
    if ps == [] {
      i := 0;
    } else {
      var n := |ps| - 1;
      i := LowerBoundExists(ps[..n], k);
      if i == n && InternalLess(ps[n].key, k) {
        i := n + 1;
      } else if i < n && InternalLess(ps[n].key, k) {
        InternalTransitive(ps[i].key, ps[n].key, k);
      }
    }
  }

  /** One index entry, one filter probe, one block: the entry handed to the caller, if any. */
  method InternalGet(file: Bytes, index: Bytes, filter: Option<Bytes>, policy: BloomFilterPolicy, k: Bytes, ghost t: Parts)
    returns (r: Option<Pair>)
    requires |k| >= 8
    ensures TableIs(file, index, filter, policy, t) ==>
      if r.Some? && |r.value.key| >= 8 && UserOf(r.value.key) == UserOf(k) then IsNewest(t.blocks, k, r.value)
      else NoneSeen(t.blocks, k)
  {
    hide Separated, Built, Fits, BlockAt, InOrder, InternalLess, IsLowerBound, IsNewest, NoneSeen, DecodeHandle,
      ReadBlock, KeyMayMatchIn, UserOf;
    ghost var good := TableIs(file, index, filter, policy, t);
    ghost var ips := if good then IndexPairs(t.seps, t.handles) else [];
    if good {
      IndexInOrder(t);
    }
    var entry, j := SeekBlock(index, k, ips, t.indexAt);
    if good {
      IndexChooses(file, index, filter, policy, t, k, j);
    }
    r := None;
    if entry.None? {
      return;
    }
    var h := DecodeHandle(entry.value.value);
    if filter.Some? && h.Some? && !KeyMayMatchIn(policy, filter.value, h.value.offset, UserOf(k)) {
      if good {
        FilterAnswers(file, index, filter, policy, t, k, j);
      }
      return;
    }
    if h.None? {
      return;
    }
    var contents := ReadBlock(file, h.value);
    if contents.None? {
      return;
    }
    ghost var ps, at := if good then t.blocks[j] else [], if good then t.ats[j] else [];
    ghost var i;
    r, i := SeekBlock(contents.value, k, ps, at);
    if good {
      BlockAnswers(t, k, j, i);
    }
  }

  // Building a table.

  lemma FlattenMore(blocks: seq<seq<Pair>>, ps: seq<Pair>)
    ensures Flatten(blocks + [ps]) == Flatten(blocks) + ps
  {
    assert (blocks + [ps])[..|blocks|] == blocks;
  }

  /** The finished blocks and the one being filled. */
  function All(blocks: seq<seq<Pair>>, cur: seq<Pair>): seq<seq<Pair>> {
    if cur == [] then blocks else blocks + [cur]
  }

  /** The index lags one block behind: a block's separator waits for the first key of the next one. */
  ghost predicate Building(file: Bytes, t: Parts, cur: seq<Pair>, pending: bool) {
    && |t.blocks| == |t.ats| == |t.handles| == |t.seps| + (if pending then 1 else 0)
    && (if pending then cur == [] else cur == [] ==> t.blocks == [])
    && Separated(All(t.blocks, cur), t.seps)
    && forall i | 0 <= i < |t.blocks| :: BlockAt(file, t.handles[i], t.blocks[i], t.ats[i])
  }

  ghost predicate EndsWith(blocks: seq<seq<Pair>>, lastKey: Bytes) {
    blocks != [] ==> blocks[|blocks| - 1] != [] && lastKey == LastKey(blocks[|blocks| - 1])
  }

  lemma Grows(file: Bytes, more: Bytes, h: Handle, ps: seq<Pair>, at: seq<nat>)
    requires BlockAt(file, h, ps, at)
    ensures BlockAt(file + more, h, ps, at)
  {
    hide Built;
    var contents :| Stored(file, h, contents) && Built(contents, ps, at);
    assert (file + more)[h.offset..h.offset + h.size + BLOCK_TRAILER] == file[h.offset..h.offset + h.size + BLOCK_TRAILER];
    assert Stored(file + more, h, contents);
  }

  lemma Chained1(blocks: seq<seq<Pair>>, p: Pair)
    requires Chained(blocks) && |p.key| >= 8 && (blocks != [] ==> InternalLess(LastKey(blocks[|blocks| - 1]), p.key))
    ensures Chained(blocks + [[p]])
  {
    hide InternalLess;
  }

  lemma SortedMore(ps: seq<Pair>, p: Pair)
    requires Sorted(ps) && |p.key| >= 8 && (ps != [] ==> InternalLess(LastKey(ps), p.key))
    ensures Sorted(ps + [p])
  {
    hide InternalLess;
    forall i | 0 <= i < |ps|
      ensures InternalLess(ps[i].key, p.key)
    {
      if i < |ps| - 1 {
        InternalTransitive(ps[i].key, LastKey(ps), p.key);
      }
    }
  }

  /** The first key of a new block settles the separator of the block before it. */
  lemma FirstOfBlock(file: Bytes, t: Parts, pending: bool, lastKey: Bytes, p: Pair, sep: Bytes)
    requires Building(file, t, [], pending) && EndsWith(t.blocks, lastKey)
    requires |p.key| >= 8 && (t.blocks != [] ==> InternalLess(lastKey, p.key))
    requires pending ==> Separates(lastKey, p.key, sep)
    ensures Building(file, if pending then t.(seps := t.seps + [sep]) else t, [p], false)
  {
    hide InternalLess, BlockAt;
    var seps := if pending then t.seps + [sep] else t.seps;
    var all := t.blocks + [[p]];
    Chained1(t.blocks, p);
    forall i | 0 <= i < |seps|
      ensures SeparatorOk(all, i, seps[i])
    {
      if i < |t.seps| {
        assert SeparatorOk(t.blocks, i, t.seps[i]);
      }
    }
  }

  lemma NextOfBlock(file: Bytes, t: Parts, cur: seq<Pair>, lastKey: Bytes, p: Pair)
    requires Building(file, t, cur, false) && cur != [] && EndsWith(All(t.blocks, cur), lastKey)
    requires |p.key| >= 8 && InternalLess(lastKey, p.key)
    ensures Building(file, t, cur + [p], false)
  {
    hide InternalLess, BlockAt;
    var all, all' := t.blocks + [cur], t.blocks + [cur + [p]];
    assert Sorted(all[|t.blocks|]);
    SortedMore(cur, p);
    forall i | 0 <= i < |all'|
      ensures
        && all'[i] != []
        && Sorted(all'[i])
        && (i > 0 ==> all'[i - 1] != [] && InternalLess(LastKey(all'[i - 1]), FirstKey(all'[i])))
    {
      assert i > 0 ==> all[i - 1] != [] && all'[i - 1] == all[i - 1];
      assert all[i] != [] && Sorted(all[i]) && (i > 0 ==> InternalLess(LastKey(all[i - 1]), FirstKey(all[i])));
    }
    forall i | 0 <= i < |t.seps|
      ensures SeparatorOk(all', i, t.seps[i])
    {
      assert SeparatorOk(all, i, t.seps[i]);
    }
  }

  /** Writing the block out. */
  lemma BlockFlushed(file: Bytes, t: Parts, cur: seq<Pair>, contents: Bytes, at: seq<nat>)
    requires Building(file, t, cur, false) && cur != [] && Built(contents, cur, at)
    ensures var h := Handle(|file|, |contents|);
      Building(file + contents + BlockTrailer(contents),
               t.(blocks := t.blocks + [cur], ats := t.ats + [at], handles := t.handles + [h]), [], true)
  {
    hide InternalLess, Separated, Built;
    var h, more := Handle(|file|, |contents|), contents + BlockTrailer(contents);
    var file' := file + contents + BlockTrailer(contents);
    assert file' == file + more;
    Appended(file, contents);
    assert BlockAt(file', h, cur, at);
    var t' := t.(blocks := t.blocks + [cur], ats := t.ats + [at], handles := t.handles + [h]);
    forall i | 0 <= i < |t'.blocks|
      ensures BlockAt(file', t'.handles[i], t'.blocks[i], t'.ats[i])
    {
      if i < |t.blocks| {
        Grows(file, more, t.handles[i], t.blocks[i], t.ats[i]);
      }
    }
  }

  lemma Appended(file: Bytes, contents: Bytes)
    ensures Stored(file + contents + BlockTrailer(contents), Handle(|file|, |contents|), contents)
  {
    var file' := file + contents + BlockTrailer(contents);
    assert file' == file + (contents + BlockTrailer(contents));
  }

  /** Every key stored so far, with the filter of its block; keys of the block being filled lie at the end of the file. */
  ghost predicate Covered(added: set<(nat, Bytes)>, t: Parts, cur: seq<Pair>, offset: nat) {
    && |t.blocks| <= |t.handles|
    && (forall i, p | 0 <= i < |t.blocks| && p in t.blocks[i] && |p.key| >= 8 :: (t.handles[i].offset / BASE, UserOf(p.key)) in added)
    && forall p | p in cur && |p.key| >= 8 :: (offset / BASE, UserOf(p.key)) in added
  }

  lemma CoversMore(added: set<(nat, Bytes)>, t: Parts, seps: seq<Bytes>, cur: seq<Pair>, offset: nat, p: Pair)
    requires Covered(added, t, cur, offset) && |p.key| >= 8
    ensures Covered(added + {(offset / BASE, UserOf(p.key))}, t.(seps := seps), cur + [p], offset)
  {
  }

  lemma CoversBlock(added: set<(nat, Bytes)>, t: Parts, cur: seq<Pair>, h: Handle, at: seq<nat>, offset': nat)
    requires Covered(added, t, cur, h.offset) && |t.blocks| == |t.handles|
    ensures Covered(added, t.(blocks := t.blocks + [cur], ats := t.ats + [at], handles := t.handles + [h]), [], offset')
  {
  }

  lemma DataNotEmpty(ps: seq<Pair>, at: seq<nat>)
    ensures Data(ps, at, |ps|) == [] <==> ps == []
  {
    if ps != [] {
      DataPrefix(ps, at, 0, |ps|);
    }
  }

  /** Where the last key and the entry count stand. */
  ghost predicate Counted(all: seq<seq<Pair>>, numEntries: nat, lastKey: Bytes) {
    (numEntries == 0 <==> all == []) && EndsWith(all, lastKey)
  }

  lemma CountsMore(blocks: seq<seq<Pair>>, cur: seq<Pair>, numEntries: nat, p: Pair)
    ensures Counted(All(blocks, cur + [p]), numEntries + 1, p.key)
  {
  }

  lemma EmptyTable()
    ensures var t := Parts([], [], [], [], []);
      Building([], t, [], false) && Indexed(t, [], false, Handle(0, 0)) && Counted(All([], []), 0, []) && Flatten<Pair>([]) == []
    ensures Covered({}, Parts([], [], [], [], []), [], 0)
  {
  }

  class TableBuilder {
    const blockSize: nat
    const dataBlock: BlockBuilder
    const indexBlock: BlockBuilder
    const filterBlock: FilterBlockBuilder?
    var file: Bytes
    var offset: nat
    var lastKey: Bytes
    var numEntries: nat
    var closed: bool
    var pendingIndexEntry: bool
    var pendingHandle: Handle
    ghost var parts: Parts

    ghost predicate Valid()
      reads this, dataBlock, indexBlock, filterBlock
    {
      && dataBlock != indexBlock
      && dataBlock.Valid()
      && !dataBlock.finished
      && indexBlock.Valid()
      && !indexBlock.finished
      && Building(file, parts, dataBlock.pairs, pendingIndexEntry) && offset == |file|
      && Indexed(parts, indexBlock.pairs, pendingIndexEntry, pendingHandle)
      && Counted(All(parts.blocks, dataBlock.pairs), numEntries, lastKey)
      && (filterBlock != null ==> FilterReady())
    }

    ghost predicate FilterReady()
      requires filterBlock != null
      reads this, dataBlock, filterBlock
    {
      filterBlock.Valid() && |filterBlock.filters| == offset / BASE && Covered(filterBlock.added, parts, dataBlock.pairs, offset)
    }

    /** Every pair added so far. */
    ghost function Pairs(): seq<Pair>
      reads this, dataBlock
    {
      Flatten(parts.blocks) + dataBlock.pairs
    }

    constructor (blockSize: nat, interval: nat, policy: BloomFilterPolicy?)
      requires interval >= 1 && (policy != null ==> policy.Valid())
      ensures Valid() && Pairs() == [] && !closed && numEntries == 0
      ensures
        && fresh(dataBlock)
        && fresh(indexBlock)
        && (filterBlock != null ==> fresh(filterBlock))
      ensures
        && (policy == null <==> filterBlock == null)
        && (policy != null ==> filterBlock.policy == policy)
    {
      hide Building, Indexed, Counted, Covered, RestartsAre, Counts, Data, Flat, Filtered, Kept;
      EmptyTable();
      this.blockSize := blockSize;
      var data := new BlockBuilder(interval);
      var index := new BlockBuilder(1);
      dataBlock, indexBlock := data, index;
      var f: FilterBlockBuilder? := null;
      if policy != null {
        f := new FilterBlockBuilder(policy);
        f.StartBlock(0);
      }
      filterBlock := f;
      file, offset, lastKey, numEntries, closed, pendingIndexEntry, pendingHandle := [], 0, [], 0, false, false, Handle(0, 0);
      parts := Parts([], [], [], [], []);
    }

    method Add(key: Bytes, value: Bytes)
      requires Valid() && !closed && |key| >= 8
      requires numEntries > 0 ==> InternalLess(lastKey, key)
      modifies this, dataBlock, indexBlock, filterBlock
      ensures
        && Valid()
        && !closed
        && Pairs() == old(Pairs()) + [Pair(key, value)]
        && lastKey == key
    {
      hide Building, Indexed, Counted, Covered, Flatten, RestartsAre, Counts, Data, Flat, Filtered, Kept, Built,
        InternalLess, All;
      AddToBlock(key, value);
      if dataBlock.CurrentSizeEstimate() >= blockSize {
        Flush();
      }
    }

    method AddToBlock(key: Bytes, value: Bytes)
      requires Valid() && !closed && |key| >= 8
      requires numEntries > 0 ==> InternalLess(lastKey, key)
      modifies this, dataBlock, indexBlock, filterBlock
      ensures
        && Valid()
        && !closed
        && Pairs() == old(Pairs()) + [Pair(key, value)]
        && lastKey == key
    {
      hide InternalLess, Building, Indexed, Counted, Covered, Flatten, RestartsAre, Counts, Data, Flat, Filtered, Kept;
      ghost var p, cur, was := Pair(key, value), dataBlock.pairs, parts;
      ghost var last, pending := lastKey, pendingIndexEntry;
      StateFacts(was, cur, pendingIndexEntry, numEntries, lastKey, file);
      ghost var sep := EmitIndexEntry(key);
      NextPair(file, was, cur, pending, last, numEntries, p, sep);
      if filterBlock != null {
        CoversMore(filterBlock.added, was, parts.seps, cur, offset, p);
        filterBlock.AddKey(UserOf(key));
      }
      CountsMore(parts.blocks, cur, numEntries, p);
      lastKey := key;
      numEntries := numEntries + 1;
      dataBlock.Add(key, value);
      assert Flatten(was.blocks) + (cur + [p]) == Flatten(was.blocks) + cur + [p];
    }

    /** The pending block ends before this key: any key between will do for the index. */
    method EmitIndexEntry(key: Bytes) returns (ghost sep: Bytes)
      requires |key| >= 8 && indexBlock.Valid() && !indexBlock.finished
      requires Indexed(parts, indexBlock.pairs, pendingIndexEntry, pendingHandle) && (pendingIndexEntry ==> |lastKey| >= 8)
      modifies this`lastKey, this`pendingIndexEntry, this`parts, indexBlock
      ensures indexBlock.Valid() && !indexBlock.finished && !pendingIndexEntry
      ensures Indexed(parts, indexBlock.pairs, false, pendingHandle)
      ensures old(pendingIndexEntry) ==> Separates(old(lastKey), key, sep)
      ensures parts == if old(pendingIndexEntry) then old(parts).(seps := old(parts).seps + [sep]) else old(parts)
    {
      hide InternalLess, Indexed, RestartsAre, Counts, Data;
      sep := [];
      if pendingIndexEntry {
        lastKey := FindShortestInternalSeparator(lastKey, key);
        sep := lastKey;
        IndexMore(parts, indexBlock.pairs, pendingHandle, sep);
        indexBlock.Add(lastKey, EncodeHandle(pendingHandle));
        pendingIndexEntry := false;
        parts := parts.(seps := parts.seps + [sep]);
      }
    }

    method WriteRawBlock(contents: Bytes) returns (h: Handle)
      requires offset == |file|
      modifies this`file, this`offset
      ensures h == Handle(|old(file)|, |contents|) && offset == |file|
      ensures file == old(file) + contents + BlockTrailer(contents)
    {
      hide Sum, Extend, Mask, Fixed;
      h := Handle(offset, |contents|);
      file := file + contents;
      var crc := Extend(Sum(contents), [NO_COMPRESSION]);
      TrailerIs(contents);
      file := file + ([NO_COMPRESSION] + Fixed(Mask(crc), 4));
      offset := offset + |contents| + BLOCK_TRAILER;
    }

    /** Finish a block, write it uncompressed and make its builder ready for the next one. */
    method WriteBlock(block: BlockBuilder) returns (h: Handle, ghost contents: Bytes)
      requires offset == |file| && block.Valid() && !block.finished
      modifies this`file, this`offset, block
      ensures block.Valid() && !block.finished && block.pairs == []
      ensures Built(contents, old(block.pairs), old(block.at))
      ensures h == Handle(|old(file)|, |contents|) && offset == |file|
      ensures file == old(file) + contents + BlockTrailer(contents)
    {
      hide Built, RestartsAre, Counts, Data;
      var raw := block.Finish();
      contents := raw;
      h := WriteRawBlock(raw);
      block.Reset();
    }

    method Flush()
      requires Valid() && !closed
      modifies this`file, this`offset, this`pendingIndexEntry, this`pendingHandle, this`parts, dataBlock, filterBlock
      ensures Valid() && dataBlock.pairs == [] && Pairs() == old(Pairs())
    {
      hide InternalLess, Building, Indexed, Counted, Covered, Flatten, RestartsAre, Counts, Data, Flat, Filtered,
        Kept, Built;
      BlockEmpty();
      if |dataBlock.buffer| == 0 {
        return;
      }
      ghost var was, cur, at, before := parts, dataBlock.pairs, dataBlock.at, file;
      ghost var pending, h, contents := pendingIndexEntry, pendingHandle, [];
      pendingHandle, contents := WriteBlock(dataBlock);
      parts := Flushed(before, was, cur, indexBlock.pairs, pending, h, numEntries, lastKey, contents, at);
      pendingIndexEntry := true;
      if filterBlock != null {
        CoversBlock(filterBlock.added, was, cur, pendingHandle, at, offset);
        filterBlock.StartBlock(offset);
      }
    }

    /** Write the filter, the last separator and the index. `t` tells what the table is made of. */
    method Finish(ghost policy: BloomFilterPolicy)
      returns (indexHandle: Handle, filterHandle: Option<Handle>, ghost index: Bytes, ghost filter: Option<Bytes>, ghost t: Parts)
      requires Valid() && !closed && (filterBlock != null ==> filterBlock.policy == policy)
      modifies this, dataBlock, indexBlock, filterBlock
      ensures Flatten(t.blocks) == old(Pairs()) && closed
      ensures |file| < WORD32 ==> TableIs(file, index, filter, policy, t) && ReadBlock(file, indexHandle) == Some(index)
      ensures if filterBlock == null then filterHandle == None && filter == None
              else filterHandle.Some? && ReadBlock(file, filterHandle.value) == filter && filter.Some?
    {
      hide InternalLess, Building, Indexed, Counted, Covered, Flatten, RestartsAre, Counts, Data, Flat, Filtered,
        Kept, Built,
           AllMatch, TableIs, ReadBlock, Stored, Separated;
      Flush();
      closed := true;
      ghost var data, was, pending, end := file, parts, pendingIndexEntry, offset;
      ghost var added := if filterBlock != null then filterBlock.added else {};
      assert Flatten(was.blocks) + [] == Flatten(was.blocks);
      StateFacts(was, [], pending, numEntries, lastKey, data);
      filterHandle, filter := FinishFilter(policy);
      ghost var middle, last, sep := file, lastKey, [];
      indexHandle, index, sep := FinishIndex();
      LastSeparator(data, was, pending, numEntries, last, sep);
      t := parts;
      StoredReadsBack(file, indexHandle, index);
      if filterBlock != null {
        StoredGrows(middle, file, filterHandle.value, filter.value);
        StoredReadsBack(file, filterHandle.value, filter.value);
      }
      if |file| < WORD32 {
        TableFinished(data, middle, file, was, pending, t, policy, added, end, filter, index);
      }
    }

    method FinishFilter(ghost policy: BloomFilterPolicy) returns (filterHandle: Option<Handle>, ghost filter: Option<Bytes>)
      requires offset == |file| && (filterBlock != null ==> filterBlock.Valid() && filterBlock.policy == policy)
      modifies this`file, this`offset, filterBlock
      ensures offset == |file| && old(file) <= file
      ensures if filterBlock == null then filterHandle == None && filter == None
              else filterHandle.Some? && filter.Some? && Stored(file, filterHandle.value, filter.value)
      ensures filterBlock != null && |filter.value| < WORD32 ==> AllMatch(policy, filter.value, old(filterBlock.added))
    {
      hide Flat, Filtered, Kept, AllMatch, Stored;
      filterHandle, filter := None, None;
      if filterBlock != null {
        var contents := filterBlock.Finish();
        Appended(file, contents);
        var h := WriteRawBlock(contents);
        filterHandle, filter := Some(h), Some(contents);
      }
    }

    method FinishIndex() returns (h: Handle, ghost index: Bytes, ghost sep: Bytes)
      requires offset == |file| && indexBlock.Valid() && !indexBlock.finished
      requires Indexed(parts, indexBlock.pairs, pendingIndexEntry, pendingHandle) && (pendingIndexEntry ==> |lastKey| >= 8)
      modifies this`file, this`offset, this`lastKey, this`pendingIndexEntry, this`parts, indexBlock
      ensures old(file) <= file && Stored(file, h, index)
      ensures old(pendingIndexEntry) ==> |sep| >= 8 && (sep == old(lastKey) || BytesLess(UserOf(old(lastKey)), UserOf(sep)))
      ensures parts == old(parts).(seps := if old(pendingIndexEntry) then old(parts).seps + [sep] else old(parts).seps, indexAt := parts.indexAt)
      ensures
        && |parts.seps| <= |parts.handles|
        && Built(index, IndexPairs(parts.seps, parts.handles), parts.indexAt)
    {
      hide Indexed, RestartsAre, Counts, Data, Built, Stored;
      sep := [];
      if pendingIndexEntry {
        lastKey := FindShortInternalSuccessor(lastKey);
        sep := lastKey;
        IndexMore(parts, indexBlock.pairs, pendingHandle, sep);
        indexBlock.Add(lastKey, EncodeHandle(pendingHandle));
        pendingIndexEntry := false;
        parts := parts.(seps := parts.seps + [sep]);
      }
      IndexIs(parts, indexBlock.pairs, pendingHandle);
      parts := parts.(indexAt := indexBlock.at);
      ghost var before := file;
      h, index := WriteBlock(indexBlock);
      Appended(before, index);
    }

    lemma BlockEmpty()
      requires dataBlock.Valid() && !dataBlock.finished
      ensures dataBlock.buffer == [] <==> dataBlock.pairs == []
    {
      DataNotEmpty(dataBlock.pairs, dataBlock.at);
    }
  }

  /** The index holds a separator and a handle for every block but a pending one. */
  ghost predicate Indexed(t: Parts, index: seq<Pair>, pending: bool, pendingHandle: Handle) {
    && |t.handles| == |t.seps| + (if pending then 1 else 0)
    && index == IndexPairs(t.seps, t.handles)
    && (pending ==> pendingHandle == t.handles[|t.handles| - 1])
  }

  lemma IndexMore(t: Parts, index: seq<Pair>, h: Handle, sep: Bytes)
    requires Indexed(t, index, true, h)
    ensures Indexed(t.(seps := t.seps + [sep]), index + [Pair(sep, EncodeHandle(h))], false, h)
  {
    assert index + [Pair(sep, EncodeHandle(h))] == IndexPairs(t.seps + [sep], t.handles);
  }

  lemma StateFacts(t: Parts, cur: seq<Pair>, pending: bool, numEntries: nat, lastKey: Bytes, file: Bytes)
    requires Building(file, t, cur, pending) && Counted(All(t.blocks, cur), numEntries, lastKey)
    ensures numEntries > 0 ==> |lastKey| >= 8
    ensures pending ==> cur == [] && numEntries > 0
  {
    hide InternalLess, BlockAt;
    var all := All(t.blocks, cur);
    if all != [] {
      assert all[|all| - 1] != [] && Sorted(all[|all| - 1]);
    }
  }

  /** All that flushing a block means for the parts of the table. */
  lemma Flushed(file: Bytes, t: Parts, cur: seq<Pair>, index: seq<Pair>, pending: bool, h: Handle, numEntries: nat, lastKey: Bytes,
                contents: Bytes, at: seq<nat>) returns (t': Parts)
    requires Building(file, t, cur, pending) && cur != [] && Indexed(t, index, pending, h) && Built(contents, cur, at)
    requires Counted(All(t.blocks, cur), numEntries, lastKey)
    ensures |t.blocks| == |t.handles| && !pending
    ensures var h' := Handle(|file|, |contents|);
      && t' == t.(blocks := t.blocks + [cur], ats := t.ats + [at], handles := t.handles + [h'])
      && Building(file + contents + BlockTrailer(contents), t', [], true)
      && Indexed(t', index, true, h')
      && Counted(All(t'.blocks, []), numEntries, lastKey) && Flatten(t'.blocks) + [] == Flatten(t.blocks) + cur
  {
    hide Building, Indexed, Counted, Flatten, Built;
    var h' := Handle(|file|, |contents|);
    FlushFacts(file, t, cur, index, pending, h);
    t' := t.(blocks := t.blocks + [cur], ats := t.ats + [at], handles := t.handles + [h']);
    BlockFlushed(file, t, cur, contents, at);
    IndexLags(t, index, t', h');
    FlushCounts(t.blocks, cur, numEntries, lastKey);
    FlattenMore(t.blocks, cur);
  }

  lemma FlushFacts(file: Bytes, t: Parts, cur: seq<Pair>, index: seq<Pair>, pending: bool, h: Handle)
    requires Building(file, t, cur, pending) && cur != [] && Indexed(t, index, pending, h)
    ensures !pending && |t.blocks| == |t.handles|
  {
  }

  lemma IndexLags(t: Parts, index: seq<Pair>, t': Parts, h: Handle)
    requires Indexed(t, index, false, h) || exists g :: Indexed(t, index, false, g)
    requires t'.seps == t.seps && t'.handles == t.handles + [h]
    ensures Indexed(t', index, true, h)
  {
    assert IndexPairs(t.seps, t'.handles) == IndexPairs(t.seps, t.handles);
  }

  lemma IndexIs(t: Parts, index: seq<Pair>, h: Handle)
    requires Indexed(t, index, false, h)
    ensures |t.seps| <= |t.handles| && index == IndexPairs(t.seps, t.handles)
  {
  }

  lemma StoredGrows(file: Bytes, file': Bytes, h: Handle, contents: Bytes)
    requires Stored(file, h, contents) && file <= file'
    ensures Stored(file', h, contents)
  {
    assert file'[h.offset..h.offset + h.size + BLOCK_TRAILER] == file[h.offset..h.offset + h.size + BLOCK_TRAILER];
  }

  /** Everything a reader needs is in the file. */
  lemma TableFinished(data: Bytes, middle: Bytes, file: Bytes, was: Parts, pending: bool, t: Parts, policy: BloomFilterPolicy,
                      added: set<(nat, Bytes)>, end: nat, filter: Option<Bytes>, index: Bytes)
    requires Building(data, was, [], pending) && data <= middle <= file && |file| < WORD32
    requires t == was.(seps := t.seps, indexAt := t.indexAt) && |t.seps| == |t.blocks| && Separated(t.blocks, t.seps)
    requires |t.seps| <= |t.handles| && Built(index, IndexPairs(t.seps, t.handles), t.indexAt) && |index| <= |file|
    requires filter.Some? ==> |filter.value| < WORD32 && AllMatch(policy, filter.value, added) && Covered(added, was, [], end)
    ensures TableIs(file, index, filter, policy, t)
  {
    hide Separated, Built, KeyMayMatchIn;
    forall i | 0 <= i < |t.blocks|
      ensures
        && BlockAt(file, t.handles[i], t.blocks[i], t.ats[i])
        && t.handles[i].offset < WORD64
        && t.handles[i].size < WORD64
    {
      GrowsTo(data, file, t.handles[i], t.blocks[i], t.ats[i]);
    }
    if filter.Some? {
      forall i, p | 0 <= i < |t.blocks| && p in t.blocks[i] && |p.key| >= 8
        ensures KeyMayMatchIn(policy, filter.value, t.handles[i].offset, UserOf(p.key))
      {
        assert (t.handles[i].offset / BASE, UserOf(p.key)) in added;
      }
    }
  }

  lemma GrowsTo(data: Bytes, file: Bytes, h: Handle, ps: seq<Pair>, at: seq<nat>)
    requires BlockAt(data, h, ps, at) && data <= file
    ensures BlockAt(file, h, ps, at) && h.offset + h.size <= |file|
  {
    hide Built;
    var contents :| Stored(data, h, contents) && Built(contents, ps, at);
    StoredGrows(data, file, h, contents);
  }

  lemma LastSeparator(file: Bytes, t: Parts, pending: bool, numEntries: nat, lastKey: Bytes, sep: Bytes)
    requires Building(file, t, [], pending) && Counted(All(t.blocks, []), numEntries, lastKey)
    requires pending ==> |sep| >= 8 && (sep == lastKey || BytesLess(UserOf(lastKey), UserOf(sep)))
    ensures var seps := if pending then t.seps + [sep] else t.seps;
      |seps| == |t.blocks| && Separated(t.blocks, seps)
  {
    hide BlockAt;
    var seps := if pending then t.seps + [sep] else t.seps;
    forall i | 0 <= i < |seps|
      ensures SeparatorOk(t.blocks, i, seps[i])
    {
      if i < |t.seps| {
        assert SeparatorOk(t.blocks, i, t.seps[i]);
      }
    }
  }

  lemma FlushCounts(blocks: seq<seq<Pair>>, cur: seq<Pair>, numEntries: nat, lastKey: Bytes)
    requires cur != [] && Counted(All(blocks, cur), numEntries, lastKey)
    ensures Counted(All(blocks + [cur], []), numEntries, lastKey)
  {
  }

  lemma NextPair(file: Bytes, t: Parts, cur: seq<Pair>, pending: bool, lastKey: Bytes, numEntries: nat, p: Pair, sep: Bytes)
    requires Building(file, t, cur, pending) && Counted(All(t.blocks, cur), numEntries, lastKey)
    requires |p.key| >= 8 && (numEntries > 0 ==> InternalLess(lastKey, p.key))
    requires pending ==> Separates(lastKey, p.key, sep)
    ensures Building(file, if pending then t.(seps := t.seps + [sep]) else t, cur + [p], false)
  {
    hide InternalLess, BlockAt, Separated, Separates;
    if cur == [] {
      FirstOfBlock(file, t, pending, lastKey, p, sep);
      assert cur + [p] == [p];
    } else {
      NextOfBlock(file, t, cur, lastKey, p);
    }
  }
}
