/** The memtables under the database: how a batch goes into one and how a read goes through them
    (db/write_batch.cc, db/db_impl.cc). */
module Memories {
  import opened Keys
  import opened Entries
  import opened Versions
  import opened Database
  import opened DbImpls
  import B = WriteBatches
  import M = MemTables
  import R = Recovery

  /** What the inserter makes of the i-th operation of a batch that begins at sequence `s`. */
  function ItemOf(op: B.Op, s: nat): M.Item {
    match op
    case Put(key, value) => M.Item(key, s, Value, value)
    case Delete(key) => M.Item(key, s, Deletion, [])
  }

  function ItemsOf(ops: seq<B.Op>, s: nat): (r: seq<M.Item>)
    ensures |r| == |ops|
    ensures forall i | 0 <= i < |ops| :: r[i].user == ops[i].key && r[i].s == s + i
    ensures forall i | 0 <= i < |ops| && ops[i].Put? :: r[i].kind == Value && r[i].value == ops[i].value
    ensures forall i | 0 <= i < |ops| && ops[i].Delete? :: r[i].kind == Deletion && r[i].value == []
  {
    seq(|ops|, i requires 0 <= i < |ops| => ItemOf(ops[i], s + i))
  }

  /** The memtable is the one of the abstract state, and nothing in it is newer than the last sequence. */
  ghost predicate MemIs(mem: M.MemTable, st: State)
    reads mem
  {
    && mem.Valid() && st.mem == M.RunOf(mem.items)
    && forall e | e in st.mem :: e.ik.sn <= st.lastSequence
  }

  /** The handler: MemTableInserter::Put and Delete. */
  method Insert(mem: M.MemTable, op: B.Op, sequence: nat, ghost before: State, ghost after: State)
    requires MemIs(mem, before) && sequence == before.lastSequence + 1 == after.lastSequence && sequence <= MAX_SEQUENCE
    requires |op.key| + 8 < WORD32 && (op.Put? ==> |op.value| < WORD32)
    requires after.mem == InsertRun(before.mem, M.EntryOf(ItemOf(op, sequence)))
    modifies mem
    ensures MemIs(mem, after) && multiset(mem.items) == multiset(old(mem.items)) + multiset{ItemOf(op, sequence)}
  {
    hide InsertRun, Rank, M.EntryOf, M.Holds, Sorted;
    forall i | 0 <= i < |mem.items|
      ensures M.RunOf(mem.items)[i].ik.sn < sequence
    {
      assert M.RunOf(mem.items)[i] in before.mem;
    }
    match op {
      case Put(key, value) => mem.Add(sequence, Value, key, value);
      case Delete(key) => mem.Add(sequence, Deletion, key, []);
    }
    forall e | e in after.mem
      ensures e.ik.sn <= sequence
    {
      assert e in Elements(after.mem);
      assert e in Elements(before.mem) ==> e in before.mem;
    }
  }

  /** WriteBatchInternal::InsertInto: every operation that the batch hands out becomes an entry, numbered from the
      sequence in the batch's header. */
  method InsertInto(batch: B.WriteBatch, mem: M.MemTable, ghost st: State) returns (ok: bool, ghost ops: seq<B.Op>)
    requires batch.Valid() && MemIs(mem, st) && batch.Sequence() == st.lastSequence + 1
    requires forall op | op in B.Replay(batch.rep[B.HEADER..]).0 ::
      |op.key| + 8 < WORD32 && (op.Put? ==> |op.value| < WORD32)
    requires st.lastSequence + |B.Replay(batch.rep[B.HEADER..]).0| <= MAX_SEQUENCE
    modifies mem
    ensures var (handed, clean) := B.Replay(batch.rep[B.HEADER..]);
      ops == handed && (ok <==> clean && |ops| == batch.Count())
    ensures multiset(mem.items) == multiset(old(mem.items)) + multiset(ItemsOf(ops, batch.Sequence()))
    ensures MemIs(mem, ApplyBatch(st, R.RankedAll(ops)))
  {
    hide MemIs, B.Replay, InsertRun, EntryOf, ApplyBatch, Rank, ItemOf;
    var handled;
    handled, ok := batch.Iterate();
    ops := handled;
    var sequence := batch.Sequence();
    ghost var writes := R.RankedAll(ops);
    NoWrites(st, writes, ops, sequence);
    for i := 0 to |handled|
      invariant MemIs(mem, ApplyBatch(st, writes[..i]))
      invariant ApplyBatch(st, writes[..i]).lastSequence == st.lastSequence + i
      invariant multiset(mem.items) == multiset(old(mem.items)) + multiset(ItemsOf(ops, batch.Sequence())[..i])
      invariant sequence == batch.Sequence() + i
    {
      var op := handled[i];
      assert op in handled;
      OneMore(st, ops, i, sequence);
      Insert(mem, op, sequence, ApplyBatch(st, writes[..i]), ApplyBatch(st, writes[..i + 1]));
      sequence := sequence + 1;
    }
    assert writes[..|handled|] == writes && ItemsOf(ops, batch.Sequence())[..|handled|] == ItemsOf(ops, batch.Sequence());
  }

  lemma NoWrites(st: State, writes: seq<Op>, ops: seq<B.Op>, s: nat)
    ensures ApplyBatch(st, writes[..0]) == st && ItemsOf(ops, s)[..0] == []
  {
  }

  lemma OneMore(st: State, ops: seq<B.Op>, i: nat, s: nat)
    requires i < |ops| && s == st.lastSequence + 1 + i
    ensures var before, after := ApplyBatch(st, R.RankedAll(ops)[..i]), ApplyBatch(st, R.RankedAll(ops)[..i + 1]);
      && before.lastSequence == st.lastSequence + i && after.lastSequence == st.lastSequence + i + 1
      && after.mem == InsertRun(before.mem, M.EntryOf(ItemOf(ops[i], s)))
    ensures ItemsOf(ops, st.lastSequence + 1)[..i + 1] == ItemsOf(ops, st.lastSequence + 1)[..i] + [ItemOf(ops[i], s)]
  {
    hide InsertRun, Rank;
    BatchStep(st, R.RankedAll(ops), i);
    BatchFrame(st, R.RankedAll(ops)[..i]);
    BatchFrame(st, R.RankedAll(ops)[..i + 1]);
  }

  // Reading.

  /** The objects of a reader are those of the abstract state. */
  ghost predicate LayersAre(mem: M.MemTable, imm: M.MemTable?, version: Version, st: State)
    reads mem, imm
  {
    && mem.Valid() && st.mem == M.RunOf(mem.items)
    && (if imm == null then st.imm.None? else imm.Valid() && st.imm == Some(M.RunOf(imm.items)))
    && st.version == version
  }

  /** DBImpl::Get: the memtable, then the immutable one, then the version; the first that knows the key has the say. */
  method Get(mem: M.MemTable, imm: M.MemTable?, version: Version, key: Bytes, s: nat, ghost st: State, ghost log: seq<Entry>)
    returns (value: Option<Bytes>)
    requires Inv(st, log) && LayersAre(mem, imm, version, st) && |key| + 8 < WORD32
    requires s in st.snapshots || s == st.lastSequence
    ensures value == View(LogNewest(log, Rank(key), s)) && Shown(log, Rank(key), s, value)
  {
    hide Inv, M.Tells, M.TellsOf, Shown, Rank;
    Live(st, log, s);
    var r := mem.Get(key, s);
    ghost var inMem := Known(Elements(st.mem), Rank(key), s, r);
    ghost var inImm, onDisk := None, None;
    if r == M.Missing && imm != null {
      r := imm.Get(key, s);
      inImm := Known(ImmEntries(st), Rank(key), s, r);
    }
    value := None;
    match r {
      case Found(v) => value := Some(v);
      case Deleted =>
      case Missing =>
        var o := Versions.Get(version, Rank(key), s);
        onDisk := o;
        if o.Some? && o.value.ik.kind == Value {
          value := Some(o.value.value);
        }
    }
    FirstAnswers(st, log, Rank(key), s, inMem, inImm, onDisk);
    LogShows(log, Rank(key), s);
  }

  lemma Live(st: State, log: seq<Entry>, s: nat)
    requires Inv(st, log) && (s in st.snapshots || s == st.lastSequence)
    ensures s <= MAX_SEQUENCE && VersionOk(st.version) && LogOk(log)
  {
  }

  /** What a memtable says is said of the newest entry a reader may see. */
  lemma Known(E: set<Entry>, u: UserKey, s: nat, r: M.Lookup) returns (o: Option<Entry>)
    requires M.Tells(E, u, s, r)
    ensures Answers(E, u, s, o) && (o.None? <==> r == M.Missing)
    ensures (r == M.Deleted ==> o.Some? && o.value.ik.kind == Deletion)
    ensures r.Found? ==> o.Some? && o.value.ik.kind == Value && o.value.value == r.value
  {
    match r {
      case Missing => o := None;
      case Deleted =>
        var e :| IsNewest(E, u, s, e) && e.ik.kind == Deletion;
        o := Some(e);
      case Found(v) =>
        var e :| IsNewest(E, u, s, e) && e.ik.kind == Value && e.value == v;
        o := Some(e);
    }
  }

  lemma FirstAnswers(st: State, log: seq<Entry>, u: UserKey, s: nat, inMem: Option<Entry>, inImm: Option<Entry>,
                     onDisk: Option<Entry>)
    requires Inv(st, log) && (s in st.snapshots || s == st.lastSequence)
    requires Answers(Elements(st.mem), u, s, inMem)
    requires inMem.None? ==> Answers(ImmEntries(st), u, s, inImm)
    requires inMem.None? && inImm.None? ==> Answers(All(st.version), u, s, onDisk)
    ensures var o := if inMem.Some? then inMem else if inImm.Some? then inImm else onDisk;
      View(LogNewest(log, u, s)) == View(o)
  {
    hide DiskOk, WorkOk, SnapshotsOk, MemoryOk, Holds, LogNewest, Answers, Above, IsNewest, Logged, Faithful;
    var o := if inMem.Some? then inMem else if inImm.Some? then inImm else onDisk;
    MemoryAbove(st, log, All(st.version));
    var below := ImmEntries(st) + All(st.version);
    ReadersAreFaithful(st, log, u, s);
    LoggedUnique(Everything(st), log);
    AboveBelow(st);
    ShallowerAnswers(ImmEntries(st), All(st.version), u, s, o);
    ShallowerAnswers(Elements(st.mem), below, u, s, o);
    assert Everything(st) == Elements(st.mem) + below;
    AnswersOnce(Everything(st), u, s, o, Newest(Everything(st), u, s));
  }

  lemma AboveBelow(st: State)
    requires Above(Elements(st.mem), ImmEntries(st)) && Above(InMemory(st), All(st.version))
    ensures Above(ImmEntries(st), All(st.version)) && Above(Elements(st.mem), ImmEntries(st) + All(st.version))
  {
  }

  lemma AnswersOnce(E: set<Entry>, u: UserKey, s: nat, o: Option<Entry>, o': Option<Entry>)
    requires UniqueSeq(E) && Answers(E, u, s, o) && Answers(E, u, s, o')
    ensures o == o'
  {
  }
}
