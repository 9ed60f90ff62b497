module Recovery {
  // Reopening a database: the manifest gives the files, the write-ahead logs the writes that had not reached
  // one (DBImpl::Recover and RecoverLogFile in db_impl.cc).

  import opened Keys
  import opened Entries
  import opened Versions
  import opened Manifest
  import opened Picker
  import opened Compactions
  import opened Database
  import opened DbImpls
  import C = Coding
  import B = WriteBatches
  import L = Logs

  // What is left without the memtables.

  function Reopened(st: State): State {
    State([], None, st.version, [], if OnDisk(st) < 0 then 0 else OnDisk(st), st.nextFile, None)
  }

  lemma {:induction false} FirstWrites(log: seq<Entry>, n: nat, u: UserKey, s: nat)
    requires LogOk(log) && n <= |log| && s >= n
    ensures LogNewest(log[..n], u, s) == LogNewest(log, u, n)
  {
    if |log| > n {
      assert log[..|log| - 1][..n] == log[..n];
      FirstWrites(log[..|log| - 1], n, u, s);
    } else {
      assert log[..n] == log;
      NoLaterWrites(log, u, s, n);
    }
  }

  lemma {:induction false} NoLaterWrites(log: seq<Entry>, u: UserKey, s: nat, n: nat)
    requires LogOk(log) && |log| <= n <= s
    ensures LogNewest(log, u, s) == LogNewest(log, u, n)
  {
    if log != [] {
      NoLaterWrites(log[..|log| - 1], u, s, n);
    }
  }

  /** The files alone answer as the whole database did at the last write they hold. */
  lemma FilesAnswer(E: set<Entry>, disk: set<Entry>, log: seq<Entry>, n: nat, u: UserKey, s: nat)
    requires UniqueSeq(E) && disk <= E && (forall e | e in E :: e in disk <==> e.ik.sn <= n) && s >= n
    ensures Meaning(disk, u, s) == Meaning(E, u, n)
  {
    var o := Newest(E, u, n);
    assert Answers(disk, u, s, o);
    var o' := Newest(disk, u, s);
    assert o == o';
  }

  /** A crash that loses the memtables leaves the database as it was after the last write on disk. */
  lemma ReopenKeepsInv(st: State, log: seq<Entry>)
    requires Inv(st, log)
    ensures 0 <= OnDisk(st) <= |log| && Inv(Reopened(st), log[..OnDisk(st)])
  {
    hide DiskOk, Logged, Faithful, RunningOk, Holds, All;
    MemoryBounds(st, log);
    var n := OnDisk(st);
    assert Everything(Reopened(st)) == All(st.version);
    ReopenedMemory(st, log, n);
    DiskIsOld(st, log, n);
    ReopenedFaithful(Everything(st), All(st.version), log, n, Horizon(st));
  }

  lemma MemoryBounds(st: State, log: seq<Entry>)
    requires MemoryOk(st, log, All(st.version))
    ensures 0 <= OnDisk(st) <= |log| && Horizon(st) <= OnDisk(st)
  {
  }

  lemma ReopenedMemory(st: State, log: seq<Entry>, n: nat)
    requires MemoryOk(st, log, All(st.version)) && n == OnDisk(st) <= |log|
    ensures MemoryOk(Reopened(st), log[..n], All(st.version)) && OnDisk(Reopened(st)) == n == Horizon(Reopened(st))
  {
  }

  lemma DiskIsOld(st: State, log: seq<Entry>, n: nat)
    requires MemoryOk(st, log, All(st.version)) && n == OnDisk(st)
    ensures forall e | e in Everything(st) :: e in All(st.version) <==> e.ik.sn <= n
  {
  }

  lemma ReopenedFaithful(E: set<Entry>, disk: set<Entry>, log: seq<Entry>, n: nat, from: nat)
    requires LogOk(log) && Logged(E, log) && Faithful(E, log, from) && from <= n <= |log| && disk <= E
    requires forall e | e in E :: e in disk <==> e.ik.sn <= n
    ensures LogOk(log[..n]) && Logged(disk, log[..n]) && Faithful(disk, log[..n], n)
  {
    LoggedUnique(E, log);
    forall u, s: nat | s >= n
      ensures Meaning(disk, u, s) == View(LogNewest(log[..n], u, s))
    {
      FilesAnswer(E, disk, log, n, u, s);
      FirstWrites(log, n, u, s);
    }
  }

  // What a log gives back.

  /** The database orders keys by their rank. */
  function Ranked(op: B.Op): Op {
    match op
    case Put(key, value) => Put(Rank(key), value)
    case Delete(key) => Delete(Rank(key))
  }

  function RankedAll(ops: seq<B.Op>): (r: seq<Op>)
    ensures |r| == |ops|
  {
    seq(|ops|, i requires 0 <= i < |ops| => Ranked(ops[i]))
  }

  /** The records of a log: batches in the order of their writes, each with the sequence of its first one. */
  function Encodings(batches: seq<seq<B.Op>>, s: nat): (r: seq<Bytes>)
    ensures |r| == |batches|
  {
    seq(|batches|, i requires 0 <= i < |batches| => B.Encoded(s + |Flatten(batches[..i])|, batches[i]))
  }

  predicate AllFit(batches: seq<seq<B.Op>>) {
    forall b | b in batches :: B.Fits(b)
  }

  lemma StampedConcat(a: seq<B.Op>, b: seq<B.Op>, s: nat)
    ensures Stamped(RankedAll(a + b), s) == Stamped(RankedAll(a), s) + Stamped(RankedAll(b), s + |a|)
  {
  }

  lemma FlatStep(batches: seq<seq<B.Op>>, i: nat)
    requires i < |batches|
    ensures Flatten(batches[..i + 1]) == Flatten(batches[..i]) + batches[i]
  {
    assert batches[..i + 1][..i] == batches[..i];
  }

  lemma {:induction false} FlatGrows(batches: seq<seq<B.Op>>, i: nat)
    requires i <= |batches|
    ensures |Flatten(batches[..i])| <= |Flatten(batches)|
    decreases |batches| - i
  {
    if i < |batches| {
      FlatStep(batches, i);
      FlatGrows(batches, i + 1);
    } else {
      assert batches[..i] == batches;
    }
  }

  /** The i-th record decodes to the i-th batch, and carries the sequence of its first write. */
  lemma RecordIsBatch(batches: seq<seq<B.Op>>, s: nat, i: nat)
    requires AllFit(batches) && i < |batches| && s + |Flatten(batches)| < MAX_SEQUENCE
    ensures var rep := Encodings(batches, s)[i];
      && |rep| >= B.HEADER && B.Replay(rep[B.HEADER..]) == (batches[i], true)
      && C.ReadFixed(rep[8..], 4) == |batches[i]| && C.ReadFixed(rep, 8) == s + |Flatten(batches[..i])|
  {
    hide B.Encoded, B.Replay, B.Fits, C.ReadFixed, Flatten;
    FlatGrows(batches, i);
    assert batches[i] in batches;
    B.BatchReadsBack(s + |Flatten(batches[..i])|, batches[i]);
  }

  // What a reader finds after the replay, in terms of the operations the batches held.

  /** Operation `i` of batch `b` is the last one on `k` in the first `n` batches. */
  ghost predicate LastWrite(batches: seq<seq<B.Op>>, n: nat, k: Bytes, b: int, i: int) {
    && 0 <= b < n <= |batches| && LastIn(batches[b], k, i)
    && forall d | b < d < n :: Untold(batches[d], k)
  }

  ghost predicate LastIn(ops: seq<B.Op>, k: Bytes, i: int) {
    && 0 <= i < |ops| && ops[i].key == k
    && forall j | i < j < |ops| :: ops[j].key != k
  }

  /** The batch has no operation on `k`. */
  ghost predicate Untold(ops: seq<B.Op>, k: Bytes) {
    forall j | 0 <= j < |ops| :: ops[j].key != k
  }

  /** The last operation on `k` in the first `n` batches decides: a Put leaves its value, a Delete nothing; without
      any, the key reads as `before`. */
  ghost predicate Restored(batches: seq<seq<B.Op>>, n: nat, k: Bytes, before: Option<Bytes>, value: Option<Bytes>) {
    && n <= |batches|
    && (forall b, i | LastWrite(batches, n, k, b, i) :: value == ValueLeft(batches[b][i]))
    && ((forall b | 0 <= b < n :: Untold(batches[b], k)) ==> value == before)
  }

  function ValueLeft(op: B.Op): (r: Option<Bytes>)
    ensures op.Put? ==> r == Some(op.value)
    ensures op.Delete? ==> r == None
  {
    match op
    case Put(_, value) => Some(value)
    case Delete(_) => None
  }

  /** What the newest write of the log leaves under a byte-string key. */
  function Current(log: seq<Entry>, k: Bytes): Option<Bytes> {
    View(LogNewest(log, Rank(k), |log|))
  }

  lemma {:induction false} OthersDoNotShow(log: seq<Entry>, more: seq<Entry>, k: Bytes)
    requires LogOk(log + more) && forall i | 0 <= i < |more| :: more[i].ik.user != Rank(k)
    ensures Current(log + more, k) == Current(log, k)
  {
    if more == [] {
      assert log + more == log;
    } else {
      var n := |more| - 1;
      var all := log + more;
      assert all[..|all| - 1] == log + more[..n] && all[|all| - 1] == more[n];
      OthersDoNotShow(log, more[..n], k);
      NoLaterWrites(log + more[..n], Rank(k), |all|, |all| - 1);
    }
  }

  /** One more batch. */
  lemma BatchShows(log: seq<Entry>, ops: seq<B.Op>, k: Bytes)
    requires LogOk(log)
    ensures var value := Current(log + Stamped(RankedAll(ops), |log| + 1), k);
      && (forall i | LastIn(ops, k, i) :: value == ValueLeft(ops[i]))
      && (Untold(ops, k) ==> value == Current(log, k))
  {
    hide Rank, LogNewest, View;
    var more := Stamped(RankedAll(ops), |log| + 1);
    var all := log + more;
    BatchKeys(log, ops, k);
    LogShows(all, Rank(k), |all|);
    forall i | LastIn(ops, k, i)
      ensures Current(all, k) == ValueLeft(ops[i])
    {
      assert LastTo(all, Rank(k), |all|, |log| + i);
    }
    if Untold(ops, k) {
      OthersDoNotShow(log, more, k);
    }
  }

  lemma BatchKeys(log: seq<Entry>, ops: seq<B.Op>, k: Bytes)
    requires LogOk(log)
    ensures var more := Stamped(RankedAll(ops), |log| + 1);
      && LogOk(log + more) && |more| == |ops|
      && (forall i | 0 <= i < |ops| :: more[i].ik.user == Rank(k) <==> ops[i].key == k)
      && forall i | 0 <= i < |ops| :: ValueLeft(ops[i]) == if more[i].ik.kind == Value then Some(more[i].value) else None
  {
    hide Rank;
    forall i | 0 <= i < |ops|
      ensures Rank(ops[i].key) == Rank(k) <==> ops[i].key == k
    {
      RankEmbedsBytes(ops[i].key, k);
    }
  }

  /** Replayed batches leave what their operations say. */
  lemma {:induction false} ReplayRestores(log: seq<Entry>, batches: seq<seq<B.Op>>, n: nat, k: Bytes)
    requires LogOk(log) && n <= |batches|
    ensures LogOk(log + Stamped(RankedAll(Flatten(batches[..n])), |log| + 1))
    ensures Restored(batches, n, k, Current(log, k), Current(log + Stamped(RankedAll(Flatten(batches[..n])), |log| + 1), k))
  {
    hide Rank, Current, Flatten, RankedAll, Stamped, Untold, LastIn;
    if n == 0 {
      Begins(batches, log, 0);
    } else {
      ReplayRestores(log, batches, n - 1, k);
      NextBatch(batches, n - 1, log);
      var before := log + Stamped(RankedAll(Flatten(batches[..n - 1])), |log| + 1);
      BatchKeys(before, batches[n - 1], k);
      BatchShows(before, batches[n - 1], k);
      MoreRestored(batches, n, batches[n - 1], k, Current(log, k), Current(before, k),
                   Current(before + Stamped(RankedAll(batches[n - 1]), |before| + 1), k));
    }
  }

  lemma MoreRestored(batches: seq<seq<B.Op>>, n: nat, ops: seq<B.Op>, k: Bytes, before: Option<Bytes>,
                     middle: Option<Bytes>, value: Option<Bytes>)
    requires 0 < n <= |batches| && batches[n - 1] == ops && Restored(batches, n - 1, k, before, middle)
    requires forall i | LastIn(ops, k, i) :: value == ValueLeft(ops[i])
    requires Untold(ops, k) ==> value == middle
    ensures Restored(batches, n, k, before, value)
  {
    hide ValueLeft;
    forall b, i | LastWrite(batches, n, k, b, i)
      ensures value == ValueLeft(batches[b][i])
    {
      if b < n - 1 {
        assert LastWrite(batches, n - 1, k, b, i);
        assert Untold(batches[n - 1], k);
      }
    }
  }

  /** Two logs, one after the other. */
  lemma RestoredConcat(a: seq<seq<B.Op>>, b: seq<seq<B.Op>>, n: nat, k: Bytes, before: Option<Bytes>,
                       middle: Option<Bytes>, value: Option<Bytes>)
    requires Restored(a, |a|, k, before, middle) && Restored(b, n, k, middle, value)
    ensures Restored(a + b, |a| + n, k, before, value)
  {
    hide ValueLeft, Untold;
    var all := a + b;
    forall d, i | LastWrite(all, |a| + n, k, d, i)
      ensures value == ValueLeft(all[d][i])
    {
      if forall e | 0 <= e < n :: Untold(b[e], k) {
        FirstPartLast(a, b, n, k, d, i);
      } else {
        SecondPartLast(a, b, n, k, d, i);
      }
    }
    if forall d | 0 <= d < |a| + n :: Untold(all[d], k) {
      assert forall d | 0 <= d < |a| :: a[d] == all[d];
      assert forall d | 0 <= d < n :: b[d] == all[|a| + d];
    }
  }

  lemma FirstPartLast(a: seq<seq<B.Op>>, b: seq<seq<B.Op>>, n: nat, k: Bytes, d: int, i: int)
    requires n <= |b| && LastWrite(a + b, |a| + n, k, d, i) && forall e | 0 <= e < n :: Untold(b[e], k)
    ensures d < |a| && LastWrite(a, |a|, k, d, i)
  {
    var all := a + b;
    forall e | |a| <= e < |a| + n
      ensures Untold(all[e], k)
    {
      assert all[e] == b[e - |a|];
    }
    assert !Untold(all[d], k);
    forall e | d < e < |a|
      ensures Untold(a[e], k)
    {
      assert all[e] == a[e];
    }
  }

  lemma SecondPartLast(a: seq<seq<B.Op>>, b: seq<seq<B.Op>>, n: nat, k: Bytes, d: int, i: int)
    requires n <= |b| && LastWrite(a + b, |a| + n, k, d, i) && exists e | 0 <= e < n :: !Untold(b[e], k)
    ensures d >= |a| && LastWrite(b, n, k, d - |a|, i)
  {
    hide Untold;
    var all := a + b;
    assert forall e | 0 <= e < n :: all[|a| + e] == b[e];
    forall e | d - |a| < e < n && 0 <= e
      ensures Untold(b[e], k)
    {
      assert Untold(all[|a| + e], k);
    }
  }

  /** Nothing in memory, nothing under way, no readers. */
  predicate Idle(db: DBImpl)
    reads db
  {
    db.mem == [] && db.imm.None? && db.running.None? && db.snapshots == []
  }

  /** Without a base version the memtable of a log becomes a table at level 0. */
  method FlushLog(db: DBImpl, fileSize: nat)
    requires db.Valid() && db.imm.None? && db.running.None? && db.snapshots == []
    modifies db
    ensures db.Valid() && Idle(db) && db.log == old(db.log) && db.lastSequence == old(db.lastSequence)
  {
    db.SwitchMemTable();
    var _ := db.WriteLevel0Table(false, fileSize, 0);
  }

  lemma NextBatch(batches: seq<seq<B.Op>>, i: nat, log: seq<Entry>)
    requires i < |batches|
    ensures var before := log + Stamped(RankedAll(Flatten(batches[..i])), |log| + 1);
      && |before| == |log| + |Flatten(batches[..i])|
      && before + Stamped(RankedAll(batches[i]), |before| + 1) == log + Stamped(RankedAll(Flatten(batches[..i + 1])), |log| + 1)
      && |before| + |batches[i]| <= |log| + |Flatten(batches)|
  {
    hide Flatten;
    FlatStep(batches, i);
    FlatGrows(batches, i + 1);
    StampedConcat(Flatten(batches[..i]), batches[i], |log| + 1);
  }

  /** RecoverLogFile: after a log cut at any byte, the writes of its whole batches are back, and no others. */
  method RecoverLogFile(db: DBImpl, file: Bytes, full: nat -> bool, fileSize: nat, ghost batches: seq<seq<B.Op>>, ghost c: nat)
    returns (clean: bool)
    requires db.Valid() && Idle(db) && AllFit(batches) && |db.log| + |Flatten(batches)| + 1 < MAX_SEQUENCE
    requires c <= |L.LogOf(Encodings(batches, |db.log| + 1))| && file == L.LogOf(Encodings(batches, |db.log| + 1))[..c]
    modifies db
    ensures clean && db.Valid() && Idle(db)
    ensures var records := Encodings(batches, |old(db.log)| + 1);
      && db.log == old(db.log) + Stamped(RankedAll(Flatten(batches[..L.Whole(records, c, 0)])), |old(db.log)| + 1)
      && forall k :: Restored(batches, L.Whole(records, c, 0), k, Current(old(db.log), k), Current(db.log, k))
  {
    hide Restored, Current, AllFit, Flatten, Encodings, Stamped, RankedAll, B.Replay, C.ReadFixed, L.LogOf, L.Read, L.End, L.Whole,
      L.Window, Inv;
    ghost var log, before := db.log, db.Abs();
    ghost var records := Encodings(batches, |log| + 1);
    var reader := new L.Reader(file);
    var batch := new B.WriteBatch();
    var ok, reports := true, 0;
    clean := true;
    ghost var i := 0;
    Begins(batches, log, c);
    while ok && clean
      invariant fresh(reader) && fresh(batch) && reader.Valid() && reader.file == file
      invariant db.Valid() && db.imm.None? && db.running.None? && db.snapshots == []
      invariant clean && i <= |batches| && L.End(records, i) <= c && (ok ==> reader.At() == L.End(records, i))
      invariant !ok ==> i == |batches| || L.End(records, i + 1) > c
      invariant db.log == log + Stamped(RankedAll(Flatten(batches[..i])), |log| + 1)
      decreases |batches| - i + if ok then 1 else 0
    {
      var record;
      L.ReadsLog(records, c, i);
      ok, record := reader.ReadRecord();
      if ok {
        RecordIsBatch(batches, |log| + 1, i);
        NextBatch(batches, i, log);
        if |record| < B.HEADER {
          reports := reports + 1;
        } else {
          batch.SetContents(record);
          var ops;
          ops, clean := batch.Iterate();
          if clean {
            // The sequence numbers come from the batch; they go on from the last one.
            assert batch.Sequence() == |db.log| + 1;
            db.Write(RankedAll(ops));
            if full(|file| - reader.position) {
              FlushLog(db, fileSize);
            }
          }
        }
        i := i + 1;
      }
    }
    WholeIsCount(records, c, i);
    FlushLog(db, fileSize);
    ReplayRestoresAll(before, log, batches, i);
  }

  /** Reopening with nothing but a log cut at any byte, and then a read: the last operation on the key in the whole
      batches before the cut. */
  method ReopenAndGet(file: Bytes, key: Bytes, full: nat -> bool, fileSize: nat, ghost batches: seq<seq<B.Op>>, ghost c: nat)
    returns (value: Option<Bytes>)
    requires AllFit(batches) && |Flatten(batches)| + 1 < MAX_SEQUENCE
    requires c <= |L.LogOf(Encodings(batches, 1))| && file == L.LogOf(Encodings(batches, 1))[..c]
    ensures Restored(batches, L.Whole(Encodings(batches, 1), c, 0), key, None, value)
  {
    hide Restored, AllFit, Flatten, Encodings, Stamped, RankedAll, L.LogOf, L.Whole, Inv;
    var db := new DBImpl();
    NothingWritten(key);
    var _ := RecoverLogFile(db, file, full, fileSize, batches, c);
    NoReaders(db.Abs(), db.log);
    value := db.Get(Rank(key), None);
  }

  lemma NothingWritten(k: Bytes)
    ensures Current([], k) == None
  {
  }

  lemma NoReaders(st: State, log: seq<Entry>)
    requires Inv(st, log)
    ensures st.lastSequence == |log|
  {
  }

  lemma ReplayRestoresAll(st: State, log: seq<Entry>, batches: seq<seq<B.Op>>, n: nat)
    requires Inv(st, log) && n <= |batches|
    ensures var log' := log + Stamped(RankedAll(Flatten(batches[..n])), |log| + 1);
      forall k :: Restored(batches, n, k, Current(log, k), Current(log', k))
  {
    hide Restored, Current, Flatten, RankedAll, Stamped;
    forall k: Bytes
      ensures Restored(batches, n, k, Current(log, k), Current(log + Stamped(RankedAll(Flatten(batches[..n])), |log| + 1), k))
    {
      ReplayRestores(log, batches, n, k);
    }
  }

  lemma Begins(batches: seq<seq<B.Op>>, log: seq<Entry>, c: nat)
    ensures log == log + Stamped(RankedAll(Flatten(batches[..0])), |log| + 1)
    ensures L.End(Encodings(batches, |log| + 1), 0) == 0
  {
  }

  lemma WholeIsCount(records: seq<Bytes>, c: nat, i: nat)
    requires c <= |L.LogOf(records)| && i <= |records| && L.End(records, i) <= c
    requires i == |records| || L.End(records, i + 1) > c
    ensures L.Whole(records, c, 0) == i
  {
    hide L.LogOf, L.End, L.Whole, L.ReadAll;
    L.CutLogReadsBack(records, c);
    assert i <= L.Whole(records, c, 0);
    assert i < |records| ==> !(i + 1 <= L.Whole(records, c, 0));
  }

  /** What had not reached a table file: the batches of the log of the immutable memtable, and after them
      those of the log of the memtable. */
  ghost predicate Unflushed(st: State, log: seq<Entry>, previous: seq<seq<B.Op>>, current: seq<seq<B.Op>>) {
    && 0 <= OnDisk(st) <= |log|
    && log[OnDisk(st)..] == Stamped(RankedAll(Flatten(previous) + Flatten(current)), OnDisk(st) + 1)
  }

  /** A cut at byte c of the current log leaves this many writes of the history. */
  ghost function Surviving(st: State, previous: seq<seq<B.Op>>, current: seq<seq<B.Op>>, c: nat): nat
    requires 0 <= OnDisk(st)
  {
    var records := Encodings(current, OnDisk(st) + |Flatten(previous)| + 1);
    OnDisk(st) + |Flatten(previous)| + |Flatten(current[..L.Whole(records, c, 0)])|
  }

  lemma HistoryIsPrefix(st: State, log: seq<Entry>, previous: seq<seq<B.Op>>, current: seq<seq<B.Op>>, i: nat)
    requires Unflushed(st, log, previous, current) && i <= |current|
    ensures var n := OnDisk(st);
      var middle := log[..n] + Stamped(RankedAll(Flatten(previous)), n + 1);
      && |middle| == n + |Flatten(previous)| && |log| == |middle| + |Flatten(current)|
      && |middle| + |Flatten(current[..i])| <= |log|
      && middle + Stamped(RankedAll(Flatten(current[..i])), |middle| + 1) == log[..|middle| + |Flatten(current[..i])|]
  {
    hide Flatten;
    var n := OnDisk(st);
    var a, b, d := Flatten(previous), Flatten(current), Flatten(current[..i]);
    FlatGrows(current, i);
    FlatIsPrefix(current, i);
    StampedConcat(a, b, n + 1);
    StampedConcat(d, b[|d|..], n + |a| + 1);
    assert b == d + b[|d|..];
    assert log == log[..n] + log[n..];
  }

  lemma {:induction false} FlatIsPrefix(batches: seq<seq<B.Op>>, i: nat)
    requires i <= |batches|
    ensures Flatten(batches[..i]) <= Flatten(batches)
    decreases |batches| - i
  {
    if i < |batches| {
      FlatStep(batches, i);
      FlatIsPrefix(batches, i + 1);
    } else {
      assert batches[..i] == batches;
    }
  }

  lemma WholeLog(records: seq<Bytes>)
    ensures L.Whole(records, |L.LogOf(records)|, 0) == |records|
    ensures L.LogOf(records)[..|L.LogOf(records)|] == L.LogOf(records)
  {
    hide L.LogOf, L.Whole;
    L.CutLogReadsBack(records, |L.LogOf(records)|);
    assert records[..|records|] == records;
    assert L.End(records, |records|) == |L.LogOf(records)|;
  }

  /** Recover: after a crash that cuts the current log at any byte, the reopened database stands for a first part
      of the history of writes: all that was on disk or in the previous log, and the whole batches before the cut. */
  method Recover(v: Version, lastSequence: nat, nextFile: nat, previousLog: Bytes, currentLog: Bytes, full: nat -> bool,
                 fileSize: nat, ghost st: State, ghost log: seq<Entry>, ghost previous: seq<seq<B.Op>>,
                 ghost current: seq<seq<B.Op>>, ghost c: nat)
    returns (db: DBImpl)
    requires Inv(st, log) && v == st.version && lastSequence == OnDisk(st) && nextFile == st.nextFile
    requires Unflushed(st, log, previous, current) && AllFit(previous) && AllFit(current) && |log| + 1 < MAX_SEQUENCE
    requires previousLog == L.LogOf(Encodings(previous, OnDisk(st) + 1))
    requires c <= |L.LogOf(Encodings(current, OnDisk(st) + |Flatten(previous)| + 1))|
    requires currentLog == L.LogOf(Encodings(current, OnDisk(st) + |Flatten(previous)| + 1))[..c]
    ensures db.Valid() && Idle(db) && fresh(db)
    ensures Surviving(st, previous, current, c) <= |log| && db.log == log[..Surviving(st, previous, current, c)]
    ensures var whole := L.Whole(Encodings(current, OnDisk(st) + |Flatten(previous)| + 1), c, 0);
      forall k :: Restored(previous + current, |previous| + whole, k, Current(log[..OnDisk(st)], k), Current(db.log, k))
  {
    hide Restored, Current, Inv, AllFit, Flatten, Encodings, RankedAll, Stamped, L.LogOf, L.Whole;
    ReopenKeepsInv(st, log);
    HistoryIsPrefix(st, log, previous, current, 0);
    db := new DBImpl.Reopen(v, lastSequence, nextFile, log[..OnDisk(st)]);
    ghost var before := Encodings(previous, OnDisk(st) + 1);
    WholeLog(before);
    assert previous[..|previous|] == previous;
    var _ := RecoverLogFile(db, previousLog, full, fileSize, previous, |previousLog|);
    HistoryIsPrefix(st, log, previous, current, L.Whole(Encodings(current, OnDisk(st) + |Flatten(previous)| + 1), c, 0));
    ghost var middle := db.log;
    var _ := RecoverLogFile(db, currentLog, full, fileSize, current, c);
    ghost var whole := L.Whole(Encodings(current, OnDisk(st) + |Flatten(previous)| + 1), c, 0);
    forall k: Bytes
      ensures Restored(previous + current, |previous| + whole, k, Current(log[..OnDisk(st)], k), Current(db.log, k))
    {
      RestoredConcat(previous, current, whole, k, Current(log[..OnDisk(st)], k), Current(middle, k), Current(db.log, k));
    }
  }
}
