module Database {
  // The database as a state machine: writes, memtable switch, flush, compaction, snapshots, layered read.

  import opened Keys
  import opened Entries
  import opened Versions
  import opened Picker
  import opened Gaps
  import opened Manifest
  import opened Compactions
  import opened Installs

  datatype Op = Put(key: UserKey, val: Bytes) | Delete(key: UserKey)

  function EntryOf(op: Op, s: nat): Entry {
    match op
    case Put(k, v) => Entry(IKey(k, s, Value), v)
    case Delete(k) => Entry(IKey(k, s, Deletion), [])
  }

  /** The specification of a read: the newest logged write to `u` with sequence at most `s`. */
  function LogNewest(log: seq<Entry>, u: UserKey, s: nat): Option<Entry> {
    if log == [] then None
    else if Sees(log[|log| - 1], u, s) then Some(log[|log| - 1])
    else LogNewest(log[..|log| - 1], u, s)
  }

  ghost predicate LogOk(log: seq<Entry>) {
    forall i | 0 <= i < |log| :: log[i].ik.sn == i + 1
  }

  /** The i-th write is the last one to `u` among the first `s`. */
  ghost predicate LastTo(log: seq<Entry>, u: UserKey, s: nat, i: int) {
    && 0 <= i < |log| && i < s && log[i].ik.user == u
    && forall j | i < j < |log| && j < s :: log[j].ik.user != u
  }

  /** A read that counts the first `s` writes: the last of them to `u` decides, and without one there is nothing. */
  ghost predicate Shown(log: seq<Entry>, u: UserKey, s: nat, value: Option<Bytes>) {
    && (forall i | LastTo(log, u, s, i) :: value == if log[i].ik.kind == Value then Some(log[i].value) else None)
    && ((forall i | 0 <= i < |log| && i < s :: log[i].ik.user != u) ==> value == None)
  }

  lemma {:induction false} LogShows(log: seq<Entry>, u: UserKey, s: nat)
    requires LogOk(log)
    ensures Shown(log, u, s, View(LogNewest(log, u, s)))
  {
    hide Shown, View;
    if log == [] {
      EmptyShows(u, s);
    } else {
      var n := |log| - 1;
      assert log == log[..n] + [log[n]] && log[n].ik.sn == n + 1;
      if Sees(log[n], u, s) {
        LastShows(log[..n], log[n], u, s);
      } else {
        LogShows(log[..n], u, s);
        OtherShows(log[..n], log[n], u, s, View(LogNewest(log[..n], u, s)));
      }
    }
  }

  lemma EmptyShows(u: UserKey, s: nat)
    ensures Shown([], u, s, View(None))
  {
  }

  lemma LastShows(log: seq<Entry>, e: Entry, u: UserKey, s: nat)
    requires e.ik.user == u && |log| < s
    ensures Shown(log + [e], u, s, View(Some(e)))
  {
    assert (log + [e])[|log|] == e;
  }

  lemma OtherShows(log: seq<Entry>, e: Entry, u: UserKey, s: nat, value: Option<Bytes>)
    requires Shown(log, u, s, value) && (e.ik.user != u || |log| >= s)
    ensures Shown(log + [e], u, s, value)
  {
    var log' := log + [e];
    assert forall i | 0 <= i < |log| :: log'[i] == log[i];
    forall i | LastTo(log', u, s, i)
      ensures LastTo(log, u, s, i)
    {
    }
  }

  /** The i-th operation is the last one on `u` among the first `s`. */
  ghost predicate LastOn(ops: seq<Op>, u: UserKey, s: nat, i: int) {
    && 0 <= i < |ops| && i < s && ops[i].key == u
    && forall j | i < j < |ops| && j < s :: ops[j].key != u
  }

  /** What a reader who counts the first `s` operations is to find under `u`. */
  ghost predicate Left(ops: seq<Op>, u: UserKey, s: nat, value: Option<Bytes>) {
    && (forall i | LastOn(ops, u, s, i) :: value == match ops[i] case Put(_, v) => Some(v) case Delete(_) => None)
    && ((forall i | 0 <= i < |ops| && i < s :: ops[i].key != u) ==> value == None)
  }

  /** The log holds these operations, one after the other. */
  ghost predicate Records(log: seq<Entry>, ops: seq<Op>) {
    && |log| == |ops|
    && forall i | 0 <= i < |log| :: RecordOf(log[i], ops[i], i + 1)
  }

  /** A logged write: its key, its number, its type, and the value if it is a Put. */
  ghost predicate RecordOf(e: Entry, op: Op, sn: nat) {
    && e.ik.user == op.key && e.ik.sn == sn
    && match op
       case Put(_, v) => e.ik.kind == Value && e.value == v
       case Delete(_) => e.ik.kind == Deletion
  }

  lemma ShownIsLeft(log: seq<Entry>, ops: seq<Op>, u: UserKey, s: nat, value: Option<Bytes>)
    requires Records(log, ops) && Shown(log, u, s, value)
    ensures Left(ops, u, s, value)
  {
    hide Shown;
    SameKeys(log, ops);
    forall i | LastOn(ops, u, s, i)
      ensures value == match ops[i] case Put(_, v) => Some(v) case Delete(_) => None
    {
      LastIsShown(log, ops, u, s, value, i);
    }
    if forall i | 0 <= i < |ops| && i < s :: ops[i].key != u {
      NothingShown(log, u, s, value);
    }
  }

  lemma SameKeys(log: seq<Entry>, ops: seq<Op>)
    requires Records(log, ops)
    ensures |log| == |ops| && forall i | 0 <= i < |log| :: log[i].ik.user == ops[i].key
  {
    forall i | 0 <= i < |log|
      ensures log[i].ik.user == ops[i].key
    {
      assert RecordOf(log[i], ops[i], i + 1);
    }
  }

  lemma LastIsShown(log: seq<Entry>, ops: seq<Op>, u: UserKey, s: nat, value: Option<Bytes>, i: int)
    requires Records(log, ops) && Shown(log, u, s, value) && LastOn(ops, u, s, i)
    ensures value == match ops[i] case Put(_, v) => Some(v) case Delete(_) => None
  {
    SameKeys(log, ops);
    assert RecordOf(log[i], ops[i], i + 1);
    assert LastTo(log, u, s, i);
  }

  lemma NothingShown(log: seq<Entry>, u: UserKey, s: nat, value: Option<Bytes>)
    requires Shown(log, u, s, value) && forall i | 0 <= i < |log| && i < s :: log[i].ik.user != u
    ensures value == None
  {
  }

  /** A compaction under way: its inputs, the version they were taken from, the oldest sequence a reader could
      use when it started, and the output files it has finished. */
  datatype Running = Running(c: Compaction, base: Version, smallest: nat, outs: seq<File>)

  datatype State = State(mem: seq<Entry>, imm: Option<seq<Entry>>, version: Version, snapshots: seq<nat>,
                         lastSequence: nat, nextFile: nat, running: Option<Running>)

  const EMPTY_VERSION := Version([[], [], [], [], [], [], []])

  const INITIAL := State([], None, EMPTY_VERSION, [], 0, 2, None)

  ghost function ImmEntries(st: State): set<Entry> {
    if st.imm.Some? then Elements(st.imm.value) else {}
  }

  ghost function InMemory(st: State): set<Entry> {
    Elements(st.mem) + ImmEntries(st)
  }

  ghost function Everything(st: State): set<Entry> {
    InMemory(st) + All(st.version)
  }

  /** Every entry the database holds is one that was logged. */
  ghost predicate Logged(E: set<Entry>, log: seq<Entry>) {
    forall e | e in E :: 1 <= e.ik.sn <= |log| && log[e.ik.sn - 1] == e
  }

  /** The oldest sequence a reader may still use. */
  function Oldest(st: State): nat {
    if st.snapshots == [] then st.lastSequence else st.snapshots[0]
  }

  /** The last write before those of the memtable. */
  function BeforeMem(st: State): int {
    st.lastSequence - |st.mem|
  }

  /** The last write that has left memory: what the table files hold goes up to here. */
  function OnDisk(st: State): int {
    BeforeMem(st) - if st.imm.Some? then |st.imm.value| else 0
  }

  /** Readers read no earlier than the oldest snapshot. A database reopened after a crash that lost the
      memtables reads at what was on disk. */
  function Horizon(st: State): nat {
    if 0 <= OnDisk(st) < Oldest(st) then OnDisk(st) else Oldest(st)
  }

  /** Reads at sequence `from` or later return exactly what the log says. */
  ghost predicate Faithful(E: set<Entry>, log: seq<Entry>, from: nat) {
    forall u, s: nat | s >= from :: Meaning(E, u, s) == View(LogNewest(log, u, s))
  }

  /** File numbers are in use once, and below the next one to be handed out. */
  ghost predicate NumbersOk(v: Version, nextFile: nat) {
    && (forall i, f | 0 <= i < |v.files| && f in v.files[i] :: f.number < nextFile)
    && (forall i | 0 <= i < |v.files| :: BySmallest(v.files[i]))
    && forall i, j, f, g | 0 <= i < |v.files| && 0 <= j < |v.files| && f in v.files[i] && g in v.files[j]
         && f.number == g.number :: i == j && f == g
  }

  ghost predicate SnapshotsOk(snapshots: seq<nat>, last: nat) {
    && (forall i, j | 0 <= i < j < |snapshots| :: snapshots[i] <= snapshots[j])
    && forall i | 0 <= i < |snapshots| :: snapshots[i] <= last
  }

  /** The run holds exactly the writes after `from` up to `to`, in the order of keys. */
  ghost predicate Holds(r: seq<Entry>, log: seq<Entry>, from: int, to: int) {
    && 0 <= from <= to <= |log| && Sorted(r)
    && (forall e | e in r :: from < e.ik.sn <= to)
    && forall n | from <= n < to :: log[n] in r
  }

  /** The memtables hold the latest writes, one after the other, and the files nothing that is as new. */
  ghost predicate MemoryOk(st: State, log: seq<Entry>, onDisk: set<Entry>) {
    && Holds(st.mem, log, BeforeMem(st), st.lastSequence)
    && (if st.imm.Some? then Holds(st.imm.value, log, OnDisk(st), BeforeMem(st)) else true)
    && forall e | e in onDisk :: e.ik.sn <= OnDisk(st)
  }

  /** So each of the layers is newer than what lies below it. */
  lemma MemoryAbove(st: State, log: seq<Entry>, onDisk: set<Entry>)
    requires MemoryOk(st, log, onDisk)
    ensures Sorted(st.mem) && (st.imm.Some? ==> Sorted(st.imm.value)) && 0 <= OnDisk(st) <= BeforeMem(st)
    ensures Above(Elements(st.mem), ImmEntries(st)) && Above(InMemory(st), onDisk)
  {
  }

  ghost predicate DiskOk(v: Version, nextFile: nat) {
    VersionOk(v) && NumbersOk(v, nextFile)
  }

  ghost predicate Outputs(outs: seq<File>) {
    forall f | f in outs :: f.run != [] && f.smallest == f.run[0].ik && f.largest == f.run[|f.run| - 1].ik
  }

  /** The output files have numbers of their own. */
  ghost predicate NumbersFree(outs: seq<File>, v: Version, nextFile: nat) {
    && (forall f | f in outs :: f.number < nextFile)
    && (forall i, j | 0 <= i < j < |outs| :: outs[i].number < outs[j].number)
    && forall l, f, g | 0 <= l < |v.files| && f in v.files[l] && g in outs :: f.number != g.number
  }

  /** What a compaction started from `base` may rely on while the current version is `v`. */
  ghost predicate InputsOk(c: Compaction, base: Version, v: Version) {
    && c.level + 1 < NUM_LEVELS && |v.files| == NUM_LEVELS && SortedLevels(base)
    && Held(v.files[c.level], v.files[c.level + 1], c)
    && (forall e | e in InputEntries(c) && BaseLevel(base, c.level, e.ik.user) :: BaseLevel(v, c.level, e.ik.user))
    && (Gapless(Both(c)) ==> TakesAll(v.files[c.level + 1], c))
    && (NoBoundaryBelow(base.files[c.level + 1], c.in1) ==> NoBoundaryBelow(v.files[c.level + 1], c.in1))
  }

  ghost predicate RunningOk(r: Running, v: Version, oldest: nat, nextFile: nat) {
    r.smallest <= oldest && InputsOk(r.c, r.base, v) && Outputs(r.outs) && NumbersFree(r.outs, v, nextFile)
  }

  ghost predicate WorkOk(st: State) {
    st.running.Some? ==> RunningOk(st.running.value, st.version, Oldest(st), st.nextFile)
  }

  ghost predicate Inv(st: State, log: seq<Entry>) {
    && LogOk(log) && st.lastSequence == |log| < MAX_SEQUENCE
    && DiskOk(st.version, st.nextFile) && WorkOk(st)
    && MemoryOk(st, log, All(st.version))
    && SnapshotsOk(st.snapshots, st.lastSequence)
    && Logged(Everything(st), log) && Faithful(Everything(st), log, Horizon(st))
  }

  /** What happens in memory and to the snapshots does not disturb a compaction. */
  lemma WorkStays(st: State, st': State)
    requires WorkOk(st) && st'.running == st.running && st'.version == st.version && st'.nextFile == st.nextFile
    requires Oldest(st) <= Oldest(st')
    ensures WorkOk(st')
  {
  }

  lemma LoggedUnique(E: set<Entry>, log: seq<Entry>)
    requires Logged(E, log)
    ensures UniqueSeq(E)
  {
  }

  // Writes

  /** Skip-list insertion, as seen from the sorted contents. */
  function InsertRun(r: seq<Entry>, e: Entry): seq<Entry> {
    var n := LowerBound(r, e.ik);
    r[..n] + [e] + r[n..]
  }

  lemma InsertRunSorted(r: seq<Entry>, e: Entry)
    requires Sorted(r) && forall i | 0 <= i < |r| :: r[i].ik != e.ik
    ensures Sorted(InsertRun(r, e)) && Elements(InsertRun(r, e)) == Elements(r) + {e}
  {
    var n := LowerBound(r, e.ik);
    var r' := InsertRun(r, e);
    forall i | n <= i < |r|
      ensures Less(e.ik, r[i].ik)
    {
      assert i == n || Less(r[n].ik, r[i].ik);
    }
    assert forall i | 0 <= i < |r'| :: r'[i] == if i < n then r[i] else if i == n then e else r[i - 1];
    InsertElements(r, n, e);
  }

  lemma InsertElements(r: seq<Entry>, n: nat, e: Entry)
    requires n <= |r|
    ensures Elements(r[..n] + [e] + r[n..]) == Elements(r) + {e}
  {
    assert r == r[..n] + r[n..];
  }

  function AddOp(st: State, op: Op): State {
    st.(mem := InsertRun(st.mem, EntryOf(op, st.lastSequence + 1)), lastSequence := st.lastSequence + 1)
  }

  lemma AddFaithful(E: set<Entry>, log: seq<Entry>, e: Entry, from: nat)
    requires Logged(E, log) && Faithful(E, log, from) && e.ik.sn == |log| + 1
    ensures Logged(E + {e}, log + [e]) && Faithful(E + {e}, log + [e], from)
  {
    var E', log' := E + {e}, log + [e];
    assert log'[..|log|] == log;
    LoggedUnique(E', log');
    forall u, s: nat | s >= from
      ensures Meaning(E', u, s) == View(LogNewest(log', u, s))
    {
      if Sees(e, u, s) {
        assert IsNewest(E', u, s, e);
      } else {
        assert Answers(E', u, s, Newest(E, u, s));
      }
    }
  }

  lemma AddKeepsInv(st: State, log: seq<Entry>, op: Op)
    requires Inv(st, log) && |log| + 1 < MAX_SEQUENCE
    ensures Inv(AddOp(st, op), log + [EntryOf(op, |log| + 1)])
  {
    hide DiskOk, MemoryOk, WorkOk, Logged, Faithful, InsertRun, Everything;
    var e, st' := EntryOf(op, |log| + 1), AddOp(st, op);
    AddSorted(st, log, e);
    AddMemory(st, log, e, st');
    AddFaithful(Everything(st), log, e, Horizon(st));
    WorkStays(st, st');
    LaterFaithful(Everything(st'), log + [e], Horizon(st), Horizon(st'));
  }

  lemma LaterFaithful(E: set<Entry>, log: seq<Entry>, from: nat, later: nat)
    requires Faithful(E, log, from) && from <= later
    ensures Faithful(E, log, later)
  {
  }

  lemma AddSorted(st: State, log: seq<Entry>, e: Entry)
    requires MemoryOk(st, log, All(st.version)) && Logged(Everything(st), log) && e.ik.sn == |log| + 1
    ensures
      && Sorted(InsertRun(st.mem, e)) && |InsertRun(st.mem, e)| == |st.mem| + 1
      && Elements(InsertRun(st.mem, e)) == Elements(st.mem) + {e}
  {
    forall i | 0 <= i < |st.mem|
      ensures st.mem[i].ik != e.ik
    {
      assert st.mem[i] in Everything(st);
    }
    InsertRunSorted(st.mem, e);
  }

  lemma AddMemory(st: State, log: seq<Entry>, e: Entry, st': State)
    requires MemoryOk(st, log, All(st.version)) && e.ik.sn == |log| + 1 && st.lastSequence == |log|
    requires st'.imm == st.imm && st'.version == st.version && Sorted(st'.mem) && |st'.mem| == |st.mem| + 1
    requires Elements(st'.mem) == Elements(st.mem) + {e} && st'.lastSequence == st.lastSequence + 1
    ensures MemoryOk(st', log + [e], All(st'.version)) && Everything(st') == Everything(st) + {e}
  {
    assert Everything(st') == Everything(st) + {e};
    HoldsMore(st.mem, log, e, BeforeMem(st), st'.mem);
    if st.imm.Some? {
      HoldsStill(st.imm.value, log, e, OnDisk(st), BeforeMem(st));
    }
  }

  lemma HoldsMore(r: seq<Entry>, log: seq<Entry>, e: Entry, from: int, r': seq<Entry>)
    requires Holds(r, log, from, |log|) && e.ik.sn == |log| + 1 && Sorted(r') && Elements(r') == Elements(r) + {e}
    ensures Holds(r', log + [e], from, |log| + 1)
  {
    forall d | d in r'
      ensures from < d.ik.sn <= |log| + 1
    {
      assert d in Elements(r');
    }
    forall n | from <= n < |log| + 1
      ensures (log + [e])[n] in r'
    {
      assert (log + [e])[n] in Elements(r) + {e};
    }
  }

  lemma HoldsStill(r: seq<Entry>, log: seq<Entry>, e: Entry, from: int, to: int)
    requires Holds(r, log, from, to)
    ensures Holds(r, log + [e], from, to)
  {
  }

  // Memtable switch

  function Switch(st: State): State {
    st.(imm := Some(st.mem), mem := [])
  }

  lemma SwitchKeepsInv(st: State, log: seq<Entry>)
    requires Inv(st, log) && st.imm.None?
    ensures Inv(Switch(st), log)
  {
    hide DiskOk, WorkOk, Logged, Faithful, All;
    assert Everything(Switch(st)) == Everything(st);
    WorkStays(st, Switch(st));
    SwitchMemory(st, log);
  }

  lemma SwitchMemory(st: State, log: seq<Entry>)
    requires MemoryOk(st, log, All(st.version)) && st.imm.None? && st.lastSequence == |log|
    ensures MemoryOk(Switch(st), log, All(st.version)) && Horizon(Switch(st)) == Horizon(st)
  {
  }

  // Flush

  function FlushedFile(st: State, run: seq<Entry>, size: nat): File
    requires run != []
  {
    File(st.nextFile, size, run[0].ik, run[|run| - 1].ik, run)
  }

  /** CompactMemTable: the immutable memtable becomes a file, unless it is empty. */
  ghost predicate FlushStep(st: State, level: nat, size: nat, st': State) {
    && st.imm.Some?
    && st' == st.(imm := None, version := st'.version, nextFile := st.nextFile + 1)
    && if st.imm.value == [] then st'.version == st.version
       else
         && |st.version.files| == NUM_LEVELS && level < NUM_LEVELS
         && FlushInstall(st.version, level, FlushedFile(st, st.imm.value, size), st'.version)
         && ClearPath(st.version, level, FlushedFile(st, st.imm.value, size))
  }

  lemma FlushKeepsInv(st: State, log: seq<Entry>, level: nat, size: nat, st': State)
    requires Inv(st, log) && FlushStep(st, level, size, st')
    ensures Inv(st', log)
  {
    hide DiskOk, MemoryOk, WorkOk, Logged, Faithful, Everything, All, ImmEntries;
    FlushVersion(st, log, level, size, st');
    FlushMemory(st, log, st');
    LaterFaithful(Everything(st'), log, Horizon(st), Horizon(st'));
    FlushWork(st, log, level, size, st');
  }

  lemma FlushVersion(st: State, log: seq<Entry>, level: nat, size: nat, st': State)
    requires Inv(st, log) && FlushStep(st, level, size, st')
    ensures DiskOk(st'.version, st'.nextFile)
    ensures All(st'.version) == All(st.version) + ImmEntries(st)
  {
    hide VersionOk, WorkOk, MemoryOk, Logged, Faithful, FlushInstall, ClearPath, All;
    if st.imm.value != [] {
      FlushVersionOk(st, log, level, size, st');
      FlushEntries(st.version, level, FlushedFile(st, st.imm.value, size), st'.version);
      FlushNumbers(st.version, level, FlushedFile(st, st.imm.value, size), st'.version, st.nextFile);
    }
  }

  /** A flush inside a running compaction leaves it what it relies on. */
  lemma FlushWork(st: State, log: seq<Entry>, level: nat, size: nat, st': State)
    requires Inv(st, log) && FlushStep(st, level, size, st')
    ensures WorkOk(st')
  {
    hide DiskOk, MemoryOk, Logged, Faithful, InputsOk, Outputs, FlushInstall;
    if st.running.Some? && st.imm.value != [] {
      var r, f := st.running.value, FlushedFile(st, st.imm.value, size);
      FlushIsFlushable(st, log, level, size);
      FlushKeepsInputs(st.version, level, f, st'.version, r.c, r.base);
      FlushKeepsFree(st.version, level, f, st'.version, r.outs, st.nextFile);
    }
  }

  lemma FlushKeepsInputs(v: Version, level: nat, f: File, v': Version, c: Compaction, base: Version)
    requires Flushable(v, level, f) && FlushInstall(v, level, f, v') && InputsOk(c, base, v)
    ensures InputsOk(c, base, v')
  {
    hide Held, BaseLevel, Gapless, TakesAll, NoBoundaryBelow, InputEntries, LevelEdit, FilesOk, SortedDisjoint,
      Above, LevelsAbove, ZeroOrdered, ClearPath;
    FlushKeepsHeld(v, level, f, v', c);
    forall e | e in InputEntries(c) && BaseLevel(base, c.level, e.ik.user)
      ensures BaseLevel(v', c.level, e.ik.user)
    {
      FlushKeepsBase(v, level, f, v', c, e);
    }
    if Gapless(Both(c)) {
      FlushFitsGapless(v, level, f, v', c);
    }
    if NoBoundaryBelow(base.files[c.level + 1], c.in1) {
      FlushAddsNoBoundary(v, level, f, v', c);
    }
  }

  lemma FlushKeepsFree(v: Version, level: nat, f: File, v': Version, outs: seq<File>, nextFile: nat)
    requires |v.files| == NUM_LEVELS && level < NUM_LEVELS && FlushInstall(v, level, f, v') && f.number == nextFile
    requires NumbersFree(outs, v, nextFile)
    ensures NumbersFree(outs, v', nextFile + 1)
  {
    AddedFile(v.files[level], f, v'.files[level]);
  }

  lemma FlushVersionOk(st: State, log: seq<Entry>, level: nat, size: nat, st': State)
    requires Inv(st, log) && FlushStep(st, level, size, st') && st.imm.value != []
    ensures VersionOk(st'.version)
  {
    FlushIsFlushable(st, log, level, size);
    FlushKeepsInvariant(st.version, level, FlushedFile(st, st.imm.value, size), st'.version);
  }

  lemma FlushMemory(st: State, log: seq<Entry>, st': State)
    requires MemoryOk(st, log, All(st.version)) && st.imm.Some? && st' == st.(imm := None, version := st'.version, nextFile := st'.nextFile)
    requires All(st'.version) == All(st.version) + ImmEntries(st)
    ensures MemoryOk(st', log, All(st'.version)) && Everything(st') == Everything(st) && Horizon(st) <= Horizon(st')
  {
  }

  lemma FlushIsFlushable(st: State, log: seq<Entry>, level: nat, size: nat)
    requires Inv(st, log) && st.imm.Some? && st.imm.value != [] && level < NUM_LEVELS
    requires ClearPath(st.version, level, FlushedFile(st, st.imm.value, size))
    ensures Flushable(st.version, level, FlushedFile(st, st.imm.value, size))
  {
    hide Holds, Logged, Faithful, WorkOk, ClearPath, All;
    var f := FlushedFile(st, st.imm.value, size);
    MemoryAbove(st, log, All(st.version));
    forall i | 0 <= i < NUM_LEVELS
      ensures Above(Elements(f.run), FileEntries(st.version.files[i]))
    {
      AllMembers(st.version);
      assert FileEntries(st.version.files[i]) <= All(st.version);
    }
  }

  lemma FlushNumbers(v: Version, level: nat, f: File, v': Version, nextFile: nat)
    requires |v.files| == NUM_LEVELS && level < NUM_LEVELS && NumbersOk(v, nextFile)
    requires FlushInstall(v, level, f, v') && f.number == nextFile
    ensures NumbersOk(v', nextFile + 1)
  {
    forall i, g | 0 <= i < NUM_LEVELS && g in v'.files[i]
      ensures g in v.files[i] || (i == level && g == f)
    {
    }
  }

  lemma SameMemory(st: State, log: seq<Entry>, st': State, onDisk: set<Entry>)
    requires MemoryOk(st, log, onDisk) && st'.mem == st.mem && st'.imm == st.imm && st'.lastSequence == st.lastSequence
    ensures MemoryOk(st', log, onDisk) && InMemory(st') == InMemory(st) && OnDisk(st') == OnDisk(st)
  {
  }

  // Trivial move

  /** One file goes down a level unchanged. */
  ghost predicate MoveStep(st: State, c: Compaction, st': State) {
    && st.running.None? && |st.version.files| == NUM_LEVELS && c.level + 1 < NUM_LEVELS
    && Compactable(st.version.files[c.level], st.version.files[c.level + 1], c)
    && |c.in0| == 1 && c.in1 == []
    && CompactionInstall(st.version, c, c.in0, st'.version)
    && st' == st.(version := st'.version)
  }

  lemma MoveKeepsInv(st: State, log: seq<Entry>, c: Compaction, st': State)
    requires Inv(st, log) && MoveStep(st, c, st')
    ensures Inv(st', log)
  {
    hide DiskOk, MemoryOk, Logged, Faithful, Compactable, CompactionInstall, All;
    MoveVersion(st, log, c, st');
    SameMemory(st, log, st', All(st.version));
    assert Everything(st') == Everything(st);
  }

  lemma MoveVersion(st: State, log: seq<Entry>, c: Compaction, st': State)
    requires Inv(st, log) && MoveStep(st, c, st')
    ensures DiskOk(st'.version, st'.nextFile)
    ensures All(st'.version) == All(st.version)
  {
    hide MemoryOk, Logged, Faithful, WorkOk, NumbersOk, All;
    MoveIsInstallable(st.version, c, st'.version);
    hide VersionOk, Installable, CompactionInstall, Compactable;
    CompactionKeepsInvariant(st.version, c, c.in0, st'.version);
    CompactionEntries(st.version, c, c.in0, st'.version);
    MoveNumbers(st.version, c, st'.version, st.nextFile);
  }

  lemma MoveIsInstallable(v: Version, c: Compaction, v': Version)
    requires VersionOk(v) && c.level + 1 < NUM_LEVELS && Compactable(v.files[c.level], v.files[c.level + 1], c)
    requires |c.in0| == 1 && c.in1 == [] && CompactionInstall(v, c, c.in0, v')
    requires forall f | f in c.in0 :: f !in v.files[c.level + 1]
    ensures Installable(v, c, c.in0, v') && TakesAll(v.files[c.level + 1], c)
    ensures InputEntries(c) == FileEntries(c.in0)
  {
    hide ZeroOrdered, LevelsAbove, CompactionInstall;
    HeldAtStart(v.files[c.level], v.files[c.level + 1], c);
    assert c.in0[0] in c.in0;
  }

  /** Where a file of the new version was before the move. */
  lemma MovedFrom(v: Version, c: Compaction, v': Version, nextFile: nat, i: nat, f: File) returns (o: nat)
    requires |v.files| == NUM_LEVELS && c.level + 1 < NUM_LEVELS && NumbersOk(v, nextFile) && |c.in0| == 1
    requires c.in0[0] in v.files[c.level] && c.in1 == [] && CompactionInstall(v, c, c.in0, v')
    requires i < NUM_LEVELS && f in v'.files[i]
    ensures o < NUM_LEVELS && f in v.files[o]
    ensures if f == c.in0[0] then i == c.level + 1 else i == o
  {
    o := if f == c.in0[0] then c.level else i;
    assert c.in0[0] in c.in0;
  }

  lemma MoveNumbers(v: Version, c: Compaction, v': Version, nextFile: nat)
    requires |v.files| == NUM_LEVELS && c.level + 1 < NUM_LEVELS && NumbersOk(v, nextFile) && |c.in0| == 1
    requires c.in0[0] in v.files[c.level] && c.in1 == [] && CompactionInstall(v, c, c.in0, v')
    ensures NumbersOk(v', nextFile)
  {
    forall i, f | 0 <= i < NUM_LEVELS && f in v'.files[i]
      ensures f.number < nextFile
    {
      var o := MovedFrom(v, c, v', nextFile, i, f);
    }
    forall i, j, f, g | 0 <= i < NUM_LEVELS && 0 <= j < NUM_LEVELS && f in v'.files[i] && g in v'.files[j]
      && f.number == g.number
      ensures i == j && f == g
    {
      MovedOnce(v, c, v', nextFile, i, j, f, g);
    }
    MovedOrder(v, c, v');
  }

  lemma MovedOrder(v: Version, c: Compaction, v': Version)
    requires |v.files| == NUM_LEVELS && c.level + 1 < NUM_LEVELS && CompactionInstall(v, c, c.in0, v')
    requires forall i | 0 <= i < NUM_LEVELS :: BySmallest(v.files[i])
    ensures forall i | 0 <= i < NUM_LEVELS :: BySmallest(v'.files[i])
  {
  }

  lemma MovedOnce(v: Version, c: Compaction, v': Version, nextFile: nat, i: nat, j: nat, f: File, g: File)
    requires |v.files| == NUM_LEVELS && c.level + 1 < NUM_LEVELS && NumbersOk(v, nextFile) && |c.in0| == 1
    requires c.in0[0] in v.files[c.level] && c.in1 == [] && CompactionInstall(v, c, c.in0, v')
    requires i < NUM_LEVELS && j < NUM_LEVELS && f in v'.files[i] && g in v'.files[j] && f.number == g.number
    ensures i == j && f == g
  {
    var o := MovedFrom(v, c, v', nextFile, i, f);
    var p := MovedFrom(v, c, v', nextFile, j, g);
  }

  // Compaction

  function Runs(files: seq<File>): (r: seq<seq<Entry>>)
    ensures |r| == |files| && forall i | 0 <= i < |files| :: r[i] == files[i].run
  {
    seq(|files|, i requires 0 <= i < |files| => files[i].run)
  }

  /** The input iterator of a compaction yields the entries of its files in order. */
  ghost predicate MergedInput(c: Compaction, input: seq<Entry>) {
    Sorted(input) && Elements(input) == InputEntries(c)
  }

  /** The entries the compaction keeps: it asks the version it started from which keys lie no deeper. */
  ghost function KeptBy(r: Running, input: seq<Entry>): seq<Entry>
    requires |r.base.files| == NUM_LEVELS
  {
    Kept(input, |input|, r.smallest, BaseKeys(r.base, r.c.level, input))
  }

  /** The inputs are taken, and smallest_snapshot is fixed; from here on the mutex is released. */
  ghost predicate StartStep(st: State, c: Compaction, st': State) {
    && st.running.None? && |st.version.files| == NUM_LEVELS && c.level + 1 < NUM_LEVELS
    && Compactable(st.version.files[c.level], st.version.files[c.level + 1], c)
    && st' == st.(running := Some(Running(c, st.version, Oldest(st), [])))
  }

  /** One more output file is finished. */
  ghost predicate OutputStep(st: State, f: File, st': State) {
    && st.running.Some? && f.number == st.nextFile && Outputs([f])
    && st' == st.(nextFile := st.nextFile + 1,
                  running := Some(st.running.value.(outs := st.running.value.outs + [f])))
  }

  /** InstallCompactionResults, when the outputs hold what the merge loop keeps of `input`. */
  ghost predicate InstallStep(st: State, input: seq<Entry>, st': State) {
    && st.running.Some?
    && var r := st.running.value;
    && |st.version.files| == NUM_LEVELS && |r.base.files| == NUM_LEVELS && r.c.level + 1 < NUM_LEVELS
    && MergedInput(r.c, input) && Flatten(Runs(r.outs)) == KeptBy(r, input)
    && CompactionInstall(st.version, r.c, r.outs, st'.version)
    && st' == st.(version := st'.version, running := None)
  }

  lemma StartKeepsInv(st: State, log: seq<Entry>, c: Compaction, st': State)
    requires Inv(st, log) && StartStep(st, c, st')
    ensures Inv(st', log)
  {
    hide MemoryOk, Logged, Faithful, DiskOk, WorkOk, Compactable, All;
    assert Everything(st') == Everything(st);
    SameMemory(st, log, st', All(st.version));
    StartWork(st, c, st');
  }

  lemma StartWork(st: State, c: Compaction, st': State)
    requires DiskOk(st.version, st.nextFile) && StartStep(st, c, st')
    ensures WorkOk(st')
  {
    hide VersionOk, NumbersOk, Compactable, InputsOk;
    StartInputs(st.version, c);
  }

  lemma StartInputs(v: Version, c: Compaction)
    requires VersionOk(v) && c.level + 1 < NUM_LEVELS && Compactable(v.files[c.level], v.files[c.level + 1], c)
    ensures InputsOk(c, v, v)
  {
    hide Compactable, Held, TakesAll, Gapless, LevelsAbove, ZeroOrdered, NoBoundaryBelow, BaseLevel;
    HeldAtStart(v.files[c.level], v.files[c.level + 1], c);
  }

  lemma OutputKeepsInv(st: State, log: seq<Entry>, f: File, st': State)
    requires Inv(st, log) && OutputStep(st, f, st')
    ensures Inv(st', log)
  {
    hide MemoryOk, Logged, Faithful, VersionOk, InputsOk;
    assert Everything(st') == Everything(st);
    SameMemory(st, log, st', All(st.version));
    OneMoreOutput(st.running.value.outs, st.version, st.nextFile, f);
  }

  lemma OneMoreOutput(outs: seq<File>, v: Version, nextFile: nat, f: File)
    requires Outputs(outs) && Outputs([f]) && NumbersFree(outs, v, nextFile) && f.number == nextFile && NumbersOk(v, nextFile)
    ensures Outputs(outs + [f]) && NumbersFree(outs + [f], v, nextFile + 1) && NumbersOk(v, nextFile + 1)
  {
    hide BySmallest;
    assert forall g | g in outs + [f] :: g in outs || g in [f];
    NumbersRise(outs, f);
  }

  lemma NumbersRise(outs: seq<File>, f: File)
    requires forall i, j | 0 <= i < j < |outs| :: outs[i].number < outs[j].number
    requires forall g | g in outs :: g.number < f.number
    ensures forall i, j | 0 <= i < j < |outs + [f]| :: (outs + [f])[i].number < (outs + [f])[j].number
  {
  }

  lemma AbandonKeepsInv(st: State, log: seq<Entry>)
    requires Inv(st, log)
    ensures Inv(st.(running := None), log)
  {
    hide Logged, Faithful, DiskOk;
    assert Everything(st.(running := None)) == Everything(st);
    SameMemory(st, log, st.(running := None), All(st.version));
  }

  lemma {:induction false} OutputsOk(outs: seq<File>)
    requires Outputs(outs) && Sorted(Flatten(Runs(outs)))
    ensures FilesOk(outs) && SortedDisjoint(outs)
    ensures FileEntries(outs) == Elements(Flatten(Runs(outs)))
  {
    hide SortedDisjoint, Flatten, Runs, Outputs, Sorted, FileOk;
    if outs == [] {
      NoOutputs(outs);
    } else {
      var n := |outs| - 1;
      var f, r := outs[n], Flatten(Runs(outs[..n]));
      FlattenLast(outs);
      SortedParts(r, f.run);
      FirstOutputs(outs);
      assert FileOk(f);
      OutputsOk(outs[..n]);
      LastOutput(outs, r);
      EntriesAppend(outs[..n], f);
      assert outs == outs[..n] + [f];
    }
  }

  lemma NoOutputs(outs: seq<File>)
    requires outs == []
    ensures FilesOk(outs) && SortedDisjoint(outs) && FileEntries(outs) == Elements(Flatten(Runs(outs)))
  {
  }

  lemma FirstOutputs(outs: seq<File>)
    requires Outputs(outs) && outs != []
    ensures Outputs(outs[..|outs| - 1])
    ensures Sorted(outs[|outs| - 1].run) ==> FileOk(outs[|outs| - 1])
  {
    assert forall g | g in outs[..|outs| - 1] :: g in outs;
    assert outs[|outs| - 1] in outs;
  }

  lemma FlattenLast(outs: seq<File>)
    requires outs != []
    ensures Flatten(Runs(outs)) == Flatten(Runs(outs[..|outs| - 1])) + outs[|outs| - 1].run
  {
    var n := |outs| - 1;
    assert Runs(outs)[..n] == Runs(outs[..n]);
  }

  lemma SortedParts(a: seq<Entry>, b: seq<Entry>)
    requires Sorted(a + b)
    ensures Sorted(a) && Sorted(b) && Elements(a + b) == Elements(a) + Elements(b)
  {
    var all := a + b;
    assert forall i | 0 <= i < |a| :: all[i] == a[i];
    assert forall i | 0 <= i < |b| :: all[|a| + i] == b[i];
  }

  lemma EntriesAppend(files: seq<File>, f: File)
    ensures FileEntries(files + [f]) == FileEntries(files) + Elements(f.run)
  {
    assert forall g :: g in files + [f] <==> g in files || g == f;
  }

  lemma LastOutput(outs: seq<File>, r: seq<Entry>)
    requires outs != [] && FilesOk(outs[..|outs| - 1]) && SortedDisjoint(outs[..|outs| - 1])
    requires Elements(r) == FileEntries(outs[..|outs| - 1]) && FileOk(outs[|outs| - 1])
    requires Sorted(r + outs[|outs| - 1].run)
    ensures SortedDisjoint(outs)
  {
    var n := |outs| - 1;
    var f := outs[n];
    forall i | 0 <= i < n
      ensures Less(outs[i].largest, f.smallest)
    {
      assert outs[..n][i] == outs[i] && outs[i] in outs[..n];
      var e := outs[i].run[|outs[i].run| - 1];
      assert e in outs[i].run;
      assert e in Elements(r);
      var k :| 0 <= k < |r| && r[k] == e;
      assert Less((r + f.run)[k].ik, (r + f.run)[|r|].ik);
    }
    assert forall i | 0 <= i < n :: outs[i] == outs[..n][i];
  }

  lemma OutputsOfInput(r: Running, input: seq<Entry>)
    requires |r.base.files| == NUM_LEVELS && MergedInput(r.c, input) && Outputs(r.outs)
    requires Flatten(Runs(r.outs)) == KeptBy(r, input)
    ensures FilesOk(r.outs) && SortedDisjoint(r.outs)
    ensures FileEntries(r.outs) == Elements(KeptBy(r, input)) <= InputEntries(r.c)
  {
    hide Kept, Flatten, Runs, BaseKeys;
    KeptSorted(input, |input|, r.smallest, BaseKeys(r.base, r.c.level, input));
    KeptMembers(input, |input|, r.smallest, BaseKeys(r.base, r.c.level, input));
    OutputsOk(r.outs);
  }

  lemma InstallVersion(st: State, input: seq<Entry>, st': State)
    requires VersionOk(st.version) && WorkOk(st) && InstallStep(st, input, st')
    ensures var r := st.running.value; VersionOk(st'.version) <==> OutputsFit(st.version.files[r.c.level + 1], r.c, r.outs)
  {
    hide VersionOk, Held, BaseLevel, Gapless, TakesAll, NoBoundaryBelow, SortedLevels, CompactionInstall, Flatten,
      KeptBy;
    var r := st.running.value;
    OutputsOfInput(r, input);
    hide MergedInput, FilesOk, SortedDisjoint, Outputs;
    InstallIsOkIff(st.version, r.c, r.outs, st'.version);
  }

  lemma InstallAll(st: State, input: seq<Entry>, st': State)
    requires WorkOk(st) && InstallStep(st, input, st')
    ensures var r := st.running.value;
      && All(st.version) == Rest(st.version, r.c) + Elements(input)
      && All(st'.version) == Rest(st.version, r.c) + Elements(KeptBy(r, input))
      && Elements(KeptBy(r, input)) <= Elements(input)
  {
    hide Held, BaseLevel, Gapless, TakesAll, NoBoundaryBelow, SortedLevels, CompactionInstall, Flatten, KeptBy;
    var r := st.running.value;
    OutputsOfInput(r, input);
    CompactionEntries(st.version, r.c, r.outs, st'.version);
  }

  /** A file of the new version was in the old one, or is one of the outputs. */
  lemma InstalledFile(v: Version, c: Compaction, outs: seq<File>, v': Version, i: nat, f: File)
    requires |v.files| == NUM_LEVELS && c.level + 1 < NUM_LEVELS && CompactionInstall(v, c, outs, v')
    requires i < NUM_LEVELS && f in v'.files[i]
    ensures f in v.files[i] || (i == c.level + 1 && f in outs)
  {
  }

  lemma InstallNumbers(v: Version, c: Compaction, outs: seq<File>, v': Version, nextFile: nat)
    requires |v.files| == NUM_LEVELS && c.level + 1 < NUM_LEVELS && NumbersOk(v, nextFile)
    requires CompactionInstall(v, c, outs, v') && NumbersFree(outs, v, nextFile)
    ensures NumbersOk(v', nextFile)
  {
    hide LevelEdit;
    forall i, f | 0 <= i < NUM_LEVELS && f in v'.files[i]
      ensures f.number < nextFile
    {
      InstalledFile(v, c, outs, v', i, f);
    }
    forall i, j, f, g | 0 <= i < NUM_LEVELS && 0 <= j < NUM_LEVELS && f in v'.files[i] && g in v'.files[j]
      && f.number == g.number
      ensures i == j && f == g
    {
      InstalledOnce(v, c, outs, v', nextFile, i, j, f, g);
    }
    CompactOrder(v, c, outs, v');
  }

  lemma InstalledOnce(v: Version, c: Compaction, outs: seq<File>, v': Version, nextFile: nat, i: nat, j: nat, f: File, g: File)
    requires |v.files| == NUM_LEVELS && c.level + 1 < NUM_LEVELS && NumbersOk(v, nextFile)
    requires CompactionInstall(v, c, outs, v') && NumbersFree(outs, v, nextFile)
    requires i < NUM_LEVELS && j < NUM_LEVELS && f in v'.files[i] && g in v'.files[j] && f.number == g.number
    ensures i == j && f == g
  {
    hide CompactionInstall;
    InstalledFile(v, c, outs, v', i, f);
    InstalledFile(v, c, outs, v', j, g);
    if f in outs && g in outs {
      var x :| 0 <= x < |outs| && outs[x] == f;
      var y :| 0 <= y < |outs| && outs[y] == g;
    }
  }

  lemma CompactOrder(v: Version, c: Compaction, outs: seq<File>, v': Version)
    requires |v.files| == NUM_LEVELS && c.level + 1 < NUM_LEVELS && CompactionInstall(v, c, outs, v')
    requires forall i | 0 <= i < NUM_LEVELS :: BySmallest(v.files[i])
    ensures forall i | 0 <= i < NUM_LEVELS :: BySmallest(v'.files[i])
  {
  }

  /** What the database holds outside the inputs of the compaction. */
  ghost function Untouched(st: State, c: Compaction): set<Entry> {
    InMemory(st) + Rest(st.version, c)
  }

  ghost predicate NothingExposed(rest: set<Entry>, input: seq<Entry>, smallest: nat, base: set<UserKey>, from: nat) {
    forall i | 0 <= i < |input| :: !Exposes(rest, input, smallest, base, from, i)
  }

  ghost predicate InstallReady(st: State) {
    && st.running.Some? && |st.version.files| == NUM_LEVELS && |st.running.value.base.files| == NUM_LEVELS
    && st.running.value.c.level + 1 < NUM_LEVELS
  }

  /** The install shows no reader an older value, and its outputs meet no file that stays at their level. */
  ghost predicate Harmless(st: State, input: seq<Entry>)
    requires InstallReady(st)
  {
    var r := st.running.value;
    && NothingExposed(Untouched(st, r.c), input, r.smallest, BaseKeys(r.base, r.c.level, input), Horizon(st))
    && OutputsFit(st.version.files[r.c.level + 1], r.c, r.outs)
  }

  /** Installing a compaction keeps the files of each level apart, and reads faithful, exactly when it is harmless. */
  lemma InstallIsSafeIff(st: State, log: seq<Entry>, input: seq<Entry>, st': State)
    requires Inv(st, log) && InstallStep(st, input, st')
    ensures var r := st.running.value; VersionOk(st'.version) <==> OutputsFit(st.version.files[r.c.level + 1], r.c, r.outs)
    ensures Inv(st', log) <==> Harmless(st, input)
  {
    hide VersionOk, InstallStep, NumbersOk, MemoryOk, WorkOk, Logged, Faithful, NothingExposed, OutputsFit,
      Everything, BaseKeys, Untouched;
    InstallShape(st, input, st');
    var r := st.running.value;
    InstallVersion(st, input, st');
    InstallNumbers(st.version, r.c, r.outs, st'.version, st.nextFile);
    InstallMemory(st, log, input, st');
    InstallIsFaithfulIff(st, log, input, st');
  }

  lemma InstallIsFaithfulIff(st: State, log: seq<Entry>, input: seq<Entry>, st': State)
    requires Inv(st, log) && InstallStep(st, input, st')
    ensures Logged(Everything(st'), log)
    ensures var r := st.running.value;
      Faithful(Everything(st'), log, Horizon(st)) <==>
        NothingExposed(Untouched(st, r.c), input, r.smallest, BaseKeys(r.base, r.c.level, input), Horizon(st))
  {
    hide VersionOk, NumbersOk, Logged, Faithful, NothingExposed, Everything, BaseKeys, Untouched, CompactionInstall,
      Flatten,
      Kept, NumbersFree, SortedLevels, Held, Gapless, TakesAll, NoBoundaryBelow, BaseLevel;
    var r := st.running.value;
    var base := BaseKeys(r.base, r.c.level, input);
    var smallest := if r.smallest < OnDisk(st) then r.smallest else OnDisk(st);
    InstallMemory(st, log, input, st');
    InputOnDisk(st, log, input, st');
    SmallestOnDisk(input, r.smallest, smallest, OnDisk(st), base, |input|);
    ExposedOnDisk(input, r.smallest, smallest, OnDisk(st), base, Untouched(st, r.c), Horizon(st));
    FaithfulIff(Everything(st), Everything(st'), log, Untouched(st, r.c), input, smallest, base, Horizon(st));
  }

  /** What is written after the inputs does not matter to the merge loop. */
  lemma {:induction false} SmallestOnDisk(input: seq<Entry>, smallest: nat, lower: nat, top: nat, base: set<UserKey>, n: nat)
    requires lower == (if smallest < top then smallest else top) && n <= |input| && forall e | e in input :: e.ik.sn <= top
    ensures Kept(input, n, smallest, base) == Kept(input, n, lower, base)
  {
    if n > 0 {
      SmallestOnDisk(input, smallest, lower, top, base, n - 1);
    }
  }

  lemma ExposedOnDisk(input: seq<Entry>, smallest: nat, lower: nat, top: nat, base: set<UserKey>, rest: set<Entry>, from: nat)
    requires lower == (if smallest < top then smallest else top) && forall e | e in input :: e.ik.sn <= top
    ensures NothingExposed(rest, input, smallest, base, from) <==> NothingExposed(rest, input, lower, base, from)
  {
    forall i | 0 <= i < |input|
      ensures Exposes(rest, input, smallest, base, from, i) <==> Exposes(rest, input, lower, base, from, i)
    {
      assert input[i] in input;
    }
  }

  lemma InputOnDisk(st: State, log: seq<Entry>, input: seq<Entry>, st': State)
    requires Inv(st, log) && InstallStep(st, input, st')
    ensures 0 <= OnDisk(st) && forall e | e in input :: e.ik.sn <= OnDisk(st)
  {
    InstallAll(st, input, st');
    forall e | e in input
      ensures e in All(st.version)
    {
      assert e in Elements(input);
    }
  }

  lemma InstallShape(st: State, input: seq<Entry>, st': State)
    requires InstallStep(st, input, st') && WorkOk(st)
    ensures
      && st.running.Some? && st' == st.(version := st'.version, running := None)
      && WorkOk(st') && Horizon(st') == Horizon(st)
    ensures var r := st.running.value;
      && |st.version.files| == NUM_LEVELS && |r.base.files| == NUM_LEVELS && r.c.level + 1 < NUM_LEVELS
      && CompactionInstall(st.version, r.c, r.outs, st'.version) && NumbersFree(r.outs, st.version, st.nextFile)
      && Sorted(input) && r.smallest <= Oldest(st)
  {
    hide Held, Gapless, TakesAll, NoBoundaryBelow, BaseLevel, SortedLevels, CompactionInstall, KeptBy, Flatten,
      NumbersFree, Outputs;
  }

  lemma FaithfulIff(E: set<Entry>, E': set<Entry>, log: seq<Entry>, rest: set<Entry>, input: seq<Entry>,
                    smallest: nat, base: set<UserKey>, from: nat)
    requires Logged(E, log) && Faithful(E, log, from) && Sorted(input) && smallest <= from
    requires E == rest + Elements(input) && E' == rest + Elements(Kept(input, |input|, smallest, base)) && E' <= E
    ensures Logged(E', log)
    ensures Faithful(E', log, from) <==> NothingExposed(rest, input, smallest, base, from)
  {
    LoggedUnique(E, log);
    CompactionPreservesMeaning(rest, input, smallest, base, from);
    FaithfulIffSame(E, E', log, from);
  }

  lemma FaithfulIffSame(E: set<Entry>, E': set<Entry>, log: seq<Entry>, from: nat)
    requires Faithful(E, log, from)
    ensures Faithful(E', log, from) <==> SameForReaders(E, E', from)
  {
  }

  lemma InstallMemory(st: State, log: seq<Entry>, input: seq<Entry>, st': State)
    requires MemoryOk(st, log, All(st.version)) && WorkOk(st) && InstallStep(st, input, st')
    ensures MemoryOk(st', log, All(st'.version))
    ensures var r := st.running.value;
      && Everything(st) == Untouched(st, r.c) + Elements(input)
      && Everything(st') == Untouched(st, r.c) + Elements(KeptBy(r, input)) <= Everything(st)
  {
    hide MemoryOk, WorkOk;
    InstallAll(st, input, st');
    ShrinkMemory(st, log, st', Rest(st.version, st.running.value.c), Elements(input), Elements(KeptBy(st.running.value, input)));
  }

  lemma ShrinkMemory(st: State, log: seq<Entry>, st': State, rest: set<Entry>, was: set<Entry>, kept: set<Entry>)
    requires MemoryOk(st, log, rest + was) && st'.mem == st.mem && st'.imm == st.imm && kept <= was
    requires st'.lastSequence == st.lastSequence
    ensures MemoryOk(st', log, rest + kept) && InMemory(st') == InMemory(st)
    ensures InMemory(st) + (rest + was) == InMemory(st) + rest + was
    ensures InMemory(st) + (rest + kept) == InMemory(st) + rest + kept <= InMemory(st) + rest + was
  {
  }

  /** Without a boundary file past the inputs of the next level, nothing is exposed. */
  lemma NoBoundaryExposesNothing(st: State, log: seq<Entry>, input: seq<Entry>, st': State)
    requires Inv(st, log) && InstallStep(st, input, st')
    requires NoBoundaryBelow(st.version.files[st.running.value.c.level + 1], st.running.value.c.in1)
    ensures var r := st.running.value;
      NothingExposed(Untouched(st, r.c), input, r.smallest, BaseKeys(r.base, r.c.level, input), Horizon(st))
  {
    hide Inv, CompactionInstall, Flatten, KeptBy, MergedInput, Exposes, NoBoundaryBelow, BaseKeys, InMemory, Rest,
      All, Held, VersionOk, UniqueSeq, Above;
    var r := st.running.value;
    var base := BaseKeys(r.base, r.c.level, input);
    InstallFacts(st, log, input, st');
    forall i | 0 <= i < |input|
      ensures !Exposes(Untouched(st, r.c), input, r.smallest, base, Horizon(st), i)
    {
      if Exposes(Untouched(st, r.c), input, r.smallest, base, Horizon(st), i) {
        ExposureNeedsBoundary(st.version, r.c, InMemory(st), input, r.smallest, base, Horizon(st), i);
      }
    }
  }

  lemma InstallFacts(st: State, log: seq<Entry>, input: seq<Entry>, st': State)
    requires Inv(st, log) && InstallStep(st, input, st')
    ensures VersionOk(st.version) && UniqueSeq(InMemory(st) + All(st.version)) && Above(InMemory(st), All(st.version))
    ensures var r := st.running.value;
      && InstallReady(st)
      && Held(st.version.files[r.c.level], st.version.files[r.c.level + 1], r.c)
      && Elements(input) == InputEntries(r.c)
      && forall u | u in BaseKeys(r.base, r.c.level, input) :: BaseLevel(st.version, r.c.level, u)
  {
    hide VersionOk, NumbersOk, NumbersFree, Logged, Faithful, Held, BaseLevel, Above, CompactionInstall, KeptBy,
      Flatten, BaseKeys, UniqueSeq,
      Sorted, Gapless, TakesAll, NoBoundaryBelow, SortedLevels;
    LoggedUnique(Everything(st), log);
    MemoryAbove(st, log, All(st.version));
    KeysAreBase(st, input);
  }

  lemma KeysAreBase(st: State, input: seq<Entry>)
    requires WorkOk(st) && st.running.Some? && MergedInput(st.running.value.c, input)
    ensures var r := st.running.value;
      forall u | u in BaseKeys(r.base, r.c.level, input) :: BaseLevel(st.version, r.c.level, u)
  {
    var r := st.running.value;
    forall u | u in BaseKeys(r.base, r.c.level, input)
      ensures BaseLevel(st.version, r.c.level, u)
    {
      var e :| e in input && BaseLevel(r.base, r.c.level, e.ik.user) && e.ik.user == u;
      assert e in Elements(input);
    }
  }

  /** Inputs without a gap leave no file in their range that the outputs could meet. */
  lemma GaplessFits(st: State, log: seq<Entry>, input: seq<Entry>, st': State)
    requires Inv(st, log) && InstallStep(st, input, st') && Gapless(Both(st.running.value.c))
    ensures OutputsFit(st.version.files[st.running.value.c.level + 1], st.running.value.c, st.running.value.outs)
  {
    hide CompactionInstall, Flatten, KeptBy, NumbersOk, NumbersFree, Faithful, Logged, MemoryOk, Held,
      NoBoundaryBelow, TakesAll, Gapless, SortedDisjoint;
    var r := st.running.value;
    OutputsOfInput(r, input);
    TakingAllFits(st.version.files[r.c.level], st.version.files[r.c.level + 1], r.c, r.outs);
  }

  lemma LevelUnique(st: State, log: seq<Entry>, l: nat)
    requires Logged(Everything(st), log) && l < |st.version.files|
    ensures UniqueSeq(FileEntries(st.version.files[l]))
  {
    AllMembers(st.version);
    assert forall e | e in FileEntries(st.version.files[l]) :: e in Everything(st);
  }

  // Snapshots

  function TakeSnapshot(st: State): State {
    st.(snapshots := st.snapshots + [st.lastSequence])
  }

  function DropSnapshot(st: State, i: nat): State
    requires i < |st.snapshots|
  {
    st.(snapshots := st.snapshots[..i] + st.snapshots[i + 1..])
  }

  lemma SnapshotsKeepInv(st: State, log: seq<Entry>, st': State)
    requires Inv(st, log)
    requires st' == TakeSnapshot(st) || exists i: nat :: i < |st.snapshots| && st' == DropSnapshot(st, i)
    ensures Inv(st', log)
  {
    hide DiskOk, WorkOk, MemoryOk, Logged, Faithful, All, SnapshotsOk;
    SnapshotBounds(st, st');
    SameMemory(st, log, st', All(st.version));
    WorkStays(st, st');
    assert Everything(st') == Everything(st);
    LaterFaithful(Everything(st), log, Horizon(st), Horizon(st'));
  }

  lemma SnapshotBounds(st: State, st': State)
    requires SnapshotsOk(st.snapshots, st.lastSequence)
    requires st' == TakeSnapshot(st) || exists i: nat :: i < |st.snapshots| && st' == DropSnapshot(st, i)
    ensures Oldest(st) <= Oldest(st') && SnapshotsOk(st'.snapshots, st'.lastSequence)
    ensures st' == st.(snapshots := st'.snapshots)
  {
  }

  // Runs

  /** The atomic steps of the database. */
  datatype Step =
    | Add(op: Op)
    | SwitchMemTable
    | Flush(level: nat, size: nat)
    | Move(c: Compaction)
    | Start(c: Compaction)
    | Output(f: File)
    | Install(input: seq<Entry>)
    | Abandon
    | NewSnapshot
    | ReleaseSnapshot(i: nat)

  /** One step; `log` is the history of writes. */
  ghost predicate Next(st: State, log: seq<Entry>, step: Step, st': State, log': seq<Entry>) {
    && log' == (if step.Add? then log + [EntryOf(step.op, |log| + 1)] else log)
    && match step
       case Add(op) => |log| + 1 < MAX_SEQUENCE && st' == AddOp(st, op)
       case SwitchMemTable => st.imm.None? && st' == Switch(st)
       case Flush(level, size) => FlushStep(st, level, size, st')
       case Move(c) => MoveStep(st, c, st')
       case Start(c) => StartStep(st, c, st')
       case Output(f) => OutputStep(st, f, st')
       case Install(input) => InstallStep(st, input, st')
       case Abandon => st' == st.(running := None)
       case NewSnapshot => st' == TakeSnapshot(st)
       case ReleaseSnapshot(i) => i < |st.snapshots| && st' == DropSnapshot(st, i)
  }

  ghost predicate HarmlessStep(st: State, step: Step) {
    step.Install? ==> InstallReady(st) && Harmless(st, step.input)
  }

  /** Every step keeps the invariant, the install of a compaction exactly when it is harmless. */
  lemma NextKeepsInv(st: State, log: seq<Entry>, step: Step, st': State, log': seq<Entry>)
    requires Inv(st, log) && Next(st, log, step, st', log')
    ensures Inv(st', log') <==> HarmlessStep(st, step)
  {
    hide Inv, FlushStep, MoveStep, StartStep, OutputStep, Harmless;
    match step
    case Add(op) => AddKeepsInv(st, log, op);
    case SwitchMemTable => SwitchKeepsInv(st, log);
    case Flush(level, size) => FlushKeepsInv(st, log, level, size, st');
    case Move(c) => MoveKeepsInv(st, log, c, st');
    case Start(c) => StartKeepsInv(st, log, c, st');
    case Output(f) => OutputKeepsInv(st, log, f, st');
    case Install(input) => InstallIsSafeIff(st, log, input, st');
    case Abandon => AbandonKeepsInv(st, log);
    case NewSnapshot => SnapshotsKeepInv(st, log, st');
    case ReleaseSnapshot(i) => SnapshotsKeepInv(st, log, st');
  }

  lemma InitialInv()
    ensures Inv(INITIAL, [])
  {
    EmptyVersion();
    assert Everything(INITIAL) == {};
    assert Faithful({}, [], 0) by {
      forall u, s
        ensures Meaning({}, u, s) == View(LogNewest([], u, s))
      {
        assert Newest({}, u, s) == None;
      }
    }
  }

  lemma EmptyVersion()
    ensures DiskOk(EMPTY_VERSION, 2) && All(EMPTY_VERSION) == {}
  {
    var v := EMPTY_VERSION;
    NoFiles(v);
    AllMembers(v);
  }

  lemma NoFiles(v: Version)
    requires |v.files| == NUM_LEVELS && forall i | 0 <= i < NUM_LEVELS :: v.files[i] == []
    ensures
      && DiskOk(v, 2)
      && forall i | 0 <= i < NUM_LEVELS :: FileEntries(v.files[i]) == {}
  {
  }

  /** A run: the first state, then step after step, with the state and the log after each. */
  datatype Run = Opened | Then(before: Run, step: Step, st: State, log: seq<Entry>)

  function StateOf(run: Run): State {
    if run.Opened? then INITIAL else run.st
  }

  function LogOf(run: Run): seq<Entry> {
    if run.Opened? then [] else run.log
  }

  ghost predicate IsRun(run: Run) {
    run.Then? ==> IsRun(run.before) && Next(StateOf(run.before), LogOf(run.before), run.step, run.st, run.log)
  }

  ghost predicate AllHarmless(run: Run) {
    run.Then? ==> AllHarmless(run.before) && HarmlessStep(StateOf(run.before), run.step)
  }

  ghost predicate AllValid(run: Run) {
    Inv(StateOf(run), LogOf(run)) && (run.Then? ==> AllValid(run.before))
  }

  /** The invariant holds in every state of a run exactly when each compaction that the run installs was harmless. */
  lemma {:induction false} RunsAreValidIff(run: Run)
    requires IsRun(run)
    ensures AllValid(run) <==> AllHarmless(run)
  {
    hide Inv, Next, HarmlessStep;
    if run.Opened? {
      InitialInv();
    } else {
      RunsAreValidIff(run.before);
      if AllValid(run.before) {
        NextKeepsInv(StateOf(run.before), LogOf(run.before), run.step, run.st, run.log);
      }
    }
  }

  /** In every state of such a run, a read at a live snapshot, or at the last sequence, returns the newest
      logged write at or below it. */
  lemma RunsAreFaithful(run: Run, u: UserKey, s: nat)
    requires IsRun(run) && AllHarmless(run)
    requires s in StateOf(run).snapshots || s == StateOf(run).lastSequence
    ensures Meaning(Everything(StateOf(run)), u, s) == View(LogNewest(LogOf(run), u, s))
  {
    RunsAreValidIff(run);
    ReadersAreFaithful(StateOf(run), LogOf(run), u, s);
  }

  /** The operations a run was asked for, in order. */
  function Asked(run: Run): seq<Op> {
    if run.Opened? then [] else Asked(run.before) + if run.step.Add? then [run.step.op] else []
  }

  lemma {:induction false} RunRecords(run: Run)
    requires IsRun(run)
    ensures Records(LogOf(run), Asked(run))
  {
    if run.Then? {
      RunRecords(run.before);
      var log, ops := LogOf(run.before), Asked(run.before);
      forall i | 0 <= i < |LogOf(run)|
        ensures RecordOf(LogOf(run)[i], Asked(run)[i], i + 1)
      {
        assert i < |log| ==> RecordOf(log[i], ops[i], i + 1);
      }
    }
  }

  /** In the users' terms: such a read finds the value of the last Put among the operations it counts, and nothing
      after a Delete or without an operation on the key. */
  lemma RunsReadLastWrite(run: Run, u: UserKey, s: nat)
    requires IsRun(run) && AllHarmless(run)
    requires s in StateOf(run).snapshots || s == StateOf(run).lastSequence
    ensures Left(Asked(run), u, s, Meaning(Everything(StateOf(run)), u, s))
  {
    hide IsRun, AllHarmless, Left, Shown, Records, Meaning, Everything, LogNewest;
    RunsAreValidIff(run);
    RunRecords(run);
    RunsAreFaithful(run, u, s);
    RunLogOk(run);
    LogShows(LogOf(run), u, s);
    ShownIsLeft(LogOf(run), Asked(run), u, s, Meaning(Everything(StateOf(run)), u, s));
  }

  lemma RunLogOk(run: Run)
    requires AllValid(run)
    ensures LogOk(LogOf(run))
  {
  }

  lemma ReadersAreFaithful(st: State, log: seq<Entry>, u: UserKey, s: nat)
    requires Inv(st, log) && (s in st.snapshots || s == st.lastSequence)
    ensures s >= Oldest(st) && Meaning(Everything(st), u, s) == View(LogNewest(log, u, s))
  {
  }

  /** Every compaction the run starts covers its range without a gap and leaves no boundary file at the next level. */
  ghost predicate Careful(run: Run) {
    run.Then? ==>
      && Careful(run.before)
      && (run.step.Start? ==> CarefulStart(StateOf(run.before).version, run.step.c))
  }

  ghost predicate CarefulStart(v: Version, c: Compaction) {
    Gapless(Both(c)) && c.level + 1 < |v.files| && NoBoundaryBelow(v.files[c.level + 1], c.in1)
  }

  /** Then whatever happens while a compaction is under way, its install is harmless. */
  lemma {:induction false} CarefulIsHarmless(run: Run)
    requires IsRun(run) && Careful(run)
    ensures AllHarmless(run) && AllValid(run)
    ensures var r := StateOf(run).running; r.Some? ==> CarefulStart(r.value.base, r.value.c)
  {
    hide Inv, Next, HarmlessStep, CarefulStart;
    if run.Opened? {
      InitialInv();
    } else {
      CarefulIsHarmless(run.before);
      CarefulNext(StateOf(run.before), LogOf(run.before), run.step, run.st, run.log);
      NextKeepsInv(StateOf(run.before), LogOf(run.before), run.step, run.st, run.log);
    }
  }

  lemma CarefulNext(st: State, log: seq<Entry>, step: Step, st': State, log': seq<Entry>)
    requires Inv(st, log) && Next(st, log, step, st', log')
    requires st.running.Some? ==> CarefulStart(st.running.value.base, st.running.value.c)
    requires step.Start? ==> CarefulStart(st.version, step.c)
    ensures HarmlessStep(st, step)
    ensures st'.running.Some? ==> CarefulStart(st'.running.value.base, st'.running.value.c)
  {
    hide DiskOk, MemoryOk, Logged, Faithful, CarefulStart, CompactionInstall, Compactable, FlushInstall, ClearPath;
    if step.Install? {
      CarefulInstall(st, log, step.input, st');
    }
  }

  lemma CarefulInstall(st: State, log: seq<Entry>, input: seq<Entry>, st': State)
    requires Inv(st, log) && InstallStep(st, input, st')
    requires CarefulStart(st.running.value.base, st.running.value.c)
    ensures InstallReady(st) && Harmless(st, input)
  {
    NoBoundaryStays(st);
    NoBoundaryExposesNothing(st, log, input, st');
    GaplessFits(st, log, input, st');
  }

  lemma NoBoundaryStays(st: State)
    requires WorkOk(st) && st.running.Some? && CarefulStart(st.running.value.base, st.running.value.c)
    ensures InstallReady(st) && NoBoundaryBelow(st.version.files[st.running.value.c.level + 1], st.running.value.c.in1)
  {
  }
}
