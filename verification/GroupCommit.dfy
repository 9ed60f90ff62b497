/** Group commit: how writer threads queue up, elect a leader and share its log record (db/db_impl.cc). */
module GroupCommits {
  import opened Entries
  import opened WriteBatches

  /** What a thread asks for; no batch for a forced compaction. */
  datatype Request = Request(batch: Option<seq<Op>>, sync: bool)

  function ByteSize(ops: seq<Op>): nat {
    |Encoded(0, ops)|
  }

  /** Small batches do not have to wait for a full group. */
  function MaxSize(size: nat): nat {
    if size <= 0x2_0000 then size + 0x2_0000 else 0x10_0000
  }

  /** The operations of a stretch of the queue, in order. */
  function OpsOf(rs: seq<Request>): seq<Op> {
    if rs == [] then []
    else OpsOf(rs[..|rs| - 1]) + if rs[|rs| - 1].batch.Some? then rs[|rs| - 1].batch.value else []
  }

  function SizeOf(rs: seq<Request>): nat {
    if rs == [] then 0
    else SizeOf(rs[..|rs| - 1]) + if rs[|rs| - 1].batch.Some? then ByteSize(rs[|rs| - 1].batch.value) else 0
  }

  /** Each request that brings a batch has it as one stretch of `ops`; the stretches come in queue order and
      nothing is left over. */
  ghost predicate Stretches(rs: seq<Request>, ops: seq<Op>, cuts: seq<nat>) {
    && |cuts| == |rs| + 1 && cuts[0] == 0 && cuts[|rs|] == |ops|
    && forall i | 0 <= i < |rs| :: StretchOf(rs[i], ops, cuts[i], cuts[i + 1])
  }

  ghost predicate StretchOf(r: Request, ops: seq<Op>, from: nat, to: nat) {
    && from <= to <= |ops|
    && match r.batch
       case Some(batch) => ops[from..to] == batch
       case None => from == to
  }

  lemma {:induction false} OpsOfStretches(rs: seq<Request>) returns (cuts: seq<nat>)
    ensures Stretches(rs, OpsOf(rs), cuts)
  {
    if rs == [] {
      cuts := [0];
    } else {
      var n := |rs| - 1;
      var front := OpsOfStretches(rs[..n]);
      cuts := front + [|OpsOf(rs)|];
      forall i | 0 <= i < |rs|
        ensures StretchOf(rs[i], OpsOf(rs), cuts[i], cuts[i + 1])
      {
        if i < n {
          assert StretchOf(rs[..n][i], OpsOf(rs[..n]), front[i], front[i + 1]);
          assert OpsOf(rs)[front[i]..front[i + 1]] == OpsOf(rs[..n])[front[i]..front[i + 1]];
        }
      }
    }
  }

  /** Sizes add up to at least what the group takes as one batch: it has one header. */
  lemma {:induction false} SizeIsEnough(rs: seq<Request>)
    requires rs != [] && rs[0].batch.Some?
    ensures ByteSize(OpsOf(rs)) <= SizeOf(rs)
  {
    hide ByteSize;
    var n := |rs| - 1;
    if n == 0 {
      assert rs[..0] == [] && OpsOf(rs) == rs[0].batch.value;
    } else {
      SizeIsEnough(rs[..n]);
      if rs[n].batch.Some? {
        JoinedSize(OpsOf(rs[..n]), rs[n].batch.value);
      } else {
        assert OpsOf(rs) == OpsOf(rs[..n]);
      }
    }
  }

  lemma JoinedSize(ops: seq<Op>, more: seq<Op>)
    ensures ByteSize(ops + more) <= ByteSize(ops) + ByteSize(more)
  {
    hide Encoded;
    EncodedSize(ops, more);
  }

  /** A group with a follower that brought a batch respects the limit of the follower that brought the last one. */
  lemma {:induction false} GroupFits(rs: seq<Request>, n: nat)
    requires rs != [] && rs[0].batch.Some? && 1 <= n <= |rs| && forall i | 1 <= i < n :: Joins(rs, i)
    ensures OpsOf(rs[..n]) == rs[0].batch.value || ByteSize(OpsOf(rs[..n])) <= MaxSize(ByteSize(rs[0].batch.value))
  {
    hide ByteSize;
    assert rs[..n][..n - 1] == rs[..n - 1];
    if n == 1 {
      assert rs[..0] == [];
    } else if rs[n - 1].batch.Some? {
      assert Joins(rs, n - 1);
      SizeIsEnough(rs[..n]);
    } else {
      GroupFits(rs, n - 1);
      assert OpsOf(rs[..n]) == OpsOf(rs[..n - 1]);
    }
  }

  predicate Joins(rs: seq<Request>, i: nat)
    requires 0 < i < |rs| && rs[0].batch.Some?
  {
    && (rs[i].sync ==> rs[0].sync)
    && (rs[i].batch.Some? ==> SizeOf(rs[..i + 1]) <= MaxSize(ByteSize(rs[0].batch.value)))
  }

  /** The group is the longest prefix of the queue in which every follower joins. */
  ghost predicate IsGroup(rs: seq<Request>, n: nat)
    requires rs != [] && rs[0].batch.Some?
  {
    && 1 <= n <= |rs| && (forall i | 1 <= i < n :: Joins(rs, i))
    && (n < |rs| ==> !Joins(rs, n))
  }

  method BuildBatchGroup(rs: seq<Request>) returns (result: seq<Op>, n: nat, ghost cuts: seq<nat>)
    requires rs != [] && rs[0].batch.Some?
    ensures IsGroup(rs, n) && Stretches(rs[..n], result, cuts) && result == OpsOf(rs[..n])
    ensures result == rs[0].batch.value || ByteSize(result) <= MaxSize(ByteSize(rs[0].batch.value))
  {
    hide ByteSize;
    var first := rs[0];
    result := first.batch.value;
    var size := ByteSize(first.batch.value);
    var maxSize := 0x10_0000;
    if size <= 0x2_0000 {
      maxSize := size + 0x2_0000;
    }
    assert rs[..1][..0] == [] && rs[..1] == [first];
    n := 1;
    while n < |rs|
      invariant 1 <= n <= |rs| && result == OpsOf(rs[..n]) && size == SizeOf(rs[..n])
      invariant forall i | 1 <= i < n :: Joins(rs, i)
    {
      var w := rs[n];
      assert rs[..n + 1][..n] == rs[..n];
      if w.sync && !first.sync {
        // A leader that does not sync cannot answer for one that asked to.
        break;
      }
      if w.batch.Some? {
        size := size + ByteSize(w.batch.value);
        if size > maxSize {
          break;
        }
        result := result + w.batch.value;
      }
      n := n + 1;
    }
    cuts := OpsOfStretches(rs[..n]);
    GroupFits(rs, n);
  }

  /** The leader pops writers off the queue up to and including the last one of its group. */
  method PopGroup(queue: seq<nat>, last: nat, ghost n: nat) returns (ready: seq<nat>, rest: seq<nat>)
    requires Distinct(queue) && 1 <= n <= |queue| && queue[n - 1] == last
    ensures ready == queue[..n] && rest == queue[n..]
  {
    ready, rest := [], queue;
    while true
      invariant |ready| < n && ready == queue[..|ready|] && rest == queue[|ready|..]
      decreases |rest|
    {
      var w := rest[0];
      ready, rest := ready + [w], rest[1..];
      if w == last {
        return;
      }
    }
  }

  // The protocol. A thread waits until it is done or at the front; the front thread makes room, builds a
  // group, writes it with the mutex released, and then answers for the whole group.

  datatype Phase = Waiting | MakingRoom | Writing(count: nat, ops: seq<Op>, first: nat) | Returned(ok: bool)

  /** One leader's service: whom it answered, and the operations it logged, if it got that far. */
  datatype Turn = Turn(members: seq<nat>, ops: Option<seq<Op>>, first: nat, ok: bool)

  datatype State = State(
    requests: map<nat, Request>,
    phase: map<nat, Phase>,
    queue: seq<nat>,
    last: nat,
    arrived: seq<nat>,
    turns: seq<Turn>,
    applied: seq<(Op, nat)>
  )

  function RequestsOf(st: State, ws: seq<nat>): (r: seq<Request>)
    requires forall w | w in ws :: w in st.requests
    ensures |r| == |ws| && forall i | 0 <= i < |ws| :: r[i] == st.requests[ws[i]]
  {
    seq(|ws|, i requires 0 <= i < |ws| => st.requests[ws[i]])
  }

  function Stamped(ops: seq<Op>, first: nat): (r: seq<(Op, nat)>)
    ensures |r| == |ops| && forall i | 0 <= i < |ops| :: r[i] == (ops[i], first + i)
  {
    seq(|ops|, i requires 0 <= i < |ops| => (ops[i], first + i))
  }

  /** push_back of a thread's request; possible whenever the mutex is free. */
  ghost predicate Arrive(a: State, b: State, w: nat, r: Request) {
    && w !in a.requests && w !in a.phase
    && b == a.(requests := a.requests[w := r], phase := a.phase[w := Waiting], queue := a.queue + [w], arrived := a.arrived + [w])
  }

  /** A thread that is not done finds itself at the front. */
  ghost predicate Lead(a: State, b: State, w: nat) {
    && w in a.phase && a.phase[w] == Waiting && a.queue != [] && a.queue[0] == w
    && b == a.(phase := a.phase[w := MakingRoom])
  }

  /** There is room: the leader with a batch builds its group and releases the mutex. */
  ghost predicate Group(a: State, b: State, w: nat, n: nat) {
    && w in a.phase
    && a.phase[w] == MakingRoom
    && w in a.requests
    && a.requests[w].batch.Some?
    && a.queue != [] && a.queue[0] == w && (forall v | v in a.queue :: v in a.requests)
    && var rs := RequestsOf(a, a.queue);
    && IsGroup(rs, n)
    && b == a.(phase := a.phase[w := Writing(n, OpsOf(rs[..n]), a.last + 1)])
  }

  /** The leader pops the queue up to the last writer it answers for and hands out its status. */
  ghost predicate Answer(a: State, b: State, w: nat, t: Turn) {
    && 1 <= |t.members| <= |a.queue|
    && t.members == a.queue[..|t.members|]
    && w == t.members[0]
    && b.requests == a.requests
    && b.arrived == a.arrived
    && b.queue == a.queue[|t.members|..]
    && b.turns == a.turns + [t]
    && b.phase == map v | v in a.phase :: if v in t.members then Returned(t.ok) else a.phase[v]
  }

  /** No room, or nothing to write: the leader answers for itself alone. */
  ghost predicate Decline(a: State, b: State, w: nat, ok: bool) {
    && w in a.phase
    && a.phase[w] == MakingRoom
    && w in a.requests
    && (ok ==> a.requests[w].batch.None?)
    && Answer(a, b, w, Turn([w], None, 0, ok))
    && b.last == a.last && b.applied == a.applied
  }

  /** Back under the mutex: the operations are in the memtable if the log write succeeded; their numbers are used up either way. */
  ghost predicate Commit(a: State, b: State, w: nat, ok: bool) {
    && w in a.phase
    && a.phase[w].Writing?
    && a.phase[w].count <= |a.queue|
    && a.phase[w].first >= 1
    && var p := a.phase[w];
    && Answer(a, b, w, Turn(a.queue[..p.count], Some(p.ops), p.first, ok))
    && b.last == p.first - 1 + |p.ops|
    && b.applied == a.applied + if ok then Stamped(p.ops, p.first) else []
  }

  ghost predicate Next(a: State, b: State) {
    || (exists w, r :: Arrive(a, b, w, r))
    || (exists w :: Lead(a, b, w))
    || (exists w, n :: Group(a, b, w, n))
    || (exists w, ok :: Decline(a, b, w, ok))
    || (exists w, ok :: Commit(a, b, w, ok))
  }

  ghost predicate Init(st: State) {
    && st.requests == map[] && st.phase == map[] && st.queue == [] && st.arrived == [] && st.turns == [] && st.applied == []
  }

  // The invariant.

  function Members(turns: seq<Turn>): seq<nat> {
    if turns == [] then [] else Members(turns[..|turns| - 1]) + turns[|turns| - 1].members
  }

  /** How many sequence numbers the turns have used. */
  function Used(turns: seq<Turn>): nat {
    if turns == [] then 0
    else Used(turns[..|turns| - 1]) + if turns[|turns| - 1].ops.Some? then |turns[|turns| - 1].ops.value| else 0
  }

  function TurnApplied(t: Turn): seq<(Op, nat)> {
    if t.ops.Some? && t.ok then Stamped(t.ops.value, t.first) else []
  }

  function Applied(turns: seq<Turn>): seq<(Op, nat)> {
    if turns == [] then []
    else
      var t := turns[|turns| - 1];
      Applied(turns[..|turns| - 1]) + TurnApplied(t)
  }

  ghost predicate Distinct(s: seq<nat>) {
    forall i, j | 0 <= i < j < |s| :: s[i] != s[j]
  }

  /** A stretch of writers whose operations one leader logs. */
  ghost predicate GroupOf(st: State, members: seq<nat>, ops: seq<Op>) {
    && members != [] && (forall w | w in members :: w in st.requests)
    && ops == OpsOf(RequestsOf(st, members))
    && st.requests[members[0]].batch.Some?
    && forall w | w in members && st.requests[w].sync :: st.requests[members[0]].sync
  }

  ghost predicate TurnOk(st: State, t: Turn) {
    && t.members != []
    && (forall w | w in t.members :: w in st.phase && st.phase[w] == Returned(t.ok))
    && match t.ops
       case Some(ops) => GroupOf(st, t.members, ops)
       case None => |t.members| == 1 && t.members[0] in st.requests && (t.ok ==> st.requests[t.members[0]].batch.None?)
  }

  ghost predicate PhaseOk(st: State, w: nat)
    requires w in st.phase
  {
    match st.phase[w]
    case Waiting => w in st.queue
    case MakingRoom => st.queue != [] && st.queue[0] == w
    case Writing(n, ops, first) =>
      && 1 <= n <= |st.queue| && st.queue[0] == w && GroupOf(st, st.queue[..n], ops) && first == st.last + 1
    case Returned(_) => w !in st.queue
  }

  ghost predicate Inv(st: State, base: nat) {
    && Lined(st) && Numbered(st, base)
    && (forall w | w in st.phase :: PhaseOk(st, w))
    && forall t | t in st.turns :: TurnOk(st, t)
  }

  lemma InitInv(st: State)
    requires Init(st)
    ensures Inv(st, st.last)
  {
  }

  lemma GroupKept(a: State, b: State, members: seq<nat>, ops: seq<Op>)
    requires GroupOf(a, members, ops) && forall w | w in a.requests :: w in b.requests && b.requests[w] == a.requests[w]
    ensures GroupOf(b, members, ops)
  {
    assert RequestsOf(b, members) == RequestsOf(a, members);
  }

  /** A finished turn is not touched again. */
  lemma TurnKept(a: State, b: State, t: Turn)
    requires TurnOk(a, t) && forall w | w in a.requests :: w in b.requests && b.requests[w] == a.requests[w]
    requires forall w | w in a.phase && a.phase[w].Returned? :: w in b.phase && b.phase[w] == a.phase[w]
    ensures TurnOk(b, t)
  {
    hide GroupOf;
    if t.ops.Some? {
      GroupKept(a, b, t.members, t.ops.value);
    }
  }

  /** A turn that logged operations numbered them after those of the turns before it. */
  ghost predicate FirstsOk(turns: seq<Turn>, base: nat) {
    forall i | 0 <= i < |turns| && turns[i].ops.Some? :: turns[i].first == base + Used(turns[..i]) + 1
  }

  lemma FirstsBefore(turns: seq<Turn>, base: nat)
    requires FirstsOk(turns, base) && turns != []
    ensures var n := |turns| - 1;
      && FirstsOk(turns[..n], base)
      && (turns[n].ops.Some? ==> turns[n].first == base + Used(turns[..n]) + 1)
  {
    var n := |turns| - 1;
    forall i | 0 <= i < n && turns[..n][i].ops.Some?
      ensures turns[..n][i].first == base + Used(turns[..n][..i]) + 1
    {
      assert turns[..n][..i] == turns[..i];
    }
  }

  lemma FirstsMore(turns: seq<Turn>, t: Turn, base: nat)
    requires FirstsOk(turns, base) && (t.ops.Some? ==> t.first == base + Used(turns) + 1)
    ensures FirstsOk(turns + [t], base)
  {
    var b := turns + [t];
    assert b[..|turns|] == turns;
    forall i | 0 <= i < |b| && b[i].ops.Some?
      ensures b[i].first == base + Used(b[..i]) + 1
    {
      if i < |turns| {
        assert b[..i] == turns[..i];
      }
    }
  }

  /** The numbering depends on the turns alone. */
  ghost predicate Numbered(st: State, base: nat) {
    st.last == base + Used(st.turns) && st.applied == Applied(st.turns) && FirstsOk(st.turns, base)
  }

  ghost predicate Lined(st: State) {
    && Distinct(st.arrived) && st.arrived == Members(st.turns) + st.queue
    && (forall w :: w in st.arrived <==> w in st.requests)
    && (forall w :: w in st.arrived <==> w in st.phase)
  }

  lemma ArriveInv(a: State, b: State, w: nat, r: Request, base: nat)
    requires Inv(a, base) && Arrive(a, b, w, r)
    ensures Inv(b, base)
  {
    hide TurnOk, GroupOf;
    assert b.arrived == Members(a.turns) + b.queue;
    assert w !in a.arrived;
    forall v | v in b.phase
      ensures PhaseOk(b, v)
    {
      if v != w {
        ArrivePhase(a, b, w, r, v);
      }
    }
    forall t | t in b.turns
      ensures TurnOk(b, t)
    {
      TurnKept(a, b, t);
    }
  }

  lemma ArrivePhase(a: State, b: State, w: nat, r: Request, v: nat)
    requires Arrive(a, b, w, r) && v in a.phase && v != w && PhaseOk(a, v)
    ensures PhaseOk(b, v)
  {
    hide GroupOf;
    if a.phase[v].Writing? {
      var n := a.phase[v].count;
      assert b.queue[..n] == a.queue[..n];
      GroupKept(a, b, a.queue[..n], a.phase[v].ops);
    }
  }

  lemma LeadLined(a: State, b: State, w: nat, base: nat)
    requires Lined(a) && Numbered(a, base) && Lead(a, b, w)
    ensures Lined(b) && Numbered(b, base)
  {
  }

  lemma LeadInv(a: State, b: State, w: nat, base: nat)
    requires Inv(a, base) && Lead(a, b, w)
    ensures Inv(b, base)
  {
    hide TurnOk, GroupOf, Lined, Numbered;
    LeadLined(a, b, w, base);
    forall v | v in b.phase
      ensures PhaseOk(b, v)
    {
      assert PhaseOk(a, v);
    }
    forall t | t in b.turns
      ensures TurnOk(b, t)
    {
      TurnKept(a, b, t);
    }
  }

  lemma {:induction false} GroupIsGroupOf(a: State, queue: seq<nat>, n: nat)
    requires queue != [] && (forall v | v in queue :: v in a.requests) && a.requests[queue[0]].batch.Some?
    requires IsGroup(RequestsOf(a, queue), n)
    ensures GroupOf(a, queue[..n], OpsOf(RequestsOf(a, queue)[..n]))
  {
    var rs := RequestsOf(a, queue);
    assert RequestsOf(a, queue[..n]) == rs[..n];
    forall v | v in queue[..n] && a.requests[v].sync
      ensures a.requests[queue[0]].sync
    {
      var i :| 0 <= i < n && queue[i] == v;
      assert i > 0 ==> Joins(rs, i);
    }
  }

  lemma GroupPhase(a: State, b: State, w: nat, n: nat, v: nat)
    requires Group(a, b, w, n) && v in a.phase && PhaseOk(a, v)
    ensures PhaseOk(b, v)
  {
    hide IsGroup;
    GroupIsGroupOf(a, a.queue, n);
    hide GroupOf;
    if v == w {
      GroupSize(RequestsOf(a, a.queue), n);
      GroupKept(a, b, a.queue[..n], b.phase[w].ops);
    }
  }

  lemma GroupLined(a: State, b: State, w: nat, n: nat, base: nat)
    requires Lined(a) && Numbered(a, base) && Group(a, b, w, n)
    ensures Lined(b) && Numbered(b, base)
  {
    hide IsGroup, OpsOf, Joins;
  }

  lemma GroupInv(a: State, b: State, w: nat, n: nat, base: nat)
    requires Inv(a, base) && Group(a, b, w, n)
    ensures Inv(b, base)
  {
    hide TurnOk, PhaseOk, IsGroup, OpsOf, Joins, Lined, Numbered;
    GroupLined(a, b, w, n, base);
    forall v | v in b.phase
      ensures PhaseOk(b, v)
    {
      GroupPhase(a, b, w, n, v);
    }
    forall t | t in b.turns
      ensures TurnOk(b, t)
    {
      TurnKept(a, b, t);
    }
  }

  lemma GroupSize(rs: seq<Request>, n: nat)
    requires rs != [] && rs[0].batch.Some? && IsGroup(rs, n)
    ensures 1 <= n <= |rs|
  {
  }

  lemma AnswerLined(a: State, b: State, w: nat, t: Turn)
    requires Lined(a) && Answer(a, b, w, t)
    ensures Lined(b) && forall v | v in t.members :: v in a.queue && v !in b.queue
  {
    assert b.turns[..|a.turns|] == a.turns;
    assert a.queue == t.members + b.queue;
    assert b.arrived == Members(b.turns) + b.queue;
    var k := |Members(a.turns)|;
    assert forall i | 0 <= i < |a.queue| :: a.queue[i] == a.arrived[k + i];
  }

  lemma AnswerNumbered(a: State, b: State, w: nat, t: Turn, base: nat)
    requires Numbered(a, base) && b.turns == a.turns + [t]
    requires t.ops.Some? ==> t.first == a.last + 1
    requires b.last == a.last + if t.ops.Some? then |t.ops.value| else 0
    requires b.applied == a.applied + TurnApplied(t)
    ensures Numbered(b, base)
  {
    hide FirstsOk;
    assert b.turns[..|a.turns|] == a.turns;
    FirstsMore(a.turns, t, base);
  }

  lemma AnswerPhase(a: State, b: State, w: nat, t: Turn, v: nat)
    requires Lined(a) && Answer(a, b, w, t) && v in a.phase && PhaseOk(a, v)
    ensures PhaseOk(b, v)
  {
    hide GroupOf, Lined;
    AnswerLined(a, b, w, t);
    assert a.queue == t.members + b.queue;
  }

  lemma AnswerTurn(a: State, b: State, w: nat, t: Turn, u: Turn)
    requires Lined(a) && Answer(a, b, w, t) && TurnOk(a, u) && forall v | v in a.phase :: PhaseOk(a, v)
    ensures TurnOk(b, u)
  {
    hide TurnOk, GroupOf, Lined;
    AnswerLined(a, b, w, t);
    TurnKept(a, b, u);
  }

  /** Popping a prefix of the queue and answering it. */
  lemma AnswerInv(a: State, b: State, w: nat, t: Turn, base: nat)
    requires Inv(a, base) && Answer(a, b, w, t) && a.queue[0] == w
    requires match t.ops
      case Some(ops) => GroupOf(a, t.members, ops) && t.first == a.last + 1 && b.last == a.last + |ops|
      case None => |t.members| == 1 && (t.ok ==> a.requests[w].batch.None?) && b.last == a.last
    requires b.applied == a.applied + TurnApplied(t)
    ensures Inv(b, base)
  {
    hide GroupOf, PhaseOk, TurnOk, Lined, Numbered;
    AnswerLined(a, b, w, t);
    AnswerNumbered(a, b, w, t, base);
    forall v | v in b.phase
      ensures PhaseOk(b, v)
    {
      AnswerPhase(a, b, w, t, v);
    }
    forall u | u in b.turns
      ensures TurnOk(b, u)
    {
      if u in a.turns {
        AnswerTurn(a, b, w, t, u);
      } else {
        NewTurn(a, b, w, t);
      }
    }
  }

  lemma NewTurn(a: State, b: State, w: nat, t: Turn)
    requires Lined(a) && Answer(a, b, w, t)
    requires match t.ops
      case Some(ops) => GroupOf(a, t.members, ops)
      case None => |t.members| == 1 && (t.ok ==> a.requests[w].batch.None?)
    ensures TurnOk(b, t)
  {
    if t.ops.Some? {
      GroupKept(a, b, t.members, t.ops.value);
    }
  }

  lemma NextInv(a: State, b: State, base: nat)
    requires Inv(a, base) && Next(a, b)
    ensures Inv(b, base)
  {
    hide Inv;
    if w, r :| Arrive(a, b, w, r) {
      ArriveInv(a, b, w, r, base);
    } else if w :| Lead(a, b, w) {
      LeadInv(a, b, w, base);
    } else if w, n :| Group(a, b, w, n) {
      GroupInv(a, b, w, n, base);
    } else if w, ok :| Decline(a, b, w, ok) {
      DeclineInv(a, b, w, ok, base);
    } else {
      var w, ok :| Commit(a, b, w, ok);
      CommitInv(a, b, w, ok, base);
    }
  }

  lemma DeclineInv(a: State, b: State, w: nat, ok: bool, base: nat)
    requires Inv(a, base) && Decline(a, b, w, ok)
    ensures Inv(b, base)
  {
    assert PhaseOk(a, w);
    AnswerInv(a, b, w, Turn([w], None, 0, ok), base);
  }

  lemma CommitInv(a: State, b: State, w: nat, ok: bool, base: nat)
    requires Inv(a, base) && Commit(a, b, w, ok)
    ensures Inv(b, base)
  {
    assert PhaseOk(a, w);
    var p := a.phase[w];
    AnswerInv(a, b, w, Turn(a.queue[..p.count], Some(p.ops), p.first, ok), base);
  }

  /** Any interleaving of any number of threads. */
  ghost predicate Run(states: seq<State>) {
    states != [] && Init(states[0]) && forall i | 0 < i < |states| :: Next(states[i - 1], states[i])
  }

  lemma {:induction false} RunsKeepInv(states: seq<State>, k: nat)
    requires Run(states) && k < |states|
    ensures Inv(states[k], states[0].last)
  {
    if k == 0 {
      InitInv(states[0]);
    } else {
      RunsKeepInv(states, k - 1);
      NextInv(states[k - 1], states[k], states[0].last);
    }
  }

  // What the invariant says to a user.

  lemma {:induction false} MemberOfTurn(turns: seq<Turn>, w: nat) returns (i: nat)
    requires w in Members(turns)
    ensures i < |turns| && w in turns[i].members
  {
    var n := |turns| - 1;
    if w in turns[n].members {
      i := n;
    } else {
      i := MemberOfTurn(turns[..n], w);
    }
  }

  lemma {:induction false} MemberAt(turns: seq<Turn>, i: nat, l: nat)
    requires i < |turns| && l < |turns[i].members|
    ensures var k := |Members(turns[..i])| + l;
      && k < |Members(turns[..i + 1])| <= |Members(turns)|
      && Members(turns)[k] == turns[i].members[l]
  {
    var n := |turns| - 1;
    if i < n {
      MemberAt(turns[..n], i, l);
      assert turns[..n][..i] == turns[..i] && turns[..n][..i + 1] == turns[..i + 1];
    } else {
      assert turns[..n + 1] == turns;
    }
  }

  lemma {:induction false} MembersGrow(turns: seq<Turn>, i: nat, j: nat)
    requires i <= j <= |turns|
    ensures |Members(turns[..i])| <= |Members(turns[..j])|
  {
    if i < j {
      MembersGrow(turns, i, j - 1);
      assert turns[..j][..j - 1] == turns[..j - 1];
    }
  }

  /** Every thread that has returned was answered in exactly one turn, with that turn's status; if the turn wrote
      a group, each member's operations are their own stretch of it, in queue order, and a sync request was served
      by a sync leader. */
  lemma AnsweredOnce(st: State, base: nat, w: nat) returns (i: nat, l: nat, cuts: seq<nat>)
    requires Inv(st, base) && w in st.phase && st.phase[w].Returned?
    ensures
      && i < |st.turns|
      && l < |st.turns[i].members| && st.turns[i].members[l] == w
      && (forall j | 0 <= j < |st.turns| && w in st.turns[j].members :: j == i)
    ensures var t := st.turns[i];
      && st.phase[w].ok == t.ok
      && (forall v | v in t.members :: v in st.requests)
      && (t.ops.Some? ==>
        && Stretches(RequestsOf(st, t.members), t.ops.value, cuts) && |cuts| == |t.members| + 1
        && StretchOf(st.requests[w], t.ops.value, cuts[l], cuts[l + 1])
        && (st.requests[w].sync ==> st.requests[t.members[0]].sync))
      && (t.ops.None? && t.ok ==> st.requests[w].batch.None?)
  {
    hide GroupOf, Numbered, Stretches;
    assert PhaseOk(st, w);
    cuts := [];
    i := MemberOfTurn(st.turns, w);
    l :| 0 <= l < |st.turns[i].members| && st.turns[i].members[l] == w;
    assert TurnOk(st, st.turns[i]);
    forall j | 0 <= j < |st.turns| && w in st.turns[j].members
      ensures j == i
    {
      OnlyTurn(st, w, i, j);
    }
    if st.turns[i].ops.Some? {
      cuts := GroupStretches(st, st.turns[i].members, st.turns[i].ops.value, l);
    }
  }

  lemma GroupStretches(st: State, members: seq<nat>, ops: seq<Op>, l: nat) returns (cuts: seq<nat>)
    requires GroupOf(st, members, ops) && l < |members|
    ensures
      && (forall v | v in members :: v in st.requests)
      && Stretches(RequestsOf(st, members), ops, cuts) && |cuts| == |members| + 1
      && StretchOf(st.requests[members[l]], ops, cuts[l], cuts[l + 1])
      && (st.requests[members[l]].sync ==> st.requests[members[0]].sync)
  {
    cuts := OpsOfStretches(RequestsOf(st, members));
  }

  /** The members of an earlier turn queued up before those of a later one. */
  lemma MembersApart(turns: seq<Turn>, i: nat, m: nat, j: nat, n: nat)
    requires i < |turns| && m < |turns[i].members| && j < |turns| && n < |turns[j].members|
    ensures var k := |Members(turns[..i])| + m;
      && k < |Members(turns)| && Members(turns)[k] == turns[i].members[m]
      && (i < j ==> k < |Members(turns[..j])| + n)
  {
    MemberAt(turns, i, m);
    if i < j {
      MembersGrow(turns, i + 1, j);
    }
  }

  lemma OnlyTurn(st: State, w: nat, i: nat, j: nat)
    requires Lined(st) && i < |st.turns| && j < |st.turns| && w in st.turns[i].members && w in st.turns[j].members
    ensures i == j
  {
    hide Members;
    var m :| 0 <= m < |st.turns[i].members| && st.turns[i].members[m] == w;
    var n :| 0 <= n < |st.turns[j].members| && st.turns[j].members[n] == w;
    MembersApart(st.turns, i, m, j, n);
    MembersApart(st.turns, j, n, i, m);
    assert st.arrived[|Members(st.turns[..i])| + m] == st.arrived[|Members(st.turns[..j])| + n];
  }

  /** A batch stands in the memtable's log at `k`, under consecutive sequence numbers from `first`. */
  ghost predicate StandsAt(applied: seq<(Op, nat)>, batch: seq<Op>, k: nat, first: nat) {
    && k + |batch| <= |applied|
    && forall j | 0 <= j < |batch| :: applied[k + j] == (batch[j], first + j)
  }

  lemma {:induction false} TurnStands(turns: seq<Turn>, i: nat)
    requires i < |turns| && turns[i].ops.Some? && turns[i].ok
    ensures StandsAt(Applied(turns), turns[i].ops.value, |Applied(turns[..i])|, turns[i].first)
    ensures |Applied(turns[..i])| + |turns[i].ops.value| == |Applied(turns[..i + 1])|
  {
    hide StandsAt;
    var n := |turns| - 1;
    if i < n {
      TurnStands(turns[..n], i);
      assert turns[..n][..i] == turns[..i] && turns[..n][..i + 1] == turns[..i + 1];
      MoreStands(Applied(turns[..n]), Applied(turns)[|Applied(turns[..n])|..], turns[i].ops.value, |Applied(turns[..i])|, turns[i].first);
      assert Applied(turns) == Applied(turns[..n]) + Applied(turns)[|Applied(turns[..n])|..];
    } else {
      assert turns[..n + 1] == turns;
      EndStands(Applied(turns[..n]), turns[n].ops.value, turns[n].first);
    }
  }

  lemma MoreStands(applied: seq<(Op, nat)>, more: seq<(Op, nat)>, batch: seq<Op>, k: nat, first: nat)
    requires StandsAt(applied, batch, k, first)
    ensures StandsAt(applied + more, batch, k, first)
  {
  }

  lemma EndStands(applied: seq<(Op, nat)>, batch: seq<Op>, first: nat)
    ensures StandsAt(applied + Stamped(batch, first), batch, |applied|, first)
  {
  }

  lemma {:induction false} AppliedGrows(turns: seq<Turn>, i: nat, j: nat)
    requires i <= j <= |turns|
    ensures |Applied(turns[..i])| <= |Applied(turns[..j])|
  {
    hide TurnApplied;
    if i < j {
      AppliedGrows(turns, i, j - 1);
      assert turns[..j][..j - 1] == turns[..j - 1];
    }
  }

  lemma PartStands(applied: seq<(Op, nat)>, ops: seq<Op>, k: nat, first: nat, from: nat, to: nat)
    requires StandsAt(applied, ops, k, first) && from <= to <= |ops|
    ensures StandsAt(applied, ops[from..to], k + from, first + from)
  {
    forall j | 0 <= j < to - from
      ensures applied[k + from + j] == (ops[from..to][j], first + from + j)
    {
      assert applied[k + (from + j)] == (ops[from + j], first + (from + j));
    }
  }

  lemma {:induction false} CutsRise(rs: seq<Request>, ops: seq<Op>, cuts: seq<nat>, i: nat, j: nat)
    requires Stretches(rs, ops, cuts) && i <= j <= |rs|
    ensures cuts[i] <= cuts[j]
  {
    if i < j {
      CutsRise(rs, ops, cuts, i, j - 1);
      assert StretchOf(rs[j - 1], ops, cuts[j - 1], cuts[j]);
    }
  }

  lemma {:induction false} CutsAreUnique(rs: seq<Request>, ops: seq<Op>, cuts: seq<nat>, cuts': seq<nat>, i: nat)
    requires Stretches(rs, ops, cuts) && Stretches(rs, ops, cuts') && i <= |rs|
    ensures cuts[i] == cuts'[i]
  {
    if i > 0 {
      CutsAreUnique(rs, ops, cuts, cuts', i - 1);
      assert StretchOf(rs[i - 1], ops, cuts[i - 1], cuts[i]) && StretchOf(rs[i - 1], ops, cuts'[i - 1], cuts'[i]);
    }
  }

  lemma TurnsInOrder(st: State, a: nat, b: nat, i: nat, l: nat, j: nat, m: nat)
    requires Lined(st) && a < b < |st.arrived|
    requires i < |st.turns| && l < |st.turns[i].members| && st.turns[i].members[l] == st.arrived[a]
    requires j < |st.turns| && m < |st.turns[j].members| && st.turns[j].members[m] == st.arrived[b]
    ensures i < j || (i == j && l < m)
  {
    hide Members;
    MembersApart(st.turns, i, l, j, m);
    MembersApart(st.turns, j, m, i, l);
    assert st.arrived[|Members(st.turns[..i])| + l] == st.arrived[a];
    assert st.arrived[|Members(st.turns[..j])| + m] == st.arrived[b];
  }

  ghost predicate Acknowledged(st: State, w: nat) {
    && w in st.phase && st.phase[w] == Returned(true)
    && w in st.requests && st.requests[w].batch.Some?
  }

  /** Where an acknowledged write stands: inside its turn's group. */
  lemma AcknowledgedAt(st: State, base: nat, w: nat) returns (i: nat, l: nat, cuts: seq<nat>)
    requires Inv(st, base) && Acknowledged(st, w)
    ensures i < |st.turns| && l < |st.turns[i].members| && st.turns[i].members[l] == w
    ensures (forall v | v in st.turns[i].members :: v in st.requests) && st.turns[i].ops.Some? && st.turns[i].ok
    ensures Stretches(RequestsOf(st, st.turns[i].members), st.turns[i].ops.value, cuts) && |cuts| == |st.turns[i].members| + 1
    ensures var batch, k := st.requests[w].batch.value, |Applied(st.turns[..i])| + cuts[l];
      && StandsAt(st.applied, batch, k, st.turns[i].first + cuts[l])
      && cuts[l + 1] <= |st.turns[i].ops.value|
      && k + |batch| == |Applied(st.turns[..i])| + cuts[l + 1] <= |Applied(st.turns[..i + 1])|
  {
    hide Lined, PhaseOk, TurnOk, Applied, Stretches, StandsAt;
    i, l, cuts := AnsweredOnce(st, base, w);
    var t := st.turns[i];
    TurnStands(st.turns, i);
    PartStands(st.applied, t.ops.value, |Applied(st.turns[..i])|, t.first, cuts[l], cuts[l + 1]);
  }

  /** No acknowledged write is lost or torn, and acknowledged writes are applied in the order their threads queued up. */
  lemma AcknowledgedInOrder(st: State, base: nat, a: nat, b: nat) returns (k: nat, first: nat, k': nat, first': nat)
    requires Inv(st, base) && a < b < |st.arrived|
    requires Acknowledged(st, st.arrived[a]) && Acknowledged(st, st.arrived[b])
    ensures StandsAt(st.applied, st.requests[st.arrived[a]].batch.value, k, first)
    ensures StandsAt(st.applied, st.requests[st.arrived[b]].batch.value, k', first')
    ensures k + |st.requests[st.arrived[a]].batch.value| <= k'
  {
    hide Lined, Numbered, PhaseOk, TurnOk, Applied, StandsAt, Acknowledged, Stretches;
    var i, l, cuts := AcknowledgedAt(st, base, st.arrived[a]);
    var j, m, cuts' := AcknowledgedAt(st, base, st.arrived[b]);
    k, first := |Applied(st.turns[..i])| + cuts[l], st.turns[i].first + cuts[l];
    k', first' := |Applied(st.turns[..j])| + cuts'[m], st.turns[j].first + cuts'[m];
    TurnsInOrder(st, a, b, i, l, j, m);
    if i < j {
      AppliedGrows(st.turns, i + 1, j);
    } else {
      var rs := RequestsOf(st, st.turns[i].members);
      CutsAreUnique(rs, st.turns[i].ops.value, cuts, cuts', m);
      CutsRise(rs, st.turns[i].ops.value, cuts, l + 1, m);
    }
  }

  /** Sequence numbers above `lo`, strictly rising, none above `hi`. */
  ghost predicate Rising(s: seq<(Op, nat)>, lo: nat, hi: nat) {
    && (forall i | 0 <= i < |s| :: lo < s[i].1 <= hi)
    && forall i, j | 0 <= i < j < |s| :: s[i].1 < s[j].1
  }

  /** Every number above `lo` up to `hi`, in order. */
  ghost predicate Gapless(s: seq<(Op, nat)>, lo: nat, hi: nat) {
    lo + |s| == hi && forall i | 0 <= i < |s| :: s[i].1 == lo + 1 + i
  }

  lemma NothingRises(lo: nat)
    ensures Rising([], lo, lo) && Gapless([], lo, lo)
  {
  }

  lemma RisingConcat(s: seq<(Op, nat)>, more: seq<(Op, nat)>, lo: nat, mid: nat, hi: nat)
    requires lo <= mid <= hi
    ensures Rising(s, lo, mid) && Rising(more, mid, hi) ==> Rising(s + more, lo, hi)
    ensures Gapless(s, lo, mid) && Gapless(more, mid, hi) ==> Gapless(s + more, lo, hi)
  {
  }

  /** Operations reach the memtable under strictly rising sequence numbers, in the order their writers queued up;
      while no turn fails they are numbered without a gap. */
  lemma {:induction false} AppliedInOrder(turns: seq<Turn>, base: nat)
    requires FirstsOk(turns, base)
    ensures Rising(Applied(turns), base, base + Used(turns))
    ensures (forall i | 0 <= i < |turns| :: turns[i].ok) ==> Gapless(Applied(turns), base, base + Used(turns))
  {
    hide Rising, Gapless, TurnApplied, FirstsOk;
    NothingRises(base);
    if turns != [] {
      var n := |turns| - 1;
      var before := turns[..n];
      FirstsBefore(turns, base);
      AppliedInOrder(before, base);
      TurnRises(turns[n], base + Used(before), base + Used(turns));
      RisingConcat(Applied(before), TurnApplied(turns[n]), base, base + Used(before), base + Used(turns));
    }
  }

  lemma TurnRises(t: Turn, lo: nat, hi: nat)
    requires hi == lo + if t.ops.Some? then |t.ops.value| else 0
    requires t.ops.Some? ==> t.first == lo + 1
    ensures Rising(TurnApplied(t), lo, hi) && (t.ok ==> Gapless(TurnApplied(t), lo, hi))
  {
  }
}
