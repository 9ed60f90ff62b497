/** Write batches: their byte form, appending and replaying them (db/write_batch.cc). */
module WriteBatches {
  import opened Keys
  import opened Entries
  import opened Coding

  const HEADER: nat := 12

  datatype Op = Put(key: Bytes, value: Bytes) | Delete(key: Bytes)

  function Record(op: Op): Bytes {
    match op
    case Put(key, value) => [1] + (Prefixed(key) + Prefixed(value))
    case Delete(key) => [0] + Prefixed(key)
  }

  function Records(ops: seq<Op>): Bytes {
    if ops == [] then [] else Records(ops[..|ops| - 1]) + Record(ops[|ops| - 1])
  }

  /** Sequence number, count and records; the count is truncated to 32 bits. */
  function Encoded(s: nat, ops: seq<Op>): Bytes {
    Fixed(s, 8) + Fixed(|ops|, 4) + Records(ops)
  }

  /** Nothing in the batch is cut off by a 32-bit length. */
  predicate Fits(ops: seq<Op>) {
    && |ops| < WORD32
    && forall op | op in ops :: |op.key| < WORD32 && (op.Put? ==> |op.value| < WORD32)
  }

  datatype Parsed = Parsed(op: Op, rest: Bytes)

  function ParseRecord(input: Bytes): (r: Option<Parsed>)
    ensures r.Some? ==> |r.value.rest| < |input|
  {
    if input == [] then None
    else if input[0] == 1 then
      match GetPrefixed(input[1..])
      case None => None
      case Some((key, rest)) =>
        GettersShrink(input[1..]);
        GettersShrink(rest);
        match GetPrefixed(rest)
        case None => None
        case Some((value, rest')) => Some(Parsed(Op.Put(key, value), rest'))
    else if input[0] == 0 then
      GettersShrink(input[1..]);
      match GetPrefixed(input[1..])
      case None => None
      case Some((key, rest)) => Some(Parsed(Delete(key), rest))
    else None
  }

  /** What a handler is given, and whether the records end without an error. */
  function Replay(input: Bytes): (seq<Op>, bool)
    decreases |input|
  {
    if input == [] then ([], true)
    else match ParseRecord(input)
      case None => ([], false)
      case Some(p) =>
        var (ops, ok) := Replay(p.rest);
        ([p.op] + ops, ok)
  }

  class WriteBatch {
    var rep: Bytes

    predicate Valid()
      reads this
    {
      |rep| >= HEADER
    }

    constructor ()
      ensures Valid() && rep == Encoded(0, [])
    {
      rep := seq(HEADER, _ => 0);
      new;
      assert Fixed(0, 8) == [0, 0, 0, 0, 0, 0, 0, 0] && Fixed(0, 4) == [0, 0, 0, 0];
    }

    method SetContents(contents: Bytes)
      requires |contents| >= HEADER
      modifies this
      ensures Valid() && rep == contents
    {
      rep := contents;
    }

    function Count(): nat
      requires Valid()
      reads this
    {
      ReadFixed(rep[8..], 4)
    }

    function Sequence(): nat
      requires Valid()
      reads this
    {
      ReadFixed(rep, 8)
    }

    method SetCount(n: nat)
      requires Valid()
      modifies this
      ensures Valid() && rep == old(rep)[..8] + Fixed(n, 4) + old(rep)[HEADER..]
    {
      rep := rep[..8] + Fixed(n, 4) + rep[HEADER..];
    }

    /** Before a batch is logged it takes the sequence of its first operation. */
    method SetSequence(s: nat, ghost t: nat, ghost ops: seq<Op>)
      requires Valid()
      modifies this
      ensures Valid() && (old(rep) == Encoded(t, ops) ==> rep == Encoded(s, ops))
    {
      hide Fixed, Records;
      FixedSize(s, 8);
      FixedSize(t, 8);
      assert Encoded(t, ops)[8..] == Fixed(|ops|, 4) + Records(ops);
      rep := Fixed(s, 8) + rep[8..];
    }

    method Add(op: Op, ghost s: nat, ghost ops: seq<Op>)
      requires Valid()
      modifies this
      ensures Valid()
      ensures old(rep) == Encoded(s, ops) && |ops| < WORD32 ==> rep == Encoded(s, ops + [op])
    {
      hide Encoded, Record, Fixed, ReadFixed, Records;
      if rep == Encoded(s, ops) && |ops| < WORD32 {
        Appended(s, ops, [op]);
        RecordsOfOne(op);
      }
      SetCount(Count() + 1);
      rep := rep + Record(op);
    }

    /** Append the records of another batch; this one keeps its sequence number. */
    method Append(source: WriteBatch, ghost s: nat, ghost ops: seq<Op>, ghost t: nat, ghost more: seq<Op>)
      requires Valid() && source.Valid() && source != this
      modifies this
      ensures Valid()
      ensures old(rep) == Encoded(s, ops) && source.rep == Encoded(t, more) && |ops| < WORD32 && |more| < WORD32
        ==> rep == Encoded(s, ops + more)
    {
      hide Encoded, Fixed, ReadFixed, Records;
      if rep == Encoded(s, ops) && source.rep == Encoded(t, more) && |ops| < WORD32 && |more| < WORD32 {
        Appended(s, ops, more);
        Header(t, more);
      }
      SetCount(Count() + source.Count());
      rep := rep + source.rep[HEADER..];
    }

    /** Replay the records into a handler, here the list of operations it receives. */
    method Iterate() returns (handled: seq<Op>, ok: bool)
      ensures if |rep| < HEADER then handled == [] && !ok
              else var (ops, clean) := Replay(rep[HEADER..]);
                handled == ops && (ok <==> clean && |ops| == Count())
    {
      hide ParseRecord, ReadFixed;
      handled := [];
      if |rep| < HEADER {
        return [], false;
      }
      var input := rep[HEADER..];
      ghost var all := Replay(input);
      assert handled + Replay(input).0 == Replay(input).0;
      while input != []
        invariant all == (handled + Replay(input).0, Replay(input).1)
        decreases |input|
      {
        var p := ParseRecord(input);
        ParseShrinks(input);
        if p.None? {
          assert handled + [] == handled;
          return handled, false;
        }
        assert handled + Replay(input).0 == handled + [p.value.op] + Replay(p.value.rest).0;
        handled := handled + [p.value.op];
        input := p.value.rest;
      }
      assert handled + [] == handled;
      ok := |handled| == Count();
    }
  }

  lemma ParseShrinks(input: Bytes)
    ensures var r := ParseRecord(input);
      r.Some? ==> |r.value.rest| < |input|
  {
  }

  lemma Header(s: nat, ops: seq<Op>)
    ensures var rep := Encoded(s, ops);
      && |rep| >= HEADER && rep[..8] == Fixed(s, 8) && rep[HEADER..] == Records(ops)
      && (|ops| < WORD32 ==> ReadFixed(rep[8..], 4) == |ops|)
  {
    hide Fixed, ReadFixed, Records;
    FixedSize(s, 8);
    FixedSize(|ops|, 4);
    var rep := Encoded(s, ops);
    assert rep[8..] == Fixed(|ops|, 4) + Records(ops);
    if |ops| < WORD32 {
      Fixed32RoundTrip(|ops|, Records(ops));
    }
  }

  lemma {:induction false} RecordsConcat(ops: seq<Op>, more: seq<Op>)
    ensures Records(ops + more) == Records(ops) + Records(more)
  {
    hide Record;
    if more == [] {
      assert ops + more == ops;
    } else {
      var n := |more| - 1;
      assert (ops + more)[..|ops| + n] == ops + more[..n];
      RecordsConcat(ops, more[..n]);
    }
  }

  lemma RecordsOfOne(op: Op)
    ensures Records([op]) == Record(op)
  {
    assert [op][..0] == [];
  }

  lemma Appended(s: nat, ops: seq<Op>, more: seq<Op>)
    requires |ops| < WORD32
    ensures var rep := Encoded(s, ops);
      && |rep| >= HEADER && ReadFixed(rep[8..], 4) == |ops|
      && rep[..8] + Fixed(|ops| + |more|, 4) + rep[HEADER..] + Records(more) == Encoded(s, ops + more)
  {
    hide Fixed, ReadFixed, Records;
    Header(s, ops);
    FixedSize(|ops| + |more|, 4);
    RecordsConcat(ops, more);
  }

  /** One batch of the operations of two is a header shorter than the two. */
  lemma EncodedSize(ops: seq<Op>, more: seq<Op>)
    ensures |Encoded(0, ops + more)| == |Encoded(0, ops)| + |Encoded(0, more)| - HEADER
  {
    hide Fixed, Records;
    RecordsConcat(ops, more);
    FixedSize(0, 8);
    FixedSize(|ops + more|, 4);
    FixedSize(|ops|, 4);
    FixedSize(|more|, 4);
  }

  lemma ParsesRecord(op: Op, rest: Bytes)
    requires |op.key| < WORD32 && (op.Put? ==> |op.value| < WORD32)
    ensures ParseRecord(Record(op) + rest) == Some(Parsed(op, rest))
  {
    hide GetPrefixed, Prefixed;
    var input := Record(op) + rest;
    match op
    case Put(key, value) =>
      assert input[1..] == Prefixed(key) + (Prefixed(value) + rest);
      PrefixedRoundTrip(key, Prefixed(value) + rest);
      PrefixedRoundTrip(value, rest);
    case Delete(key) =>
      assert input[1..] == Prefixed(key) + rest;
      PrefixedRoundTrip(key, rest);
  }

  lemma {:induction false} ReplaysRecords(ops: seq<Op>)
    requires Fits(ops)
    ensures Replay(Records(ops)) == (ops, true)
  {
    hide Record, ParseRecord;
    if ops != [] {
      assert ops == [ops[0]] + ops[1..];
      RecordsConcat([ops[0]], ops[1..]);
      RecordsOfOne(ops[0]);
      ParsesRecord(ops[0], Records(ops[1..]));
      RecordNotEmpty(ops[0]);
      ReplaysRecords(ops[1..]);
    }
  }

  lemma RecordNotEmpty(op: Op)
    ensures Record(op) != []
  {
  }

  /** A batch replays as exactly its operations, whose numbers start at the batch's sequence number. */
  lemma BatchReadsBack(s: nat, ops: seq<Op>)
    requires Fits(ops) && s < WORD64
    ensures var rep := Encoded(s, ops);
      |rep| >= HEADER && Replay(rep[HEADER..]) == (ops, true) && ReadFixed(rep[8..], 4) == |ops| && ReadFixed(rep, 8) == s
  {
    hide Fixed, ReadFixed, Records, Replay;
    Header(s, ops);
    ReplaysRecords(ops);
    Fixed64RoundTrip(s, Fixed(|ops|, 4) + Records(ops));
    assert Encoded(s, ops) == Fixed(s, 8) + (Fixed(|ops|, 4) + Records(ops));
  }
}
