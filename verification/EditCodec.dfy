/** The byte form of version edits, the records of the MANIFEST (db/version_edit.cc). */
module EditCodecs {
  import opened Keys
  import opened Entries
  import opened Coding
  import Logs

  datatype FileMeta = FileMeta(number: nat, fileSize: nat, smallest: Bytes, largest: Bytes)

  /** The fields of an edit; None for a field whose flag is not set. */
  datatype Fields = Fields(
    comparator: Option<Bytes>,
    logNumber: Option<nat>,
    prevLogNumber: Option<nat>,
    nextFileNumber: Option<nat>,
    lastSequence: Option<nat>,
    compactPointers: seq<(nat, Bytes)>,
    deletedFiles: set<(nat, nat)>,
    newFiles: seq<(nat, FileMeta)>
  )

  /** One tagged record of the encoding. */
  datatype Record =
    | Comparator(name: Bytes)
    | LogNumber(n: nat)
    | PrevLogNumber(n: nat)
    | NextFileNumber(n: nat)
    | LastSequence(n: nat)
    | CompactPointer(level: nat, key: Bytes)
    | DeletedFile(level: nat, n: nat)
    | NewFile(level: nat, file: FileMeta)

  function Tag(r: Record): nat {
    match r
    case Comparator(_) => 1
    case LogNumber(_) => 2
    case NextFileNumber(_) => 3
    case LastSequence(_) => 4
    case CompactPointer(_, _) => 5
    case DeletedFile(_, _) => 6
    case NewFile(_, _) => 7
    case PrevLogNumber(_) => 9
  }

  function Payload(r: Record): Bytes {
    match r
    case Comparator(name) => Prefixed(name)
    case LogNumber(n) => Varint(n)
    case NextFileNumber(n) => Varint(n)
    case LastSequence(n) => Varint(n)
    case PrevLogNumber(n) => Varint(n)
    case CompactPointer(level, key) => Varint(level) + Prefixed(key)
    case DeletedFile(level, n) => Varint(level) + Varint(n)
    case NewFile(level, f) =>
      Varint(level) + (Varint(f.number) + (Varint(f.fileSize) + (Prefixed(f.smallest) + Prefixed(f.largest))))
  }

  function Written(r: Record): Bytes {
    Varint(Tag(r)) + Payload(r)
  }

  function WrittenAll(rs: seq<Record>): Bytes {
    if rs == [] then [] else Written(rs[0]) + WrittenAll(rs[1..])
  }

  predicate FitsBytes(s: Bytes) {
    |s| < WORD32
  }

  /** Levels and widths that the format can hold. */
  predicate Fits(r: Record) {
    match r
    case Comparator(name) => FitsBytes(name)
    case CompactPointer(level, key) => level < NUM_LEVELS && FitsBytes(key)
    case DeletedFile(level, n) => level < NUM_LEVELS && n < WORD64
    case NewFile(level, f) =>
      level < NUM_LEVELS && f.number < WORD64 && f.fileSize < WORD64 && FitsBytes(f.smallest) && FitsBytes(f.largest)
    case _ => r.n < WORD64
  }

  // Reading one record.

  function GetLevel(input: Bytes): Option<(nat, Bytes)> {
    match GetVarint32(input)
    case None => None
    case Some((level, rest)) => if level < NUM_LEVELS then Some((level, rest)) else None
  }

  function GetNewFile(input: Bytes): Option<(Record, Bytes)> {
    match GetLevel(input)
    case None => None
    case Some((level, r1)) =>
      match GetVarint64(r1)
      case None => None
      case Some((number, r2)) =>
        match GetVarint64(r2)
        case None => None
        case Some((size, r3)) =>
          match GetPrefixed(r3)
          case None => None
          case Some((smallest, r4)) =>
            match GetPrefixed(r4)
            case None => None
            case Some((largest, r5)) => Some((NewFile(level, FileMeta(number, size, smallest, largest)), r5))
  }

  function GetNumber(tag: nat, input: Bytes): Option<(Record, Bytes)> {
    match GetVarint64(input)
    case None => None
    case Some((n, rest)) =>
      if tag == 2 then Some((LogNumber(n), rest))
      else if tag == 3 then Some((NextFileNumber(n), rest))
      else if tag == 4 then Some((LastSequence(n), rest))
      else Some((PrevLogNumber(n), rest))
  }

  /** The rest of a record after its tag; None for an unknown tag or a malformed field. */
  function GetPayload(tag: nat, input: Bytes): Option<(Record, Bytes)> {
    if tag == 1 then
      match GetPrefixed(input)
      case None => None
      case Some((name, rest)) => Some((Comparator(name), rest))
    else if tag == 2 || tag == 3 || tag == 4 || tag == 9 then GetNumber(tag, input)
    else if tag == 5 then
      match GetLevel(input)
      case None => None
      case Some((level, rest)) =>
        match GetPrefixed(rest)
        case None => None
        case Some((key, rest')) => Some((CompactPointer(level, key), rest'))
    else if tag == 6 then
      match GetLevel(input)
      case None => None
      case Some((level, rest)) =>
        match GetVarint64(rest)
        case None => None
        case Some((n, rest')) => Some((DeletedFile(level, n), rest'))
    else if tag == 7 then GetNewFile(input)
    else None
  }

  lemma PayloadShrinks(tag: nat, input: Bytes)
    ensures var r := GetPayload(tag, input);
      r.Some? ==> |r.value.1| < |input|
  {
    hide GetVarint32, GetVarint64, GetPrefixed;
    GettersShrink(input);
    if GetLevel(input).Some? {
      var r1 := GetLevel(input).value.1;
      GettersShrink(r1);
      if tag == 7 && GetVarint64(r1).Some? {
        var r2 := GetVarint64(r1).value.1;
        GettersShrink(r2);
        if GetVarint64(r2).Some? {
          var r3 := GetVarint64(r2).value.1;
          GettersShrink(r3);
          if GetPrefixed(r3).Some? {
            GettersShrink(GetPrefixed(r3).value.1);
          }
        }
      }
    }
  }

  lemma PayloadRoundTrip(r: Record, rest: Bytes)
    requires Fits(r)
    ensures GetPayload(Tag(r), Payload(r) + rest) == Some((r, rest))
  {
    hide Varint, GetVarint32, GetVarint64, Prefixed, GetPrefixed, GetNewFile;
    match r
    case Comparator(name) => PrefixedRoundTrip(name, rest);
    case CompactPointer(level, key) =>
      assert Payload(r) + rest == Varint(level) + (Prefixed(key) + rest);
      Varint32RoundTrip(level, Prefixed(key) + rest);
      PrefixedRoundTrip(key, rest);
    case DeletedFile(level, n) =>
      assert Payload(r) + rest == Varint(level) + (Varint(n) + rest);
      Varint32RoundTrip(level, Varint(n) + rest);
      Varint64RoundTrip(n, rest);
    case NewFile(level, f) => NewFileRoundTrip(level, f, rest);
    case _ => Varint64RoundTrip(r.n, rest);
  }

  lemma NewFileRoundTrip(level: nat, f: FileMeta, rest: Bytes)
    requires Fits(NewFile(level, f))
    ensures GetNewFile(Payload(NewFile(level, f)) + rest) == Some((NewFile(level, f), rest))
  {
    hide Varint, GetVarint32, GetVarint64, Prefixed, GetPrefixed;
    var r4 := Prefixed(f.largest) + rest;
    var r3 := Prefixed(f.smallest) + r4;
    var r2 := Varint(f.fileSize) + r3;
    var r1 := Varint(f.number) + r2;
    assert Payload(NewFile(level, f)) + rest == Varint(level) + r1;
    Varint32RoundTrip(level, r1);
    Varint64RoundTrip(f.number, r2);
    Varint64RoundTrip(f.fileSize, r3);
    PrefixedRoundTrip(f.smallest, r4);
    PrefixedRoundTrip(f.largest, rest);
  }

  // Whole edits.

  const EMPTY := Fields(None, None, None, None, None, [], {}, [])

  function Set(f: Fields, r: Record): Fields {
    match r
    case Comparator(name) => f.(comparator := Some(name))
    case LogNumber(n) => f.(logNumber := Some(n))
    case PrevLogNumber(n) => f.(prevLogNumber := Some(n))
    case NextFileNumber(n) => f.(nextFileNumber := Some(n))
    case LastSequence(n) => f.(lastSequence := Some(n))
    case CompactPointer(level, key) => f.(compactPointers := f.compactPointers + [(level, key)])
    case DeletedFile(level, n) => f.(deletedFiles := f.deletedFiles + {(level, n)})
    case NewFile(level, file) => f.(newFiles := f.newFiles + [(level, file)])
  }

  function SetAll(f: Fields, rs: seq<Record>): Fields
    decreases rs
  {
    if rs == [] then f else SetAll(Set(f, rs[0]), rs[1..])
  }

  /** What decoding makes of `input`: the fields it sets, and whether all of it made sense. */
  function Decode(f: Fields, input: Bytes): (Fields, bool)
    decreases |input|
  {
    match GetVarint32(input)
    case None => (f, input == [])
    case Some((tag, rest)) =>
      match GetPayload(tag, rest)
      case None => (f, false)
      case Some((r, rest')) =>
        GettersShrink(input);
        PayloadShrinks(tag, rest);
        Decode(Set(f, r), rest')
  }

  lemma {:induction false} DecodesWritten(f: Fields, rs: seq<Record>)
    requires forall i | 0 <= i < |rs| :: Fits(rs[i])
    ensures Decode(f, WrittenAll(rs)) == (SetAll(f, rs), true)
    decreases rs
  {
    hide GetPayload, Payload, Varint, Fits, Set;
    if rs == [] {
      assert GetVarint32([]) == None;
    } else {
      var r, rest := rs[0], WrittenAll(rs[1..]);
      var input := WrittenAll(rs);
      assert input == Varint(Tag(r)) + (Payload(r) + rest);
      Varint32RoundTrip(Tag(r), Payload(r) + rest);
      VarintNotEmpty(Tag(r));
      PayloadRoundTrip(r, rest);
      DecodesWritten(Set(f, r), rs[1..]);
    }
  }

  lemma VarintNotEmpty(v: nat)
    ensures |Varint(v)| >= 1
  {
  }

  /** The single fields that are set, in the order they are written. */
  function Head(f: Fields): seq<Record> {
    (if f.comparator.Some? then [Comparator(f.comparator.value)] else [])
    + (if f.logNumber.Some? then [LogNumber(f.logNumber.value)] else [])
    + (if f.prevLogNumber.Some? then [PrevLogNumber(f.prevLogNumber.value)] else [])
    + (if f.nextFileNumber.Some? then [NextFileNumber(f.nextFileNumber.value)] else [])
    + (if f.lastSequence.Some? then [LastSequence(f.lastSequence.value)] else [])
  }

  /** The records of an edit, for some order of its deleted files. */
  function Records(f: Fields, order: seq<(nat, nat)>): seq<Record> {
    Head(f) + (Pointers(f.compactPointers) + (Deletions(order) + Additions(f.newFiles)))
  }

  function Pointers(ps: seq<(nat, Bytes)>): (r: seq<Record>)
    ensures |r| == |ps|
  {
    seq(|ps|, i requires 0 <= i < |ps| => CompactPointer(ps[i].0, ps[i].1))
  }

  function Deletions(ds: seq<(nat, nat)>): (r: seq<Record>)
    ensures |r| == |ds|
  {
    seq(|ds|, i requires 0 <= i < |ds| => DeletedFile(ds[i].0, ds[i].1))
  }

  function Additions(fs: seq<(nat, FileMeta)>): (r: seq<Record>)
    ensures |r| == |fs|
  {
    seq(|fs|, i requires 0 <= i < |fs| => NewFile(fs[i].0, fs[i].1))
  }

  ghost predicate Enumerates(order: seq<(nat, nat)>, s: set<(nat, nat)>) {
    (forall x | x in order :: x in s) && forall x | x in s :: x in order
  }

  predicate FieldsFit(f: Fields) {
    && (f.comparator.Some? ==> FitsBytes(f.comparator.value))
    && (f.logNumber.Some? ==> f.logNumber.value < WORD64)
    && (f.prevLogNumber.Some? ==> f.prevLogNumber.value < WORD64)
    && (f.nextFileNumber.Some? ==> f.nextFileNumber.value < WORD64)
    && (f.lastSequence.Some? ==> f.lastSequence.value < WORD64)
    && (forall p | p in f.compactPointers :: p.0 < NUM_LEVELS && FitsBytes(p.1))
    && (forall d | d in f.deletedFiles :: d.0 < NUM_LEVELS && d.1 < WORD64)
    && forall n | n in f.newFiles :: Fits(NewFile(n.0, n.1))
  }

  lemma NothingWritten()
    ensures WrittenAll([]) == []
  {
  }

  lemma RecordsFit(f: Fields, order: seq<(nat, nat)>)
    requires FieldsFit(f) && Enumerates(order, f.deletedFiles)
    ensures forall i | 0 <= i < |Records(f, order)| :: Fits(Records(f, order)[i])
  {
    ListsFit(f, order);
  }

  lemma ListsFit(f: Fields, order: seq<(nat, nat)>)
    requires FieldsFit(f) && Enumerates(order, f.deletedFiles)
    ensures var tail := Pointers(f.compactPointers) + (Deletions(order) + Additions(f.newFiles));
      forall i | 0 <= i < |tail| :: Fits(tail[i])
  {
    assert forall i | 0 <= i < |f.compactPointers| :: f.compactPointers[i] in f.compactPointers;
    assert forall i | 0 <= i < |order| :: order[i] in f.deletedFiles;
    assert forall i | 0 <= i < |f.newFiles| :: f.newFiles[i] in f.newFiles;
  }

  lemma {:induction false} SetAllConcat(f: Fields, rs: seq<Record>, more: seq<Record>)
    ensures SetAll(f, rs + more) == SetAll(SetAll(f, rs), more)
    decreases rs
  {
    if rs == [] {
      assert rs + more == more;
    } else {
      assert (rs + more)[1..] == rs[1..] + more;
      SetAllConcat(Set(f, rs[0]), rs[1..], more);
    }
  }

  lemma {:induction false} SetsPointers(f: Fields, ps: seq<(nat, Bytes)>)
    ensures SetAll(f, Pointers(ps)) == f.(compactPointers := f.compactPointers + ps)
    decreases ps
  {
    if ps == [] {
      assert f.compactPointers + ps == f.compactPointers;
    } else {
      assert Pointers(ps)[1..] == Pointers(ps[1..]);
      SetsPointers(f.(compactPointers := f.compactPointers + [ps[0]]), ps[1..]);
      assert f.compactPointers + [ps[0]] + ps[1..] == f.compactPointers + ps;
    }
  }

  lemma {:induction false} SetsDeletions(f: Fields, ds: seq<(nat, nat)>)
    ensures SetAll(f, Deletions(ds)) == f.(deletedFiles := f.deletedFiles + (set d | d in ds))
    decreases ds
  {
    if ds == [] {
      assert f.deletedFiles + (set d | d in ds) == f.deletedFiles;
    } else {
      assert Deletions(ds)[1..] == Deletions(ds[1..]);
      SetsDeletions(f.(deletedFiles := f.deletedFiles + {ds[0]}), ds[1..]);
      assert ds == [ds[0]] + ds[1..];
      assert f.deletedFiles + {ds[0]} + (set d | d in ds[1..]) == f.deletedFiles + (set d | d in ds);
    }
  }

  lemma {:induction false} SetsAdditions(f: Fields, fs: seq<(nat, FileMeta)>)
    ensures SetAll(f, Additions(fs)) == f.(newFiles := f.newFiles + fs)
    decreases fs
  {
    if fs == [] {
      assert f.newFiles + fs == f.newFiles;
    } else {
      assert Additions(fs)[1..] == Additions(fs[1..]);
      SetsAdditions(f.(newFiles := f.newFiles + [fs[0]]), fs[1..]);
      assert f.newFiles + [fs[0]] + fs[1..] == f.newFiles + fs;
    }
  }

  /** Replaying the records of an edit over cleared fields gives the edit, after the compaction pointers that were there. */
  lemma ReplayedRecords(f: Fields, order: seq<(nat, nat)>, stale: seq<(nat, Bytes)>)
    requires Enumerates(order, f.deletedFiles)
    ensures SetAll(EMPTY.(compactPointers := stale), Records(f, order)) == f.(compactPointers := stale + f.compactPointers)
  {
    hide Set, Head;
    var tail := Pointers(f.compactPointers) + (Deletions(order) + Additions(f.newFiles));
    var start := EMPTY.(compactPointers := stale);
    SetAllConcat(start, Head(f), tail);
    HeadSets(f, start);
    var f1 := SetAll(start, Head(f));
    SetAllConcat(f1, Pointers(f.compactPointers), Deletions(order) + Additions(f.newFiles));
    SetsPointers(f1, f.compactPointers);
    var f2 := f1.(compactPointers := stale + f.compactPointers);
    SetAllConcat(f2, Deletions(order), Additions(f.newFiles));
    SetsDeletions(f2, order);
    assert {} + (set d | d in order) == f.deletedFiles;
    SetsAdditions(f2.(deletedFiles := f.deletedFiles), f.newFiles);
    assert [] + f.newFiles == f.newFiles;
  }

  lemma HeadSets(f: Fields, start: Fields)
    requires start == EMPTY.(compactPointers := start.compactPointers)
    ensures SetAll(start, Head(f)) == start.(comparator := f.comparator, logNumber := f.logNumber, prevLogNumber := f.prevLogNumber,
                                             nextFileNumber := f.nextFileNumber, lastSequence := f.lastSequence)
  {
    var a := if f.comparator.Some? then [Comparator(f.comparator.value)] else [];
    var b := if f.logNumber.Some? then [LogNumber(f.logNumber.value)] else [];
    var c := if f.prevLogNumber.Some? then [PrevLogNumber(f.prevLogNumber.value)] else [];
    var d := if f.nextFileNumber.Some? then [NextFileNumber(f.nextFileNumber.value)] else [];
    var e := if f.lastSequence.Some? then [LastSequence(f.lastSequence.value)] else [];
    SetAllConcat(start, a + b + c + d, e);
    SetAllConcat(start, a + b + c, d);
    SetAllConcat(start, a + b, c);
    SetAllConcat(start, a, b);
  }

  class VersionEdit {
    var fields: Fields

    constructor ()
      ensures fields == EMPTY
    {
      fields := EMPTY;
    }

    /** Clears every field but the compaction pointers. */
    method Clear()
      modifies this
      ensures fields == EMPTY.(compactPointers := old(fields).compactPointers)
    {
      fields := EMPTY.(compactPointers := fields.compactPointers);
    }

    method EncodeTo() returns (dst: Bytes, ghost order: seq<(nat, nat)>)
      requires FieldsFit(fields)
      ensures
        && Enumerates(order, fields.deletedFiles)
        && dst == WrittenAll(Records(fields, order))
    {
      hide Varint, Written, Records, WrittenAll;
      NothingWritten();
      dst := [];
      ghost var rs: seq<Record> := [];
      if fields.comparator.Some? {
        dst, rs := Put(dst, rs, Comparator(fields.comparator.value));
      }
      if fields.logNumber.Some? {
        dst, rs := Put(dst, rs, LogNumber(fields.logNumber.value));
      }
      if fields.prevLogNumber.Some? {
        dst, rs := Put(dst, rs, PrevLogNumber(fields.prevLogNumber.value));
      }
      if fields.nextFileNumber.Some? {
        dst, rs := Put(dst, rs, NextFileNumber(fields.nextFileNumber.value));
      }
      if fields.lastSequence.Some? {
        dst, rs := Put(dst, rs, LastSequence(fields.lastSequence.value));
      }
      assert rs == Head(fields);
      dst, rs, order := EncodeLists(dst, rs);
    }

    method EncodeLists(before: Bytes, ghost head: seq<Record>) returns (dst: Bytes, ghost rs: seq<Record>, ghost order: seq<(nat, nat)>)
      requires before == WrittenAll(head) && head == Head(fields)
      ensures
        && Enumerates(order, fields.deletedFiles)
        && rs == Records(fields, order)
        && dst == WrittenAll(rs)
    {
      hide WrittenAll, Head;
      dst, rs := before, head;
      var i := 0;
      while i < |fields.compactPointers|
        invariant i <= |fields.compactPointers|
        invariant dst == WrittenAll(rs) && rs == head + Pointers(fields.compactPointers[..i])
      {
        var (level, key) := fields.compactPointers[i];
        dst, rs := Put(dst, rs, CompactPointer(level, key));
        i := i + 1;
      }
      assert fields.compactPointers[..i] == fields.compactPointers;
      var rest := fields.deletedFiles;
      order := [];
      ghost var done := rs;
      while rest != {}
        invariant rest <= fields.deletedFiles && Enumerates(order, fields.deletedFiles - rest)
        invariant dst == WrittenAll(rs) && rs == done + Deletions(order)
        decreases rest
      {
        var d :| d in rest;
        dst, rs := Put(dst, rs, DeletedFile(d.0, d.1));
        rest, order := rest - {d}, order + [d];
      }
      i := 0;
      done := rs;
      while i < |fields.newFiles|
        invariant i <= |fields.newFiles|
        invariant dst == WrittenAll(rs) && rs == done + Additions(fields.newFiles[..i])
      {
        var (level, file) := fields.newFiles[i];
        dst, rs := Put(dst, rs, NewFile(level, file));
        i := i + 1;
      }
      assert fields.newFiles[..i] == fields.newFiles;
      assert rs == Records(fields, order);
    }

    method DecodeFrom(src: Bytes) returns (ok: bool)
      modifies this
      ensures (fields, ok) == Decode(EMPTY.(compactPointers := old(fields).compactPointers), src)
    {
      hide GetPayload, Set, GetVarint32;
      Clear();
      var input := src;
      ghost var goal := Decode(fields, src);
      while true
        invariant goal == Decode(fields, input)
        decreases |input|
      {
        var t := GetVarint32(input);
        if t.None? {
          return input == [];
        }
        var p := GetPayload(t.value.0, t.value.1);
        if p.None? {
          return false;
        }
        GettersShrink(input);
        PayloadShrinks(t.value.0, t.value.1);
        fields := Set(fields, p.value.0);
        input := p.value.1;
      }
    }
  }

  /** Append one record. */
  method Put(dst: Bytes, ghost rs: seq<Record>, r: Record) returns (dst': Bytes, ghost rs': seq<Record>)
    requires dst == WrittenAll(rs)
    ensures rs' == rs + [r] && dst' == WrittenAll(rs')
  {
    WrittenMore(rs, r);
    dst', rs' := dst + Written(r), rs + [r];
  }

  lemma {:induction false} WrittenMore(rs: seq<Record>, r: Record)
    ensures WrittenAll(rs + [r]) == WrittenAll(rs) + Written(r)
    decreases rs
  {
    hide Written;
    if rs == [] {
      assert [] + [r] == [r] && [r][1..] == [];
    } else {
      assert (rs + [r])[1..] == rs[1..] + [r];
      WrittenMore(rs[1..], r);
    }
  }

  /** Decoding an encoded edit into an object whose fields were `stale` restores the edit, with the stale compaction
      pointers in front; so it restores exactly the edit if and only if there were none. */
  lemma EditRoundTrip(f: Fields, order: seq<(nat, nat)>, stale: seq<(nat, Bytes)>)
    requires FieldsFit(f) && Enumerates(order, f.deletedFiles)
    ensures var (g, ok) := Decode(EMPTY.(compactPointers := stale), WrittenAll(Records(f, order)));
      ok && g == f.(compactPointers := stale + f.compactPointers) && (g == f <==> stale == [])
  {
    hide Records, FieldsFit, Fits, SetAll, Decode, WrittenAll;
    RecordsFit(f, order);
    DecodesWritten(EMPTY.(compactPointers := stale), Records(f, order));
    ReplayedRecords(f, order, stale);
    if stale == [] {
      assert stale + f.compactPointers == f.compactPointers;
    } else {
      assert |stale + f.compactPointers| > |f.compactPointers|;
    }
  }

  /** A MANIFEST of encoded edits, cut at any byte, gives back the edits whose records are whole, each into a fresh object. */
  lemma ManifestReadsBack(edits: seq<Fields>, orders: seq<seq<(nat, nat)>>, c: nat)
    requires |orders| == |edits| && forall i | 0 <= i < |edits| :: FieldsFit(edits[i]) && Enumerates(orders[i], edits[i].deletedFiles)
    requires c <= |Logs.LogOf(Encodings(edits, orders))|
    ensures var (read, reports) := Logs.ReadAll(Logs.LogOf(Encodings(edits, orders))[..c], 0);
      && reports == 0 && |read| == Logs.Whole(Encodings(edits, orders), c, 0) <= |edits|
      && forall i | 0 <= i < |read| :: Decode(EMPTY, read[i]) == (edits[i], true)
  {
    hide Records, FieldsFit, Enumerates, WrittenAll, Decode;
    var encoded := Encodings(edits, orders);
    Logs.CutLogReadsBack(encoded, c);
    forall i | 0 <= i < |edits|
      ensures Decode(EMPTY, encoded[i]) == (edits[i], true)
    {
      EditRoundTrip(edits[i], orders[i], []);
      assert EMPTY.(compactPointers := []) == EMPTY;
    }
  }

  function Encodings(edits: seq<Fields>, orders: seq<seq<(nat, nat)>>): (r: seq<Bytes>)
    requires |orders| == |edits|
    ensures
      && |r| == |edits|
      && forall i | 0 <= i < |edits| :: r[i] == WrittenAll(Records(edits[i], orders[i]))
  {
    seq(|edits|, i requires 0 <= i < |edits| => WrittenAll(Records(edits[i], orders[i])))
  }
}
