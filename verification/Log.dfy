/** The record log: fragmentation over 32 KB blocks and its reader (db/log_writer.cc, db/log_reader.cc). */
module Logs {
  import opened Keys
  import opened Entries
  import opened Coding
  import opened Crc32c

  const BLOCK: nat := 32768
  const HEADER: nat := 7

  const FULL: nat := 1
  const FIRST: nat := 2
  const MIDDLE: nat := 3
  const LAST: nat := 4

  // The codes of the reader that are no record types; a stored type with the same code means the same to it.
  const EOF: nat := 5
  const BAD_RECORD: nat := 6

  // What the writer appends.

  function Physical(t: byte, payload: Bytes): (r: Bytes)
    ensures |r| == HEADER + |payload|
  {
    Fixed(Mask(Sum([t] + payload)), 4) + Fixed(|payload|, 2) + [t] + payload
  }

  /** The zeros that fill a block in which no header fits any more. */
  function Trailer(offset: nat): (r: Bytes)
    requires offset <= BLOCK
    ensures |r| == if BLOCK - offset < HEADER then BLOCK - offset else 0
  {
    if BLOCK - offset < HEADER then seq(BLOCK - offset, _ => 0) else []
  }

  function Start(offset: nat): nat {
    if BLOCK - offset < HEADER then 0 else offset
  }

  function FragmentLength(offset: nat, left: nat): (n: nat)
    requires offset <= BLOCK
    ensures n <= left && Start(offset) + HEADER + n <= BLOCK
  {
    var avail := BLOCK - Start(offset) - HEADER;
    if left < avail then left else avail
  }

  function TypeOf(begin: bool, end: bool): nat {
    if begin then if end then FULL else FIRST else if end then LAST else MIDDLE
  }

  /** The bytes a record takes from a given block offset on; `begin` while no fragment has been written. */
  function Emit(offset: nat, left: Bytes, begin: bool): (r: Bytes)
    requires offset <= BLOCK
    decreases |left|, if BLOCK - offset == HEADER then 1 else 0
  {
    var n := FragmentLength(offset, |left|);
    var end := n == |left|;
    Trailer(offset) + Physical(TypeOf(begin, end), left[..n])
    + if end then [] else Emit(Start(offset) + HEADER + n, left[n..], false)
  }

  /** A log file after adding `records`; sessions may be reopened at any record boundary. */
  function LogOf(records: seq<Bytes>): Bytes {
    if records == [] then []
    else
      var before := LogOf(records[..|records| - 1]);
      before + Emit(|before| % BLOCK, records[|records| - 1], true)
  }

  class Writer {
    var dest: Bytes
    var blockOffset: nat

    ghost predicate Valid()
      reads this
    {
      blockOffset <= BLOCK && blockOffset % BLOCK == |dest| % BLOCK
    }

    /** Continue a file that already holds `file`; an empty one for a new log. */
    constructor (file: Bytes)
      ensures Valid() && dest == file
    {
      dest, blockOffset := file, |file| % BLOCK;
    }

    method AddRecord(slice: Bytes)
      requires Valid()
      modifies this
      ensures Valid() && dest == old(dest) + Emit(|old(dest)| % BLOCK, slice, true)
    {
      hide Emit, Physical;
      var left, begin, more := slice, true, true;
      ghost var goal := dest + Emit(|dest| % BLOCK, slice, true);
      WrappedOffset(blockOffset, slice, true);
      while more
        invariant Valid()
        invariant goal == if more then dest + Emit(blockOffset, left, begin) else dest
        decreases more, |left|, if BLOCK - blockOffset == HEADER then 1 else 0
      {
        EmitStep(dest, blockOffset, left, begin);
        OffsetStep(|dest|, blockOffset, FragmentLength(blockOffset, |left|));
        var leftover := BLOCK - blockOffset;
        if leftover < HEADER {
          dest := dest + seq(leftover, _ => 0);
          blockOffset := 0;
        }
        var avail := BLOCK - blockOffset - HEADER;
        var length := if |left| < avail then |left| else avail;
        var end := |left| == length;
        var t := if begin && end then FULL else if begin then FIRST else if end then LAST else MIDDLE;
        EmitPhysicalRecord(t, left[..length]);
        left, begin, more := left[length..], false, !end;
      }
    }

    method EmitPhysicalRecord(t: byte, payload: Bytes)
      requires blockOffset + HEADER + |payload| <= BLOCK
      modifies this
      ensures
        && dest == old(dest) + Physical(t, payload)
        && blockOffset == old(blockOffset) + HEADER + |payload|
    {
      hide Mask, Extend;
      FixedTwo(|payload|);
      var crc := Mask(Extend(Sum([t]), payload));
      ExtendConcat(0, [t], payload);
      var header := Fixed(crc, 4) + [|payload| % 256, |payload| / 256] + [t];
      assert dest + header + payload == dest + Physical(t, payload);
      dest := dest + header;
      dest := dest + payload;
      blockOffset := blockOffset + HEADER + |payload|;
    }
  }

  lemma EmitStep(dest: Bytes, offset: nat, left: Bytes, begin: bool)
    requires offset <= BLOCK
    ensures var n := FragmentLength(offset, |left|);
      var end := n == |left|;
      var written := (dest + Trailer(offset)) + Physical(TypeOf(begin, end), left[..n]);
      dest + Emit(offset, left, begin) == if end then written else written + Emit(Start(offset) + HEADER + n, left[n..], false)
  {
    hide Physical;
  }

  lemma OffsetStep(size: nat, offset: nat, n: nat)
    requires offset <= BLOCK && offset % BLOCK == size % BLOCK
    ensures (Start(offset) + HEADER + n) % BLOCK == (size + |Trailer(offset)| + HEADER + n) % BLOCK
  {
  }

  lemma FixedTwo(n: nat)
    requires n < 0x1_0000
    ensures Fixed(n, 2) == [n % 256, n / 256]
  {
  }

  /** A block offset of a full block writes what offset zero writes. */
  lemma WrappedOffset(offset: nat, left: Bytes, begin: bool)
    requires offset <= BLOCK
    ensures Emit(offset, left, begin) == Emit(offset % BLOCK, left, begin)
  {
    hide Physical;
    if offset == BLOCK {
      assert Start(offset) == Start(0) == 0 && Trailer(offset) == Trailer(0) == [];
    }
  }

  // What the reader makes of the bytes at position p of a file.

  datatype Fragment = Fragment(t: byte, payload: Bytes, next: nat) | Eof | Bad(next: nat, reports: nat)

  function BlockEnd(p: nat): nat {
    p / BLOCK * BLOCK + BLOCK
  }

  function BufferEnd(file: Bytes, p: nat): nat {
    if BlockEnd(p) <= |file| then BlockEnd(p) else |file|
  }

  function Checked(t: byte, payload: Bytes, sum: nat): bool {
    sum < WORD32 && Sum([t] + payload) == Unmask(sum)
  }

  datatype Header = Good(t: byte, payload: Bytes) | TooLong | Blank | Mismatch

  /** What the reader makes of a buffer that holds at least a header. */
  function ParseBuffer(b: Bytes): (r: Header)
    requires |b| >= HEADER
    ensures r.Good? ==> HEADER + |r.payload| <= |b|
  {
    var low: nat, high: nat := b[4], b[5];
    var length, t := low + 256 * high, b[6];
    if HEADER + length > |b| then TooLong
    else if t == 0 && length == 0 then Blank
    else if Checked(t, b[HEADER..HEADER + length], ReadFixed(b, 4)) then Good(t, b[HEADER..HEADER + length])
    else Mismatch
  }

  /** The physical record at or after p. A block that the file cuts short ends it without complaint. */
  function Parse(file: Bytes, p: nat): (r: Fragment)
    requires p <= |file|
    ensures !r.Eof? ==> p < r.next <= |file|
    decreases BlockEnd(p) - p < HEADER
  {
    var end := BufferEnd(file, p);
    if BlockEnd(p) <= |file| && BlockEnd(p) - p < HEADER then Parse(file, BlockEnd(p))
    else if end - p < HEADER then Eof
    else match ParseBuffer(file[p..end])
      case TooLong => if end == BlockEnd(p) then Bad(end, 1) else Eof
      case Blank => Bad(end, 0)
      case Mismatch => Bad(end, 1)
      case Good(t, payload) => Fragment(t, payload, p + HEADER + |payload|)
  }

  datatype Outcome = Outcome(record: Option<Bytes>, next: nat, reports: nat)

  function Reported(o: Outcome, n: nat): Outcome {
    o.(reports := o.reports + n)
  }

  /** What one call of ReadRecord returns, where it stops and how many corruptions it reports. */
  function Read(file: Bytes, p: nat, scratch: Bytes, inside: bool): (r: Outcome)
    requires p <= |file|
    ensures r.next <= |file|
    decreases |file| - p
  {
    match Parse(file, p)
    case Eof => Outcome(None, |file|, 0)
    case Bad(next, n) => Reported(Read(file, next, [], false), n + if inside then 1 else 0)
    case Fragment(t, payload, next) =>
      var open := if inside && scratch != [] then 1 else 0;
      if t == FULL then Outcome(Some(payload), next, open)
      else if t == FIRST then Reported(Read(file, next, payload, true), open)
      else if t == MIDDLE then
        if inside then Read(file, next, scratch + payload, true) else Reported(Read(file, next, scratch, false), 1)
      else if t == LAST then
        if inside then Outcome(Some(scratch + payload), next, 0) else Reported(Read(file, next, scratch, false), 1)
      else if t == EOF then Outcome(None, next, 0)
      else if t == BAD_RECORD then Reported(Read(file, next, [], false), if inside then 1 else 0)
      else Reported(Read(file, next, [], false), 1)
  }

  /** The buffer holds the rest of a block up to `position`; only the end of the file cuts it short. */
  ghost predicate Window(file: Bytes, buffer: Bytes, position: nat, eof: bool) {
    && |buffer| <= position <= |file| && (eof ==> position == |file|)
    && var at := position - |buffer|;
    && buffer == file[at..position]
    && if buffer == [] then !eof ==> position % BLOCK == 0
       else position == BufferEnd(file, at) && (eof <==> position < BlockEnd(at))
  }

  lemma WindowShrinks(file: Bytes, buffer: Bytes, position: nat, eof: bool, n: nat)
    requires Window(file, buffer, position, eof) && n <= |buffer|
    ensures Window(file, buffer[n..], position, eof) && Window(file, [], position, eof)
  {
    if n < |buffer| {
      assert BlockEnd(position - |buffer|) == BlockEnd(position - |buffer[n..]|);
    }
  }

  /** Reading the next block over a trailer or nothing leaves the next record where it was. */
  lemma WindowMoves(file: Bytes, buffer: Bytes, position: nat, end: nat)
    requires Window(file, buffer, position, false) && |buffer| < HEADER
    requires end == if position + BLOCK <= |file| then position + BLOCK else |file|
    ensures
      && position <= end
      && Window(file, file[position..end], end, end - position < BLOCK)
    ensures Parse(file, position - |buffer|) == Parse(file, position)
  {
    hide ParseBuffer;
    assert position % BLOCK == 0;
    assert buffer != [] ==> position == BlockEnd(position - |buffer|);
  }

  /** Fewer bytes than a header before the end of the file. */
  lemma WindowEnds(file: Bytes, buffer: Bytes, position: nat)
    requires Window(file, buffer, position, true) && |buffer| < HEADER
    ensures
      && Parse(file, position - |buffer|) == Eof
      && Window(file, [], position, true)
      && position == |file|
  {
    hide ParseBuffer;
  }

  lemma WindowParses(file: Bytes, buffer: Bytes, position: nat, eof: bool)
    requires Window(file, buffer, position, eof) && |buffer| >= HEADER
    ensures Parse(file, position - |buffer|) == match ParseBuffer(buffer)
      case TooLong => if eof then Eof else Bad(position, 1)
      case Blank => Bad(position, 0)
      case Mismatch => Bad(position, 1)
      case Good(t, payload) => Fragment(t, payload, position - |buffer| + HEADER + |payload|)
    ensures eof ==> position == |file|
  {
    hide ParseBuffer;
  }

  class Reader {
    const file: Bytes
    var position: nat
    var buffer: Bytes
    var eof: bool
    var reports: nat

    ghost predicate Valid()
      reads this
    {
      |buffer| <= position <= |file| && Window(file, buffer, position, eof)
    }

    /** The offset of the next byte to be parsed. */
    ghost function At(): nat
      reads this
      requires |buffer| <= position
    {
      position - |buffer|
    }

    constructor (file: Bytes)
      ensures Valid() && this.file == file && At() == 0 && reports == 0
    {
      this.file, position, buffer, eof, reports := file, 0, [], false, 0;
    }

    method ReadPhysicalRecord() returns (code: nat, payload: Bytes)
      requires Valid()
      modifies this
      ensures Valid() && (At() > old(At()) || code == EOF)
      ensures match Parse(file, old(At()))
        case Eof => code == EOF && At() == |file| && reports == old(reports)
        case Bad(next, n) => code == BAD_RECORD && At() == next && reports == old(reports) + n
        case Fragment(t, p, next) => code == t && payload == p && At() == next && reports == old(reports)
    {
      hide Checked, ReadFixed, Window, Parse;
      var more := FillBuffer();
      if !more {
        return EOF, [];
      }
      WindowParses(file, buffer, position, eof);
      WindowShrinks(file, buffer, position, eof, |buffer|);
      var low: nat, high: nat := buffer[4], buffer[5];
      var length, t := low + 256 * high, buffer[6];
      if HEADER + length > |buffer| {
        buffer := [];
        if !eof {
          reports := reports + 1;
          return BAD_RECORD, [];
        }
        return EOF, [];
      }
      if t == 0 && length == 0 {
        buffer := [];
        return BAD_RECORD, [];
      }
      payload := buffer[HEADER..HEADER + length];
      if !Checked(t, payload, ReadFixed(buffer, 4)) {
        buffer := [];
        reports := reports + 1;
        return BAD_RECORD, [];
      }
      WindowShrinks(file, buffer, position, eof, HEADER + length);
      buffer := buffer[HEADER + length..];
      code := t;
    }

    /** Make sure of a whole header, or find that the file has none left. */
    method FillBuffer() returns (more: bool)
      requires Valid()
      modifies this`buffer, this`position, this`eof
      ensures Valid() && At() >= old(At())
      ensures if more then |buffer| >= HEADER && Parse(file, At()) == Parse(file, old(At()))
              else Parse(file, old(At())) == Eof && At() == |file|
    {
      hide Window, Parse;
      while |buffer| < HEADER
        invariant Valid() && Parse(file, At()) == Parse(file, old(At())) && At() >= old(At())
        decreases if |buffer| >= HEADER then 0 else if eof then 1 else 2
      {
        if eof {
          // A non-empty buffer is a header the writer did not finish: no error.
          WindowEnds(file, buffer, position);
          buffer := [];
          return false;
        }
        ReadBlock();
      }
      more := true;
    }

    /** The last read was a full block: drop its trailer and read the next one. */
    method ReadBlock()
      requires Valid() && !eof && |buffer| < HEADER
      modifies this`buffer, this`position, this`eof
      ensures Valid() && (eof || |buffer| == BLOCK)
      ensures At() >= old(At()) && Parse(file, At()) == Parse(file, old(At()))
    {
      hide Window, Parse;
      var end := if position + BLOCK <= |file| then position + BLOCK else |file|;
      WindowMoves(file, buffer, position, end);
      buffer := file[position..end];
      position := end;
      eof := |buffer| < BLOCK;
    }

    method ReadRecord() returns (ok: bool, record: Bytes)
      requires Valid()
      modifies this
      ensures Valid()
      ensures var o := Read(file, old(At()), [], false);
        o.record == (if ok then Some(record) else None) && o.next == At() && reports == old(reports) + o.reports
    {
      hide Parse, Window;
      var inside, scratch := false, [];
      while true
        invariant Valid() && reports >= old(reports) && (!inside ==> scratch == [])
        invariant At() <= |file| && Reported(Read(file, At(), scratch, inside), reports - old(reports)) == Read(file, old(At()), [], false)
        decreases |file| - At()
      {
        var code, fragment := ReadPhysicalRecord();
        if code == FULL {
          if inside && scratch != [] {
            reports := reports + 1;
          }
          return true, fragment;
        } else if code == FIRST {
          if inside && scratch != [] {
            reports := reports + 1;
          }
          scratch, inside := fragment, true;
        } else if code == MIDDLE {
          if inside {
            scratch := scratch + fragment;
          } else {
            reports := reports + 1;
          }
        } else if code == LAST {
          if inside {
            return true, scratch + fragment;
          }
          reports := reports + 1;
        } else if code == EOF {
          return false, [];
        } else if code == BAD_RECORD {
          if inside {
            reports := reports + 1;
            inside, scratch := false, [];
          }
        } else {
          reports := reports + 1;
          inside, scratch := false, [];
        }
      }
    }
  }

  // Reading back a log that was cut at any byte.

  lemma TrailerParses(log: Bytes, c: nat, p: nat, offset: nat, rest: Bytes)
    requires p <= c <= |log| && offset < BLOCK && p % BLOCK == offset && log[p..] == Trailer(offset) + rest
    ensures var q := p + |Trailer(offset)|;
      Parse(log[..c], p) == if q <= c then Parse(log[..c], q) else Eof
  {
    hide ParseBuffer;
  }

  /** A whole header and payload are taken for what they are. */
  lemma BufferParses(b: Bytes, t: byte, payload: Bytes, rest: Bytes)
    requires b == Physical(t, payload) + rest && 1 <= t && |payload| < BLOCK
    ensures ParseBuffer(b) == Good(t, payload)
  {
    hide Sum, Mask, Unmask;
    var sum := Mask(Sum([t] + payload));
    UnmaskMask(Sum([t] + payload));
    Fixed32RoundTrip(sum, Fixed(|payload|, 2) + [t] + payload + rest);
    FixedTwo(|payload|);
    assert b == Fixed(sum, 4) + (Fixed(|payload|, 2) + [t] + payload + rest);
    assert b[4] == |payload| % 256 && b[5] == |payload| / 256 && b[6] == t;
    assert b[HEADER..HEADER + |payload|] == payload;
  }

  // Damage. A stored fragment of which one byte has changed is not taken for a fragment.

  /** The checksum notices a changed byte of itself, of the type or of the payload. */
  lemma DamageIsMismatch(b: Bytes, t: byte, payload: Bytes, rest: Bytes, j: nat, x: byte)
    requires b == Physical(t, payload) + rest && 1 <= t && |payload| < BLOCK
    requires j < HEADER + |payload| && j != 4 && j != 5 && x != b[j]
    ensures ParseBuffer(b[j := x]) == if j == 6 && x == 0 && payload == [] then Blank else Mismatch
  {
    hide Sum, Unmask;
    BufferParses(b, t, payload, rest);
    GoodParts(b, t, payload, rest);
    var d := b[j := x];
    if j < 4 {
      ReadFixedDiffers(b, 4, j, x);
      ReadFixedSmall(d);
      UnmaskDiffers(ReadFixed(b, 4), ReadFixed(d, 4));
      assert d[HEADER..HEADER + |payload|] == payload;
    } else {
      SameFixed(b, d, 4);
      ChangedByteChangesSum([t] + payload, j - 6, x);
      assert [d[6]] + d[HEADER..HEADER + |payload|] == ([t] + payload)[j - 6 := x];
    }
  }

  lemma GoodParts(b: Bytes, t: byte, payload: Bytes, rest: Bytes)
    requires b == Physical(t, payload) + rest && |payload| < BLOCK && ParseBuffer(b) == Good(t, payload)
    ensures var low: nat, high: nat := b[4], b[5];
      low + 256 * high == |payload|
    ensures b[6] == t && b[HEADER..HEADER + |payload|] == payload
    ensures ReadFixed(b, 4) < WORD32 && Sum([t] + payload) == Unmask(ReadFixed(b, 4))
  {
    hide Physical, Sum, Unmask, ReadFixed;
    PhysicalHeader(t, payload);
    assert b[4] == Physical(t, payload)[4] && b[5] == Physical(t, payload)[5];
  }

  lemma PhysicalHeader(t: byte, payload: Bytes)
    requires |payload| < BLOCK
    ensures Physical(t, payload)[4] == |payload| % 256 && Physical(t, payload)[5] == |payload| / 256
  {
    hide Sum, Mask;
    FixedTwo(|payload|);
  }

  /** So the reader gives up the rest of the block: it never takes the damaged fragment for a record. */
  lemma DamageIsNoticed(file: Bytes, p: nat, t: byte, payload: Bytes, j: nat, x: byte, rest: Bytes)
    requires p <= |file| && p % BLOCK + HEADER + |payload| <= BLOCK && 1 <= t
    requires j < HEADER + |payload| && j != 4 && j != 5 && x != Physical(t, payload)[j]
    requires file[p..] == Physical(t, payload)[j := x] + rest
    ensures Parse(file, p) == Bad(BufferEnd(file, p), if j == 6 && x == 0 && payload == [] then 0 else 1)
  {
    hide Physical, ParseBuffer;
    PhysicalSize(t, payload);
    var end := BufferEnd(file, p);
    var next := p + HEADER + |payload|;
    assert next <= end;
    var whole := Physical(t, payload) + rest[..end - next];
    assert file[p..end] == file[p..][..end - p] == whole[j := x];
    DamageIsMismatch(whole, t, payload, rest[..end - next], j, x);
  }

  /** A header that promises more than the buffer holds. */
  lemma CutBufferParses(b: Bytes, t: byte, payload: Bytes)
    requires HEADER <= |b| < HEADER + |payload| && b == Physical(t, payload)[..|b|] && |payload| < BLOCK
    ensures ParseBuffer(b) == TooLong
  {
    hide Sum, Mask;
    FixedTwo(|payload|);
    assert Physical(t, payload)[4] == |payload| % 256 && Physical(t, payload)[5] == |payload| / 256;
  }

  lemma PhysicalParses(log: Bytes, c: nat, p: nat, t: byte, payload: Bytes, rest: Bytes)
    requires p <= c <= |log| && p % BLOCK + HEADER + |payload| <= BLOCK && 1 <= t
    requires log[p..] == Physical(t, payload) + rest
    ensures var next := p + HEADER + |payload|;
      Parse(log[..c], p) == if next <= c then Fragment(t, payload, next) else Eof
  {
    var file, next := log[..c], p + HEADER + |payload|;
    var end := BufferEnd(file, p);
    assert next <= BlockEnd(p);
    assert file[p..end] == log[p..][..end - p];
    if next <= c {
      assert file[p..end] == Physical(t, payload) + rest[..end - next];
      BufferParses(file[p..end], t, payload, rest[..end - next]);
    } else if end - p >= HEADER {
      assert file[p..end] == Physical(t, payload)[..end - p];
      CutBufferParses(file[p..end], t, payload);
    }
  }

  /** The next fragment of a record, and where it leaves the log. */
  lemma FragmentParses(log: Bytes, c: nat, p: nat, offset: nat, left: Bytes, begin: bool, rest: Bytes) returns (next: nat)
    requires p <= c <= |log| && offset < BLOCK && p % BLOCK == offset
    requires log[p..] == Emit(offset, left, begin) + rest
    ensures var n := FragmentLength(offset, |left|);
      var end := n == |left|;
      var after := if end then [] else Emit(Start(offset) + HEADER + n, left[n..], false);
      && p < next <= |log| && next % BLOCK == (Start(offset) + HEADER + n) % BLOCK
      && next + |after| == p + |Emit(offset, left, begin)| && log[next..] == after + rest
      && Parse(log[..c], p) == if next <= c then Fragment(TypeOf(begin, end), left[..n], next) else Eof
  {
    hide Parse, Emit, Physical;
    var n := FragmentLength(offset, |left|);
    var end := n == |left|;
    var t, q := TypeOf(begin, end), p + |Trailer(offset)|;
    var after := if end then [] else Emit(Start(offset) + HEADER + n, left[n..], false);
    EmitSplits(offset, left, begin, rest);
    next := q + HEADER + n;
    TrailerParses(log, c, p, offset, Physical(t, left[..n]) + (after + rest));
    PhysicalSize(t, left[..n]);
    assert q % BLOCK == Start(offset);
    SameOffset(q, Start(offset), HEADER + n);
    Dropped(log, p, Trailer(offset), Physical(t, left[..n]), after + rest);
    if q <= c {
      PhysicalParses(log, c, q, t, left[..n], after + rest);
    }
  }

  lemma SameOffset(q: nat, offset: nat, n: nat)
    requires q % BLOCK == offset
    ensures (q + n) % BLOCK == (offset + n) % BLOCK
  {
    var blocks := q / BLOCK;
    assert q + n == offset + n + BLOCK * blocks;
  }

  lemma Dropped(log: Bytes, p: nat, a: Bytes, b: Bytes, rest: Bytes)
    requires p <= |log| && log[p..] == a + (b + rest)
    ensures |log| == p + |a| + |b| + |rest|
    ensures log[p + |a|..] == b + rest && log[p + |a| + |b|..] == rest
  {
    assert |log[p..]| == |log| - p;
    assert log[p + |a|..] == log[p..][|a|..];
    assert log[p + |a| + |b|..] == log[p..][|a| + |b|..];
  }

  lemma Grouped(a: Bytes, b: Bytes, c: Bytes, d: Bytes)
    ensures a + b + c + d == a + (b + (c + d))
  {
  }

  lemma PhysicalSize(t: byte, payload: Bytes)
    ensures |Physical(t, payload)| == HEADER + |payload|
  {
  }

  lemma EmitSplits(offset: nat, left: Bytes, begin: bool, rest: Bytes)
    requires offset <= BLOCK
    ensures var n := FragmentLength(offset, |left|);
      var end := n == |left|;
      var after := if end then [] else Emit(Start(offset) + HEADER + n, left[n..], false);
      && Emit(offset, left, begin) + rest == Trailer(offset) + (Physical(TypeOf(begin, end), left[..n]) + (after + rest))
      && |Emit(offset, left, begin)| == |Trailer(offset)| + HEADER + n + |after|
  {
    hide Physical, Trailer;
    var n := FragmentLength(offset, |left|);
    var end := n == |left|;
    PhysicalSize(TypeOf(begin, end), left[..n]);
    Grouped(Trailer(offset), Physical(TypeOf(begin, end), left[..n]),
            if end then [] else Emit(Start(offset) + HEADER + n, left[n..], false), rest);
  }

  /** Reading what Emit wrote gives the record back, or the end of the file if any byte of it is missing. */
  lemma {:induction false} ReadsEmitted(log: Bytes, c: nat, p: nat, offset: nat, left: Bytes, begin: bool, scratch: Bytes, rest: Bytes)
    requires p <= c <= |log| && offset <= BLOCK && p % BLOCK == offset % BLOCK && (begin ==> scratch == [])
    requires log[p..] == Emit(offset, left, begin) + rest
    ensures var next := p + |Emit(offset, left, begin)|;
      Read(log[..c], p, scratch, !begin) ==
      if next <= c then Outcome(Some(scratch + left), next, 0) else Outcome(None, c, 0)
    decreases |left|, if BLOCK - offset == HEADER then 1 else 0, offset
  {
    hide Parse, Emit, Trailer;
    if offset == BLOCK {
      WrappedOffset(offset, left, begin);
      ReadsEmitted(log, c, p, 0, left, begin, scratch, rest);
    } else {
      var next := FragmentParses(log, c, p, offset, left, begin, rest);
      var n := FragmentLength(offset, |left|);
      if next <= c && n < |left| {
        ReadsEmitted(log, c, next, Start(offset) + HEADER + n, left[n..], false, scratch + left[..n], rest);
        assert scratch + left[..n] + left[n..] == scratch + left;
        assert begin ==> scratch + left[..n] == left[..n];
      } else {
        assert begin ==> scratch + left == left;
        assert n == |left| ==> left[..n] == left;
      }
    }
  }

  /** How far the log reaches after its first i records. */
  ghost function End(records: seq<Bytes>, i: nat): nat
    requires i <= |records|
  {
    |LogOf(records[..i])|
  }

  lemma {:induction false} LogPrefix(records: seq<Bytes>, i: nat)
    requires i <= |records|
    ensures
      && End(records, i) <= |LogOf(records)|
      && LogOf(records)[..End(records, i)] == LogOf(records[..i])
    decreases |records| - i
  {
    hide Emit;
    if i == |records| {
      assert records[..i] == records;
    } else {
      LogPrefix(records, i + 1);
      assert records[..i + 1][..i] == records[..i];
    }
  }

  /** From the end of record i the log goes on with what the writer emits for the next record. */
  lemma LogSplits(records: seq<Bytes>, i: nat)
    requires i < |records|
    ensures var log, p := LogOf(records), End(records, i);
      && p <= End(records, i + 1) <= |log|
      && End(records, i + 1) == p + |Emit(p % BLOCK, records[i], true)|
      && log[p..] == Emit(p % BLOCK, records[i], true) + log[End(records, i + 1)..]
  {
    hide Emit;
    LogPrefix(records, i);
    LogPrefix(records, i + 1);
    assert records[..i + 1][..i] == records[..i];
    var log, p, next := LogOf(records), End(records, i), End(records, i + 1);
    assert log[..next] == log[..p] + Emit(p % BLOCK, records[i], true);
    assert log[p..] == log[..next][p..] + log[next..];
  }

  lemma ReadsEnd(file: Bytes)
    ensures Read(file[..|file|], |file|, [], false) == Outcome(None, |file|, 0)
  {
    assert Parse(file[..|file|], |file|).Eof?;
  }

  /** The record after the first i, if the cut left it whole; otherwise the end, and never a complaint. */
  lemma ReadsLog(records: seq<Bytes>, c: nat, i: nat)
    requires i <= |records| && End(records, i) <= c <= |LogOf(records)|
    ensures Read(LogOf(records)[..c], End(records, i), [], false) ==
      if i < |records| && End(records, i + 1) <= c then Outcome(Some(records[i]), End(records, i + 1), 0)
      else Outcome(None, c, 0)
  {
    hide Read, Emit, LogOf;
    var log := LogOf(records);
    if i < |records| {
      LogSplits(records, i);
      var next := End(records, i + 1);
      ReadsEmitted(log, c, End(records, i), End(records, i) % BLOCK, records[i], true, [], log[next..]);
      assert [] + records[i] == records[i];
    } else {
      assert records[..i] == records;
      ReadsEnd(log);
    }
  }

  /** Every record ReadRecord returns before it first returns false, and all corruption reports. */
  function ReadAll(file: Bytes, p: nat): (seq<Bytes>, nat)
    requires p <= |file|
    decreases |file| - p
  {
    var o := Read(file, p, [], false);
    match o.record
    case None => ([], o.reports)
    case Some(r) =>
      if o.next <= p then ([r], o.reports)
      else
        var rest := ReadAll(file, o.next);
        ([r] + rest.0, o.reports + rest.1)
  }

  /** The number of records that lie wholly in the first c bytes. */
  ghost function Whole(records: seq<Bytes>, c: nat, i: nat): (n: nat)
    requires i <= |records|
    ensures i <= n <= |records|
    decreases |records| - i
  {
    if i < |records| && End(records, i + 1) <= c then Whole(records, c, i + 1) else i
  }

  lemma EmitNotEmpty(offset: nat, left: Bytes, begin: bool)
    requires offset <= BLOCK
    ensures |Emit(offset, left, begin)| >= HEADER
  {
  }

  lemma {:induction false} ReadsRest(records: seq<Bytes>, c: nat, i: nat)
    requires i <= |records| && End(records, i) <= c <= |LogOf(records)|
    ensures ReadAll(LogOf(records)[..c], End(records, i)) == (records[i..Whole(records, c, i)], 0)
    decreases |records| - i
  {
    hide Emit, Read;
    ReadsLog(records, c, i);
    if i < |records| && End(records, i + 1) <= c {
      LogSplits(records, i);
      EmitNotEmpty(End(records, i) % BLOCK, records[i], true);
      ReadsRest(records, c, i + 1);
      assert records[i..Whole(records, c, i)] == [records[i]] + records[i + 1..Whole(records, c, i)];
    } else {
      assert records[i..Whole(records, c, i)] == [];
    }
  }

  /** After a cut at any byte the reader returns exactly the records wholly before it, and reports nothing. */
  lemma CutLogReadsBack(records: seq<Bytes>, c: nat)
    requires c <= |LogOf(records)|
    ensures ReadAll(LogOf(records)[..c], 0) == (records[..Whole(records, c, 0)], 0)
    ensures forall i | 0 <= i <= |records| :: i <= Whole(records, c, 0) <==> End(records, i) <= c
  {
    ReadsRest(records, c, 0);
    forall i | 0 <= i <= |records|
      ensures i <= Whole(records, c, 0) <==> End(records, i) <= c
    {
      WholeIs(records, c, 0, i);
    }
  }

  lemma {:induction false} EndsGrow(records: seq<Bytes>, i: nat, j: nat)
    requires i <= j <= |records|
    ensures End(records, i) <= End(records, j)
    decreases j - i
  {
    if i < j {
      LogSplits(records, i);
      EndsGrow(records, i + 1, j);
    }
  }

  lemma {:induction false} WholeIs(records: seq<Bytes>, c: nat, i: nat, j: nat)
    requires i <= |records| && j <= |records| && End(records, i) <= c
    ensures j <= Whole(records, c, i) <==> End(records, j) <= c
    decreases |records| - i
  {
    hide LogOf;
    if j <= i {
      EndsGrow(records, j, i);
    } else if End(records, i + 1) <= c {
      WholeIs(records, c, i + 1, j);
    } else {
      EndsGrow(records, i + 1, j);
    }
  }
}
