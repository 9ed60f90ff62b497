/** The message decoder (pb_decode.c, pb_common.c) and the round trip of messages. */
module ProtoDecoders {
  import opened Keys
  import opened Entries
  import opened Coding
  import opened Protos
  import opened ProtoRecords
  import opened ProtoVersions

  // Input streams: a window of a buffer.

  class IStream {
    const data: Bytes
    var pos: nat
    var left: nat

    ghost predicate Valid()
      reads this
    {
      pos + left <= |data|
    }

    function Remaining(): Bytes
      requires Valid()
      reads this
    {
      data[pos..pos + left]
    }

    constructor (data: Bytes, pos: nat, left: nat)
      requires pos + left <= |data|
      ensures Valid() && this.data == data && this.pos == pos && this.left == left
    {
      this.data, this.pos, this.left := data, pos, left;
    }

    method Read(count: nat) returns (ok: bool, b: Bytes)
      requires Valid()
      modifies this
      ensures Valid() && (ok <==> count <= |old(Remaining())|)
      ensures if ok then b == old(Remaining())[..count] && Remaining() == old(Remaining())[count..] else pos == old(pos) && left == old(left)
      ensures pos + left == old(pos + left) && left <= old(left)
    {
      if left < count {
        return false, [];
      }
      b := data[pos..pos + count];
      pos, left := pos + count, left - count;
      ok := true;
    }

    method ReadByte() returns (ok: bool, b: byte)
      requires Valid()
      modifies this
      ensures Valid() && pos + left == old(pos + left) && (ok <==> old(Remaining()) != [])
      ensures if ok then left == old(left) - 1 && b == old(Remaining())[0] && Remaining() == old(Remaining())[1..] else left == old(left) == 0
    {
      if left == 0 {
        return false, 0;
      }
      b := data[pos];
      pos, left := pos + 1, left - 1;
      ok := true;
    }

    /** A varint of up to ten bytes in a 64-bit word. */
    method DecodeVarint() returns (ok: bool, value: nat)
      requires Valid()
      modifies this
      ensures Valid() && pos + left == old(pos + left) && left <= old(left)
      ensures match GetVarint64(old(Remaining()))
        case None => !ok
        case Some((v, rest)) => ok && value == v && Remaining() == rest && left < old(left)
    {
      hide Prepend, Shifted;
      ghost var s := Remaining();
      value := 0;
      var bitpos, unit: nat := 0, 1;
      ghost var low: nat, p: nat := 0, 0;
      PrependNothing(ReadVarint(s, 10), WORD64);
      assert s[0..] == s;
      while true
        invariant Valid() && pos + left == old(pos + left) && bitpos == 7 * p && p <= 10 && p <= |s| && Remaining() == s[p..]
        invariant left == old(left) - p
        invariant value == low % WORD64 && ReadVarint(s, 10) == Prepend(low, unit, ReadVarint(s[p..], 10 - p))
        decreases left
      {
        if bitpos >= 64 {
          PrependNone(low, unit);
          return false, 0;
        }
        var read, b := ReadByte();
        if !read {
          PrependNone(low, unit);
          return false, 0;
        }
        assert s[p..][0] == b && s[p..][1..] == s[p + 1..];
        assert b % 128 == if b < 128 then b else b - 128;
        ModAdd(low, Shifted(unit, b % 128), WORD64);
        value := (value + Shifted(unit, b % 128)) % WORD64;
        bitpos := bitpos + 7;
        if b < 128 {
          PrependLast(low, unit, b, s[p + 1..]);
          return true, value;
        }
        PrependStep(low, unit, b - 128, ReadVarint(s[p + 1..], 9 - p));
        low := low + Shifted(unit, b % 128);
        unit := unit * 128;
        p := p + 1;
      }
    }

    /** A 32-bit varint. The ghost arguments say what an encoder wrote: a canonical `v` and `rest` after it. */
    method DecodeVarint32(ghost written: bool, ghost v: nat, ghost rest: Bytes) returns (ok: bool, value: nat, eof: bool)
      requires Valid()
      requires written ==> v < WORD32 && Remaining() == Varint(v) + rest
      modifies this
      ensures
        && Valid()
        && pos + left == old(pos + left)
        && left <= old(left)
        && (ok ==> value < WORD32 && left < old(left))
      ensures eof ==> !ok
      ensures written ==> ok && value == v && Remaining() == rest
    {
      hide Varint, OrShifted, Read32, Pow;
      eof := false;
      ghost var s := Remaining();
      if written {
        FrontByte(v, rest, s);
      }
      var read, b := ReadByte();
      if !read {
        return false, 0, left == 0;
      }
      if b < 128 {
        return true, b, false;
      }
      var bitpos: nat, result: nat := 7, b % 128;
      ghost var w: nat := v / 128;
      if written {
        Read32Starts(v);
      }
      while true
        invariant Valid() && pos + left == old(pos + left) && left < old(left) && result < WORD32 && bitpos < 256
        invariant written ==> Remaining() == Varint(w) + rest && Read32(v, bitpos, result, w)
        decreases left
      {
        s := Remaining();
        read, b := ReadByte();
        if written {
          FrontByte(w, rest, s);
          Read32Step(v, bitpos, result, w);
        }
        if !read {
          return false, 0, false;
        }
        if bitpos >= 32 {
          // Trailing 0x80 bytes, or 0xff for negative numbers.
          var sign := if bitpos < 63 then 0xff else 0x01;
          if b % 128 != 0 && (result < 0x8000_0000 || b != sign) {
            return false, 0, false;
          }
        } else {
          result := OrShifted(result, b % 128, bitpos);
        }
        bitpos := (bitpos + 7) % 256;
        if b < 128 {
          break;
        }
        w := w / 128;
      }
      if bitpos == 35 && b / 16 % 8 != 0 {
        // Only the bottom four bits of the fifth byte fit.
        return false, 0, false;
      }
      return true, result, false;
    }

    /** A length, and a stream over that many bytes. Closing it skips what was left unread, so this one moves past all of it. */
    method MakeSubstream(ghost written: bool, ghost body: Bytes, ghost rest: Bytes) returns (ok: bool, sub: IStream)
      requires Valid() && (written ==> |body| < WORD32 && Remaining() == Varint(|body|) + body + rest)
      modifies this
      ensures
        && Valid()
        && pos + left == old(pos + left)
        && left <= old(left)
        && fresh(sub)
        && sub.Valid()
      ensures written ==> ok && sub.Remaining() == body && Remaining() == rest
    {
      hide Varint;
      assert Varint(|body|) + body + rest == Varint(|body|) + (body + rest);
      var got, size, eof := DecodeVarint32(written, |body|, body + rest);
      if !got || left < size {
        sub := new IStream([], 0, 0);
        return false, sub;
      }
      ghost var s := Remaining();
      sub := new IStream(data, pos, size);
      assert sub.Remaining() == s[..size];
      pos, left := pos + size, left - size;
      assert Remaining() == s[size..];
      ok := true;
    }
  }

  /** Between the groups of a canonical 32-bit varint: `result` holds the low bits of v, `w` the high ones. */
  ghost predicate Read32(v: nat, bitpos: nat, result: nat, w: nat) {
    && v < WORD32 && (bitpos == 7 || bitpos == 14 || bitpos == 21 || bitpos == 28)
    && result < Weight(bitpos) && v == result + Weight(bitpos) * w
  }

  function Weight(bitpos: nat): nat {
    if bitpos == 7 then 0x80 else if bitpos == 14 then 0x4000 else if bitpos == 21 then 0x20_0000 else 0x1000_0000
  }

  lemma Read32Starts(v: nat)
    requires v < WORD32
    ensures Read32(v, 7, v % 128, v / 128)
  {
  }

  /** Bits above those of `result`, shifted out of a 32-bit word. */
  function OrShifted(result: nat, group: nat, bitpos: nat): (r: nat)
    ensures r < WORD32
  {
    (result + group * Pow(2, bitpos)) % WORD32
  }

  lemma OrShiftedIs(result: nat, group: nat, bitpos: nat)
    requires bitpos == 7 || bitpos == 14 || bitpos == 21 || bitpos == 28
    requires result + group * Weight(bitpos) < WORD32
    ensures OrShifted(result, group, bitpos) == result + group * Weight(bitpos)
  {
    Powers();
  }

  /** One more group of seven bits. */
  lemma TakeGroup(v: nat, unit: nat, result: nat, low: nat, high: nat)
    requires v == result + unit * (low + 128 * high) && result < unit && low < 128
    ensures v == (result + low * unit) + unit * 128 * high && result + low * unit < unit * 128
  {
    Distribute(unit, low, 128 * high);
    assert unit * (128 * high) == unit * 128 * high;
    assert low * unit <= 127 * unit;
  }

  lemma Read32Step(v: nat, bitpos: nat, result: nat, w: nat)
    requires Read32(v, bitpos, result, w)
    ensures bitpos < 32 && (bitpos + 7) % 256 == bitpos + 7
    ensures w < 128 ==> OrShifted(result, w % 128, bitpos) == v && (bitpos == 28 ==> w / 16 % 8 == 0)
    ensures w >= 128 ==> Read32(v, bitpos + 7, OrShifted(result, w % 128, bitpos), w / 128)
  {
    hide OrShifted, Weight;
    var low, high := w % 128, w / 128;
    WeightIs(bitpos);
    TakeGroup(v, Weight(bitpos), result, low, high);
    assert Weight(bitpos) * 128 * high >= 0;
    OrShiftedIs(result, low, bitpos);
    LastGroup(v, bitpos, w);
    if w < 128 {
      assert high == 0;
    }
  }

  lemma WeightIs(bitpos: nat)
    requires bitpos == 7 || bitpos == 14 || bitpos == 21 || bitpos == 28
    ensures Weight(bitpos) > 0
    ensures bitpos < 28 ==> Weight(bitpos + 7) == Weight(bitpos) * 128
  {
  }

  /** After the fourth group only four bits are left. */
  lemma LastGroup(v: nat, bitpos: nat, w: nat)
    requires v < WORD32 && Weight(bitpos) * w <= v
    requires bitpos == 7 || bitpos == 14 || bitpos == 21 || bitpos == 28
    ensures bitpos == 28 ==> w < 16
  {
  }

  lemma VarintUnfold(v: nat)
    ensures Varint(v) == if v < 128 then [v] else [v % 128 + 128] + Varint(v / 128)
  {
  }

  lemma FrontByte(v: nat, rest: Bytes, s: Bytes)
    requires s == Varint(v) + rest
    ensures
      && s != []
      && s[0] == (if v < 128 then v else v % 128 + 128)
      && s[0] % 128 == v % 128
    ensures s[1..] == if v < 128 then rest else Varint(v / 128) + rest
  {
    VarintUnfold(v);
    hide Varint;
  }

  lemma Powers()
    ensures
      && Pow(2, 7) == 0x80
      && Pow(2, 14) == 0x4000
      && Pow(2, 21) == 0x20_0000
      && Pow(2, 28) == 0x1000_0000
  {
    assert Pow(2, 4) == 2 * (2 * Pow(2, 2)) == 16;
    assert Pow(2, 7) == 2 * (2 * (2 * Pow(2, 4)));
    assert Pow(2, 10) == 2 * (2 * (2 * Pow(2, 7)));
    assert Pow(2, 14) == 2 * (2 * (2 * (2 * Pow(2, 10))));
    assert Pow(2, 18) == 2 * (2 * (2 * (2 * Pow(2, 14))));
    assert Pow(2, 21) == 2 * (2 * (2 * Pow(2, 18)));
    assert Pow(2, 25) == 2 * (2 * (2 * (2 * Pow(2, 21))));
    assert Pow(2, 28) == 2 * (2 * (2 * Pow(2, 25)));
  }

  // What the struct can hold.

  predicate Receivable(t: Type, v: Value)
    requires Typed(t, v)
    decreases t
  {
    match t
    case TBytes(max) => |v.b| <= max
    // One byte for the terminator.
    case TString(size) => |v.b| < size
    case TMessage(fields) => ReceivableSlots(fields, v.slots)
    case _ => true
  }

  predicate ReceivableItem(f: Field, item: Item)
    requires TypedItem(f, item)
    decreases f, 0
  {
    item.Whole? ==> Receivable(f.t, item.v)
  }

  predicate ReceivableSlots(fields: seq<Field>, slots: seq<Slot>)
    requires TypedSlots(fields, slots)
    decreases fields, 0
  {
    forall i | 0 <= i < |fields| :: ReceivableSlot(fields[i], slots[i])
  }

  predicate ReceivableSlot(f: Field, slot: Slot)
    requires TypedSlot(f, slot)
    decreases f, 1
  {
    && (f.rule.Repeated? ==> |slot.items| <= f.rule.max)
    && forall k | 0 <= k < |Items(f, slot)| :: ReceivableItem(f, Items(f, slot)[k])
  }

  // What a 32-bit length on the wire can say.

  predicate Framed(t: Type, v: Value)
    requires Typed(t, v)
    decreases t
  {
    match t
    case TString(_) => |v.b| < WORD32 - 1
    case TFixedBytes(_) => |v.b| < WORD32 - 1
    case TMessage(fields) => FramedSlots(fields, v.slots) && |Encoding(fields, v.slots)| < WORD32
    case _ => true
  }

  predicate FramedItem(f: Field, item: Item)
    requires TypedItem(f, item)
    decreases f, 0
  {
    match item
    case Whole(v) => Framed(f.t, v)
    case Packed(vs) => |ValuesBytes(f.t, vs, |vs|)| < WORD32
  }

  predicate FramedSlots(fields: seq<Field>, slots: seq<Slot>)
    requires TypedSlots(fields, slots)
    decreases fields, 0
  {
    forall i | 0 <= i < |fields| :: FramedSlot(fields[i], slots[i])
  }

  predicate FramedSlot(f: Field, slot: Slot)
    requires TypedSlot(f, slot)
    decreases f, 1
  {
    forall k | 0 <= k < |Items(f, slot)| :: FramedItem(f, Items(f, slot)[k])
  }

  // The right members in every struct, no array over its capacity and one member at most of every union, whatever
  // their values.

  predicate Shaped(t: Type, v: Value)
    decreases t
  {
    match t
    case TMessage(fields) => v.VMessage? && ShapedSlots(fields, v.slots)
    case TBytes(_) => v.VBytes?
    case TString(_) => v.VBytes?
    case TFixedBytes(_) => v.VBytes?
    case _ => v.VInt?
  }

  predicate ShapedSlots(fields: seq<Field>, slots: seq<Slot>)
    decreases fields
  {
    && |slots| == |fields|
    && Exclusive(fields, slots)
    && forall i | 0 <= i < |fields| :: ShapedSlot(fields[i], slots[i])
  }

  predicate ShapedSlot(f: Field, slot: Slot)
    decreases f
  {
    && RuleFits(f, slot)
    && match slot
       case One(v) => Shaped(f.t, v)
       case Maybe(_, v) => Shaped(f.t, v)
       case Many(vs) => |vs| <= f.rule.max && forall i | 0 <= i < |vs| :: Shaped(f.t, vs[i])
  }

  lemma {:induction false} DefaultShaped(f: Field)
    requires FieldOk(f)
    ensures Shaped(f.t, DefaultOf(f)) && ShapedSlot(f, DefaultSlot(f))
    decreases f
  {
    match f.t
    case TMessage(fields) => DefaultsShaped(fields);
    case _ =>
  }

  lemma {:induction false} DefaultsShaped(fields: seq<Field>)
    requires WellFormed(fields)
    ensures ShapedSlots(fields, Defaults(fields))
    decreases fields
  {
    forall i | 0 <= i < |fields|
      ensures ShapedSlot(fields[i], Defaults(fields)[i])
    {
      DefaultShaped(fields[i]);
    }
  }

  lemma ShapedFits(fields: seq<Field>, slots: seq<Slot>)
    requires ShapedSlots(fields, slots)
    ensures SlotsFit(fields, slots)
  {
    hide Shaped;
  }

  // Signed numbers.

  /** The two's complement reading of the low bits of a word. */
  function Signed(value: nat, bits: nat): int
    requires Width(bits)
  {
    var low := value % (2 * Half(bits));
    if low < Half(bits) then low else low - 2 * Half(bits)
  }

  function UnZigZag(value: nat): int {
    if value % 2 == 1 then -(value / 2) - 1 else value / 2
  }

  /** pb_dec_varint: fields of up to 32 bits read the word as an int32 first; then it must survive the cast to the field. */
  function IntOf(value: nat, bits: nat): (int, bool)
    requires Width(bits)
  {
    var s := if bits == 64 then Signed(value, 64) else Signed(value, 32);
    (s, -(Half(bits) as int) <= s < Half(bits))
  }

  lemma IntRoundTrip(i: int, bits: nat)
    requires Width(bits) && -(Half(bits) as int) <= i < Half(bits)
    ensures IntOf(i % WORD64, bits) == (i, true)
  {
    if bits == 64 {
      SignedWhole(i);
    } else {
      SignedLow(i);
    }
  }

  lemma SignedWhole(i: int)
    requires -0x8000_0000_0000_0000 <= i < 0x8000_0000_0000_0000
    ensures Signed(i % WORD64, 64) == i
  {
    assert i % WORD64 == if i < 0 then i + WORD64 else i;
  }

  lemma SignedLow(i: int)
    requires -0x8000_0000 <= i < 0x8000_0000
    ensures Signed(i % WORD64, 32) == i
  {
    var value := i % WORD64;
    var low, high := if i < 0 then i + WORD32 else i, if i < 0 then WORD32 - 1 else 0;
    assert value == if i < 0 then i + WORD64 else i;
    assert value == low + WORD32 * high && 0 <= low < WORD32;
    assert value % WORD32 == low;
  }

  lemma ZigZagRoundTrip(i: int, bits: nat)
    requires Width(bits) && -(Half(bits) as int) <= i < Half(bits)
    ensures UnZigZag(ZigZag(i)) == i && ZigZag(i) < WORD64
  {
  }

  // Field decoders. The ghost arguments say what an encoder has written: the value `v` of the sender's type, and
  // `rest` behind it.

  /** A length of at most `limit` and that many bytes. */
  method DecodeBytes(stream: IStream, limit: nat, ghost written: bool, ghost b: Bytes, ghost rest: Bytes) returns (ok: bool, r: Bytes)
    requires stream.Valid() && (written ==> |b| < WORD32 && stream.Remaining() == Varint(|b|) + b + rest)
    modifies stream
    ensures
      && stream.Valid()
      && stream.pos + stream.left == old(stream.pos + stream.left)
      && stream.left <= old(stream.left)
    ensures ok ==> |r| <= limit
    ensures written ==> (ok <==> |b| <= limit) && (ok ==> r == b && stream.Remaining() == rest)
  {
    hide Varint;
    assert Varint(|b|) + b + rest == Varint(|b|) + (b + rest);
    var got, size, eof := stream.DecodeVarint32(written, |b|, b + rest);
    if !got || size > limit {
      return false, [];
    }
    ok, r := stream.Read(size);
  }

  /** A number within its width, a byte string within its array, the terminator included. */
  predicate FitsField(t: Type, v: Value) {
    match t
    case TBool => v == VInt(0) || v == VInt(1)
    case TInt(bits) => v.VInt? && Width(bits) && -(Half(bits) as int) <= v.i < Half(bits)
    case TSInt(bits) => v.VInt? && Width(bits) && -(Half(bits) as int) <= v.i < Half(bits)
    case TUInt(bits) => v.VInt? && Width(bits) && 0 <= v.i < 2 * Half(bits)
    case TBytes(max) => v.VBytes? && |v.b| <= max
    case TString(size) => v.VBytes? && |v.b| < size
    case TFixedBytes(n) => v.VBytes? && |v.b| == n
    case _ => true
  }

  /** An array of numbers and structs is decoded into a fresh item, a singular struct into the one that is there. */
  method DecodeValue(stream: IStream, t: Type, v0: Value, fresh_: bool,
                     ghost written: bool, ghost sent: Type, ghost v: Value, ghost rest: Bytes) returns (ok: bool, r: Value)
    requires stream.Valid() && TypeOk(t) && Shaped(t, v0)
    requires written ==> TypeOk(sent) && SameType(sent, t) && Typed(sent, v) && Framed(sent, v)
    requires written ==> stream.Remaining() == ValueBytes(sent, v) + rest
    requires written && t.TMessage? && !fresh_ ==> v0 == VMessage(Defaults(t.fields))
    modifies stream
    ensures
      && stream.Valid()
      && stream.pos + stream.left == old(stream.pos + stream.left)
      && stream.left <= old(stream.left)
      && Shaped(t, r)
      && (ok ==> FitsField(t, r))
    ensures written ==> var known := CommonValue(sent, t, v);
      (ok <==> Receivable(t, known)) && (ok ==> r == NormalValue(t, known) && stream.Remaining() == rest)
    decreases t, 0
  {
    hide Varint, GetVarint64, Fixed, ReadFixed, WellFormed, Signed, ShapedSlots;
    r := v0;
    match t
    case TBool =>
      var got, value, eof := stream.DecodeVarint32(written, if written then v.i else 0, rest);
      return got, VInt(if value != 0 then 1 else 0);
    case TInt(bits) =>
      if written {
        Varint64RoundTrip(v.i % WORD64, rest);
        IntRoundTrip(v.i, bits);
      }
      var got, value := stream.DecodeVarint();
      if !got || !Width(bits) {
        return false, v0;
      }
      var (i, fits) := IntOf(value, bits);
      return fits, VInt(i);
    case TUInt(bits) =>
      if written {
        Varint64RoundTrip(v.i, rest);
      }
      var got, value := stream.DecodeVarint();
      if !got || !Width(bits) {
        return false, v0;
      }
      return value < 2 * Half(bits), VInt(value);
    case TSInt(bits) =>
      if written {
        ZigZagRoundTrip(v.i, bits);
        Varint64RoundTrip(ZigZag(v.i), rest);
      }
      var got, value := stream.DecodeVarint();
      if !got || !Width(bits) {
        return false, v0;
      }
      var i := UnZigZag(value);
      return -(Half(bits) as int) <= i < Half(bits), VInt(i);
    case TFixed32 =>
      ok, r := DecodeFixed(stream, 4, written, if written then v.i else 0, rest);
    case TFixed64 =>
      ok, r := DecodeFixed(stream, 8, written, if written then v.i else 0, rest);
    case TBytes(max) =>
      var b;
      ok, b := DecodeBytes(stream, if max < SIZE_MAX then max else SIZE_MAX, written, if written then v.b else [], rest);
      r := VBytes(b);
    case TString(size) =>
      var b;
      ok, b := DecodeBytes(stream, if size > 0 then size - 1 else 0, written, if written then v.b else [], rest);
      ok, r := ok && size > 0, VBytes(b);
    case TFixedBytes(n) =>
      var b;
      ok, b := DecodeBytes(stream, n, written, if written then v.b else [], rest);
      if ok && b == [] {
        // An empty string stands for all zeros.
        return true, VBytes(seq(n, _ => 0));
      }
      ok, r := ok && |b| == n, VBytes(b);
    case TMessage(fields) =>
      var slots;
      ok, slots := DecodeSubmessage(stream, fields, v0.slots, fresh_, written, if written then sent.fields else [],
                                    if written then v.slots else [], rest);
      r := VMessage(slots);
  }

  method DecodeFixed(stream: IStream, n: nat, ghost written: bool, ghost i: int, ghost rest: Bytes) returns (ok: bool, r: Value)
    requires stream.Valid() && (n == 4 || n == 8)
    requires written ==> 0 <= i < (if n == 4 then WORD32 else WORD64) && stream.Remaining() == Fixed(i, n) + rest
    modifies stream
    ensures
      && stream.Valid()
      && stream.pos + stream.left == old(stream.pos + stream.left)
      && stream.left <= old(stream.left)
      && r.VInt?
    ensures written ==> ok && r == VInt(i) && stream.Remaining() == rest
  {
    hide Fixed, ReadFixed;
    if written {
      FixedSize(i, n);
      if n == 4 {
        Fixed32RoundTrip(i, []);
      } else {
        Fixed64RoundTrip(i, []);
      }
      assert Fixed(i, n) + [] == Fixed(i, n);
    }
    var b;
    ok, b := stream.Read(n);
    r := VInt(if ok then ReadFixed(b, n) else 0);
  }

  method DecodeSubmessage(stream: IStream, fields: seq<Field>, dest: seq<Slot>, fresh_: bool, ghost written: bool,
                          ghost theirs: seq<Field>, ghost slots: seq<Slot>, ghost rest: Bytes) returns (ok: bool, r: seq<Slot>)
    requires stream.Valid() && WellFormed(fields) && ShapedSlots(fields, dest)
    requires written ==> WellFormed(theirs) && Extends(theirs, fields)
    requires written ==> TypedSlots(theirs, slots) && FramedSlots(theirs, slots) && |Encoding(theirs, slots)| < WORD32
    requires written ==> stream.Remaining() == Varint(|Encoding(theirs, slots)|) + Encoding(theirs, slots) + rest
    requires written && !fresh_ ==> dest == Defaults(fields)
    modifies stream
    ensures
      && stream.Valid()
      && stream.pos + stream.left == old(stream.pos + stream.left)
      && stream.left <= old(stream.left)
      && ShapedSlots(fields, r)
    ensures written ==> var known := Common(theirs, fields, slots);
      (ok <==> ReceivableSlots(fields, known)) && (ok ==> r == Normal(fields, known) && stream.Remaining() == rest)
    decreases fields, 4
  {
    hide Varint, WellFormed, Extends, TypedSlots, ShapedSlots, ReceivableSlots, FramedSlots;
    ghost var body := if written then Encoding(theirs, slots) else [];
    r := dest;
    var got, substream := stream.MakeSubstream(written, body, rest);
    if !got {
      return false, dest;
    }
    ghost var met;
    if fresh_ {
      ok, r, met := Decode(substream, fields, written, theirs, slots);
    } else {
      ok, r, met := DecodeNoInit(substream, fields, dest, written, theirs, slots);
    }
  }

  /** pb_decode of what a sender wrote by a descriptor with the same fields or more: it succeeds exactly when the
      common fields can be received, and gives them as received. */
  method Decode(stream: IStream, fields: seq<Field>, ghost written: bool, ghost theirs: seq<Field>, ghost slots: seq<Slot>)
    returns (ok: bool, r: seq<Slot>, ghost met: set<nat>)
    requires stream.Valid() && WellFormed(fields)
    requires written ==> WellFormed(theirs) && Extends(theirs, fields)
    requires written ==> TypedSlots(theirs, slots) && FramedSlots(theirs, slots) && stream.Remaining() == Encoding(theirs, slots)
    modifies stream
    ensures
      && stream.Valid()
      && ShapedSlots(fields, r)
      && stream.pos + stream.left == old(stream.pos + stream.left)
      && stream.left <= old(stream.left)
    ensures OnlyMet(fields, Defaults(fields), met, r) && (ok ==> RequiredMet(fields, met) && NoneShort(fields, met, r))
    ensures written ==> var known := Common(theirs, fields, slots);
      (ok <==> ReceivableSlots(fields, known)) && (ok ==> r == Normal(fields, known))
    decreases fields, 3
  {
    hide Extends, Common;
    DefaultsShaped(fields);
    ok, r, met := DecodeNoInit(stream, fields, Defaults(fields), written, theirs, slots);
  }

  // Fields of a message, found by tag.

  const MAX_REQUIRED: nat := 64

  function CountRequired(fields: seq<Field>, n: nat): nat
    requires n <= |fields|
  {
    if n == 0 then 0 else CountRequired(fields, n - 1) + if fields[n - 1].rule.Required? then 1 else 0
  }

  /** The circular field iterator of pb_common.c. */
  class FieldIter {
    const fields: seq<Field>
    var pos: nat
    var requiredIndex: nat

    ghost predicate Valid()
      reads this
    {
      pos < |fields| && requiredIndex == CountRequired(fields, pos)
    }

    constructor (fields: seq<Field>)
      requires fields != []
      ensures Valid() && this.fields == fields
    {
      this.fields, pos, requiredIndex := fields, 0, 0;
    }

    method Next() returns (more: bool)
      requires Valid()
      modifies this
      ensures
        && Valid()
        && pos == (if old(pos) + 1 == |fields| then 0 else old(pos) + 1)
        && more == (pos != 0)
    {
      if pos + 1 == |fields| {
        // Wrapped back to the beginning.
        pos, requiredIndex := 0, 0;
        return false;
      }
      if fields[pos].rule.Required? {
        requiredIndex := requiredIndex + 1;
      }
      pos := pos + 1;
      more := true;
    }

    method Find(tag: nat) returns (found: bool)
      requires Valid()
      modifies this
      ensures
        && Valid()
        && (found <==> exists i :: 0 <= i < |fields| && fields[i].tag == tag)
      ensures found ==> fields[pos].tag == tag
    {
      var start := pos;
      var looking := true;
      ghost var wrapped := false;
      while looking
        invariant Valid() && start < |fields|
        invariant wrapped ==> pos <= start && (forall i | start <= i < |fields| :: fields[i].tag != tag)
        invariant wrapped ==> forall i | 0 <= i < pos :: fields[i].tag != tag
        invariant !wrapped ==> start <= pos && forall i | start <= i < pos :: fields[i].tag != tag
        invariant !looking ==> wrapped && pos == start
        invariant looking && wrapped ==> pos < start
        decreases looking, !wrapped, |fields| - pos
      {
        if fields[pos].tag == tag {
          return true;
        }
        var more := Next();
        if !more {
          wrapped := true;
        }
        if pos == start {
          looking := false;
        }
      }
      found := false;
    }
  }

  /** What follows the tag of a record. */
  function Payload(f: Field, item: Item): Bytes
    requires TypedItem(f, item)
  {
    match item
    case Whole(v) => ValueBytes(f.t, v)
    case Packed(vs) => var body := ValuesBytes(f.t, vs, |vs|); Varint(|body|) + body
  }

  function WireOf(f: Field, item: Item): nat {
    if item.Packed? then 2 else WireType(f.t)
  }

  /** The field can take what the record brings. */
  predicate Taken(f: Field, slot: Slot, item: Item)
    requires TypedItem(f, item)
  {
    && ReceivableItem(f, item)
    && (f.rule.Repeated? ==> slot.Many? && |slot.items| + |Received(f, item)| <= f.rule.max)
  }

  /** Only field i has changed, and the members of its union. */
  ghost predicate OthersUntouched(fields: seq<Field>, dest: seq<Slot>, i: nat, r: seq<Slot>)
    requires i < |fields|
  {
    && |r| == |dest| == |fields|
    && forall j | 0 <= j < |fields| && j != i && !(fields[i].rule.OneOf? && fields[j].rule == fields[i].rule) :: r[j] == dest[j]
  }

  /** decode_static_field, by the repetition rule of the field. */
  method DecodeField(stream: IStream, fields: seq<Field>, i: nat, wire: nat, dest: seq<Slot>,
                     ghost written: bool, ghost g: Field, ghost sent: Item, ghost item: Item, ghost rest: Bytes)
    returns (ok: bool, r: seq<Slot>)
    requires stream.Valid() && WellFormed(fields) && ShapedSlots(fields, dest) && i < |fields|
    requires written ==> FieldOk(g) && SameField(g, fields[i]) && TypedItem(g, sent) && FramedItem(g, sent)
    requires written ==> item == CommonItem(g, fields[i], sent) && RecordOk(fields, (i, item)) && wire == WireOf(g, sent)
    requires written ==> stream.Remaining() == Payload(g, sent) + rest
    requires written && !fields[i].rule.Repeated? ==> dest[i] == DefaultSlot(fields[i])
    modifies stream
    ensures
      && stream.Valid()
      && stream.pos + stream.left == old(stream.pos + stream.left)
      && stream.left <= old(stream.left)
      && ShapedSlots(fields, r)
    ensures SlotsFit(fields, dest) && OthersUntouched(fields, dest, i, r)
    ensures written ==> (ok <==> Taken(fields[i], dest[i], item))
    ensures written && ok ==> r == Put(fields, dest, (i, item)) && stream.Remaining() == rest
    decreases fields[i], 2
  {
    hide Varint, ValueBytes, ValuesBytes, Shaped, Typed, TypeOk, WellFormed, ShapedSlots, NormalValue, SlotsFit,
      Receivable, Framed;
    ShapedFits(fields, dest);
    var f := fields[i];
    FieldFacts(fields, dest, i);
    if written {
      SentFacts(g, f, sent);
    }
    r := dest;
    var v;
    match f.rule
    case Repeated(max, _) =>
      if wire == 2 && Packable(f.t) {
        var vs;
        ok, vs := DecodePacked(stream, f, max, dest[i].items, written, if written then sent.vs else [], rest);
        StoredShaped(fields, dest, i, vs);
        r := Stored(fields, dest, i, vs);
        if written {
          ReceivedNumbers(f, item.vs);
        }
        return;
      }
      if |dest[i].items| >= max {
        return false, dest;
      }
      ok, v := DecodeValue(stream, f.t, DefaultOf(f), true, written, g.t, if written then sent.v else VInt(0), rest);
      StoredShaped(fields, dest, i, [v]);
      r := Stored(fields, dest, i, [v]);
    case _ =>
      var v0 := dest[i].v;
      var absent := dest[i] == Maybe(false, v0);
      if absent && f.rule.OneOf? && f.t.TMessage? {
        v0 := DefaultOf(f);
      }
      ok, v := DecodeValue(stream, f.t, v0, false, written, g.t, if written then sent.v else VInt(0), rest);
      StoredShaped(fields, dest, i, [v]);
      r := Stored(fields, dest, i, [v]);
  }

  /** A sender with the same field; only the structs in it may differ. */
  lemma SentFacts(g: Field, f: Field, sent: Item)
    requires FieldOk(g) && SameField(g, f) && TypedItem(g, sent)
    ensures TypeOk(g.t) && g.rule == f.rule && SameType(g.t, f.t) && (!f.t.TMessage? ==> g.t == f.t)
    ensures Packable(g.t) <==> Packable(f.t)
    ensures WireType(g.t) == WireType(f.t)
    ensures sent.Packed? ==> Payload(g, sent) == Payload(f, sent) && (FramedItem(g, sent) <==> FramedItem(f, sent))
  {
    hide ValueBytes, ValuesBytes, Varint, Typed;
    SameKind(g.t, f.t);
  }

  lemma FieldFacts(fields: seq<Field>, dest: seq<Slot>, i: nat)
    requires WellFormed(fields) && ShapedSlots(fields, dest) && i < |fields|
    ensures |dest| == |fields|
    ensures
      && TypeOk(fields[i].t)
      && RuleFits(fields[i], dest[i])
      && Shaped(fields[i].t, DefaultOf(fields[i]))
    ensures !dest[i].Many? ==> Shaped(fields[i].t, dest[i].v)
    ensures dest[i].Many? ==> fields[i].rule.Repeated? && |dest[i].items| <= fields[i].rule.max
    ensures fields[i].t.TMessage? ==> DefaultOf(fields[i]) == VMessage(Defaults(fields[i].t.fields))
  {
    assert FieldOk(fields[i]);
    DefaultShaped(fields[i]);
    assert ShapedSlot(fields[i], dest[i]);
  }

  lemma StoredShaped(fields: seq<Field>, dest: seq<Slot>, i: nat, vs: seq<Value>)
    requires WellFormed(fields) && ShapedSlots(fields, dest) && i < |fields| && (!fields[i].rule.Repeated? ==> |vs| == 1)
    requires forall k | 0 <= k < |vs| :: Shaped(fields[i].t, vs[k])
    requires |dest| == |fields| && (dest[i].Many? && fields[i].rule.Repeated? ==> |dest[i].items| + |vs| <= fields[i].rule.max)
    ensures
      && RuleFits(fields[i], dest[i])
      && ShapedSlots(fields, Stored(fields, dest, i, vs))
      && OthersUntouched(fields, dest, i, Stored(fields, dest, i, vs))
  {
    hide Shaped, DefaultSlot, FieldOk, Exclusive;
    assert ShapedSlot(fields[i], dest[i]);
    var r := Stored(fields, dest, i, vs);
    StoredExclusive(fields, dest, i, vs);
    forall j | 0 <= j < |fields|
      ensures ShapedSlot(fields[j], r[j])
    {
      assert ShapedSlot(fields[j], dest[j]) && FieldOk(fields[j]);
      DefaultShaped(fields[j]);
    }
  }

  /** Storing a member of a union takes the choice from the others. */
  lemma StoredExclusive(fields: seq<Field>, dest: seq<Slot>, i: nat, vs: seq<Value>)
    requires |dest| == |fields| && Exclusive(fields, dest) && i < |fields| && RuleFits(fields[i], dest[i])
    requires !fields[i].rule.Repeated? ==> |vs| == 1
    ensures Exclusive(fields, Stored(fields, dest, i, vs))
  {
    hide DefaultOf;
    var r := Stored(fields, dest, i, vs);
    if fields[i].rule.OneOf? {
      forall j | 0 <= j < |fields| && j != i && fields[j].rule == fields[i].rule
        ensures r[j].Maybe? && !r[j].has
      {
      }
    }
    forall j | 0 <= j < |fields| && j != i && fields[j].rule != fields[i].rule
      ensures r[j] == dest[j]
    {
    }
  }

  /** The encoding of the values from the k-th on. */
  function ValuesFrom(t: Type, vs: seq<Value>, k: nat): Bytes
    requires k <= |vs| && forall i | 0 <= i < |vs| :: Typed(t, vs[i])
    decreases |vs| - k
  {
    if k == |vs| then [] else ValueBytes(t, vs[k]) + ValuesFrom(t, vs, k + 1)
  }

  lemma {:induction false} ValuesSplit(t: Type, vs: seq<Value>, k: nat)
    requires k <= |vs| && forall i | 0 <= i < |vs| :: Typed(t, vs[i])
    ensures ValuesBytes(t, vs, |vs|) == ValuesBytes(t, vs, k) + ValuesFrom(t, vs, k)
    decreases |vs| - k
  {
    hide ValueBytes, Typed;
    if k < |vs| {
      ValuesSplit(t, vs, k + 1);
    }
  }

  lemma ValuesFromNotEmpty(t: Type, vs: seq<Value>, k: nat)
    requires k < |vs| && Packable(t) && forall i | 0 <= i < |vs| :: Typed(t, vs[i])
    ensures ValuesFrom(t, vs, k) != []
  {
    hide Varint, Fixed;
    assert Typed(t, vs[k]);
    VarintSize(vs[k].i % WORD64);
    VarintSize(ZigZag(vs[k].i));
    if vs[k].i >= 0 {
      VarintSize(vs[k].i);
      FixedSize(vs[k].i, 4);
      FixedSize(vs[k].i, 8);
    }
  }

  /** A packed array: values until the substream or the array is full, and nothing may be left over. */
  method DecodePacked(stream: IStream, f: Field, max: nat, items: seq<Value>, ghost written: bool, ghost vs: seq<Value>, ghost rest: Bytes)
    returns (ok: bool, r: seq<Value>)
    requires stream.Valid() && Packable(f.t)
    requires written ==> TypedItem(f, Packed(vs)) && FramedItem(f, Packed(vs))
    requires written ==> stream.Remaining() == Payload(f, Packed(vs)) + rest
    modifies stream
    ensures
      && stream.Valid()
      && stream.pos + stream.left == old(stream.pos + stream.left)
      && stream.left <= old(stream.left)
    ensures (forall k | 0 <= k < |r| :: Shaped(f.t, r[k])) && (|items| <= max ==> |items| + |r| <= max)
    ensures written ==> (ok <==> |items| + |vs| <= max) && (ok ==> r == vs && stream.Remaining() == rest)
    decreases f, 1
  {
    hide Varint, ValueBytes, ValuesBytes, ValuesFrom, Typed, FramedItem, Shaped;
    ghost var body := if written then ValuesBytes(f.t, vs, |vs|) else [];
    if written {
      PackedIsSmall(f, vs);
      ValuesFromAll(f.t, vs);
    }
    var got, substream := stream.MakeSubstream(written, body, rest);
    if !got {
      return false, [];
    }
    ok, r := DecodeNumbers(substream, f.t, if |items| < max then max - |items| else 0, written, vs);
  }

  /** Numbers until the stream is empty; anything left over is an array overflow. */
  method DecodeNumbers(stream: IStream, t: Type, room: nat, ghost written: bool, ghost vs: seq<Value>) returns (ok: bool, r: seq<Value>)
    requires stream.Valid() && Packable(t)
    requires written ==> (forall i | 0 <= i < |vs| :: Typed(t, vs[i])) && stream.Remaining() == ValuesFrom(t, vs, 0)
    modifies stream
    ensures stream.Valid() && |r| <= room && forall k | 0 <= k < |r| :: Shaped(t, r[k])
    ensures written ==> (ok <==> |vs| <= room) && (ok ==> r == vs)
    decreases t, 1
  {
    hide ValueBytes, ValuesFrom, Typed, Shaped, Receivable, Framed, NormalValue;
    r := [];
    ghost var k := 0;
    ok := true;
    NumberShaped(t);
    while stream.left > 0 && |r| < room
      invariant stream.Valid() && |r| <= room && forall k | 0 <= k < |r| :: Shaped(t, r[k])
      invariant written ==> k <= |vs| && r == vs[..k] && stream.Remaining() == ValuesFrom(t, vs, k)
      decreases room - |r|
    {
      if written {
        ValuesFromStep(t, vs, k);
        SameValue(t, vs[k]);
        assert vs[..k + 1] == vs[..k] + [vs[k]];
      }
      var v;
      ok, v := DecodeValue(stream, t, VInt(0), true, written, t, if written then vs[k] else VInt(0), if written then ValuesFrom(t, vs, k + 1) else []);
      if !ok {
        return;
      }
      r := r + [v];
      k := k + 1;
    }
    if written {
      ValuesFromStep(t, vs, k);
      assert vs[..|vs|] == vs;
    }
    ok := stream.left == 0;
  }

  lemma PackedIsSmall(f: Field, vs: seq<Value>)
    requires TypedItem(f, Packed(vs)) && FramedItem(f, Packed(vs))
    ensures |ValuesBytes(f.t, vs, |vs|)| < WORD32
  {
  }

  lemma ReceivedNumbers(f: Field, vs: seq<Value>)
    requires TypedItem(f, Packed(vs))
    ensures Received(f, Packed(vs)) == vs
  {
  }

  lemma NumberShaped(t: Type)
    requires Packable(t)
    ensures Shaped(t, VInt(0)) && TypeOk(t)
  {
  }

  lemma ValuesFromAll(t: Type, vs: seq<Value>)
    requires forall i | 0 <= i < |vs| :: Typed(t, vs[i])
    ensures ValuesFrom(t, vs, 0) == ValuesBytes(t, vs, |vs|)
  {
    ValuesSplit(t, vs, 0);
    hide ValuesFrom, ValueBytes;
    assert ValuesBytes(t, vs, 0) + ValuesFrom(t, vs, 0) == ValuesFrom(t, vs, 0);
  }

  /** The next number, if there is one. */
  lemma ValuesFromStep(t: Type, vs: seq<Value>, k: nat)
    requires k <= |vs| && Packable(t) && forall i | 0 <= i < |vs| :: Typed(t, vs[i])
    ensures k == |vs| <==> ValuesFrom(t, vs, k) == []
    ensures k < |vs| ==> ValuesFrom(t, vs, k) == ValueBytes(t, vs[k]) + ValuesFrom(t, vs, k + 1)
    ensures k < |vs| ==> vs[k].VInt? && Receivable(t, vs[k]) && Framed(t, vs[k]) && NormalValue(t, vs[k]) == vs[k]
  {
    if k < |vs| {
      ValuesFromNotEmpty(t, vs, k);
    }
  }

  /** Stands for a field where there is none. */
  const ANY_FIELD := Field(0, TBool, Required, VInt(0))

  /** pb_decode_tag: a zero ends the message as the end of the stream does. */
  method DecodeTag(stream: IStream, ghost written: bool, ghost g: Field, ghost item: Item, ghost rest: Bytes)
    returns (ok: bool, tag: nat, wire: nat, eof: bool)
    requires stream.Valid()
    requires written ==> FieldOk(g) && TypedItem(g, item) && stream.Remaining() == ItemBytes(g, item) + rest
    modifies stream
    ensures
      && stream.Valid()
      && stream.pos + stream.left == old(stream.pos + stream.left)
      && stream.left <= old(stream.left)
      && (ok ==> stream.left < old(stream.left))
    ensures written ==> ok && tag == g.tag && wire == WireOf(g, item) && stream.Remaining() == Payload(g, item) + rest
  {
    hide Varint, Payload, TypedItem, ItemBytes;
    tag, wire := 0, 0;
    ghost var tagged, after := 0, [];
    if written {
      RecordSplits(g, item, rest);
      TagParts(g, item);
      tagged, after := g.tag * 8 + WireOf(g, item), Payload(g, item) + rest;
    }
    var temp;
    ok, temp, eof := stream.DecodeVarint32(written, tagged, after);
    if !ok {
      return;
    }
    if temp == 0 {
      // A zero-terminated message.
      return false, 0, 0, true;
    }
    tag, wire := temp / 8, temp % 8;
  }

  lemma TagParts(g: Field, item: Item)
    requires FieldOk(g)
    ensures var tagged := g.tag * 8 + WireOf(g, item);
      8 <= tagged < WORD32 && tagged / 8 == g.tag && tagged % 8 == WireOf(g, item)
  {
  }

  // What holds for any bytes.

  /** A field changes only if a record of it, or of a member of its union, has come. */
  ghost predicate OnlyMet(fields: seq<Field>, dest: seq<Slot>, met: set<nat>, r: seq<Slot>) {
    && |r| == |dest| == |fields|
    && forall j | 0 <= j < |fields| && !Touched(fields, met, j) :: r[j] == dest[j]
  }

  ghost predicate Touched(fields: seq<Field>, met: set<nat>, j: nat)
    requires j < |fields|
  {
    j in met || (fields[j].rule.OneOf? && exists i :: i in met && i < |fields| && fields[i].rule == fields[j].rule)
  }

  /** No required field among the first 64 is missing. */
  ghost predicate RequiredMet(fields: seq<Field>, met: set<nat>) {
    forall i | 0 <= i < |fields| && fields[i].rule.Required? && CountRequired(fields, i) < MAX_REQUIRED :: i in met
  }

  /** Of no fixed-count array only a part has come. */
  ghost predicate NoneShort(fields: seq<Field>, met: set<nat>, r: seq<Slot>) {
    && |r| == |fields|
    && forall j | 0 <= j < |fields| && j in met && fields[j].rule.Repeated? && fields[j].rule.fixed ::
         r[j].Many? && |r[j].items| == fields[j].rule.max
  }

  /** All but the one entered last are whole, and of that one `size` elements have come. */
  ghost predicate ArraysWhole(fields: seq<Field>, met: set<nat>, r: seq<Slot>, current: Option<nat>, size: nat) {
    && |r| == |fields| && IsFixedCount(fields, current)
    && (current.Some? ==> r[current.value].Many? && |r[current.value].items| == size)
    && forall j | 0 <= j < |fields| && j in met && FixedCount(fields[j]) && current != Some(j) ::
         r[j].Many? && |r[j].items| == fields[j].rule.max
  }

  lemma ArraysStayWhole(fields: seq<Field>, met: set<nat>, dest: seq<Slot>, current: Option<nat>, size: nat, i: nat,
                        r: seq<Slot>, now: Option<nat>, count: nat)
    requires i < |fields| && |dest| == |fields| && OthersUntouched(fields, dest, i, r) && IsFixedCount(fields, current)
    requires now == if FixedCount(fields[i]) then Some(i) else current
    requires FixedCount(fields[i]) && current != Some(i) && current.Some? ==> size == fields[current.value].rule.max
    requires if FixedCount(fields[i]) then r[i].Many? && count == |r[i].items| else count == size
    ensures ArraysWhole(fields, met, dest, current, size) ==> ArraysWhole(fields, met + {i}, r, now, count)
  {
  }

  lemma LastIsWhole(fields: seq<Field>, met: set<nat>, r: seq<Slot>, current: Option<nat>, size: nat)
    requires ArraysWhole(fields, met, r, current, size) && (current.Some? ==> size == fields[current.value].rule.max)
    ensures NoneShort(fields, met, r)
  {
  }

  ghost predicate SeenIsMet(fields: seq<Field>, seen: set<nat>, met: set<nat>) {
    forall i | 0 <= i < |fields| && fields[i].rule.Required? && CountRequired(fields, i) in seen :: i in met
  }

  lemma NothingMet(fields: seq<Field>, dest: seq<Slot>)
    requires ShapedSlots(fields, dest)
    ensures OnlyMet(fields, dest, {}, dest) && SeenIsMet(fields, {}, {}) && ArraysWhole(fields, {}, dest, None, 0)
  {
  }

  lemma OneMoreMet(fields: seq<Field>, dest: seq<Slot>, met: set<nat>, before: seq<Slot>, i: nat, r: seq<Slot>, s: set<nat>, seen: set<nat>)
    requires OnlyMet(fields, dest, met, before) && i < |fields| && OthersUntouched(fields, before, i, r)
    requires SeenIsMet(fields, s, met) && (seen == s || (fields[i].rule.Required? && seen == s + {CountRequired(fields, i)}))
    ensures OnlyMet(fields, dest, met + {i}, r) && SeenIsMet(fields, seen, met + {i})
  {
    hide CountRequired;
    forall j | 0 <= j < |fields| && !Touched(fields, met + {i}, j)
      ensures r[j] == dest[j]
    {
      assert i in met + {i};
      assert !Touched(fields, met, j);
    }
    forall j | 0 <= j < |fields| && fields[j].rule.Required? && CountRequired(fields, j) in seen
      ensures j in met + {i}
    {
      if CountRequired(fields, j) !in s {
        RequiredApart(fields, i, j);
      }
    }
  }

  /** Required fields have numbers of their own. */
  lemma {:induction false} RequiredApart(fields: seq<Field>, i: nat, j: nat)
    requires i < |fields| && j < |fields| && fields[i].rule.Required? && fields[j].rule.Required?
    requires CountRequired(fields, i) == CountRequired(fields, j)
    ensures i == j
  {
    if i < j {
      CountGrows(fields, i + 1, j);
    } else if j < i {
      CountGrows(fields, j + 1, i);
    }
  }

  lemma {:induction false} CountGrows(fields: seq<Field>, i: nat, j: nat)
    requires i <= j <= |fields|
    ensures CountRequired(fields, i) <= CountRequired(fields, j)
  {
    if i < j {
      CountGrows(fields, i, j - 1);
    }
  }

  lemma AllMet(fields: seq<Field>, seen: set<nat>, met: set<nat>)
    requires SeenIsMet(fields, seen, met)
    requires forall c: nat | c < CountRequired(fields, |fields|) && c < MAX_REQUIRED :: c in seen
    ensures RequiredMet(fields, met)
  {
    forall i | 0 <= i < |fields| && fields[i].rule.Required? && CountRequired(fields, i) < MAX_REQUIRED
      ensures i in met
    {
      CountGrows(fields, i + 1, |fields|);
      assert CountRequired(fields, i) in seen;
    }
  }

  /** A record of a field of the message. */
  method StoreField(stream: IStream, fields: seq<Field>, i: nat, requiredIndex: nat, wire: nat, dest: seq<Slot>,
                    current: Option<nat>, size: nat, seen: set<nat>, ghost met: set<nat>, ghost written: bool, ghost theirs: seq<Field>,
                    ghost slots: seq<Slot>, ghost trs: seq<Record>, ghost rs: seq<Record>,
                    ghost g: Field, ghost sent: Item, ghost rest: Bytes)
    returns (ok: bool, r: seq<Slot>, now: Option<nat>, count: nat, seen': set<nat>)
    requires stream.Valid() && WellFormed(fields) && ShapedSlots(fields, dest) && i < |fields| && IsFixedCount(fields, current)
    requires requiredIndex == CountRequired(fields, i)
    requires written ==> Underway(theirs, fields, slots, dest, trs, rs, seen, current, size) && FirstIs(theirs, trs, g, sent, rest)
    requires written ==> wire == WireOf(g, sent) && i == Place(fields, g.tag) && stream.Remaining() == Payload(g, sent) + rest
    modifies stream
    ensures
      && stream.Valid()
      && ShapedSlots(fields, r)
      && IsFixedCount(fields, now)
      && stream.pos + stream.left == old(stream.pos + stream.left)
      && stream.left <= old(stream.left)
    ensures OthersUntouched(fields, dest, i, r)
    ensures seen' == seen || (fields[i].rule.Required? && seen' == seen + {requiredIndex})
    ensures ok && ArraysWhole(fields, met, dest, current, size) ==> ArraysWhole(fields, met + {i}, r, now, count)
    ensures written ==> trs != [] && rs != [] && TypedSlots(fields, slots) && if ok then
      && Underway(theirs, fields, slots, r, trs[1..], rs[1..], seen', now, count)
      && stream.Remaining() == rest && Left(theirs, trs[1..], rest)
      else !ReceivableSlots(fields, slots)
    decreases fields, 0
  {
    hide Decoding, Counting, RecordOk, PutAll, Put, Fresh, WellFormed, ShapedSlots, TypedSlots, Normal, ReceivableSlots,
      Received, SlotsFit, Payload, FramedItem, Taken, CountRequired, TypedItem, FieldOk, DefaultSlot, SameField, CommonItem,
      Place, Coming;
    ghost var item := Whole(VInt(0));
    seen' := seen;
    if written {
      item := NextKnown(theirs, fields, slots, dest, trs, rs, seen);
      DecodingTyped(fields, slots, dest, rs, seen);
    }
    ok, r, now, count := EnterFixedCount(fields, i, dest, current, size, written, slots, rs, seen);
    if !ok {
      return;
    }
    if fields[i].rule.Required? && requiredIndex < MAX_REQUIRED {
      seen' := seen' + {requiredIndex};
    }
    ghost var counted := count;
    ok, r := DecodeField(stream, fields, i, wire, r, written, g, sent, item, rest);
    if !ok {
      if written {
        NotTaken(fields, slots, dest, rs, seen);
      }
      return;
    }
    count := CountElements(fields, r, i, count);
    ArraysStayWhole(fields, met, dest, current, size, i, r, now, count);
    if written {
      AfterRecord(fields, slots, dest, rs, seen, seen');
      AfterCount(fields, dest, rs, now, counted, r, count);
    }
  }

  lemma DecodingTyped(fields: seq<Field>, slots: seq<Slot>, dest: seq<Slot>, rs: seq<Record>, seen: set<nat>)
    requires Decoding(fields, slots, dest, rs, seen)
    ensures TypedSlots(fields, slots)
  {
  }

  /** How far the decoder has got with what the sender wrote. */
  ghost predicate Underway(theirs: seq<Field>, fields: seq<Field>, slots: seq<Slot>, dest: seq<Slot>, trs: seq<Record>,
                           rs: seq<Record>, seen: set<nat>, current: Option<nat>, size: nat) {
    && Coming(theirs, fields, trs, rs)
    && Decoding(fields, slots, dest, rs, seen)
    && Counting(fields, dest, rs, current, size)
  }

  /** The bytes that are left are those of the records that are left. */
  ghost predicate Left(theirs: seq<Field>, trs: seq<Record>, bytes: Bytes) {
    && (forall k | 0 <= k < |trs| :: RecordOk(theirs, trs[k]))
    && bytes == RecordsBytes(theirs, trs)
  }

  /** The first of them, a field and an item of the sender, and the bytes after it. */
  ghost predicate FirstIs(theirs: seq<Field>, trs: seq<Record>, g: Field, sent: Item, rest: Bytes) {
    && trs != [] && trs[0].0 < |theirs| && g == theirs[trs[0].0] && sent == trs[0].1
    && FieldOk(g) && TypedItem(g, sent) && FramedItem(g, sent) && Left(theirs, trs[1..], rest)
  }

  /** The next record of the stream; a known field is stored, any other is read over. At the end of the message nothing
      happens and `more` is false. */
  method DecodeRecord(stream: IStream, fields: seq<Field>, iter: FieldIter?, dest: seq<Slot>, seen: set<nat>, current: Option<nat>,
                      size: nat, ghost start: seq<Slot>, ghost met: set<nat>, ghost written: bool, ghost theirs: seq<Field>,
                      ghost slots: seq<Slot>, ghost trs: seq<Record>, ghost rs: seq<Record>)
    returns (ok: bool, more: bool, r: seq<Slot>, seen': set<nat>, now: Option<nat>, count: nat, ghost met': set<nat>,
             ghost rs': seq<Record>)
    requires stream.Valid() && stream.left > 0 && WellFormed(fields) && ShapedSlots(fields, dest) && IsFixedCount(fields, current)
    requires if iter == null then fields == [] else iter.Valid() && iter.fields == fields
    requires OnlyMet(fields, start, met, dest) && SeenIsMet(fields, seen, met) && ArraysWhole(fields, met, dest, current, size)
    requires written ==> Underway(theirs, fields, slots, dest, trs, rs, seen, current, size)
    requires written ==> Left(theirs, trs, stream.Remaining())
    modifies stream, if iter == null then {} else {iter}
    ensures stream.Valid() && ShapedSlots(fields, r) && IsFixedCount(fields, now) && (iter != null ==> iter.Valid())
    ensures stream.pos + stream.left == old(stream.pos + stream.left) && stream.left <= old(stream.left)
    ensures ok && more ==> stream.left < old(stream.left)
    ensures OnlyMet(fields, start, met', r) && SeenIsMet(fields, seen', met')
    ensures ok ==> ArraysWhole(fields, met', r, now, count)
    ensures written ==> trs != [] && TypedSlots(fields, slots) && more && if ok then
      && Underway(theirs, fields, slots, r, trs[1..], rs', seen', now, count) && Left(theirs, trs[1..], stream.Remaining())
      else !ReceivableSlots(fields, slots)
    decreases fields, 1
  {
    hide Varint, Underway, Left, WellFormed, ShapedSlots, TypedSlots, ReceivableSlots, Payload, ItemBytes, FramedItem,
      CountRequired, TypedItem, FieldOk, Extends, Place, FixedCount, OnlyMet, SeenIsMet, ArraysWhole, OthersUntouched;
    ok, more, r, seen', now, count, met', rs' := true, true, dest, seen, current, size, met, rs;
    ghost var g, sent, rest := ANY_FIELD, Whole(VInt(0)), [];
    if written {
      UnderwayTyped(theirs, fields, slots, dest, trs, rs, seen, current, size);
      NotEmpty(stream);
      g, sent, rest := NextRecord(theirs, fields, slots, dest, trs, rs, seen, current, size, stream.Remaining());
    }
    var got, tag, wire, eof := DecodeTag(stream, written, g, sent, rest);
    if !got {
      ok, more := eof, false;
      return;
    }
    var found := false;
    if iter != null {
      found := iter.Find(tag);
    }
    FoundField(fields, tag, if iter == null then 0 else iter.pos, found);
    if !found {
      ok := SkipField(stream, wire, written, g, sent, rest);
      if written {
        UnknownRecord(theirs, fields, slots, dest, trs, rs, seen, current, size, g, sent, rest);
      }
      return;
    }
    ok, r, now, count, seen' := StoreField(stream, fields, iter.pos, iter.requiredIndex, wire, dest, current, size, seen,
                                           met, written, theirs, slots, trs, rs, g, sent, rest);
    OneMoreMet(fields, start, met, dest, iter.pos, r, seen, seen');
    met' := met + {iter.pos};
    if written {
      rs' := rs[1..];
    }
  }

  lemma NotEmpty(stream: IStream)
    requires stream.Valid() && stream.left > 0
    ensures stream.Remaining() != []
  {
  }

  lemma UnderwayTyped(theirs: seq<Field>, fields: seq<Field>, slots: seq<Slot>, dest: seq<Slot>, trs: seq<Record>,
                      rs: seq<Record>, seen: set<nat>, current: Option<nat>, size: nat)
    requires Underway(theirs, fields, slots, dest, trs, rs, seen, current, size)
    ensures TypedSlots(fields, slots)
  {
  }

  /** Decoding into a struct that holds its defaults. */
  method DecodeNoInit(stream: IStream, fields: seq<Field>, dest: seq<Slot>,
                      ghost written: bool, ghost theirs: seq<Field>, ghost slots: seq<Slot>)
    returns (ok: bool, r: seq<Slot>, ghost met: set<nat>)
    requires stream.Valid() && WellFormed(fields) && ShapedSlots(fields, dest)
    requires written ==> WellFormed(theirs) && Extends(theirs, fields)
    requires written ==> TypedSlots(theirs, slots) && FramedSlots(theirs, slots) && stream.Remaining() == Encoding(theirs, slots)
    requires written ==> dest == Defaults(fields)
    modifies stream
    ensures
      && stream.Valid()
      && ShapedSlots(fields, r)
      && stream.pos + stream.left == old(stream.pos + stream.left)
      && stream.left <= old(stream.left)
    ensures OnlyMet(fields, dest, met, r) && (ok ==> RequiredMet(fields, met) && NoneShort(fields, met, r))
    ensures written ==> var known := Common(theirs, fields, slots);
      (ok <==> ReceivableSlots(fields, known)) && (ok ==> r == Normal(fields, known))
    decreases fields, 2
  {
    hide Encoding, Underway, Left, WellFormed, ShapedSlots, TypedSlots, Normal, ReceivableSlots, FramedSlots, Defaults,
      CountRequired, Extends, Common, FixedCount, OnlyMet, SeenIsMet, ArraysWhole, RequiredMet, NoneShort;
    r, met := dest, {};
    NothingMet(fields, dest);
    ghost var known := if written then Common(theirs, fields, slots) else [];
    // The records of the sender that are still to come, and those of them that the receiver knows.
    ghost var trs: seq<Record>, rs: seq<Record> := [], [];
    var seen: set<nat> := {};
    var fixedCountField: Option<nat>, fixedCountSize: nat := None, 0;
    if written {
      trs, rs := StartDecoding(theirs, fields, slots);
    }
    var iter: FieldIter? := null;
    if fields != [] {
      iter := new FieldIter(fields);
    }
    while stream.left > 0
      invariant stream.Valid() && stream.pos + stream.left == old(stream.pos + stream.left) && ShapedSlots(fields, r)
      invariant iter == null <==> fields == []
      invariant iter != null ==> fresh(iter) && iter.Valid() && iter.fields == fields
      invariant IsFixedCount(fields, fixedCountField)
      invariant OnlyMet(fields, dest, met, r) && SeenIsMet(fields, seen, met)
      invariant ArraysWhole(fields, met, r, fixedCountField, fixedCountSize)
      invariant written ==> Underway(theirs, fields, known, r, trs, rs, seen, fixedCountField, fixedCountSize)
      invariant written ==> Left(theirs, trs, stream.Remaining())
      decreases stream.left
    {
      var more;
      ok, more, r, seen, fixedCountField, fixedCountSize, met, rs :=
        DecodeRecord(stream, fields, iter, r, seen, fixedCountField, fixedCountSize, dest, met, written, theirs, known, trs, rs);
      if !ok {
        return;
      }
      if !more {
        break;
      }
      trs := if written then trs[1..] else trs;
    }
    ok := AllPresent(fields, seen, fixedCountField, fixedCountSize);
    if ok {
      AllMet(fields, seen, met);
      LastIsWhole(fields, met, r, fixedCountField, fixedCountSize);
    }
    if written {
      assert stream.Remaining() == [];
      EndDecoding(theirs, fields, known, r, trs, rs, seen, fixedCountField, fixedCountSize);
    }
  }

  /** All elements of the last fixed-count array, and all required fields. */
  method AllPresent(fields: seq<Field>, seen: set<nat>, current: Option<nat>, size: nat) returns (ok: bool)
    requires IsFixedCount(fields, current)
    ensures ok <==>
      && (current.Some? ==> size == fields[current.value].rule.max)
      && forall c: nat | c < CountRequired(fields, |fields|) && c < MAX_REQUIRED :: c in seen
  {
    if current.Some? && size != fields[current.value].rule.max {
      return false;
    }
    var count := CountRequired(fields, |fields|);
    if count > MAX_REQUIRED {
      count := MAX_REQUIRED;
    }
    ok := forall j | 0 <= j < count :: j in seen;
  }

  method CountElements(fields: seq<Field>, dest: seq<Slot>, i: nat, size: nat) returns (count: nat)
    requires ShapedSlots(fields, dest) && i < |fields|
    ensures |dest| == |fields| && (fields[i].rule.Repeated? ==> dest[i].Many?)
    ensures count == if FixedCount(fields[i]) then |dest[i].items| else size
  {
    hide ShapedSlots;
    ManyShaped(fields, dest, i);
    count := if FixedCount(fields[i]) then |dest[i].items| else size;
  }

  predicate FixedCount(f: Field) {
    f.rule.Repeated? && f.rule.fixed
  }

  predicate IsFixedCount(fields: seq<Field>, current: Option<nat>) {
    current.Some? ==> current.value < |fields| && FixedCount(fields[current.value])
  }

  /** Before a record is stored: a fixed-count array keeps no count of its own, so another one starts only after
      the last one is complete. */
  method EnterFixedCount(fields: seq<Field>, i: nat, dest: seq<Slot>, current: Option<nat>, size: nat,
                         ghost written: bool, ghost slots: seq<Slot>, ghost rs: seq<Record>, ghost seen: set<nat>)
    returns (ok: bool, r: seq<Slot>, now: Option<nat>, count: nat)
    requires WellFormed(fields) && ShapedSlots(fields, dest) && i < |fields| && IsFixedCount(fields, current)
    requires written ==> Decoding(fields, slots, dest, rs, seen) && Counting(fields, dest, rs, current, size)
    requires written ==> rs != [] && rs[0].0 == i
    ensures ShapedSlots(fields, r) && IsFixedCount(fields, now) && OthersUntouched(fields, dest, i, r)
    ensures ok ==> now == if FixedCount(fields[i]) then Some(i) else current
    ensures ok ==> if FixedCount(fields[i]) && current != Some(i) then current.Some? ==> size == fields[current.value].rule.max
      else count == size
    ensures written ==> ok && r == dest && Entered(fields, dest, rs, now, count)
  {
    hide Decoding, WellFormed, ShapedSlots;
    ok, r, now, count := true, dest, current, size;
    ManyShaped(fields, dest, i);
    if FixedCount(fields[i]) && current != Some(i) {
      if written {
        NextArray(fields, slots, dest, rs, seen, current, size);
      }
      if current.Some? && size != fields[current.value].rule.max {
        return false, dest, current, size;
      }
      NoneShaped(fields, dest, i);
      r, now, count := dest[i := Many([])], Some(i), 0;
      if written {
        assert r == dest;
      }
    }
  }

  /** Unknown fields are read over, by wire type: what a sender wrote after the tag, and no more. */
  method SkipField(stream: IStream, wire: nat, ghost written: bool, ghost g: Field, ghost item: Item, ghost rest: Bytes)
    returns (ok: bool)
    requires stream.Valid()
    requires written ==> TypedItem(g, item) && FramedItem(g, item) && wire == WireOf(g, item)
    requires written ==> stream.Remaining() == Payload(g, item) + rest
    modifies stream
    ensures
      && stream.Valid()
      && stream.pos + stream.left == old(stream.pos + stream.left)
      && stream.left <= old(stream.left)
    ensures written ==> ok && stream.Remaining() == rest
  {
    hide Varint, Payload, TypedItem, FramedItem;
    ghost var w: nat, body := 0, [];
    if written {
      w, body := PayloadForm(g, item);
    }
    if wire == 0 {
      var more := true;
      while more
        invariant stream.Valid() && stream.pos + stream.left == old(stream.pos + stream.left) && stream.left <= old(stream.left)
        invariant written ==> stream.Remaining() == if more then Varint(w) + rest else rest
        decreases more, stream.left
      {
        if written {
          FrontByte(w, rest, stream.Remaining());
        }
        var got, b := stream.ReadByte();
        if !got {
          return false;
        }
        more := b >= 128;
        w := w / 128;
      }
      return true;
    } else if wire == 1 {
      var skipped;
      ok, skipped := stream.Read(8);
    } else if wire == 2 {
      assert Varint(|body|) + body + rest == Varint(|body|) + (body + rest);
      var got, size, eof := stream.DecodeVarint32(written, |body|, body + rest);
      if !got {
        return false;
      }
      var skipped;
      ok, skipped := stream.Read(size);
    } else if wire == 5 {
      var skipped;
      ok, skipped := stream.Read(4);
    } else {
      ok := false;
    }
  }

  /** The four forms of what follows a tag: a varint, eight or four bytes, or a length and that many bytes. */
  lemma PayloadForm(g: Field, item: Item) returns (w: nat, body: Bytes)
    requires TypedItem(g, item) && FramedItem(g, item)
    ensures var wire := WireOf(g, item);
      && (wire == 0 || wire == 1 || wire == 2 || wire == 5)
      && (wire == 0 ==> Payload(g, item) == Varint(w))
      && (wire == 1 ==> |Payload(g, item)| == 8)
      && (wire == 5 ==> |Payload(g, item)| == 4)
      && (wire == 2 ==> |body| < WORD32 && Payload(g, item) == Varint(|body|) + body)
  {
    hide Varint, Fixed, ValuesBytes, SlotsBytes;
    w, body := 0, [];
    match item
    case Packed(vs) => body := ValuesBytes(g.t, vs, |vs|);
    case Whole(v) =>
      match g.t
      case TBool => w := v.i;
      case TInt(_) => w := v.i % WORD64;
      case TUInt(_) => w := v.i;
      case TSInt(_) => w := ZigZag(v.i);
      case TFixed32 => FixedSize(v.i, 4);
      case TFixed64 => FixedSize(v.i, 8);
      case TMessage(fields) => body := Encoding(fields, v.slots);
      case _ => body := v.b;
  }

  /** Decoding has turned the defaults into `dest`, and the records `rs` that are still to come make it the message.
      Whether the message can be received depends on them and on the length of its arrays. */
  ghost predicate Decoding(fields: seq<Field>, slots: seq<Slot>, dest: seq<Slot>, rs: seq<Record>, seen: set<nat>) {
    && TypedSlots(fields, slots)
    && SlotsFit(fields, dest)
    && (forall k | 0 <= k < |rs| :: RecordOk(fields, rs[k]))
    && PutAll(fields, dest, rs) == Normal(fields, slots)
    && Fresh(fields, dest, rs)
    && RequiredComing(fields, rs, seen)
    && ArraysOk(fields, dest)
    && (ReceivableSlots(fields, slots) <==> AllReceivable(fields, rs) && ArraysOk(fields, Normal(fields, slots)))
  }

  /** The records that the sender wrote and that are still to come, and those among them that the receiver knows. */
  ghost predicate Coming(theirs: seq<Field>, fields: seq<Field>, trs: seq<Record>, rs: seq<Record>) {
    && WellFormed(theirs) && Extends(theirs, fields)
    && (forall k | 0 <= k < |trs| :: RecordOk(theirs, trs[k])) && AllFramed(theirs, trs)
    && rs == Known(theirs, fields, trs)
  }

  ghost predicate AllFramed(fields: seq<Field>, rs: seq<Record>) {
    forall k | 0 <= k < |rs| :: RecordOk(fields, rs[k]) && FramedItem(fields[rs[k].0], rs[k].1)
  }

  ghost predicate AllReceivable(fields: seq<Field>, rs: seq<Record>) {
    forall k | 0 <= k < |rs| :: RecordOk(fields, rs[k]) && ReceivableItem(fields[rs[k].0], rs[k].1)
  }

  ghost predicate ArraysOk(fields: seq<Field>, dest: seq<Slot>) {
    && |dest| == |fields|
    && forall i | 0 <= i < |fields| && fields[i].rule.Repeated? :: dest[i].Many? && |dest[i].items| <= fields[i].rule.max
  }

  /** Every required field has been seen or is still to come. */
  ghost predicate RequiredComing(fields: seq<Field>, rs: seq<Record>, seen: set<nat>) {
    forall i | 0 <= i < |fields| && fields[i].rule.Required? && CountRequired(fields, i) < MAX_REQUIRED ::
      CountRequired(fields, i) in seen || exists k :: 0 <= k < |rs| && rs[k].0 == i
  }

  lemma {:induction false} RecordsFramed(fields: seq<Field>, slots: seq<Slot>, n: nat)
    requires n <= |fields| && TypedSlots(fields, slots) && FramedSlots(fields, slots)
    ensures AllFramed(fields, Records(fields, slots, {}, n))
  {
    hide Items, Sent, FramedItem, TypedSlot, TypedItem;
    if n > 0 {
      RecordsFramed(fields, slots, n - 1);
      SentOk(fields, slots, n - 1, false);
      assert FramedSlot(fields[n - 1], slots[n - 1]);
    }
  }

  predicate ItemsReceivable(f: Field, slot: Slot)
    requires TypedSlot(f, slot)
  {
    forall k | 0 <= k < |Items(f, slot)| :: ReceivableItem(f, Items(f, slot)[k])
  }

  lemma {:induction false} RecordsReceivable(fields: seq<Field>, slots: seq<Slot>, anyway: set<nat>, n: nat)
    requires n <= |fields| && TypedSlots(fields, slots)
    ensures AllReceivable(fields, Records(fields, slots, anyway, n)) <==> forall i | 0 <= i < n :: ItemsReceivable(fields[i], slots[i])
  {
    hide Items, ItemsReceivable, TypedSlot, TypedItem, Exclusive, AllReceivable, Records, RecordOk;
    if n == 0 {
      NoneReceivable(fields, slots, anyway);
    } else {
      RecordsReceivable(fields, slots, anyway, n - 1);
      MoreReceivable(fields, slots, anyway, n);
    }
  }

  lemma NoneReceivable(fields: seq<Field>, slots: seq<Slot>, anyway: set<nat>)
    requires TypedSlots(fields, slots)
    ensures AllReceivable(fields, Records(fields, slots, anyway, 0))
  {
  }

  lemma MoreReceivable(fields: seq<Field>, slots: seq<Slot>, anyway: set<nat>, n: nat)
    requires 0 < n <= |fields| && TypedSlots(fields, slots)
    ensures
      AllReceivable(fields, Records(fields, slots, anyway, n))
      <==> AllReceivable(fields, Records(fields, slots, anyway, n - 1)) && ItemsReceivable(fields[n - 1], slots[n - 1])
  {
    hide Sent, Items, ReceivableItem, TypedSlot, Exclusive, TypedItem, Records, RecordOk, ItemsReceivable;
    SentOk(fields, slots, n - 1, n - 1 in anyway);
    LastField(fields, slots, anyway, n);
    TaggedReceivable(fields, Records(fields, slots, anyway, n - 1), n - 1, Sent(fields[n - 1], slots[n - 1], n - 1 in anyway));
    SentReceivable(fields[n - 1], slots[n - 1], n - 1 in anyway);
  }

  /** A struct that is zero can always be received. */
  lemma SentReceivable(f: Field, slot: Slot, anyway: bool)
    requires TypedSlot(f, slot)
    ensures (forall k | 0 <= k < |Sent(f, slot, anyway)| :: ReceivableItem(f, Sent(f, slot, anyway)[k])) <==> ItemsReceivable(f, slot)
  {
    hide Typed, Receivable, ZeroValue;
    if anyway && f.rule.Proto3? && f.t.TMessage? {
      assert Sent(f, slot, anyway) == [Whole(slot.v)];
      assert ReceivableItem(f, Sent(f, slot, anyway)[0]) <==> Receivable(f.t, slot.v);
      if ZeroValue(f.t, slot.v) {
        ZeroReceivable(f.t, slot.v);
        assert Items(f, slot) == [];
      } else {
        assert Items(f, slot) == [Whole(slot.v)];
      }
    } else {
      assert Sent(f, slot, anyway) == Items(f, slot);
    }
  }

  lemma ZeroReceivable(t: Type, v: Value)
    requires t.TMessage? && Typed(t, v) && ZeroValue(t, v)
    ensures Receivable(t, v)
  {
    var fields := t.fields;
    forall i | 0 <= i < |fields|
      ensures ReceivableSlot(fields[i], v.slots[i])
    {
      assert ZeroSlot(fields[i], v.slots[i]) && TypedSlot(fields[i], v.slots[i]);
      NothingSent(fields[i], v.slots[i]);
    }
  }

  lemma NothingSent(f: Field, slot: Slot)
    requires TypedSlot(f, slot) && ZeroSlot(f, slot)
    ensures Items(f, slot) == [] && ReceivableSlot(f, slot)
  {
    hide Typed, ZeroValue, Receivable;
  }

  lemma TaggedReceivable(fields: seq<Field>, before: seq<Record>, i: nat, items: seq<Item>)
    requires i < |fields| && forall k | 0 <= k < |items| :: RecordOk(fields, (i, items[k])) && TypedItem(fields[i], items[k])
    ensures AllReceivable(fields, before + Tagged(i, items)) <==>
      AllReceivable(fields, before) && forall k | 0 <= k < |items| :: ReceivableItem(fields[i], items[k])
  {
    hide ReceivableItem, TypedItem, RecordOk;
    var rs := before + Tagged(i, items);
    assert forall k | 0 <= k < |items| :: rs[|before| + k] == (i, items[k]);
    assert forall k | 0 <= k < |before| :: rs[k] == before[k];
  }

  lemma ReceivableIsRecords(fields: seq<Field>, slots: seq<Slot>, anyway: set<nat>)
    requires TypedSlots(fields, slots)
    ensures
      ReceivableSlots(fields, slots)
      <==> AllReceivable(fields, Records(fields, slots, anyway, |fields|)) && ArraysOk(fields, Normal(fields, slots))
  {
    hide Items, ReceivableItem, TypedItem, Exclusive, Records, NormalValue;
    RecordsReceivable(fields, slots, anyway, |fields|);
    assert forall i | 0 <= i < |fields| ::
      ReceivableSlot(fields[i], slots[i])
      <==> (fields[i].rule.Repeated? ==> |slots[i].items| <= fields[i].rule.max) && ItemsReceivable(fields[i], slots[i]);
    forall i | 0 <= i < |fields| && fields[i].rule.Repeated?
      ensures Normal(fields, slots)[i].Many? && |Normal(fields, slots)[i].items| == |slots[i].items|
    {
      assert TypedSlot(fields[i], slots[i]);
    }
  }

  /** The records come in the order of the fields; the array that was met last has no later records than those of
      the field to come, and holds `size` elements; a fixed-count array not met yet is empty. */
  ghost predicate Counting(fields: seq<Field>, dest: seq<Slot>, rs: seq<Record>, current: Option<nat>, size: nat) {
    && |dest| == |fields| && IsFixedCount(fields, current)
    && (forall a, b | 0 <= a < b < |rs| :: rs[a].0 <= rs[b].0)
    && (current.Some? ==>
          && dest[current.value].Many? && size == |dest[current.value].items|
          && forall a | 0 <= a < |rs| :: current.value <= rs[a].0)
    && forall a | 0 <= a < |rs| && rs[a].0 < |fields| && FixedCount(fields[rs[a].0]) && current != Some(rs[a].0) ::
         dest[rs[a].0] == Many([])
  }

  /** The same when the next record is about to be stored. */
  ghost predicate Entered(fields: seq<Field>, dest: seq<Slot>, rs: seq<Record>, now: Option<nat>, size: nat) {
    && Counting(fields, dest, rs, now, size)
    && (rs != [] && rs[0].0 < |fields| && FixedCount(fields[rs[0].0]) ==> now == Some(rs[0].0))
  }

  lemma {:induction false} RecordsRise(fields: seq<Field>, slots: seq<Slot>, anyway: set<nat>, n: nat)
    requires n <= |fields| && TypedSlots(fields, slots)
    ensures forall a, b | 0 <= a < b < |Records(fields, slots, anyway, n)| :: Records(fields, slots, anyway, n)[a].0 <= Records(fields, slots, anyway, n)[b].0
  {
    hide TypedSlots, RecordOk;
    if n > 0 {
      RecordsRise(fields, slots, anyway, n - 1);
      var before := Records(fields, slots, anyway, n - 1);
      LastField(fields, slots, anyway, n);
      hide Records;
      assert forall a | 0 <= a < |before| :: Records(fields, slots, anyway, n)[a] == before[a];
    }
  }

  lemma StartCounting(fields: seq<Field>, slots: seq<Slot>, anyway: set<nat>)
    requires TypedSlots(fields, slots)
    ensures Counting(fields, Defaults(fields), Records(fields, slots, anyway, |fields|), None, 0)
  {
    hide Records, TypedSlots, DefaultOf;
    RecordsRise(fields, slots, anyway, |fields|);
  }

  /** Records of other fields leave an array alone. */
  lemma {:induction false} OthersLeave(fields: seq<Field>, dest: seq<Slot>, rs: seq<Record>, j: nat)
    requires SlotsFit(fields, dest) && (forall k | 0 <= k < |rs| :: RecordOk(fields, rs[k]) && rs[k].0 != j)
    requires j < |fields| && fields[j].rule.Repeated?
    ensures PutAll(fields, dest, rs)[j] == dest[j]
    decreases rs
  {
    hide Received, RecordOk, DefaultSlot;
    if rs != [] {
      OtherLeaves(fields, dest, rs[0], j);
      OthersLeave(fields, Put(fields, dest, rs[0]), rs[1..], j);
    }
  }

  lemma OtherLeaves(fields: seq<Field>, dest: seq<Slot>, r: Record, j: nat)
    requires SlotsFit(fields, dest) && RecordOk(fields, r) && r.0 != j < |fields| && fields[j].rule.Repeated?
    ensures Put(fields, dest, r)[j] == dest[j]
  {
    hide Received, DefaultSlot, TypedItem;
  }

  /** An array without records to come is complete. */
  lemma IsWhole(fields: seq<Field>, slots: seq<Slot>, dest: seq<Slot>, rs: seq<Record>, seen: set<nat>, j: nat)
    requires Decoding(fields, slots, dest, rs, seen) && j < |fields| && FixedCount(fields[j])
    requires forall k | 0 <= k < |rs| :: rs[k].0 != j
    ensures |dest| == |fields| && dest[j].Many? && |dest[j].items| == fields[j].rule.max
  {
    hide NormalValue, Typed, Fresh, RequiredComing, AllReceivable, ReceivableSlots, ArraysOk, PutAll, FramedItem, Exclusive;
    OthersLeave(fields, dest, rs, j);
    assert TypedSlot(fields[j], slots[j]);
  }

  lemma NextArray(fields: seq<Field>, slots: seq<Slot>, dest: seq<Slot>, rs: seq<Record>, seen: set<nat>, current: Option<nat>, size: nat)
    requires Decoding(fields, slots, dest, rs, seen) && Counting(fields, dest, rs, current, size)
    requires rs != [] && rs[0].0 < |fields| && FixedCount(fields[rs[0].0]) && current != Some(rs[0].0)
    ensures dest[rs[0].0] == Many([]) && (current.Some? ==> size == fields[current.value].rule.max)
  {
    hide Decoding;
    if current.Some? {
      IsWhole(fields, slots, dest, rs, seen, current.value);
    }
  }

  lemma ArrayWhole(fields: seq<Field>, slots: seq<Slot>, dest: seq<Slot>, rs: seq<Record>, seen: set<nat>, current: Option<nat>, size: nat)
    requires Decoding(fields, slots, dest, rs, seen) && Counting(fields, dest, rs, current, size)
    requires rs == []
    ensures current.Some? ==> size == fields[current.value].rule.max
  {
    hide Decoding;
    if current.Some? {
      IsWhole(fields, slots, dest, rs, seen, current.value);
    }
  }

  lemma AfterCount(fields: seq<Field>, dest: seq<Slot>, rs: seq<Record>, current: Option<nat>, before: nat, dest': seq<Slot>, size: nat)
    requires rs != [] && SlotsFit(fields, dest) && RecordOk(fields, rs[0]) && Entered(fields, dest, rs, current, before)
    requires dest' == Put(fields, dest, rs[0]) && |dest'| == |fields| && rs[0].0 < |fields|
    requires if FixedCount(fields[rs[0].0]) then dest'[rs[0].0].Many? && size == |dest'[rs[0].0].items| else size == before
    ensures Counting(fields, dest', rs[1..], current, size)
  {
    hide Put, RecordOk, SlotsFit;
    forall j | 0 <= j < |fields| && FixedCount(fields[j]) && j != rs[0].0
      ensures dest'[j] == dest[j]
    {
      OtherLeaves(fields, dest, rs[0], j);
    }
    assert forall k | 0 <= k < |rs[1..]| :: rs[1..][k] == rs[k + 1];
  }

  lemma NoneShaped(fields: seq<Field>, dest: seq<Slot>, i: nat)
    requires ShapedSlots(fields, dest) && i < |fields| && fields[i].rule.Repeated?
    ensures |dest| == |fields| && ShapedSlots(fields, dest[i := Many([])])
  {
    hide Shaped;
    assert forall j | 0 <= j < |fields| :: ShapedSlot(fields[j], dest[j]);
  }

  lemma ManyShaped(fields: seq<Field>, dest: seq<Slot>, i: nat)
    requires ShapedSlots(fields, dest) && i < |fields|
    ensures |dest| == |fields| && (fields[i].rule.Repeated? ==> dest[i].Many?)
  {
    hide Shaped;
    assert ShapedSlot(fields[i], dest[i]);
  }

  lemma StartDecoding(theirs: seq<Field>, fields: seq<Field>, slots: seq<Slot>) returns (trs: seq<Record>, rs: seq<Record>)
    requires WellFormed(theirs) && Extends(theirs, fields) && TypedSlots(theirs, slots) && FramedSlots(theirs, slots)
    ensures Underway(theirs, fields, Common(theirs, fields, slots), Defaults(fields), trs, rs, {}, None, 0)
    ensures Left(theirs, trs, Encoding(theirs, slots))
  {
    hide Extends, WellFormed, Decoding, Counting, Records, RecordsBytes, TypedSlots, Common, Known, RecordOk, FramedItem, Anyway;
    trs := Records(theirs, slots, {}, |theirs|);
    SlotsBytesAreRecords(theirs, slots, |theirs|);
    RecordsFramed(theirs, slots, |theirs|);
    KnownAll(theirs, fields, slots);
    rs := Known(theirs, fields, trs);
    CommonIsTyped(theirs, fields, slots);
    StartsDecoded(fields, Common(theirs, fields, slots), Anyway(theirs, fields, slots));
  }

  lemma CommonIsTyped(theirs: seq<Field>, fields: seq<Field>, slots: seq<Slot>)
    requires Extends(theirs, fields) && TypedSlots(theirs, slots)
    ensures TypedSlots(fields, Common(theirs, fields, slots))
  {
  }

  lemma StartsDecoded(fields: seq<Field>, slots: seq<Slot>, anyway: set<nat>)
    requires TypedSlots(fields, slots)
    ensures Decoding(fields, slots, Defaults(fields), Records(fields, slots, anyway, |fields|), {})
    ensures Counting(fields, Defaults(fields), Records(fields, slots, anyway, |fields|), None, 0)
  {
    hide Records, PutAll, TypedSlots, ReceivableSlots, NormalSlot, RecordOk, AllReceivable, DefaultOf;
    var rs := Records(fields, slots, anyway, |fields|);
    PutAllMixed(fields, slots, anyway, |fields|);
    assert Mixed(fields, slots, |fields|) == Normal(fields, slots);
    StartsFresh(fields, slots, anyway, |fields|);
    StartCounting(fields, slots, anyway);
    ReceivableIsRecords(fields, slots, anyway);
    RecordsOk(fields, slots, anyway);
    forall i | 0 <= i < |fields| && fields[i].rule.Required?
      ensures exists k :: 0 <= k < |rs| && rs[k].0 == i
    {
      RequiredAreSent(fields, slots, anyway, |fields|, i);
    }
  }

  lemma RecordsOk(fields: seq<Field>, slots: seq<Slot>, anyway: set<nat>)
    requires TypedSlots(fields, slots)
    ensures forall k | 0 <= k < |Records(fields, slots, anyway, |fields|)| :: RecordOk(fields, Records(fields, slots, anyway, |fields|)[k])
  {
  }

  /** The next record on the wire. */
  lemma NextRecord(theirs: seq<Field>, fields: seq<Field>, slots: seq<Slot>, dest: seq<Slot>, trs: seq<Record>, rs: seq<Record>,
                   seen: set<nat>, current: Option<nat>, size: nat, bytes: Bytes) returns (g: Field, sent: Item, rest: Bytes)
    requires Underway(theirs, fields, slots, dest, trs, rs, seen, current, size) && Left(theirs, trs, bytes) && bytes != []
    ensures FirstIs(theirs, trs, g, sent, rest) && bytes == ItemBytes(g, sent) + rest
  {
    hide FramedItem, TypedItem, ItemBytes, Extends, Known, Decoding, Counting;
    g, sent := theirs[trs[0].0], trs[0].1;
    rest := RecordsBytes(theirs, trs[1..]);
    assert RecordOk(theirs, trs[0]) && FieldOk(g);
  }

  /** It is one the receiver does not know: nothing changes. */
  lemma UnknownRecord(theirs: seq<Field>, fields: seq<Field>, slots: seq<Slot>, dest: seq<Slot>, trs: seq<Record>, rs: seq<Record>,
                      seen: set<nat>, current: Option<nat>, size: nat, g: Field, sent: Item, rest: Bytes)
    requires Underway(theirs, fields, slots, dest, trs, rs, seen, current, size) && FirstIs(theirs, trs, g, sent, rest)
    requires Place(fields, g.tag) == |fields|
    ensures Underway(theirs, fields, slots, dest, trs[1..], rs, seen, current, size) && Left(theirs, trs[1..], rest)
  {
    hide Extends, WellFormed, FramedItem, RecordOk, TypedItem, CommonItem, Decoding, Counting, RecordsBytes;
    assert RecordOk(theirs, trs[0]);
    assert KnownRecord(theirs, fields, trs[0]) == [];
    assert forall k | 0 <= k < |trs[1..]| :: trs[1..][k] == trs[k + 1];
  }

  /** It is one the receiver knows: the next one of its own. */
  lemma NextKnown(theirs: seq<Field>, fields: seq<Field>, slots: seq<Slot>, dest: seq<Slot>, trs: seq<Record>, rs: seq<Record>,
                  seen: set<nat>) returns (item: Item)
    requires Coming(theirs, fields, trs, rs) && trs != [] && trs[0].0 < |theirs|
    requires Decoding(fields, slots, dest, rs, seen)
    requires Place(fields, theirs[trs[0].0].tag) < |fields|
    ensures var i := Place(fields, theirs[trs[0].0].tag);
      && rs != [] && rs[0] == (i, item) && i < |fields| == |dest|
      && SameField(theirs[trs[0].0], fields[i]) && TypedItem(theirs[trs[0].0], trs[0].1)
      && item == CommonItem(theirs[trs[0].0], fields[i], trs[0].1) && RecordOk(fields, (i, item))
      && Coming(theirs, fields, trs[1..], rs[1..])
      && (!fields[i].rule.Repeated? ==> dest[i] == DefaultSlot(fields[i]))
  {
    hide Extends, WellFormed, FramedItem, TypedItem, CommonItem, TypedSlots, Received, PutAll, ReceivableSlots, Normal,
      AllReceivable, RequiredComing, ArraysOk, DefaultSlot;
    assert RecordOk(theirs, trs[0]);
    PlaceOf(theirs, fields, trs[0].0);
    item := KnownRecord(theirs, fields, trs[0])[0].1;
    assert rs == KnownRecord(theirs, fields, trs[0]) + Known(theirs, fields, trs[1..]);
    assert rs[1..] == Known(theirs, fields, trs[1..]);
    assert forall k | 0 <= k < |trs[1..]| :: trs[1..][k] == trs[k + 1];
    assert RecordOk(fields, rs[0]);
  }

  /** Nothing is left: the message is complete. */
  lemma EndDecoding(theirs: seq<Field>, fields: seq<Field>, slots: seq<Slot>, dest: seq<Slot>, trs: seq<Record>, rs: seq<Record>,
                    seen: set<nat>, current: Option<nat>, size: nat)
    requires Underway(theirs, fields, slots, dest, trs, rs, seen, current, size) && Left(theirs, trs, [])
    ensures IsFixedCount(fields, current) && (current.Some? ==> size == fields[current.value].rule.max)
    ensures TypedSlots(fields, slots) && dest == Normal(fields, slots) && ReceivableSlots(fields, slots)
    ensures forall c: nat | c < CountRequired(fields, |fields|) && c < MAX_REQUIRED :: c in seen
  {
    hide Decoding, RecordBytes, RecordOk, Extends, WellFormed, FramedItem, CountRequired, Normal, TypedSlots, ReceivableSlots;
    if trs != [] {
      RecordNotEmpty(theirs, trs[0]);
    }
    ArrayWhole(fields, slots, dest, rs, seen, current, size);
    AllDecoded(fields, slots, dest, rs, seen);
  }

  lemma RecordSplits(f: Field, item: Item, rest: Bytes)
    requires TypedItem(f, item)
    ensures ItemBytes(f, item) + rest == Varint(f.tag * 8 + WireOf(f, item)) + (Payload(f, item) + rest)
  {
    hide Varint, ValueBytes, ValuesBytes;
  }

  /** A record that a field cannot take makes the whole message one that cannot be received. */
  lemma NotTaken(fields: seq<Field>, slots: seq<Slot>, dest: seq<Slot>, rs: seq<Record>, seen: set<nat>)
    requires Decoding(fields, slots, dest, rs, seen) && rs != [] && RecordOk(fields, rs[0]) && rs[0].0 < |dest|
    requires !Taken(fields[rs[0].0], dest[rs[0].0], rs[0].1)
    ensures TypedSlots(fields, slots) && !ReceivableSlots(fields, slots)
  {
    hide Received, NormalValue, Fresh, RequiredComing, ReceivableItem, FramedItem, TypedItem, TypedSlots,
      ReceivableSlots, Normal;
    var i := rs[0].0;
    assert RuleFits(fields[i], dest[i]);
    if fields[i].rule.Repeated? && ReceivableItem(fields[i], rs[0].1) {
      ArraysGrow(fields, Put(fields, dest, rs[0]), rs[1..], i);
    }
  }

  /** Tags are distinct, so the field found is the one that was written. */
  lemma FoundField(fields: seq<Field>, tag: nat, pos: nat, found: bool)
    requires WellFormed(fields) && (found <==> exists j :: 0 <= j < |fields| && fields[j].tag == tag)
    requires found ==> pos < |fields| && fields[pos].tag == tag
    ensures if found then pos == Place(fields, tag) else Place(fields, tag) == |fields|
  {
    hide FieldOk;
    var i := Place(fields, tag);
    assert i < |fields| ==> fields[i].tag == tag;
  }

  lemma AfterRecord(fields: seq<Field>, slots: seq<Slot>, dest: seq<Slot>, rs: seq<Record>, s: set<nat>, seen: set<nat>)
    requires rs != [] && s <= seen && Decoding(fields, slots, dest, rs, s)
    requires RecordOk(fields, rs[0])
    requires fields[rs[0].0].rule.Required? && CountRequired(fields, rs[0].0) < MAX_REQUIRED ==> CountRequired(fields, rs[0].0) in seen
    requires rs[0].0 < |dest| && Taken(fields[rs[0].0], dest[rs[0].0], rs[0].1)
    ensures
      && SlotsFit(fields, dest)
      && Decoding(fields, slots, Put(fields, dest, rs[0]), rs[1..], seen)
  {
    hide Put, RecordOk, SlotsFit, Normal, TypedSlots, ReceivableSlots, ReceivableItem, FramedItem, CountRequired,
      Fresh, ArraysOk, Received;
    StaysFresh(fields, dest, rs);
    StaysOk(fields, dest, rs[0]);
    assert forall k | 0 <= k < |rs[1..]| :: rs[1..][k] == rs[k + 1];
    assert AllReceivable(fields, rs) <==> AllReceivable(fields, rs[1..]) by {
      assert forall k | 1 <= k < |rs| :: rs[k] == rs[1..][k - 1];
    }
    forall i | 0 <= i < |fields| && fields[i].rule.Required? && CountRequired(fields, i) < MAX_REQUIRED
      ensures CountRequired(fields, i) in seen || exists k :: 0 <= k < |rs[1..]| && rs[1..][k].0 == i
    {
      if CountRequired(fields, i) !in s {
        var k :| 0 <= k < |rs| && rs[k].0 == i;
        assert k > 0 ==> rs[1..][k - 1].0 == i;
      }
    }
  }

  lemma StaysOk(fields: seq<Field>, dest: seq<Slot>, r: Record)
    requires SlotsFit(fields, dest) && RecordOk(fields, r) && ArraysOk(fields, dest) && Taken(fields[r.0], dest[r.0], r.1)
    ensures ArraysOk(fields, Put(fields, dest, r))
  {
    hide Received, DefaultOf, TypedItem, ReceivableItem;
    assert RuleFits(fields[r.0], dest[r.0]);
  }

  lemma {:induction false} RequiredNumbered(fields: seq<Field>, n: nat, c: nat) returns (i: nat)
    requires n <= |fields| && c < CountRequired(fields, n)
    ensures i < n && fields[i].rule.Required? && CountRequired(fields, i) == c
  {
    if c < CountRequired(fields, n - 1) {
      i := RequiredNumbered(fields, n - 1, c);
    } else {
      i := n - 1;
    }
  }

  lemma AllDecoded(fields: seq<Field>, slots: seq<Slot>, dest: seq<Slot>, rs: seq<Record>, seen: set<nat>)
    requires Decoding(fields, slots, dest, rs, seen) && rs == []
    ensures TypedSlots(fields, slots) && dest == Normal(fields, slots) && ReceivableSlots(fields, slots)
    ensures forall c: nat | c < CountRequired(fields, |fields|) && c < MAX_REQUIRED :: c in seen
  {
    hide RecordOk, Normal, TypedSlots, ReceivableSlots, ReceivableItem, Fresh, CountRequired;
    forall c: nat | c < CountRequired(fields, |fields|) && c < MAX_REQUIRED
      ensures c in seen
    {
      var i := RequiredNumbered(fields, |fields|, c);
      assert CountRequired(fields, i) in seen;
    }
  }
}
