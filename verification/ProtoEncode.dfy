/** The message encoder and its sizing pass (pb_encode.c). */
module ProtoEncoders {
  import opened Keys
  import opened Coding
  import opened Protos

  /** The encoder refuses byte strings and arrays that are longer than their place in the struct. */
  predicate Sendable(t: Type, v: Value)
    decreases t
  {
    match t
    case TBytes(max) => v.VBytes? && |v.b| <= max
    case TMessage(fields) => v.VMessage? && SendableSlots(fields, v.slots)
    case _ => true
  }

  predicate SendableSlots(fields: seq<Field>, slots: seq<Slot>)
    decreases fields
  {
    |slots| == |fields| && forall i | 0 <= i < |fields| :: SendableSlot(fields[i], slots[i])
  }

  predicate SendableSlot(f: Field, slot: Slot)
    decreases f
  {
    match f.rule
    case Required => slot.One? && Sendable(f.t, slot.v)
    case Proto3 => slot.One? && (ZeroValue(f.t, slot.v) || Sendable(f.t, slot.v))
    case Repeated(max, _) => slot.Many? && |slot.items| <= max && forall i | 0 <= i < |slot.items| :: Sendable(f.t, slot.items[i])
    case _ => slot.Maybe? && (slot.has ==> Sendable(f.t, slot.v))
  }

  class OStream {
    /** No callback: the stream only counts bytes. */
    const sizing: bool
    const maxSize: nat
    var buffer: Bytes
    var bytesWritten: nat

    ghost predicate Valid()
      reads this
    {
      !sizing ==> bytesWritten == |buffer| <= maxSize
    }

    /** The stream has taken exactly the bytes `b` since it held `before`, of which it had counted `count`. */
    ghost predicate Took(before: Bytes, count: nat, b: Bytes)
      reads this
    {
      bytesWritten == count + |b| && (!sizing ==> buffer == before + b)
    }

    constructor (sizing: bool, maxSize: nat)
      ensures
        && Valid()
        && this.sizing == sizing
        && this.maxSize == maxSize
        && buffer == []
        && bytesWritten == 0
    {
      this.sizing, this.maxSize, buffer, bytesWritten := sizing, maxSize, [], 0;
    }

    predicate Room(count: nat, n: nat) {
      sizing || count + n <= maxSize
    }

    method Write(b: Bytes) returns (ok: bool)
      requires Valid()
      modifies this
      ensures Valid() && (ok <==> Room(old(bytesWritten), |b|))
      ensures ok ==> Took(old(buffer), old(bytesWritten), b)
    {
      if |b| > 0 && !sizing {
        if bytesWritten + |b| > maxSize {
          return false;
        }
        buffer := buffer + b;
      }
      bytesWritten := bytesWritten + |b|;
      assert buffer + [] == buffer;
      ok := true;
    }

    method EncodeVarint(value: nat) returns (ok: bool)
      requires Valid()
      modifies this
      ensures Valid() && (ok <==> Room(old(bytesWritten), |Varint(value)|))
      ensures ok ==> Took(old(buffer), old(bytesWritten), Varint(value))
    {
      if value <= 0x7f {
        ok := Write([value]);
        return;
      }
      var b := VarintGroups(value);
      ok := Write(b);
    }

    method EncodeTag(wire: nat, tag: nat) returns (ok: bool)
      requires Valid()
      modifies this
      ensures Valid() && (ok <==> Room(old(bytesWritten), |TagBytes(tag, wire)|))
      ensures ok ==> Took(old(buffer), old(bytesWritten), TagBytes(tag, wire))
    {
      ok := EncodeVarint(tag * 8 + wire);
    }

    /** Length, then the bytes. */
    method EncodeString(b: Bytes) returns (ok: bool)
      requires Valid()
      modifies this
      ensures Valid() && (ok <==> Room(old(bytesWritten), |Varint(|b|) + b|))
      ensures ok ==> Took(old(buffer), old(bytesWritten), Varint(|b|) + b)
    {
      hide Varint;
      ok := EncodeVarint(|b|);
      if ok {
        ghost var middle := buffer;
        ok := Write(b);
        Joined(old(buffer), Varint(|b|), b);
      }
    }

    /** A field encoder, chosen by the type of the field. */
    method EncodeValue(t: Type, v: Value) returns (ok: bool)
      requires Valid() && Typed(t, v)
      modifies this
      ensures
        && Valid()
        && (ok <==> Sendable(t, v) && Room(old(bytesWritten), |ValueBytes(t, v)|))
      ensures ok ==> Took(old(buffer), old(bytesWritten), ValueBytes(t, v))
      decreases t, 0, 0
    {
      hide Varint, Fixed;
      match t
      case TBool => ok := EncodeVarint(v.i);
      case TInt(_) => ok := EncodeVarint(v.i % WORD64);
      case TUInt(_) => ok := EncodeVarint(v.i);
      case TSInt(_) => ok := EncodeVarint(ZigZag(v.i));
      case TFixed32 => ok := Write(Fixed(v.i, 4));
      case TFixed64 => ok := Write(Fixed(v.i, 8));
      case TBytes(max) =>
        if |v.b| > max {
          return false;
        }
        ok := EncodeString(v.b);
      case TMessage(fields) => ok := EncodeSubmessage(fields, v.slots);
      case _ => ok := EncodeString(v.b);
    }

    /** First count, then write into a stream that has room for just that many bytes. */
    method EncodeSubmessage(fields: seq<Field>, slots: seq<Slot>) returns (ok: bool)
      requires Valid() && TypedSlots(fields, slots)
      modifies this
      ensures Valid()
      ensures var body := Encoding(fields, slots);
        && (ok <==> SendableSlots(fields, slots) && Room(old(bytesWritten), |Varint(|body|) + body|))
        && (ok ==> Took(old(buffer), old(bytesWritten), Varint(|body|) + body))
      decreases fields, 2, 0
    {
      hide Varint, Encoding, SlotsBytes, SendableSlots, TypedSlots;
      ghost var body := Encoding(fields, slots);
      var substream := new OStream(true, 0);
      ok := substream.Encode(fields, slots);
      if !ok {
        return;
      }
      var size := substream.bytesWritten;
      ok := EncodeVarint(size);
      if !ok {
        return;
      }
      if sizing {
        // Just sizing.
        bytesWritten := bytesWritten + size;
        return;
      }
      if bytesWritten + size > maxSize {
        return false;
      }
      substream := new OStream(false, size);
      ok := substream.Encode(fields, slots);
      // The two passes agree, so the size cannot have changed.
      assert ok && substream.bytesWritten == size && substream.buffer == [] + body;
      Joined(old(buffer), Varint(|body|), body);
      buffer := buffer + substream.buffer;
      bytesWritten := bytesWritten + substream.bytesWritten;
    }

    method Encode(fields: seq<Field>, slots: seq<Slot>) returns (ok: bool)
      requires Valid() && TypedSlots(fields, slots)
      modifies this
      ensures Valid()
      ensures ok <==> SendableSlots(fields, slots) && Room(old(bytesWritten), |Encoding(fields, slots)|)
      ensures ok ==> Took(old(buffer), old(bytesWritten), Encoding(fields, slots))
      decreases fields, 1, 0
    {
      hide SlotsBytes, SendableSlot, TypedSlot, ItemsBytes, Items;
      ok := true;
      ghost var before, count := buffer, bytesWritten;
      var i := 0;
      NoSlots(fields, slots);
      assert buffer == before + [];
      while i < |fields|
        invariant i <= |fields| && Valid() && Took(before, count, SlotsBytes(fields, slots, i))
        invariant Room(count, |SlotsBytes(fields, slots, i)|)
        invariant forall j | 0 <= j < i :: SendableSlot(fields[j], slots[j])
      {
        ghost var middle := buffer;
        ok := EncodeField(fields[i], slots[i]);
        SlotMore(fields, slots, i);
        SlotsGrow(fields, slots, i + 1, |fields|);
        if !ok {
          return;
        }
        Joined(before, SlotsBytes(fields, slots, i), SlotBytes(fields[i], slots[i]));
        i := i + 1;
      }
    }

    /** encode_basic_field, by the repetition rule of the field. */
    method EncodeField(f: Field, slot: Slot) returns (ok: bool)
      requires Valid() && TypedSlot(f, slot)
      modifies this
      ensures
        && Valid()
        && (ok <==> SendableSlot(f, slot) && Room(old(bytesWritten), |SlotBytes(f, slot)|))
      ensures ok ==> Took(old(buffer), old(bytesWritten), SlotBytes(f, slot))
      decreases f, 3, 0
    {
      hide ItemsBytes, ItemBytes, Typed, ZeroValue, Sendable, ValueBytes;
      SlotBytesIs(f, slot);
      assert buffer + [] == buffer;
      match f.rule
      case Required =>
        ok := EncodeWhole(f, slot.v);
      case Optional =>
        ok := true;
        if slot.has {
          ok := EncodeWhole(f, slot.v);
        }
      case Proto3 =>
        ok := true;
        if !ZeroValue(f.t, slot.v) {
          ok := EncodeWhole(f, slot.v);
        }
      case OneOf(_) =>
        ok := true;
        if slot.has {
          ok := EncodeWhole(f, slot.v);
        }
      case Repeated(max, _) =>
        ok := EncodeArray(f, slot.items, max);
    }

    method EncodeWhole(f: Field, v: Value) returns (ok: bool)
      requires Valid() && Typed(f.t, v)
      modifies this
      ensures
        && Valid()
        && (ok <==> Sendable(f.t, v) && Room(old(bytesWritten), |ItemBytes(f, Whole(v))|))
      ensures ok ==> Took(old(buffer), old(bytesWritten), ItemBytes(f, Whole(v)))
      decreases f, 0, 0
    {
      hide TagBytes, Typed, Sendable, ValueBytes;
      ok := EncodeTag(WireType(f.t), f.tag);
      if ok {
        ok := EncodeValue(f.t, v);
        Joined(old(buffer), TagBytes(f.tag, WireType(f.t)), ValueBytes(f.t, v));
      }
    }

    /** Arrays of numbers are packed into one record, whose size is known or counted first. */
    method EncodeArray(f: Field, items: seq<Value>, max: nat) returns (ok: bool)
      requires Valid() && f.rule.Repeated? && f.rule.max == max && TypedSlot(f, Many(items))
      modifies this
      ensures
        && Valid()
        && (ok <==> SendableSlot(f, Many(items)) && Room(old(bytesWritten), |SlotBytes(f, Many(items))|))
      ensures ok ==> Took(old(buffer), old(bytesWritten), SlotBytes(f, Many(items)))
      decreases f, 2, 0
    {
      hide ItemsBytes, ItemBytes, ValuesBytes, ValueBytes, Typed, Sendable, TagBytes, Varint;
      ok := true;
      assert buffer + [] == buffer;
      ArrayBytesIs(f, items);
      if |items| == 0 {
        return;
      }
      if |items| > max {
        return false;
      }
      if Packable(f.t) {
        ok := EncodePacked(f, items);
        forall i | 0 <= i < |items|
          ensures Sendable(f.t, items[i])
        {
          NumbersSendable(f.t, items[i]);
        }
        return;
      }
      ghost var before, count, all := buffer, bytesWritten, Wholes(items);
      WholesTyped(f, items);
      NoItems(f, all);
      var i := 0;
      while i < |items|
        invariant i <= |items| && ok && Valid() && Took(before, count, ItemsBytes(f, all, i))
        invariant Room(count, |ItemsBytes(f, all, i)|)
        invariant forall j | 0 <= j < i :: Sendable(f.t, items[j])
      {
        ok := EncodeWhole(f, items[i]);
        ItemMore(f, all, i);
        ItemsGrow(f, all, i + 1, |all|);
        if !ok {
          return;
        }
        Joined(before, ItemsBytes(f, all, i), ItemBytes(f, all[i]));
        i := i + 1;
      }
    }

    method EncodePacked(f: Field, items: seq<Value>) returns (ok: bool)
      requires Valid() && TypedItem(f, Packed(items))
      modifies this
      ensures Valid() && (ok <==> Room(old(bytesWritten), |ItemBytes(f, Packed(items))|))
      ensures ok ==> Took(old(buffer), old(bytesWritten), ItemBytes(f, Packed(items)))
      decreases f, 1, 0
    {
      hide ValuesBytes, Typed, TagBytes, Varint;
      ghost var body := ValuesBytes(f.t, items, |items|);
      ghost var before, tag := buffer, TagBytes(f.tag, 2);
      ok := EncodeTag(2, f.tag);
      if !ok {
        return;
      }
      var size := 0;
      if f.t.TFixed32? {
        size := 4 * |items|;
        FixedValues(f.t, items, |items|);
      } else if f.t.TFixed64? {
        size := 8 * |items|;
        FixedValues(f.t, items, |items|);
      } else {
        var sizestream := new OStream(true, 0);
        ok := sizestream.EncodeValues(f.t, items);
        if !ok {
          return;
        }
        size := sizestream.bytesWritten;
      }
      assert size == |body|;
      ok := EncodeVarint(size);
      if !ok {
        return;
      }
      Joined(before, tag, Varint(size));
      Joined(before, tag + Varint(size), body);
      Joined(tag, Varint(size), body);
      if sizing {
        bytesWritten := bytesWritten + size;
        return;
      }
      ok := EncodeValues(f.t, items);
    }

    method EncodeValues(t: Type, items: seq<Value>) returns (ok: bool)
      requires Valid() && Packable(t) && forall i | 0 <= i < |items| :: Typed(t, items[i])
      modifies this
      ensures
        && Valid()
        && (ok <==> Room(old(bytesWritten), |ValuesBytes(t, items, |items|)|))
      ensures ok ==> Took(old(buffer), old(bytesWritten), ValuesBytes(t, items, |items|))
      decreases t, 1, 0
    {
      hide ValueBytes, Typed, Sendable;
      ok := true;
      ghost var before, count := buffer, bytesWritten;
      assert buffer + [] == buffer;
      var i := 0;
      while i < |items|
        invariant i <= |items| && ok && Valid() && Took(before, count, ValuesBytes(t, items, i))
        invariant Room(count, |ValuesBytes(t, items, i)|)
      {
        NumbersSendable(t, items[i]);
        ok := EncodeValue(t, items[i]);
        ValuesGrow(t, items, i + 1, |items|);
        if !ok {
          return;
        }
        Joined(before, ValuesBytes(t, items, i), ValueBytes(t, items[i]));
        i := i + 1;
      }
    }
  }

  lemma NumbersSendable(t: Type, v: Value)
    requires Packable(t)
    ensures Sendable(t, v)
  {
  }

  lemma {:induction false} FixedValues(t: Type, items: seq<Value>, n: nat)
    requires n <= |items| && (t.TFixed32? || t.TFixed64?) && forall i | 0 <= i < |items| :: Typed(t, items[i])
    ensures |ValuesBytes(t, items, n)| == (if t.TFixed32? then 4 else 8) * n
  {
    hide Typed;
    if n > 0 {
      FixedValues(t, items, n - 1);
      FixedValue(t, items[n - 1]);
    }
  }

  lemma FixedValue(t: Type, v: Value)
    requires (t.TFixed32? || t.TFixed64?) && Typed(t, v)
    ensures |ValueBytes(t, v)| == if t.TFixed32? then 4 else 8
  {
  }

  lemma {:induction false} ValuesGrow(t: Type, items: seq<Value>, i: nat, j: nat)
    requires i <= j <= |items| && forall k | 0 <= k < |items| :: Typed(t, items[k])
    ensures |ValuesBytes(t, items, i)| <= |ValuesBytes(t, items, j)|
    decreases j - i
  {
    hide Typed, ValueBytes;
    if i < j {
      ValuesGrow(t, items, i, j - 1);
    }
  }

  function Wholes(items: seq<Value>): (r: seq<Item>)
    ensures |r| == |items| && forall i | 0 <= i < |r| :: r[i] == Whole(items[i])
  {
    seq(|items|, i requires 0 <= i < |items| => Whole(items[i]))
  }

  lemma WholesTyped(f: Field, items: seq<Value>)
    requires forall i | 0 <= i < |items| :: Typed(f.t, items[i])
    ensures forall i | 0 <= i < |Wholes(items)| :: TypedItem(f, Wholes(items)[i])
  {
  }

  lemma NoItems(f: Field, items: seq<Item>)
    requires forall i | 0 <= i < |items| :: TypedItem(f, items[i])
    ensures ItemsBytes(f, items, 0) == []
  {
  }

  lemma ItemMore(f: Field, items: seq<Item>, i: nat)
    requires i < |items| && forall k | 0 <= k < |items| :: TypedItem(f, items[k])
    ensures ItemsBytes(f, items, i + 1) == ItemsBytes(f, items, i) + ItemBytes(f, items[i])
  {
    hide ItemBytes, TypedItem;
  }

  lemma {:induction false} ItemsGrow(f: Field, items: seq<Item>, i: nat, j: nat)
    requires i <= j <= |items| && forall k | 0 <= k < |items| :: TypedItem(f, items[k])
    ensures |ItemsBytes(f, items, i)| <= |ItemsBytes(f, items, j)|
    decreases j - i
  {
    hide ItemBytes, TypedItem;
    if i < j {
      ItemsGrow(f, items, i, j - 1);
    }
  }

  lemma ArrayBytesIs(f: Field, items: seq<Value>)
    requires f.rule.Repeated? && TypedSlot(f, Many(items))
    ensures items == [] ==> SlotBytes(f, Many(items)) == []
    ensures items != [] && Packable(f.t) ==> TypedItem(f, Packed(items)) && SlotBytes(f, Many(items)) == ItemBytes(f, Packed(items))
    ensures items != [] && !Packable(f.t) ==>
      (forall i | 0 <= i < |Wholes(items)| :: TypedItem(f, Wholes(items)[i]))
      && SlotBytes(f, Many(items)) == ItemsBytes(f, Wholes(items), |items|)
  {
    hide ItemBytes, Typed;
    var slot := Many(items);
    var all := Items(f, slot);
    if items == [] {
      assert ItemsBytes(f, all, 0) == [];
    } else if Packable(f.t) {
      assert all == [Packed(items)];
      assert ItemsBytes(f, all, 1) == ItemsBytes(f, all, 0) + ItemBytes(f, all[0]);
      assert [] + ItemBytes(f, Packed(items)) == ItemBytes(f, Packed(items));
    } else {
      WholesTyped(f, items);
      assert all == Wholes(items);
    }
  }

  function SlotBytes(f: Field, slot: Slot): Bytes
    requires TypedSlot(f, slot)
  {
    var items := Items(f, slot);
    ItemsBytes(f, items, |items|)
  }

  lemma NoSlots(fields: seq<Field>, slots: seq<Slot>)
    requires TypedSlots(fields, slots)
    ensures SlotsBytes(fields, slots, 0) == []
  {
  }

  lemma SlotMore(fields: seq<Field>, slots: seq<Slot>, i: nat)
    requires TypedSlots(fields, slots) && i < |fields|
    ensures SlotsBytes(fields, slots, i + 1) == SlotsBytes(fields, slots, i) + SlotBytes(fields[i], slots[i])
  {
    hide Items, ItemsBytes;
  }

  lemma {:induction false} SlotsGrow(fields: seq<Field>, slots: seq<Slot>, i: nat, j: nat)
    requires TypedSlots(fields, slots) && i <= j <= |fields|
    ensures |SlotsBytes(fields, slots, i)| <= |SlotsBytes(fields, slots, j)|
    decreases j - i
  {
    hide Items, ItemsBytes;
    if i < j {
      SlotsGrow(fields, slots, i, j - 1);
    }
  }

  /** The records of a slot, spelled out. */
  lemma SlotBytesIs(f: Field, slot: Slot)
    requires TypedSlot(f, slot)
    ensures !slot.Many? ==>
      SlotBytes(f, slot) == if Items(f, slot) == [] then [] else ItemBytes(f, Whole(slot.v))
    ensures !slot.Many? ==> (Items(f, slot) == [] <==>
      (f.rule.Proto3? && ZeroValue(f.t, slot.v)) || (slot.Maybe? && !slot.has))
  {
    hide ItemBytes, Typed, ZeroValue;
    var items := Items(f, slot);
    if items == [] {
      assert ItemsBytes(f, items, 0) == [];
    } else if !slot.Many? {
      assert items == [Whole(slot.v)];
      assert ItemsBytes(f, items, 1) == ItemsBytes(f, items, 0) + ItemBytes(f, items[0]);
      assert [] + ItemBytes(f, Whole(slot.v)) == ItemBytes(f, Whole(slot.v));
    }
  }

  lemma Joined(a: Bytes, b: Bytes, c: Bytes)
    ensures a + b + c == a + (b + c) && |b + c| == |b| + |c|
  {
  }

  /** Groups of seven bits, low ones first, every byte but the last with its top bit set. */
  method VarintGroups(value: nat) returns (b: Bytes)
    requires value > 0x7f
    ensures b == Varint(value)
  {
    hide Varint;
    var v := value;
    b := [];
    assert [] + Varint(value) == Varint(value);
    while v != 0
      invariant v == 0 ==> b != [] && b[|b| - 1] >= 0x80 && b[..|b| - 1] + [b[|b| - 1] - 0x80] == Varint(value)
      invariant v != 0 ==> b + Varint(v) == Varint(value)
    {
      Group(v);
      assert v >= 0x80 ==> b + [v % 0x80 + 0x80] + Varint(v / 0x80) == b + ([v % 0x80 + 0x80] + Varint(v / 0x80));
      b := b + [v % 0x80 + 0x80];
      v := v / 0x80;
    }
    b := b[|b| - 1 := b[|b| - 1] - 0x80];
    assert b == b[..|b| - 1] + [b[|b| - 1]];
  }

  lemma Group(v: nat)
    ensures Varint(v) == if v < 0x80 then [v % 0x80] else [v % 0x80 + 0x80] + Varint(v / 0x80)
  {
  }
}
