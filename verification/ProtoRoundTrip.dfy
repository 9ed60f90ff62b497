/** Encoding a message and decoding the bytes again. */
module ProtoRoundTrips {
  import opened Keys
  import opened Coding
  import opened Protos
  import opened ProtoRecords
  import opened ProtoVersions
  import opened ProtoEncoders
  import opened ProtoDecoders

  // What can be received is what can be sent, except for strings without a terminator.

  /** No string that is sent, at any depth, fills its array: it would be sent whole, and there is no room for its
      terminator on the way back. */
  predicate Terminated(t: Type, v: Value)
    requires Typed(t, v)
    decreases t
  {
    match t
    case TString(size) => |v.b| < size
    case TMessage(fields) => TerminatedSlots(fields, v.slots)
    case _ => true
  }

  predicate TerminatedSlots(fields: seq<Field>, slots: seq<Slot>)
    requires TypedSlots(fields, slots)
    decreases fields
  {
    forall i | 0 <= i < |fields| :: TerminatedSlot(fields[i], slots[i])
  }

  predicate TerminatedSlot(f: Field, slot: Slot)
    requires TypedSlot(f, slot)
    decreases f
  {
    forall k | 0 <= k < |Items(f, slot)| && Items(f, slot)[k].Whole? :: Terminated(f.t, Items(f, slot)[k].v)
  }

  lemma {:induction false} ReceivableValueIs(t: Type, v: Value)
    requires Typed(t, v)
    ensures Receivable(t, v) <==> Sendable(t, v) && Terminated(t, v)
    decreases t
  {
    match t
    case TMessage(fields) => ReceivableIs(fields, v.slots);
    case _ =>
  }

  lemma {:induction false} ReceivableIs(fields: seq<Field>, slots: seq<Slot>)
    requires TypedSlots(fields, slots)
    ensures ReceivableSlots(fields, slots) <==> SendableSlots(fields, slots) && TerminatedSlots(fields, slots)
    decreases fields
  {
    forall i | 0 <= i < |fields|
      ensures ReceivableSlot(fields[i], slots[i]) <==> SendableSlot(fields[i], slots[i]) && TerminatedSlot(fields[i], slots[i])
    {
      ReceivableSlotIs(fields[i], slots[i]);
    }
    hide ReceivableSlot, SendableSlot, TerminatedSlot, TypedSlot;
  }

  lemma {:induction false} ReceivableSlotIs(f: Field, slot: Slot)
    requires TypedSlot(f, slot)
    ensures ReceivableSlot(f, slot) <==> SendableSlot(f, slot) && TerminatedSlot(f, slot)
    decreases f
  {
    hide Typed, Receivable, Sendable, Terminated, ZeroValue;
    var items := Items(f, slot);
    if slot.Many? {
      forall i | 0 <= i < |slot.items|
        ensures Receivable(f.t, slot.items[i]) <==> Sendable(f.t, slot.items[i]) && Terminated(f.t, slot.items[i])
        ensures Packable(f.t) ==> Sendable(f.t, slot.items[i])
        ensures !Packable(f.t) ==> items[i] == Whole(slot.items[i])
      {
        if Packable(f.t) {
          NumbersSendable(f.t, slot.items[i]);
        }
        ReceivableValueIs(f.t, slot.items[i]);
      }
    } else if items != [] {
      ReceivableValueIs(f.t, slot.v);
      assert items[0] == Whole(slot.v) && |items| == 1;
      assert ReceivableItem(f, items[0]) <==> Receivable(f.t, slot.v);
    }
  }

  /** A message of one string that fills its array is sent and cannot be received. */
  lemma FullStringIsSent(tag: nat, size: nat, b: Bytes, def: Value)
    requires |b| == size && 0 !in b
    ensures var fields, slots := [Field(tag, TString(size), Required, def)], [One(VBytes(b))];
      && TypedSlots(fields, slots)
      && SendableSlots(fields, slots)
      && !ReceivableSlots(fields, slots)
  {
    var f := Field(tag, TString(size), Required, def);
    var slot := One(VBytes(b));
    assert Typed(f.t, slot.v) && TypedSlot(f, slot);
    assert Items(f, slot) == [Whole(slot.v)];
    assert Items(f, slot)[0] == Whole(slot.v);
    assert !ReceivableItem(f, Items(f, slot)[0]);
    assert !ReceivableSlot([f][0], [slot][0]);
  }

  // A message of less than 4 GiB has only lengths that fit 32 bits.

  lemma {:induction false} ShortIsFramed(t: Type, v: Value)
    requires Typed(t, v) && |ValueBytes(t, v)| < WORD32
    ensures Framed(t, v)
    decreases t
  {
    match t
    case TMessage(fields) =>
      hide Varint;
      VarintSize(|Encoding(fields, v.slots)|);
      ShortAreFramed(fields, v.slots);
    case TString(_) => VarintSize(|v.b|);
    case TFixedBytes(_) => VarintSize(|v.b|);
    case _ =>
  }

  lemma {:induction false} ShortAreFramed(fields: seq<Field>, slots: seq<Slot>)
    requires TypedSlots(fields, slots) && |Encoding(fields, slots)| < WORD32
    ensures FramedSlots(fields, slots)
    decreases fields
  {
    hide Items, ItemBytes, FramedItem, TypedItem;
    forall i, k | 0 <= i < |fields| && 0 <= k < |Items(fields[i], slots[i])|
      ensures FramedItem(fields[i], Items(fields[i], slots[i])[k])
    {
      var f, items := fields[i], Items(fields[i], slots[i]);
      SlotsGrow(fields, slots, i + 1, |fields|);
      SlotsStep(fields, slots, i);
      ItemsGrow(f, items, k + 1, |items|);
      ItemMore(f, items, k);
      ShortItem(f, items[k]);
    }
  }

  lemma SlotsStep(fields: seq<Field>, slots: seq<Slot>, i: nat)
    requires TypedSlots(fields, slots) && i < |fields|
    ensures var items := Items(fields[i], slots[i]);
      |ItemsBytes(fields[i], items, |items|)| <= |SlotsBytes(fields, slots, i + 1)|
  {
  }

  lemma {:induction false} ShortItem(f: Field, item: Item)
    requires TypedItem(f, item) && |ItemBytes(f, item)| < WORD32
    ensures FramedItem(f, item)
    decreases f
  {
    hide ValueBytes, ValuesBytes, Varint, Framed;
    match item
    case Whole(v) => ShortIsFramed(f.t, v);
    case Packed(vs) =>
  }

  // A sender with more fields. What it can send, the common part of it can be sent.

  lemma {:induction false} SendableCommon(sent: Type, t: Type, v: Value)
    requires SameType(sent, t) && Typed(sent, v) && Sendable(sent, v)
    ensures Sendable(t, CommonValue(sent, t, v))
    decreases t
  {
    if t.TMessage? {
      SendableCommonSlots(sent.fields, t.fields, v.slots);
    }
  }

  lemma {:induction false} SendableCommonSlots(theirs: seq<Field>, fields: seq<Field>, slots: seq<Slot>)
    requires Extends(theirs, fields) && TypedSlots(theirs, slots) && SendableSlots(theirs, slots)
    ensures SendableSlots(fields, Common(theirs, fields, slots))
    decreases fields
  {
    forall i | 0 <= i < |fields|
      ensures SendableSlot(fields[i], Common(theirs, fields, slots)[i])
    {
      CommonIs(theirs, fields, slots, i);
      var p := Place(theirs, fields[i].tag);
      assert SendableSlot(theirs[p], slots[p]);
      SendableCommonSlot(theirs[p], fields[i], slots[p]);
    }
  }

  lemma {:induction false} SendableCommonSlot(g: Field, f: Field, slot: Slot)
    requires SameField(g, f) && TypedSlot(g, slot) && SendableSlot(g, slot)
    ensures SendableSlot(f, CommonSlot(g, f, slot))
    decreases f
  {
    hide Typed, CommonValue, Sendable, ZeroValue, SameType;
    SameKind(g.t, f.t);
    if slot.Many? {
      forall i | 0 <= i < |slot.items| && Sendable(g.t, slot.items[i])
        ensures Sendable(f.t, CommonValue(g.t, f.t, slot.items[i]))
      {
        SendableCommon(g.t, f.t, slot.items[i]);
      }
    } else {
      if Sendable(g.t, slot.v) {
        SendableCommon(g.t, f.t, slot.v);
      }
      if f.rule.Proto3? && ZeroValue(g.t, slot.v) {
        ZeroCommon(g.t, f.t, slot.v);
      }
    }
  }

  /** pb_encode into a buffer, then pb_decode of what it wrote with a descriptor that may lack some of the fields. What
      can be sent comes back, in normal form and without those fields, if and only if no string that the receiver
      knows fills its array. */
  method SendAndReceive(theirs: seq<Field>, fields: seq<Field>, slots: seq<Slot>, bufferSize: nat)
    returns (sent: bool, ok: bool, r: seq<Slot>)
    requires WellFormed(theirs) && WellFormed(fields) && Extends(theirs, fields) && TypedSlots(theirs, slots)
    requires bufferSize < WORD32 || FramedSlots(theirs, slots)
    ensures sent <==> SendableSlots(theirs, slots) && |Encoding(theirs, slots)| <= bufferSize
    ensures sent ==> (ok <==> TerminatedSlots(fields, Common(theirs, fields, slots)))
    ensures sent && ok ==> r == Normal(fields, Common(theirs, fields, slots))
  {
    hide WellFormed, TypedSlots, Extends, ReceivableSlots, SendableSlots, TerminatedSlots, FramedSlots, Encoding, Normal, Common;
    CommonIsTyped(theirs, fields, slots);
    ReceivableIs(fields, Common(theirs, fields, slots));
    ok, r := false, [];
    var out := new OStream(false, bufferSize);
    sent := out.Encode(theirs, slots);
    if sent {
      SendableCommonSlots(theirs, fields, slots);
      if bufferSize < WORD32 {
        ShortAreFramed(theirs, slots);
      }
      assert out.buffer == [] + Encoding(theirs, slots);
      var input := new IStream(out.buffer, 0, out.bytesWritten);
      assert input.Remaining() == Encoding(theirs, slots);
      ghost var met;
      ok, r, met := Decode(input, fields, true, theirs, slots);
    }
  }

  /** The same message on both sides comes back whole. */
  method EncodeDecode(fields: seq<Field>, slots: seq<Slot>, bufferSize: nat) returns (sent: bool, ok: bool, r: seq<Slot>)
    requires WellFormed(fields) && TypedSlots(fields, slots)
    requires bufferSize < WORD32 || FramedSlots(fields, slots)
    ensures sent <==> SendableSlots(fields, slots) && |Encoding(fields, slots)| <= bufferSize
    ensures sent ==> (ok <==> TerminatedSlots(fields, slots))
    ensures sent && ok ==> r == Normal(fields, slots)
  {
    hide WellFormed, TypedSlots, Extends, SendableSlots, TerminatedSlots, FramedSlots, Encoding, Normal, Common;
    ExtendsItself(fields);
    CommonIsAll(fields, slots);
    sent, ok, r := SendAndReceive(fields, fields, slots, bufferSize);
  }

  // When the message comes back unchanged.

  /** Fields that are not sent hold their defaults. */
  predicate AtRest(t: Type, v: Value)
    requires Typed(t, v)
    decreases t
  {
    match t
    case TMessage(fields) => AtRestSlots(fields, v.slots)
    case _ => true
  }

  predicate AtRestSlots(fields: seq<Field>, slots: seq<Slot>)
    requires TypedSlots(fields, slots)
    decreases fields
  {
    forall i | 0 <= i < |fields| :: AtRestSlot(fields[i], slots[i])
  }

  predicate AtRestSlot(f: Field, slot: Slot)
    requires TypedSlot(f, slot)
    decreases f
  {
    match f.rule
    case Required => AtRest(f.t, slot.v)
    case Proto3 => if ZeroValue(f.t, slot.v) then slot.v == DefaultOf(f) else AtRest(f.t, slot.v)
    case Repeated(_, _) => forall i | 0 <= i < |slot.items| :: AtRest(f.t, slot.items[i])
    case _ => if slot.has then AtRest(f.t, slot.v) else slot.v == DefaultOf(f)
  }

  lemma {:induction false} NormalValueIs(t: Type, v: Value)
    requires Typed(t, v)
    ensures NormalValue(t, v) == v <==> AtRest(t, v)
    decreases t
  {
    match t
    case TMessage(fields) => NormalIs(fields, v.slots);
    case _ =>
  }

  /** A message comes back as it was if and only if its unsent fields, at every depth, hold their defaults. */
  lemma {:induction false} NormalIs(fields: seq<Field>, slots: seq<Slot>)
    requires TypedSlots(fields, slots)
    ensures Normal(fields, slots) == slots <==> AtRestSlots(fields, slots)
    decreases fields
  {
    forall i | 0 <= i < |fields|
      ensures NormalSlot(fields[i], slots[i]) == slots[i] <==> AtRestSlot(fields[i], slots[i])
    {
      NormalSlotIs(fields[i], slots[i]);
    }
    hide NormalSlot, AtRestSlot, TypedSlot;
    if AtRestSlots(fields, slots) {
      assert forall i | 0 <= i < |fields| :: Normal(fields, slots)[i] == slots[i];
    }
  }

  lemma {:induction false} NormalSlotIs(f: Field, slot: Slot)
    requires TypedSlot(f, slot)
    ensures NormalSlot(f, slot) == slot <==> AtRestSlot(f, slot)
    decreases f
  {
    hide Typed, NormalValue, AtRest, ZeroValue, DefaultOf;
    if slot.Many? {
      forall i | 0 <= i < |slot.items|
        ensures NormalValue(f.t, slot.items[i]) == slot.items[i] <==> AtRest(f.t, slot.items[i])
      {
        NormalValueIs(f.t, slot.items[i]);
      }
      if AtRestSlot(f, slot) {
        assert NormalSlot(f, slot).items == slot.items;
      } else {
        var i :| 0 <= i < |slot.items| && !AtRest(f.t, slot.items[i]);
        assert NormalSlot(f, slot).items[i] != slot.items[i];
      }
    } else {
      NormalValueIs(f.t, slot.v);
    }
  }

  // Descriptors without default values of their own, as in proto3.

  predicate PlainFields(fields: seq<Field>)
    decreases fields
  {
    forall i | 0 <= i < |fields| :: PlainField(fields[i])
  }

  predicate PlainField(f: Field)
    decreases f
  {
    match f.t
    case TMessage(fields) => PlainFields(fields)
    case TBytes(_) => f.def == VBytes([])
    case TString(_) => f.def == VBytes([])
    case TFixedBytes(n) => f.def == VBytes(seq(n, _ => 0))
    case _ => f.def == VInt(0)
  }

  /** Optional fields that are absent, and members of unions that are not chosen, hold their defaults. */
  predicate Settled(t: Type, v: Value)
    requires Typed(t, v)
    decreases t
  {
    match t
    case TMessage(fields) => SettledSlots(fields, v.slots)
    case _ => true
  }

  predicate SettledSlots(fields: seq<Field>, slots: seq<Slot>)
    requires TypedSlots(fields, slots)
    decreases fields
  {
    forall i | 0 <= i < |fields| :: SettledSlot(fields[i], slots[i])
  }

  predicate SettledSlot(f: Field, slot: Slot)
    requires TypedSlot(f, slot)
    decreases f
  {
    match slot
    case One(v) => Settled(f.t, v)
    case Maybe(has, v) => if has then Settled(f.t, v) else v == DefaultOf(f)
    case Many(vs) => forall i | 0 <= i < |vs| :: Settled(f.t, vs[i])
  }

  /** A value that is not sent because it is zero is the default. */
  lemma {:induction false} ZeroIsPlain(f: Field, v: Value)
    requires Typed(f.t, v) && PlainField(f) && Settled(f.t, v) && ZeroValue(f.t, v)
    ensures v == DefaultOf(f)
    decreases f, 0
  {
    if f.t.TMessage? {
      var fields := f.t.fields;
      forall i | 0 <= i < |fields|
        ensures v.slots[i] == Defaults(fields)[i]
      {
        assert TypedSlot(fields[i], v.slots[i]) && PlainField(fields[i]) && SettledSlot(fields[i], v.slots[i]);
        ZeroSlotIsPlain(fields[i], v.slots[i]);
      }
    }
  }

  lemma {:induction false} ZeroSlotIsPlain(f: Field, slot: Slot)
    requires TypedSlot(f, slot) && PlainField(f) && SettledSlot(f, slot) && ZeroSlot(f, slot)
    ensures slot == DefaultSlot(f)
    decreases f, 1
  {
    hide Typed, ZeroValue, DefaultOf, PlainField, Settled;
    if f.rule.Proto3? {
      ZeroIsPlain(f, slot.v);
    }
  }

  lemma {:induction false} PlainAtRest(t: Type, v: Value)
    requires Typed(t, v) && Settled(t, v) && (t.TMessage? ==> PlainFields(t.fields))
    ensures AtRest(t, v)
    decreases t
  {
    if t.TMessage? {
      PlainAreAtRest(t.fields, v.slots);
    }
  }

  lemma {:induction false} PlainAreAtRest(fields: seq<Field>, slots: seq<Slot>)
    requires TypedSlots(fields, slots) && PlainFields(fields) && SettledSlots(fields, slots)
    ensures AtRestSlots(fields, slots)
    decreases fields
  {
    forall i | 0 <= i < |fields|
      ensures AtRestSlot(fields[i], slots[i])
    {
      PlainSlotAtRest(fields[i], slots[i]);
    }
  }

  lemma {:induction false} PlainSlotAtRest(f: Field, slot: Slot)
    requires TypedSlot(f, slot) && PlainField(f) && SettledSlot(f, slot)
    ensures AtRestSlot(f, slot)
    decreases f
  {
    hide Typed, ZeroValue, DefaultOf, Settled, AtRest;
    if slot.Many? {
      forall i | 0 <= i < |slot.items|
        ensures AtRest(f.t, slot.items[i])
      {
        PlainAtRest(f.t, slot.items[i]);
      }
    } else {
      if Settled(f.t, slot.v) {
        PlainAtRest(f.t, slot.v);
      }
      if f.rule.Proto3? && ZeroValue(f.t, slot.v) {
        ZeroIsPlain(f, slot.v);
      }
    }
  }

  /** Then every message that is settled comes back as it was: what is not sent because it is zero is not lost. */
  lemma PlainComesBack(fields: seq<Field>, slots: seq<Slot>)
    requires TypedSlots(fields, slots) && PlainFields(fields) && SettledSlots(fields, slots)
    ensures Normal(fields, slots) == slots
  {
    PlainAreAtRest(fields, slots);
    NormalIs(fields, slots);
  }
}
