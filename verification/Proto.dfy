/** Descriptors, message values and wire form (nanopb; Protocol Buffers Encoding: varints, ZigZag, lengths). */
module Protos {
  import opened Keys
  import opened Coding

  /** The largest count or length a struct can hold (pb_size_t). */
  const SIZE_MAX: nat := 0xffff

  datatype Type =
    | TBool | TInt(bits: nat) | TUInt(bits: nat) | TSInt(bits: nat) | TFixed32 | TFixed64
    | TBytes(max: nat) | TString(size: nat) | TFixedBytes(n: nat) | TMessage(fields: seq<Field>)

  /** Proto3 is a singular field without a has-flag, sent only when it is not zero. A fixed repeated field is an
      array without a count, all of whose elements are sent. */
  datatype Rule = Required | Optional | Proto3 | Repeated(max: nat, fixed: bool) | OneOf(group: nat)

  datatype Field = Field(tag: nat, t: Type, rule: Rule, def: Value)

  datatype Value = VInt(i: int) | VBytes(b: Bytes) | VMessage(slots: seq<Slot>)

  /** The struct member of a field. */
  datatype Slot = One(v: Value) | Maybe(has: bool, v: Value) | Many(items: seq<Value>)

  // Values that the C types can hold.

  predicate Width(bits: nat) {
    bits == 8 || bits == 16 || bits == 32 || bits == 64
  }

  function Half(bits: nat): (h: nat)
    requires Width(bits)
  {
    if bits == 8 then 0x80 else if bits == 16 then 0x8000 else if bits == 32 then 0x8000_0000 else 0x8000_0000_0000_0000
  }

  predicate Typed(t: Type, v: Value)
    decreases t
  {
    match t
    case TBool => v == VInt(0) || v == VInt(1)
    case TInt(bits) => v.VInt? && Width(bits) && -(Half(bits) as int) <= v.i < Half(bits)
    case TSInt(bits) => v.VInt? && Width(bits) && -(Half(bits) as int) <= v.i < Half(bits)
    case TUInt(bits) => v.VInt? && Width(bits) && 0 <= v.i < 2 * Half(bits)
    case TFixed32 => v.VInt? && 0 <= v.i < WORD32
    case TFixed64 => v.VInt? && 0 <= v.i < WORD64
    case TBytes(_) => v.VBytes? && |v.b| <= SIZE_MAX
    // The characters before the terminator, or the whole array if there is none.
    case TString(size) => v.VBytes? && |v.b| <= size && 0 !in v.b
    case TFixedBytes(n) => v.VBytes? && |v.b| == n
    case TMessage(fields) => v.VMessage? && TypedSlots(fields, v.slots)
  }

  predicate TypedSlots(fields: seq<Field>, slots: seq<Slot>)
    decreases fields
  {
    && |slots| == |fields|
    && Exclusive(fields, slots)
    && forall i | 0 <= i < |fields| :: TypedSlot(fields[i], slots[i])
  }

  /** A union holds one of its members. */
  predicate Exclusive(fields: seq<Field>, slots: seq<Slot>) {
    && |slots| == |fields|
    && forall i, j | 0 <= i < j < |fields| && fields[i].rule.OneOf? && fields[i].rule == fields[j].rule ::
         !(slots[i].Maybe? && slots[j].Maybe? && slots[i].has && slots[j].has)
  }

  predicate TypedSlot(f: Field, slot: Slot)
    decreases f
  {
    match f.rule
    case Required => slot.One? && Typed(f.t, slot.v)
    case Proto3 => slot.One? && Typed(f.t, slot.v)
    case Optional => slot.Maybe? && Typed(f.t, slot.v)
    case OneOf(_) => slot.Maybe? && Typed(f.t, slot.v)
    case Repeated(max, fixed) =>
      && slot.Many? && |slot.items| <= SIZE_MAX && (fixed ==> |slot.items| == max)
      && forall i | 0 <= i < |slot.items| :: Typed(f.t, slot.items[i])
  }

  // What is sent.

  function ZigZag(i: int): nat {
    if i < 0 then -2 * i - 1 else 2 * i
  }

  function WireType(t: Type): nat {
    match t
    case TBool => 0 case TInt(_) => 0 case TUInt(_) => 0 case TSInt(_) => 0
    case TFixed64 => 1 case TFixed32 => 5
    case _ => 2
  }

  predicate Packable(t: Type) {
    t.TBool? || t.TInt? || t.TUInt? || t.TSInt? || t.TFixed32? || t.TFixed64?
  }

  function TagBytes(tag: nat, wire: nat): Bytes {
    Varint(tag * 8 + wire)
  }

  /** A singular field counts as zero, and is not sent, when nothing below it would be sent. */
  predicate ZeroValue(t: Type, v: Value)
    decreases t
  {
    match t
    case TBytes(_) => v == VBytes([])
    case TString(_) => v == VBytes([])
    case TFixedBytes(n) => n == 0
    case TMessage(fields) => v.VMessage? && |v.slots| == |fields| && forall i | 0 <= i < |fields| :: ZeroSlot(fields[i], v.slots[i])
    case _ => v == VInt(0)
  }

  predicate ZeroSlot(f: Field, slot: Slot)
    decreases f
  {
    match f.rule
    case Required => false
    case Proto3 => slot.One? && ZeroValue(f.t, slot.v)
    case Repeated(_, fixed) => !fixed && slot == Many([])
    case _ => slot.Maybe? && !slot.has
  }

  /** One tagged record: a single value, or all the values of a packed array. */
  datatype Item = Whole(v: Value) | Packed(vs: seq<Value>)

  predicate TypedItem(f: Field, item: Item) {
    match item
    case Whole(v) => Typed(f.t, v)
    case Packed(vs) => Packable(f.t) && vs != [] && forall i | 0 <= i < |vs| :: Typed(f.t, vs[i])
  }

  function Items(f: Field, slot: Slot): (items: seq<Item>)
    requires TypedSlot(f, slot)
    ensures forall i | 0 <= i < |items| :: TypedItem(f, items[i])
  {
    match f.rule
    case Required => [Whole(slot.v)]
    case Proto3 => if ZeroValue(f.t, slot.v) then [] else [Whole(slot.v)]
    case Optional => if slot.has then [Whole(slot.v)] else []
    case OneOf(_) => if slot.has then [Whole(slot.v)] else []
    case Repeated(_, _) =>
      if slot.items == [] then []
      else if Packable(f.t) then [Packed(slot.items)]
      else seq(|slot.items|, i requires 0 <= i < |slot.items| => Whole(slot.items[i]))
  }

  function ValueBytes(t: Type, v: Value): Bytes
    requires Typed(t, v)
    decreases t, 0, 0
  {
    match t
    case TBool => Varint(v.i)
    case TInt(_) => Varint(v.i % WORD64)
    case TUInt(_) => Varint(v.i)
    case TSInt(_) => Varint(ZigZag(v.i))
    case TFixed32 => Fixed(v.i, 4)
    case TFixed64 => Fixed(v.i, 8)
    case TMessage(fields) => var body := SlotsBytes(fields, v.slots, |fields|); Varint(|body|) + body
    case _ => Varint(|v.b|) + v.b
  }

  function ValuesBytes(t: Type, vs: seq<Value>, n: nat): Bytes
    requires n <= |vs| && forall i | 0 <= i < |vs| :: Typed(t, vs[i])
    decreases t, 1, n
  {
    if n == 0 then [] else ValuesBytes(t, vs, n - 1) + ValueBytes(t, vs[n - 1])
  }

  function ItemBytes(f: Field, item: Item): Bytes
    requires TypedItem(f, item)
    decreases f, 0, 0
  {
    match item
    case Whole(v) => TagBytes(f.tag, WireType(f.t)) + ValueBytes(f.t, v)
    case Packed(vs) => var body := ValuesBytes(f.t, vs, |vs|); TagBytes(f.tag, 2) + (Varint(|body|) + body)
  }

  function ItemsBytes(f: Field, items: seq<Item>, n: nat): Bytes
    requires n <= |items| && forall i | 0 <= i < |items| :: TypedItem(f, items[i])
    decreases f, 1, n
  {
    if n == 0 then [] else ItemsBytes(f, items, n - 1) + ItemBytes(f, items[n - 1])
  }

  /** The encoding of the first n fields. */
  function SlotsBytes(fields: seq<Field>, slots: seq<Slot>, n: nat): Bytes
    requires n <= |fields| && TypedSlots(fields, slots)
    decreases fields, 0, n
  {
    if n == 0 then []
    else
      var items := Items(fields[n - 1], slots[n - 1]);
      SlotsBytes(fields, slots, n - 1) + ItemsBytes(fields[n - 1], items, |items|)
  }

  function Encoding(fields: seq<Field>, slots: seq<Slot>): Bytes
    requires TypedSlots(fields, slots)
  {
    SlotsBytes(fields, slots, |fields|)
  }
}
