/** What a decoder should make of an encoded message: defaults, one update per record, and the message it ends with. */
module ProtoRecords {
  import opened Keys
  import opened Coding
  import opened Protos

  // Descriptor tables.

  predicate WellFormed(fields: seq<Field>)
    decreases fields
  {
    && (forall i | 0 <= i < |fields| :: FieldOk(fields[i]))
    && forall i, j | 0 <= i < j < |fields| :: fields[i].tag != fields[j].tag
  }

  predicate FieldOk(f: Field)
    decreases f
  {
    && 1 <= f.tag < 0x2000_0000 && TypeOk(f.t)
    && (!f.t.TMessage? ==> Typed(f.t, f.def))
  }

  predicate TypeOk(t: Type)
    decreases t
  {
    match t
    case TMessage(fields) => WellFormed(fields)
    case TFixedBytes(n) => n <= SIZE_MAX
    case _ => true
  }

  // Default values.

  function DefaultOf(f: Field): Value
    decreases f, 0
  {
    match f.t
    case TMessage(fields) => VMessage(Defaults(fields))
    case _ => f.def
  }

  /** A repeated field starts without elements; what a fixed-count array holds before it is received does not matter. */
  function DefaultSlot(f: Field): Slot
    decreases f, 1
  {
    match f.rule
    case Required => One(DefaultOf(f))
    case Proto3 => One(DefaultOf(f))
    case Repeated(_, _) => Many([])
    case _ => Maybe(false, DefaultOf(f))
  }

  function Defaults(fields: seq<Field>): (r: seq<Slot>)
    ensures
      && |r| == |fields|
      && forall i | 0 <= i < |fields| :: r[i] == DefaultSlot(fields[i])
    decreases fields
  {
    seq(|fields|, i requires 0 <= i < |fields| => DefaultSlot(fields[i]))
  }

  // The message as received: present values as sent, absent ones at their defaults.

  function NormalValue(t: Type, v: Value): Value
    requires Typed(t, v)
    decreases t
  {
    match t
    case TMessage(fields) => VMessage(Normal(fields, v.slots))
    case _ => v
  }

  function Normal(fields: seq<Field>, slots: seq<Slot>): (r: seq<Slot>)
    requires TypedSlots(fields, slots)
    ensures
      && |r| == |fields|
      && forall i | 0 <= i < |fields| :: r[i] == NormalSlot(fields[i], slots[i])
    decreases fields
  {
    seq(|fields|, i requires 0 <= i < |fields| => NormalSlot(fields[i], slots[i]))
  }

  function NormalSlot(f: Field, slot: Slot): Slot
    requires TypedSlot(f, slot)
    decreases f
  {
    match f.rule
    case Required => One(NormalValue(f.t, slot.v))
    case Proto3 => One(if ZeroValue(f.t, slot.v) then DefaultOf(f) else NormalValue(f.t, slot.v))
    case Repeated(_, _) => Many(seq(|slot.items|, i requires 0 <= i < |slot.items| => NormalValue(f.t, slot.items[i])))
    case _ => if slot.has then Maybe(true, NormalValue(f.t, slot.v)) else Maybe(false, DefaultOf(f))
  }

  // One record at a time.

  /** The values a record carries, as received. */
  function Received(f: Field, item: Item): (r: seq<Value>)
    requires TypedItem(f, item)
    ensures item.Whole? ==> |r| == 1
  {
    match item
    case Whole(v) => [NormalValue(f.t, v)]
    case Packed(vs) => seq(|vs|, i requires 0 <= i < |vs| => NormalValue(f.t, vs[i]))
  }

  /** Choosing a member of a oneof takes the choice from the others. */
  function Cleared(fields: seq<Field>, dest: seq<Slot>, i: nat): (r: seq<Slot>)
    requires i < |fields| == |dest|
    ensures |r| == |fields| && r[i] == dest[i]
  {
    seq(|fields|, j requires 0 <= j < |fields| =>
      if j != i && fields[j].rule.OneOf? && fields[i].rule == fields[j].rule then DefaultSlot(fields[j]) else dest[j])
  }

  predicate RuleFits(f: Field, slot: Slot) {
    match f.rule
    case Required => slot.One?
    case Proto3 => slot.One?
    case Repeated(_, _) => slot.Many?
    case _ => slot.Maybe?
  }

  /** The struct after storing the values `vs` of a record of field i. */
  function Stored(fields: seq<Field>, dest: seq<Slot>, i: nat, vs: seq<Value>): (r: seq<Slot>)
    requires i < |fields| == |dest| && RuleFits(fields[i], dest[i]) && (!fields[i].rule.Repeated? ==> |vs| == 1)
    ensures |r| == |fields|
  {
    match fields[i].rule
    case Required => dest[i := One(vs[0])]
    case Proto3 => dest[i := One(vs[0])]
    case Optional => dest[i := Maybe(true, vs[0])]
    case OneOf(_) => Cleared(fields, dest, i)[i := Maybe(true, vs[0])]
    case Repeated(_, _) => dest[i := Many(dest[i].items + vs)]
  }

  /** A field number and a record of that field. */
  type Record = (nat, Item)

  predicate RecordOk(fields: seq<Field>, r: Record) {
    && r.0 < |fields| && TypedItem(fields[r.0], r.1)
    && (r.1.Packed? ==> fields[r.0].rule.Repeated?)
  }

  predicate SlotsFit(fields: seq<Field>, dest: seq<Slot>) {
    |dest| == |fields| && forall i | 0 <= i < |fields| :: RuleFits(fields[i], dest[i])
  }

  function Put(fields: seq<Field>, dest: seq<Slot>, r: Record): (d: seq<Slot>)
    requires SlotsFit(fields, dest) && RecordOk(fields, r)
    ensures SlotsFit(fields, d)
  {
    Stored(fields, dest, r.0, Received(fields[r.0], r.1))
  }

  function PutAll(fields: seq<Field>, dest: seq<Slot>, rs: seq<Record>): (d: seq<Slot>)
    requires SlotsFit(fields, dest) && forall i | 0 <= i < |rs| :: RecordOk(fields, rs[i])
    ensures SlotsFit(fields, d)
    decreases rs
  {
    if rs == [] then dest else PutAll(fields, Put(fields, dest, rs[0]), rs[1..])
  }

  function RecordBytes(fields: seq<Field>, r: Record): Bytes
    requires RecordOk(fields, r)
  {
    ItemBytes(fields[r.0], r.1)
  }

  function RecordsBytes(fields: seq<Field>, rs: seq<Record>): Bytes
    requires forall i | 0 <= i < |rs| :: RecordOk(fields, rs[i])
    decreases rs
  {
    if rs == [] then [] else RecordBytes(fields, rs[0]) + RecordsBytes(fields, rs[1..])
  }

  function Tagged(i: nat, items: seq<Item>): (r: seq<Record>)
    ensures |r| == |items| && forall k | 0 <= k < |items| :: r[k] == (i, items[k])
  {
    seq(|items|, k requires 0 <= k < |items| => (i, items[k]))
  }

  /** A struct that is zero to the receiver is sent all the same when the sender sees more in it. */
  function Sent(f: Field, slot: Slot, anyway: bool): (items: seq<Item>)
    requires TypedSlot(f, slot)
    ensures forall i | 0 <= i < |items| :: TypedItem(f, items[i])
  {
    if anyway && f.rule.Proto3? && f.t.TMessage? then [Whole(slot.v)] else Items(f, slot)
  }

  /** The records of the first n fields; `anyway` are the fields that are sent even if they are zero structs. */
  function Records(fields: seq<Field>, slots: seq<Slot>, anyway: set<nat>, n: nat): (rs: seq<Record>)
    requires n <= |fields| && TypedSlots(fields, slots)
    ensures forall i | 0 <= i < |rs| :: RecordOk(fields, rs[i]) && rs[i].0 < n
  {
    if n == 0 then []
    else Records(fields, slots, anyway, n - 1) + Tagged(n - 1, Sent(fields[n - 1], slots[n - 1], n - 1 in anyway))
  }

  // The encoding is the records, one after the other.

  lemma {:induction false} RecordsBytesConcat(fields: seq<Field>, rs: seq<Record>, more: seq<Record>)
    requires (forall i | 0 <= i < |rs| :: RecordOk(fields, rs[i])) && forall i | 0 <= i < |more| :: RecordOk(fields, more[i])
    ensures RecordsBytes(fields, rs + more) == RecordsBytes(fields, rs) + RecordsBytes(fields, more)
    decreases rs
  {
    hide RecordBytes, RecordOk;
    if rs == [] {
      assert rs + more == more;
    } else {
      assert (rs + more)[1..] == rs[1..] + more;
      RecordsBytesConcat(fields, rs[1..], more);
    }
  }

  lemma {:induction false} TaggedBytes(fields: seq<Field>, i: nat, items: seq<Item>, n: nat)
    requires i < |fields| && n <= |items| && forall k | 0 <= k < |items| :: RecordOk(fields, (i, items[k]))
    ensures forall k | 0 <= k < |items| :: TypedItem(fields[i], items[k])
    ensures RecordsBytes(fields, Tagged(i, items[..n])) == ItemsBytes(fields[i], items, n)
  {
    hide TypedItem, ItemBytes;
    if n > 0 {
      TaggedBytes(fields, i, items, n - 1);
      var last := [(i, items[n - 1])];
      assert Tagged(i, items[..n]) == Tagged(i, items[..n - 1]) + last;
      RecordsBytesConcat(fields, Tagged(i, items[..n - 1]), last);
      assert last[1..] == [];
      assert RecordsBytes(fields, last) == RecordBytes(fields, last[0]) + [];
    }
  }

  lemma {:induction false} SlotsBytesAreRecords(fields: seq<Field>, slots: seq<Slot>, n: nat)
    requires n <= |fields| && TypedSlots(fields, slots)
    ensures SlotsBytes(fields, slots, n) == RecordsBytes(fields, Records(fields, slots, {}, n))
  {
    hide Sent, Items, ItemsBytes, RecordOk, RecordBytes, TypedSlots, Records, SlotsBytes, Tagged;
    if n == 0 {
      NoRecords(fields, slots, {});
    } else {
      SlotsBytesAreRecords(fields, slots, n - 1);
      LastSlot(fields, slots, n);
      var items := Items(fields[n - 1], slots[n - 1]);
      SentOk(fields, slots, n - 1, false);
      LastField(fields, slots, {}, n);
      RecordsBytesConcat(fields, Records(fields, slots, {}, n - 1), Tagged(n - 1, items));
      TaggedBytes(fields, n - 1, items, |items|);
      assert items[..|items|] == items;
    }
  }

  lemma NoRecords(fields: seq<Field>, slots: seq<Slot>, anyway: set<nat>)
    requires TypedSlots(fields, slots)
    ensures Records(fields, slots, anyway, 0) == [] && SlotsBytes(fields, slots, 0) == []
  {
  }

  lemma LastSlot(fields: seq<Field>, slots: seq<Slot>, n: nat)
    requires 0 < n <= |fields| && TypedSlots(fields, slots)
    ensures |slots| == |fields| && TypedSlot(fields[n - 1], slots[n - 1])
    ensures var items := Items(fields[n - 1], slots[n - 1]);
      SlotsBytes(fields, slots, n) == SlotsBytes(fields, slots, n - 1) + ItemsBytes(fields[n - 1], items, |items|)
  {
    hide ItemsBytes, Items, Exclusive;
  }

  lemma SentOk(fields: seq<Field>, slots: seq<Slot>, i: nat, anyway: bool)
    requires i < |fields| && TypedSlots(fields, slots)
    ensures var items := Sent(fields[i], slots[i], anyway);
      && (forall k | 0 <= k < |items| :: RecordOk(fields, (i, items[k])))
      && (!fields[i].rule.Repeated? ==> |items| <= 1)
      && (!anyway ==> items == Items(fields[i], slots[i]))
  {
  }

  // Storing the records one after the other ends with the received message.

  lemma {:induction false} PutAllConcat(fields: seq<Field>, dest: seq<Slot>, rs: seq<Record>, more: seq<Record>)
    requires SlotsFit(fields, dest)
    requires (forall i | 0 <= i < |rs| :: RecordOk(fields, rs[i])) && forall i | 0 <= i < |more| :: RecordOk(fields, more[i])
    ensures PutAll(fields, dest, rs + more) == PutAll(fields, PutAll(fields, dest, rs), more)
    decreases rs
  {
    hide Put, RecordOk, SlotsFit;
    if rs == [] {
      assert rs + more == more;
    } else {
      assert (rs + more)[1..] == rs[1..] + more;
      PutAllConcat(fields, Put(fields, dest, rs[0]), rs[1..], more);
    }
  }

  /** The first n fields received, the rest still at their defaults. */
  function Mixed(fields: seq<Field>, slots: seq<Slot>, n: nat): (r: seq<Slot>)
    requires n <= |fields| && TypedSlots(fields, slots)
    ensures |r| == |fields|
    ensures forall i | 0 <= i < |fields| :: r[i] == if i < n then NormalSlot(fields[i], slots[i]) else DefaultSlot(fields[i])
  {
    Normal(fields, slots)[..n] + Defaults(fields)[n..]
  }

  lemma MixedFits(fields: seq<Field>, slots: seq<Slot>, n: nat)
    requires n <= |fields| && TypedSlots(fields, slots)
    ensures SlotsFit(fields, Mixed(fields, slots, n))
  {
    hide NormalValue, DefaultOf, Typed, ZeroValue;
    var r := Mixed(fields, slots, n);
    forall i | 0 <= i < |fields|
      ensures RuleFits(fields[i], r[i])
    {
      assert TypedSlot(fields[i], slots[i]);
    }
  }

  lemma {:induction false} PutAllMixed(fields: seq<Field>, slots: seq<Slot>, anyway: set<nat>, n: nat)
    requires n <= |fields| && TypedSlots(fields, slots)
    ensures SlotsFit(fields, Defaults(fields))
    ensures PutAll(fields, Defaults(fields), Records(fields, slots, anyway, n)) == Mixed(fields, slots, n)
  {
    hide Put, Sent, Items, RecordOk, SlotsFit, TypedSlot, Exclusive, Mixed;
    MixedFits(fields, slots, 0);
    StartsMixed(fields, slots);
    if n > 0 {
      var items := Sent(fields[n - 1], slots[n - 1], n - 1 in anyway);
      SentOk(fields, slots, n - 1, n - 1 in anyway);
      PutAllMixed(fields, slots, anyway, n - 1);
      MixedFits(fields, slots, n - 1);
      PutAllConcat(fields, Defaults(fields), Records(fields, slots, anyway, n - 1), Tagged(n - 1, items));
      PutSlot(fields, slots, n - 1, n - 1 in anyway);
    }
  }

  lemma StartsMixed(fields: seq<Field>, slots: seq<Slot>)
    requires TypedSlots(fields, slots)
    ensures Mixed(fields, slots, 0) == Defaults(fields)
  {
    hide NormalSlot, DefaultSlot;
  }

  /** Storing the records of one field. */
  lemma PutSlot(fields: seq<Field>, slots: seq<Slot>, i: nat, anyway: bool)
    requires i < |fields| && TypedSlots(fields, slots)
    requires SlotsFit(fields, Mixed(fields, slots, i))
    requires var items := Sent(fields[i], slots[i], anyway);
      forall k | 0 <= k < |items| :: RecordOk(fields, (i, items[k]))
    ensures PutAll(fields, Mixed(fields, slots, i), Tagged(i, Sent(fields[i], slots[i], anyway))) == Mixed(fields, slots, i + 1)
  {
    hide NormalValue, DefaultOf, Typed, ZeroValue, Mixed, NormalSlot, Exclusive;
    var f, slot, before := fields[i], slots[i], Mixed(fields, slots, i);
    assert TypedSlot(f, slot);
    MixedStep(fields, slots, i);
    if f.rule.Repeated? {
      var items := Items(f, slot);
      PutRepeated(fields, before, i, items, |items|);
      assert items[..|items|] == items;
      RepeatedValues(f, slot, |items|);
    } else {
      PutSingle(fields, slots, i, anyway);
    }
  }

  lemma MixedStep(fields: seq<Field>, slots: seq<Slot>, i: nat)
    requires i < |fields| && TypedSlots(fields, slots)
    ensures Mixed(fields, slots, i)[i := NormalSlot(fields[i], slots[i])] == Mixed(fields, slots, i + 1)
    ensures Mixed(fields, slots, i)[i] == DefaultSlot(fields[i])
  {
    hide NormalSlot, DefaultSlot, Mixed;
  }

  /** A field that holds one value. */
  lemma PutSingle(fields: seq<Field>, slots: seq<Slot>, i: nat, anyway: bool)
    requires i < |fields| && TypedSlots(fields, slots) && !fields[i].rule.Repeated?
    requires SlotsFit(fields, Mixed(fields, slots, i))
    requires var items := Sent(fields[i], slots[i], anyway);
      forall k | 0 <= k < |items| :: RecordOk(fields, (i, items[k]))
    ensures PutAll(fields, Mixed(fields, slots, i), Tagged(i, Sent(fields[i], slots[i], anyway)))
      == Mixed(fields, slots, i)[i := NormalSlot(fields[i], slots[i])]
  {
    hide NormalValue, DefaultOf, Typed, ZeroValue, Mixed, Exclusive;
    var f, slot, before := fields[i], slots[i], Mixed(fields, slots, i);
    var rs := Tagged(i, Sent(f, slot, anyway));
    assert TypedSlot(f, slot);
    MixedStep(fields, slots, i);
    if rs == [] {
      assert before == before[i := before[i]];
    } else {
      assert rs == [(i, Whole(slot.v))] && rs[1..] == [];
      if f.rule.Proto3? && ZeroValue(f.t, slot.v) {
        ZeroIsDefault(f, slot.v);
      }
      if f.rule.OneOf? {
        ClearedMixed(fields, slots, i);
      }
    }
  }

  /** Receiving a struct in which nothing was sent leaves the defaults. */
  lemma ZeroIsDefault(f: Field, v: Value)
    requires Typed(f.t, v) && f.t.TMessage? && ZeroValue(f.t, v)
    ensures NormalValue(f.t, v) == DefaultOf(f)
  {
    hide TypedSlot;
    var fields := f.t.fields;
    forall i | 0 <= i < |fields|
      ensures Normal(fields, v.slots)[i] == Defaults(fields)[i]
    {
      assert ZeroSlot(fields[i], v.slots[i]) && TypedSlot(fields[i], v.slots[i]);
      ZeroSlotIsDefault(fields[i], v.slots[i]);
    }
  }

  lemma ZeroSlotIsDefault(f: Field, slot: Slot)
    requires TypedSlot(f, slot) && ZeroSlot(f, slot)
    ensures NormalSlot(f, slot) == DefaultSlot(f)
  {
    hide Typed, ZeroValue, NormalValue, DefaultOf;
  }

  /** The other members of the oneof are absent already. */
  lemma ClearedMixed(fields: seq<Field>, slots: seq<Slot>, i: nat)
    requires i < |fields| && TypedSlots(fields, slots)
    requires fields[i].rule.OneOf? && slots[i].Maybe? && slots[i].has
    ensures Cleared(fields, Mixed(fields, slots, i), i) == Mixed(fields, slots, i)
  {
    hide NormalValue, DefaultOf, Typed, ZeroValue, Mixed;
    var before := Mixed(fields, slots, i);
    forall j | 0 <= j < |fields|
      ensures Cleared(fields, before, i)[j] == before[j]
    {
      if j < i && fields[j].rule == fields[i].rule {
        assert TypedSlot(fields[j], slots[j]);
      }
    }
  }

  /** All the values of some records. */
  function AllReceived(f: Field, items: seq<Item>, n: nat): seq<Value>
    requires n <= |items| && forall k | 0 <= k < |items| :: TypedItem(f, items[k])
  {
    if n == 0 then [] else AllReceived(f, items, n - 1) + Received(f, items[n - 1])
  }

  lemma {:induction false} PutRepeated(fields: seq<Field>, dest: seq<Slot>, i: nat, items: seq<Item>, n: nat)
    requires i < |fields| && fields[i].rule.Repeated? && SlotsFit(fields, dest) && n <= |items|
    requires forall k | 0 <= k < |items| :: RecordOk(fields, (i, items[k]))
    ensures forall k | 0 <= k < |items| :: TypedItem(fields[i], items[k])
    ensures PutAll(fields, dest, Tagged(i, items[..n])) == dest[i := Many(dest[i].items + AllReceived(fields[i], items, n))]
  {
    hide TypedItem, Received;
    if n == 0 {
      assert dest[i].items + [] == dest[i].items;
      assert dest == dest[i := dest[i]];
    } else {
      PutRepeated(fields, dest, i, items, n - 1);
      var last: seq<Record> := [(i, items[n - 1])];
      assert Tagged(i, items[..n]) == Tagged(i, items[..n - 1]) + last;
      PutAllConcat(fields, dest, Tagged(i, items[..n - 1]), last);
      PutLast(fields, dest, i, AllReceived(fields[i], items, n - 1), items[n - 1]);
    }
  }

  lemma {:induction false} PutLast(fields: seq<Field>, dest: seq<Slot>, i: nat, have: seq<Value>, item: Item)
    requires i < |fields| && fields[i].rule.Repeated? && SlotsFit(fields, dest) && RecordOk(fields, (i, item))
    ensures TypedItem(fields[i], item)
    ensures PutAll(fields, dest[i := Many(dest[i].items + have)], [(i, item)])
      == dest[i := Many(dest[i].items + (have + Received(fields[i], item)))]
  {
    hide TypedItem, Received;
    var last: seq<Record>, middle := [(i, item)], dest[i := Many(dest[i].items + have)];
    assert last[1..] == [];
    assert PutAll(fields, middle, last) == Put(fields, middle, last[0]);
    assert dest[i].items + have + Received(fields[i], item) == dest[i].items + (have + Received(fields[i], item));
  }

  lemma {:induction false} RepeatedValues(f: Field, slot: Slot, n: nat)
    requires f.rule.Repeated? && TypedSlot(f, slot) && n <= |Items(f, slot)|
    ensures !Packable(f.t) ==> AllReceived(f, Items(f, slot), n) == NormalSlot(f, slot).items[..n]
    ensures n == |Items(f, slot)| ==> Many([] + AllReceived(f, Items(f, slot), n)) == NormalSlot(f, slot)
  {
    hide NormalValue, Typed;
    var items := Items(f, slot);
    if n > 0 {
      RepeatedValues(f, slot, n - 1);
      if Packable(f.t) {
        assert AllReceived(f, items, 1) == [] + Received(f, items[0]);
      }
    }
  }

  // Which records are still to come.

  /** A field that holds one value gets at most one more record, and until then it is at its default. */
  ghost predicate Fresh(fields: seq<Field>, dest: seq<Slot>, rs: seq<Record>)
    requires |dest| == |fields|
  {
    && (forall a | 0 <= a < |rs| :: rs[a].0 < |fields|)
    && forall a | 0 <= a < |rs| && !fields[rs[a].0].rule.Repeated? ::
         dest[rs[a].0] == DefaultSlot(fields[rs[a].0]) && forall b | a < b < |rs| :: rs[b].0 != rs[a].0
  }

  lemma {:induction false} StartsFresh(fields: seq<Field>, slots: seq<Slot>, anyway: set<nat>, n: nat)
    requires n <= |fields| && TypedSlots(fields, slots)
    ensures Fresh(fields, Defaults(fields), Records(fields, slots, anyway, n))
  {
    hide Sent, Items, RecordOk, DefaultSlot, TypedSlot;
    if n > 0 {
      StartsFresh(fields, slots, anyway, n - 1);
      SentOk(fields, slots, n - 1, n - 1 in anyway);
    }
  }

  lemma StaysFresh(fields: seq<Field>, dest: seq<Slot>, rs: seq<Record>)
    requires SlotsFit(fields, dest) && (forall i | 0 <= i < |rs| :: RecordOk(fields, rs[i])) && rs != [] && Fresh(fields, dest, rs)
    ensures Fresh(fields, Put(fields, dest, rs[0]), rs[1..])
  {
    hide Received, DefaultSlot, TypedItem;
    var dest', rest := Put(fields, dest, rs[0]), rs[1..];
    forall a | 0 <= a < |rest| && !fields[rest[a].0].rule.Repeated?
      ensures
        && dest'[rest[a].0] == DefaultSlot(fields[rest[a].0])
        && forall b | a < b < |rest| :: rest[b].0 != rest[a].0
    {
      assert rest[a] == rs[a + 1];
      assert fields[rs[0].0].rule.Repeated? || rs[a + 1].0 != rs[0].0;
      assert forall b | a < b < |rest| :: rest[b] == rs[b + 1];
    }
  }

  /** Arrays only grow. */
  lemma {:induction false} ArraysGrow(fields: seq<Field>, dest: seq<Slot>, rs: seq<Record>, i: nat)
    requires SlotsFit(fields, dest) && (forall k | 0 <= k < |rs| :: RecordOk(fields, rs[k]))
    requires i < |fields| && fields[i].rule.Repeated?
    ensures
      && dest[i].Many?
      && PutAll(fields, dest, rs)[i].Many?
      && |dest[i].items| <= |PutAll(fields, dest, rs)[i].items|
    decreases rs
  {
    hide Received, RecordOk, DefaultSlot;
    assert RuleFits(fields[i], dest[i]);
    if rs != [] {
      ArraysGrow(fields, Put(fields, dest, rs[0]), rs[1..], i);
      OneGrows(fields, dest, rs[0], i);
    }
  }

  lemma OneGrows(fields: seq<Field>, dest: seq<Slot>, r: Record, i: nat)
    requires SlotsFit(fields, dest) && RecordOk(fields, r) && i < |fields| && fields[i].rule.Repeated?
    ensures
      && dest[i].Many?
      && Put(fields, dest, r)[i].Many?
      && |dest[i].items| <= |Put(fields, dest, r)[i].items|
  {
    hide Received, DefaultSlot, TypedItem;
    assert RuleFits(fields[i], dest[i]) && RuleFits(fields[i], Put(fields, dest, r)[i]);
  }

  lemma RecordNotEmpty(fields: seq<Field>, r: Record)
    requires RecordOk(fields, r)
    ensures RecordBytes(fields, r) != []
  {
    hide Varint, ValueBytes, ValuesBytes;
    VarintSize(fields[r.0].tag * 8 + 2);
    VarintSize(fields[r.0].tag * 8 + WireType(fields[r.0].t));
  }

  lemma VarintSize(v: nat)
    ensures |Varint(v)| >= 1
  {
  }

  /** Every required field has its record. */
  lemma {:induction false} RequiredAreSent(fields: seq<Field>, slots: seq<Slot>, anyway: set<nat>, n: nat, i: nat)
    requires n <= |fields| && TypedSlots(fields, slots) && i < n && fields[i].rule.Required?
    ensures exists k :: 0 <= k < |Records(fields, slots, anyway, n)| && Records(fields, slots, anyway, n)[k].0 == i
  {
    hide RecordOk, TypedSlot, Records;
    var before := Records(fields, slots, anyway, n - 1);
    LastField(fields, slots, anyway, n);
    if i < n - 1 {
      RequiredAreSent(fields, slots, anyway, n - 1, i);
      var k :| 0 <= k < |before| && before[k].0 == i;
      assert Records(fields, slots, anyway, n)[k] == before[k];
    } else {
      assert Records(fields, slots, anyway, n)[|before|].0 == i;
    }
  }

  lemma LastField(fields: seq<Field>, slots: seq<Slot>, anyway: set<nat>, n: nat)
    requires 0 < n <= |fields| && TypedSlots(fields, slots)
    ensures TypedSlot(fields[n - 1], slots[n - 1])
    ensures Records(fields, slots, anyway, n) == Records(fields, slots, anyway, n - 1) + Tagged(n - 1, Sent(fields[n - 1], slots[n - 1], n - 1 in anyway))
    ensures fields[n - 1].rule.Required? ==> |Sent(fields[n - 1], slots[n - 1], n - 1 in anyway)| == 1
  {
    hide RecordOk, Exclusive, Typed;
  }
}
