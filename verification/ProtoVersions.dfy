/** Two versions of a message: what a receiver makes of the fields it shares with a sender that knows more. */
module ProtoVersions {
  import opened Keys
  import opened Protos
  import opened ProtoRecords

  /** Where a descriptor has a tag; its length if it does not. */
  function Place(fields: seq<Field>, tag: nat): (p: nat)
    ensures p <= |fields| && forall q | 0 <= q < p :: fields[q].tag != tag
    ensures p < |fields| ==> fields[p].tag == tag
  {
    if fields == [] || fields[0].tag == tag then 0 else 1 + Place(fields[1..], tag)
  }

  /** The sender's descriptor has every field of the receiver's, in the same order, and possibly more; so have those
      of the structs in it. */
  predicate Extends(theirs: seq<Field>, fields: seq<Field>)
    decreases fields
  {
    && (forall i | 0 <= i < |fields| ::
          && Place(theirs, fields[i].tag) < |theirs|
          && SameField(theirs[Place(theirs, fields[i].tag)], fields[i]))
    && forall i, j | 0 <= i < j < |fields| :: Place(theirs, fields[i].tag) < Place(theirs, fields[j].tag)
  }

  predicate SameField(g: Field, f: Field)
    decreases f
  {
    g.tag == f.tag && g.rule == f.rule && SameType(g.t, f.t)
  }

  predicate SameType(sent: Type, t: Type)
    decreases t
  {
    match t
    case TMessage(fields) => sent.TMessage? && Extends(sent.fields, fields)
    case _ => sent == t
  }

  // What the two have in common.

  function CommonValue(sent: Type, t: Type, v: Value): (r: Value)
    requires SameType(sent, t) && Typed(sent, v)
    ensures Typed(t, r)
    decreases t
  {
    match t
    case TMessage(fields) => VMessage(Common(sent.fields, fields, v.slots))
    case _ => v
  }

  function Common(theirs: seq<Field>, fields: seq<Field>, slots: seq<Slot>): (r: seq<Slot>)
    requires Extends(theirs, fields) && TypedSlots(theirs, slots)
    ensures TypedSlots(fields, r)
    ensures forall i | 0 <= i < |fields| ::
      var p := Place(theirs, fields[i].tag);
      TypedSlot(theirs[p], slots[p]) && r[i] == CommonSlot(theirs[p], fields[i], slots[p])
    decreases fields
  {
    var r := seq(|fields|, i requires 0 <= i < |fields| =>
      var p := Place(theirs, fields[i].tag);
      assert SameField(theirs[p], fields[i]) && TypedSlot(theirs[p], slots[p]);
      CommonSlot(theirs[p], fields[i], slots[p]));
    assert forall i | 0 <= i < |fields| :: TypedSlot(fields[i], r[i]);
    CommonExclusive(theirs, fields, slots, r);
    r
  }

  function CommonSlot(g: Field, f: Field, slot: Slot): (r: Slot)
    requires SameField(g, f) && TypedSlot(g, slot)
    ensures TypedSlot(f, r)
    decreases f
  {
    match slot
    case One(v) => One(CommonValue(g.t, f.t, v))
    case Maybe(has, v) => Maybe(has, CommonValue(g.t, f.t, v))
    case Many(vs) => Many(seq(|vs|, i requires 0 <= i < |vs| => CommonValue(g.t, f.t, vs[i])))
  }

  /** The choice a union made is the receiver's only if it knows the member. */
  lemma CommonExclusive(theirs: seq<Field>, fields: seq<Field>, slots: seq<Slot>, r: seq<Slot>)
    requires Extends(theirs, fields) && TypedSlots(theirs, slots) && |r| == |fields|
    requires forall i | 0 <= i < |fields| ::
      var p := Place(theirs, fields[i].tag);
      r[i].Maybe? ==> slots[p].Maybe? && r[i].has == slots[p].has
    ensures Exclusive(fields, r)
  {
    hide TypedSlot;
    forall i, j | 0 <= i < j < |fields| && fields[i].rule.OneOf? && fields[i].rule == fields[j].rule
      ensures !(r[i].Maybe? && r[j].Maybe? && r[i].has && r[j].has)
    {
      var p, q := Place(theirs, fields[i].tag), Place(theirs, fields[j].tag);
      assert SameField(theirs[p], fields[i]) && SameField(theirs[q], fields[j]);
    }
  }

  function CommonItem(g: Field, f: Field, item: Item): (r: Item)
    requires SameField(g, f) && TypedItem(g, item)
    ensures TypedItem(f, r)
  {
    match item
    case Whole(v) => Whole(CommonValue(g.t, f.t, v))
    case Packed(vs) =>
      SameKind(g.t, f.t);
      Packed(vs)
  }

  // The records of the sender that mean something to the receiver.

  /** The fields of the sender that are the receiver's have their own places there. */
  lemma PlaceOf(theirs: seq<Field>, fields: seq<Field>, q: nat)
    requires WellFormed(theirs) && Extends(theirs, fields) && q < |theirs|
    ensures var i := Place(fields, theirs[q].tag);
      i < |fields| ==> Place(theirs, fields[i].tag) == q && SameField(theirs[q], fields[i])
  {
    hide FieldOk, SameType;
    var i := Place(fields, theirs[q].tag);
    if i < |fields| {
      assert theirs[Place(theirs, fields[i].tag)].tag == theirs[q].tag;
    }
  }

  /** The receiver's view of a record: none if it does not know the tag. */
  function KnownRecord(theirs: seq<Field>, fields: seq<Field>, r: Record): (rs: seq<Record>)
    requires WellFormed(theirs) && Extends(theirs, fields) && RecordOk(theirs, r)
    ensures |rs| <= 1 && forall k | 0 <= k < |rs| :: RecordOk(fields, rs[k]) && rs[k].0 == Place(fields, theirs[r.0].tag)
  {
    var i := Place(fields, theirs[r.0].tag);
    PlaceOf(theirs, fields, r.0);
    if i < |fields| then [(i, CommonItem(theirs[r.0], fields[i], r.1))] else []
  }

  function Known(theirs: seq<Field>, fields: seq<Field>, rs: seq<Record>): (known: seq<Record>)
    requires WellFormed(theirs) && Extends(theirs, fields) && forall k | 0 <= k < |rs| :: RecordOk(theirs, rs[k])
    ensures forall k | 0 <= k < |known| :: RecordOk(fields, known[k])
    decreases rs
  {
    if rs == [] then [] else KnownRecord(theirs, fields, rs[0]) + Known(theirs, fields, rs[1..])
  }

  lemma {:induction false} KnownConcat(theirs: seq<Field>, fields: seq<Field>, rs: seq<Record>, more: seq<Record>)
    requires WellFormed(theirs) && Extends(theirs, fields)
    requires (forall k | 0 <= k < |rs| :: RecordOk(theirs, rs[k])) && forall k | 0 <= k < |more| :: RecordOk(theirs, more[k])
    ensures Known(theirs, fields, rs + more) == Known(theirs, fields, rs) + Known(theirs, fields, more)
    decreases rs
  {
    hide KnownRecord, RecordOk, WellFormed, Extends;
    if rs == [] {
      assert rs + more == more;
    } else {
      assert (rs + more)[1..] == rs[1..] + more;
      KnownConcat(theirs, fields, rs[1..], more);
    }
  }

  /** The records of one field of the sender. */
  lemma {:induction false} KnownTagged(theirs: seq<Field>, fields: seq<Field>, q: nat, items: seq<Item>)
    requires WellFormed(theirs) && Extends(theirs, fields) && q < |theirs|
    requires forall k | 0 <= k < |items| :: RecordOk(theirs, (q, items[k]))
    ensures var i, known := Place(fields, theirs[q].tag), Known(theirs, fields, Tagged(q, items));
      if i < |fields| then
        SameField(theirs[q], fields[i]) && |known| == |items|
        && forall k | 0 <= k < |items| :: TypedItem(theirs[q], items[k]) && known[k] == (i, CommonItem(theirs[q], fields[i], items[k]))
      else known == []
  {
    hide TypedItem, WellFormed, Extends, CommonItem, SameField, KnownRecord;
    PlaceOf(theirs, fields, q);
    if items == [] {
      KnownNothing(theirs, fields);
    } else {
      assert Tagged(q, items)[1..] == Tagged(q, items[1..]);
      KnownTagged(theirs, fields, q, items[1..]);
      KnownFirst(theirs, fields, q, items[0]);
      assert forall k | 1 <= k < |items| :: items[k] == items[1..][k - 1];
    }
  }

  lemma KnownFirst(theirs: seq<Field>, fields: seq<Field>, q: nat, item: Item)
    requires WellFormed(theirs) && Extends(theirs, fields) && q < |theirs| && RecordOk(theirs, (q, item))
    ensures var i := Place(fields, theirs[q].tag);
      if i < |fields| then
        SameField(theirs[q], fields[i]) && TypedItem(theirs[q], item)
        && KnownRecord(theirs, fields, (q, item)) == [(i, CommonItem(theirs[q], fields[i], item))]
      else KnownRecord(theirs, fields, (q, item)) == []
  {
    hide TypedItem, WellFormed, Extends, CommonItem, SameField;
    PlaceOf(theirs, fields, q);
  }

  // What is zero to the sender is zero to the receiver; the converse fails where the sender sees more.

  lemma {:induction false} ZeroCommon(sent: Type, t: Type, v: Value)
    requires SameType(sent, t) && Typed(sent, v) && ZeroValue(sent, v)
    ensures ZeroValue(t, CommonValue(sent, t, v))
    decreases t
  {
    if t.TMessage? {
      var theirs, fields := sent.fields, t.fields;
      forall i | 0 <= i < |fields|
        ensures ZeroSlot(fields[i], Common(theirs, fields, v.slots)[i])
      {
        var p := Place(theirs, fields[i].tag);
        assert SameField(theirs[p], fields[i]) && TypedSlot(theirs[p], v.slots[p]) && ZeroSlot(theirs[p], v.slots[p]);
        ZeroCommonSlot(theirs[p], fields[i], v.slots[p]);
      }
    }
  }

  lemma {:induction false} ZeroCommonSlot(g: Field, f: Field, slot: Slot)
    requires SameField(g, f) && TypedSlot(g, slot) && ZeroSlot(g, slot)
    ensures ZeroSlot(f, CommonSlot(g, f, slot))
    decreases f
  {
    hide CommonValue, Typed;
    if f.rule.Proto3? {
      ZeroCommon(g.t, f.t, slot.v);
    }
  }

  /** The structs that the sender sends because of what it sees in them. */
  function Anyway(theirs: seq<Field>, fields: seq<Field>, slots: seq<Slot>): (r: set<nat>)
    requires Extends(theirs, fields) && TypedSlots(theirs, slots)
  {
    set i: nat | i < |fields| && SeenMore(theirs, fields, slots, i)
  }

  predicate SeenMore(theirs: seq<Field>, fields: seq<Field>, slots: seq<Slot>, i: nat)
    requires Extends(theirs, fields) && TypedSlots(theirs, slots) && i < |fields|
  {
    var p := Place(theirs, fields[i].tag);
    slots[p].One? && !ZeroValue(theirs[p].t, slots[p].v)
  }

  /** What the receiver sees of the items of a field is what the common value would have sent. */
  lemma CommonItems(g: Field, f: Field, slot: Slot, anyway: bool)
    requires SameField(g, f) && TypedSlot(g, slot) && anyway == (slot.One? && !ZeroValue(g.t, slot.v))
    ensures var items, sent := Items(g, slot), Sent(f, CommonSlot(g, f, slot), anyway);
      |sent| == |items| && forall k | 0 <= k < |items| :: sent[k] == CommonItem(g, f, items[k])
  {
    hide CommonValue, Typed, ZeroValue, SameType;
    SameKind(g.t, f.t);
    if f.rule.Proto3? && ZeroValue(g.t, slot.v) {
      ZeroCommon(g.t, f.t, slot.v);
    } else if !f.t.TMessage? && !slot.Many? {
      SameValue(g.t, slot.v);
    } else if !f.t.TMessage? {
      forall k | 0 <= k < |slot.items|
        ensures CommonValue(g.t, f.t, slot.items[k]) == slot.items[k]
      {
        SameValue(g.t, slot.items[k]);
      }
      assert CommonSlot(g, f, slot).items == slot.items;
    }
  }

  lemma SameKind(sent: Type, t: Type)
    requires SameType(sent, t)
    ensures sent.TMessage? <==> t.TMessage?
    ensures !t.TMessage? ==> sent == t
    ensures Packable(sent) <==> Packable(t)
  {
  }

  lemma SameValue(t: Type, v: Value)
    requires !t.TMessage? && Typed(t, v)
    ensures SameType(t, t) && CommonValue(t, t, v) == v
  {
  }

  /** Up to any of the sender's fields, the records that the receiver knows are those of the common message. */
  lemma {:induction false} KnownRecords(theirs: seq<Field>, fields: seq<Field>, slots: seq<Slot>, q: nat, i: nat)
    requires WellFormed(theirs) && Extends(theirs, fields) && TypedSlots(theirs, slots)
    requires q <= |theirs| && i <= |fields|
    requires forall k | 0 <= k < |fields| :: Place(theirs, fields[k].tag) < q <==> k < i
    ensures Known(theirs, fields, Records(theirs, slots, {}, q))
      == Records(fields, Common(theirs, fields, slots), Anyway(theirs, fields, slots), i)
  {
    hide WellFormed, Extends, TypedSlots, RecordOk, Common, Anyway, Known, Records, Sent, Items, Place, SameField, Tagged;
    if q == 0 {
      if fields != [] {
        assert Place(theirs, fields[0].tag) >= q;
      }
      NoRecords(theirs, slots, {});
      NoRecords(fields, Common(theirs, fields, slots), Anyway(theirs, fields, slots));
      KnownNothing(theirs, fields);
    } else {
      var j := Place(fields, theirs[q - 1].tag);
      PlaceOf(theirs, fields, q - 1);
      KnownMore(theirs, fields, slots, q);
      if j < |fields| {
        Boundary(theirs, fields, q, i, j);
        KnownRecords(theirs, fields, slots, q - 1, j);
        LastField(fields, Common(theirs, fields, slots), Anyway(theirs, fields, slots), i);
      } else {
        assert forall k | 0 <= k < |fields| :: Place(theirs, fields[k].tag) != q - 1;
        KnownRecords(theirs, fields, slots, q - 1, i);
      }
    }
  }

  lemma KnownNothing(theirs: seq<Field>, fields: seq<Field>)
    requires WellFormed(theirs) && Extends(theirs, fields)
    ensures Known(theirs, fields, []) == []
  {
  }

  lemma Boundary(theirs: seq<Field>, fields: seq<Field>, q: nat, i: nat, j: nat)
    requires Extends(theirs, fields) && 0 < q && i <= |fields| && j < |fields| && Place(theirs, fields[j].tag) == q - 1
    requires forall k | 0 <= k < |fields| :: Place(theirs, fields[k].tag) < q <==> k < i
    ensures i == j + 1 && forall k | 0 <= k < |fields| :: Place(theirs, fields[k].tag) < q - 1 <==> k < j
  {
    hide SameField, Place;
    assert j < i;
    assert Place(theirs, fields[i - 1].tag) < q;
    assert forall k | j < k < |fields| :: Place(theirs, fields[j].tag) < Place(theirs, fields[k].tag);
    forall k | 0 <= k < |fields|
      ensures Place(theirs, fields[k].tag) < q - 1 <==> k < j
    {
      assert k < j ==> Place(theirs, fields[k].tag) < Place(theirs, fields[j].tag);
      assert k > j ==> Place(theirs, fields[j].tag) < Place(theirs, fields[k].tag);
    }
  }

  /** One more field of the sender. */
  lemma KnownMore(theirs: seq<Field>, fields: seq<Field>, slots: seq<Slot>, q: nat)
    requires WellFormed(theirs) && Extends(theirs, fields) && TypedSlots(theirs, slots) && 0 < q <= |theirs|
    ensures var j, common := Place(fields, theirs[q - 1].tag), Common(theirs, fields, slots);
      Known(theirs, fields, Records(theirs, slots, {}, q)) == Known(theirs, fields, Records(theirs, slots, {}, q - 1))
        + if j < |fields| then Tagged(j, Sent(fields[j], common[j], j in Anyway(theirs, fields, slots))) else []
  {
    hide WellFormed, Extends, TypedSlots, RecordOk, Records, Sent, Items, Known, Common, Tagged, Anyway;
    LastSlot(theirs, slots, q);
    SentOk(theirs, slots, q - 1, false);
    LastField(theirs, slots, {}, q);
    var items := Items(theirs[q - 1], slots[q - 1]);
    KnownConcat(theirs, fields, Records(theirs, slots, {}, q - 1), Tagged(q - 1, items));
    KnownField(theirs, fields, slots, q - 1);
  }

  lemma KnownField(theirs: seq<Field>, fields: seq<Field>, slots: seq<Slot>, q: nat)
    requires WellFormed(theirs) && Extends(theirs, fields) && TypedSlots(theirs, slots) && q < |theirs| == |slots|
    requires TypedSlot(theirs[q], slots[q])
    requires forall k | 0 <= k < |Items(theirs[q], slots[q])| :: RecordOk(theirs, (q, Items(theirs[q], slots[q])[k]))
    ensures var j, common := Place(fields, theirs[q].tag), Common(theirs, fields, slots);
      Known(theirs, fields, Tagged(q, Items(theirs[q], slots[q])))
        == if j < |fields| then Tagged(j, Sent(fields[j], common[j], j in Anyway(theirs, fields, slots))) else []
  {
    hide WellFormed, Extends, TypedSlots, RecordOk, Sent, Items, Known, Common, Anyway, CommonItem, CommonSlot, SameField;
    KnownTagged(theirs, fields, q, Items(theirs[q], slots[q]));
    var j := Place(fields, theirs[q].tag);
    if j < |fields| {
      PlaceOf(theirs, fields, q);
      CommonIs(theirs, fields, slots, j);
      CommonItems(theirs[q], fields[j], slots[q], j in Anyway(theirs, fields, slots));
    }
  }

  lemma CommonIs(theirs: seq<Field>, fields: seq<Field>, slots: seq<Slot>, j: nat)
    requires Extends(theirs, fields) && TypedSlots(theirs, slots) && j < |fields|
    ensures var p, common := Place(theirs, fields[j].tag), Common(theirs, fields, slots);
      && p < |theirs| == |slots| && |common| == |fields| && TypedSlot(theirs[p], slots[p]) && SameField(theirs[p], fields[j])
      && TypedSlot(fields[j], common[j]) && common[j] == CommonSlot(theirs[p], fields[j], slots[p])
      && (j in Anyway(theirs, fields, slots) <==> slots[p].One? && !ZeroValue(theirs[p].t, slots[p].v))
  {
    hide CommonSlot, ZeroValue, Exclusive;
  }

  /** All of them. */
  lemma KnownAll(theirs: seq<Field>, fields: seq<Field>, slots: seq<Slot>)
    requires WellFormed(theirs) && Extends(theirs, fields) && TypedSlots(theirs, slots)
    ensures Known(theirs, fields, Records(theirs, slots, {}, |theirs|))
      == Records(fields, Common(theirs, fields, slots), Anyway(theirs, fields, slots), |fields|)
  {
    KnownRecords(theirs, fields, slots, |theirs|, |fields|);
  }

  // A descriptor extends itself, and has everything in common with itself.

  lemma {:induction false} SameAsItself(t: Type)
    requires TypeOk(t)
    ensures SameType(t, t)
    decreases t
  {
    if t.TMessage? {
      ExtendsItself(t.fields);
    }
  }

  lemma {:induction false} ExtendsItself(fields: seq<Field>)
    requires WellFormed(fields)
    ensures Extends(fields, fields) && forall i | 0 <= i < |fields| :: Place(fields, fields[i].tag) == i
    decreases fields
  {
    forall i | 0 <= i < |fields|
      ensures Place(fields, fields[i].tag) == i && SameField(fields[i], fields[i])
    {
      FieldSameAsItself(fields[i]);
    }
  }

  lemma {:induction false} FieldSameAsItself(f: Field)
    requires FieldOk(f)
    ensures SameField(f, f)
    decreases f
  {
    SameAsItself(f.t);
  }

  lemma {:induction false} CommonIsValue(t: Type, v: Value)
    requires TypeOk(t) && SameType(t, t) && Typed(t, v)
    ensures CommonValue(t, t, v) == v
    decreases t
  {
    if t.TMessage? {
      CommonIsAll(t.fields, v.slots);
    }
  }

  lemma {:induction false} CommonIsAll(fields: seq<Field>, slots: seq<Slot>)
    requires WellFormed(fields) && Extends(fields, fields) && TypedSlots(fields, slots)
    ensures Common(fields, fields, slots) == slots
    decreases fields
  {
    ExtendsItself(fields);
    forall i | 0 <= i < |fields|
      ensures Common(fields, fields, slots)[i] == slots[i]
    {
      assert FieldOk(fields[i]) && SameField(fields[i], fields[i]) && TypedSlot(fields[i], slots[i]);
      CommonIsSlot(fields[i], slots[i]);
    }
  }

  lemma {:induction false} CommonIsSlot(f: Field, slot: Slot)
    requires FieldOk(f) && SameField(f, f) && TypedSlot(f, slot)
    ensures CommonSlot(f, f, slot) == slot
    decreases f
  {
    hide Typed, CommonValue;
    if slot.Many? {
      forall i | 0 <= i < |slot.items|
        ensures CommonValue(f.t, f.t, slot.items[i]) == slot.items[i]
      {
        CommonIsValue(f.t, slot.items[i]);
      }
    } else {
      CommonIsValue(f.t, slot.v);
    }
  }
}
