/** The memtable: encoded entries in internal key order, and the key that looks them up (db/memtable.cc, db/dbformat.cc). */
module MemTables {
  import opened Keys
  import opened Entries
  import opened Coding
  import opened Separators
  import Database

  /** One write, before it is encoded. */
  datatype Item = Item(user: Bytes, s: nat, kind: Kind, value: Bytes)

  predicate Fits(it: Item) {
    |it.user| + 8 < WORD32 && |it.value| < WORD32 && it.s <= MAX_SEQUENCE
  }

  function KeyBytes(it: Item): Bytes {
    InternalKey(it.user, Pack(it.s, it.kind))
  }

  function Encoded(it: Item): Bytes {
    Prefixed(KeyBytes(it)) + Prefixed(it.value)
  }

  /** The write as the rest of the database sees it. */
  function EntryOf(it: Item): Entry {
    Entry(IKey(Rank(it.user), it.s, it.kind), it.value)
  }

  function RunOf(items: seq<Item>): (r: seq<Entry>)
    ensures |r| == |items| && forall i | 0 <= i < |items| :: r[i] == EntryOf(items[i])
  {
    seq(|items|, i requires 0 <= i < |items| => EntryOf(items[i]))
  }

  /** The internal key in front of an entry or of a lookup key. */
  function KeyOf(b: Bytes): Bytes {
    match GetPrefixed(b)
    case Some((key, _)) => key
    case None => []
  }

  /** MemTable::KeyComparator. */
  predicate EntryLess(a: Bytes, b: Bytes) {
    InternalLess(KeyOf(a), KeyOf(b))
  }

  /** Where the skip list puts a key: before the first entry that is not smaller. */
  function Position(table: seq<Bytes>, key: Bytes): (n: nat)
    ensures n <= |table|
    ensures forall i | 0 <= i < n :: EntryLess(table[i], key)
    ensures n < |table| ==> !EntryLess(table[n], key)
  {
    if table == [] || !EntryLess(table[0], key) then 0 else 1 + Position(table[1..], key)
  }

  lemma EncodedParts(it: Item)
    requires Fits(it)
    ensures GetVarint32(Encoded(it)) == Some((|it.user| + 8, KeyBytes(it) + Prefixed(it.value)))
    ensures KeyOf(Encoded(it)) == KeyBytes(it) && |KeyBytes(it)| == |it.user| + 8
    ensures GetPrefixed(Prefixed(it.value)) == Some((it.value, []))
  {
    var key := KeyBytes(it);
    FixedSize(Pack(it.s, it.kind), 8);
    PrefixedRoundTrip(key, Prefixed(it.value));
    Varint32RoundTrip(|key|, key + Prefixed(it.value));
    assert Encoded(it) == Varint(|key|) + (key + Prefixed(it.value));
    PrefixedRoundTrip(it.value, []);
    assert Prefixed(it.value) + [] == Prefixed(it.value);
  }

  /** Entries and lookup keys compare as the keys they encode. */
  lemma EncodedOrder(it: Item, key: Bytes, user: Bytes, s: nat, kind: Kind)
    requires Fits(it) && s <= MAX_SEQUENCE && KeyOf(key) == InternalKey(user, Pack(s, kind))
    ensures EntryLess(Encoded(it), key) <==> Less(EntryOf(it).ik, IKey(Rank(user), s, kind))
  {
    EncodedParts(it);
    InternalOrder(it.user, it.s, it.kind, user, s, kind);
  }

  /** The list holds the encodings of the writes. */
  ghost predicate Holds(table: seq<Bytes>, items: seq<Item>) {
    |table| == |items| && forall i | 0 <= i < |items| :: Fits(items[i]) && table[i] == Encoded(items[i])
  }

  lemma HoldsMore(table: seq<Bytes>, items: seq<Item>, p: nat, it: Item)
    requires Holds(table, items) && p <= |items| && Fits(it)
    ensures |table| == |items|
    ensures Holds(table[..p] + [Encoded(it)] + table[p..], items[..p] + [it] + items[p..])
    ensures RunOf(items[..p] + [it] + items[p..]) == RunOf(items)[..p] + [EntryOf(it)] + RunOf(items)[p..]
  {
    hide Fits, Encoded, EntryOf;
  }

  lemma InsertedAt(items: seq<Item>, p: nat, it: Item)
    requires p <= |items|
    ensures var items' := items[..p] + [it] + items[p..];
      && multiset(items') == multiset(items) + multiset{it}
      && Elements(RunOf(items')) == Elements(RunOf(items)) + {Entry(IKey(Rank(it.user), it.s, it.kind), it.value)}
  {
    var items' := items[..p] + [it] + items[p..];
    assert items == items[..p] + items[p..];
    var run, run' := RunOf(items), RunOf(items');
    assert run' == run[..p] + [EntryOf(it)] + run[p..];
    forall e
      ensures e in run' <==> e in run || e == EntryOf(it)
    {
      assert e in run <==> e in run[..p] || e in run[p..];
    }
  }

  lemma PositionIs(items: seq<Item>, table: seq<Bytes>, key: Bytes, user: Bytes, s: nat, kind: Kind)
    requires Holds(table, items)
    requires s <= MAX_SEQUENCE && KeyOf(key) == InternalKey(user, Pack(s, kind))
    ensures Position(table, key) == LowerBound(RunOf(items), IKey(Rank(user), s, kind))
  {
    hide EntryLess, Encoded, EntryOf, Rank, Less, KeyOf;
    forall i | 0 <= i < |items|
      ensures EntryLess(table[i], key) <==> Less(RunOf(items)[i].ik, IKey(Rank(user), s, kind))
    {
      EncodedOrder(items[i], key, user, s, kind);
    }
  }

  datatype Lookup = Missing | Deleted | Found(value: Bytes)

  /** What a reader at `s` is told about a key: nothing exactly when there is no entry it may see, and else what the
      newest of them is. */
  ghost predicate Tells(E: set<Entry>, u: UserKey, s: nat, r: Lookup) {
    && (r == Missing <==> forall e | e in E :: !Sees(e, u, s))
    && (r == Deleted ==> exists e :: IsNewest(E, u, s, e) && e.ik.kind == Deletion)
    && (r.Found? ==> exists e :: IsNewest(E, u, s, e) && e.ik.kind == Value && e.value == r.value)
  }

  /** With one entry to a sequence number the newest entry leaves no choice. */
  lemma TellsIff(E: set<Entry>, u: UserKey, s: nat, r: Lookup)
    requires UniqueSeq(E) && Tells(E, u, s, r)
    ensures r == Deleted <==> exists e :: IsNewest(E, u, s, e) && e.ik.kind == Deletion
    ensures forall v :: r == Found(v) <==> exists e :: IsNewest(E, u, s, e) && e.ik.kind == Value && e.value == v
  {
    forall e, f | IsNewest(E, u, s, e) && IsNewest(E, u, s, f)
      ensures e == f
    {
    }
  }

  predicate Visible(it: Item, user: Bytes, s: nat) {
    it.user == user && it.s <= s
  }

  /** The i-th write is the newest to the key that a reader at `s` may see. */
  ghost predicate NewestItem(items: seq<Item>, user: Bytes, s: nat, i: int) {
    && 0 <= i < |items| && Visible(items[i], user, s)
    && forall j | 0 <= j < |items| && Visible(items[j], user, s) :: items[j].s <= items[i].s
  }

  /** The same in terms of the writes themselves. */
  ghost predicate TellsOf(items: seq<Item>, user: Bytes, s: nat, r: Lookup) {
    && (r == Missing <==> forall i | 0 <= i < |items| :: !Visible(items[i], user, s))
    && (r == Deleted ==> exists i :: NewestItem(items, user, s, i) && items[i].kind == Deletion)
    && (r.Found? ==> exists i :: NewestItem(items, user, s, i) && items[i].kind == Value && items[i].value == r.value)
  }

  /** Where Get looks: at the first write from the lookup key on, if it is to the same key. */
  ghost predicate FirstTells(items: seq<Item>, user: Bytes, s: nat, r: Lookup) {
    var n := LowerBound(RunOf(items), Target(Rank(user), s));
    if n < |items| && items[n].user == user then
      if items[n].kind == Value then r == Found(items[n].value) else r == Deleted
    else r == Missing
  }

  lemma SameVisible(items: seq<Item>, user: Bytes, s: nat)
    ensures forall i | 0 <= i < |items| :: Sees(RunOf(items)[i], Rank(user), s) <==> Visible(items[i], user, s)
    ensures forall i | 0 <= i < |items| :: RunOf(items)[i].ik.user == Rank(user) <==> items[i].user == user
  {
    hide Rank;
    forall i | 0 <= i < |items|
      ensures Rank(items[i].user) == Rank(user) <==> items[i].user == user
    {
      RankEmbedsBytes(items[i].user, user);
    }
  }

  lemma FirstTellsEntries(items: seq<Item>, user: Bytes, s: nat, r: Lookup)
    requires Sorted(RunOf(items)) && FirstTells(items, user, s, r)
    ensures Tells(Elements(RunOf(items)), Rank(user), s, r)
  {
    hide LowerBound, Rank, Less;
    var run, u := RunOf(items), Rank(user);
    var n := LowerBound(run, Target(u, s));
    RunGetAnswers(run, u, s);
    SameVisible(items, user, s);
    if r != Missing {
      assert IsNewest(Elements(run), u, s, run[n]);
    }
  }

  lemma FirstTellsItems(items: seq<Item>, user: Bytes, s: nat, r: Lookup)
    requires Sorted(RunOf(items)) && FirstTells(items, user, s, r)
    ensures TellsOf(items, user, s, r)
  {
    hide LowerBound, Rank, Less, Sorted;
    var run, u := RunOf(items), Rank(user);
    var n := LowerBound(run, Target(u, s));
    RunGetAnswers(run, u, s);
    SameVisible(items, user, s);
    assert forall i | 0 <= i < |items| :: run[i] in Elements(run);
    if r != Missing {
      assert NewestItem(items, user, s, n);
    }
  }

  /** LookupKey: where the versions of a user key that a reader at `s` may see begin. */
  method LookupKey(user: Bytes, s: nat) returns (memkey: Bytes)
    requires |user| + 8 < WORD32 && s <= MAX_SEQUENCE
    ensures KeyOf(memkey) == InternalKey(user, Pack(s, Value))
  {
    hide Fixed, Varint, GetPrefixed;
    memkey := PutVarint32([], |user| + 8);
    memkey := memkey + user;
    memkey := memkey + Fixed(s * 256 + 1, 8);
    LookupKeyIs(user, s, memkey);
  }

  lemma LookupKeyIs(user: Bytes, s: nat, memkey: Bytes)
    requires |user| + 8 < WORD32 && memkey == [] + Varint(|user| + 8) + user + Fixed(Pack(s, Value), 8)
    ensures KeyOf(memkey) == InternalKey(user, Pack(s, Value))
  {
    hide Fixed, Varint, GetPrefixed;
    var key := InternalKey(user, Pack(s, Value));
    FixedSize(Pack(s, Value), 8);
    PrefixedRoundTrip(key, []);
    Regroup(Varint(|user| + 8), user, Fixed(Pack(s, Value), 8), [], []);
    assert Prefixed(key) + [] == memkey;
  }

  class MemTable {
    /** The skip list, as the sequence of its keys. */
    var table: seq<Bytes>
    ghost var items: seq<Item>

    ghost predicate Valid()
      reads this
    {
      Holds(table, items) && Sorted(RunOf(items))
    }

    constructor ()
      ensures Valid() && RunOf(items) == []
    {
      table, items := [], [];
    }

    /** The write goes where the run of entries has its place for it. */
    method Add(s: nat, kind: Kind, key: Bytes, value: Bytes)
      requires Valid() && Fits(Item(key, s, kind, value))
      requires forall i | 0 <= i < |items| :: RunOf(items)[i].ik != IKey(Rank(key), s, kind)
      modifies this
      ensures Valid()
      ensures multiset(items) == multiset(old(items)) + multiset{Item(key, s, kind, value)}
      ensures Elements(RunOf(items)) == old(Elements(RunOf(items))) + {Entry(IKey(Rank(key), s, kind), value)}
      ensures RunOf(items) == Database.InsertRun(old(RunOf(items)), EntryOf(Item(key, s, kind, value)))
    {
      hide Fixed, Varint, InternalKey, Encoded, Rank, KeyOf, Holds, Sorted, EntryLess;
      ghost var it := Item(key, s, kind, value);
      var buf := PutVarint32([], |key| + 8);
      buf := buf + key;
      buf := buf + Fixed(s * 256 + if kind == Value then 1 else 0, 8);
      buf := PutVarint32(buf, |value|);
      buf := buf + value;
      BufferIsEncoded(it, buf);
      var p := Position(table, buf);
      EncodedParts(it);
      PositionIs(items, table, buf, key, s, kind);
      Database.InsertRunSorted(RunOf(items), EntryOf(it));
      HoldsMore(table, items, p, it);
      InsertedAt(items, p, it);
      table := table[..p] + [buf] + table[p..];
      items := items[..p] + [it] + items[p..];
    }

    /** The newest version of the user key at or below `s`: its value, its deletion, or nothing. */
    method Get(user: Bytes, s: nat) returns (r: Lookup)
      requires Valid() && |user| + 8 < WORD32 && s <= MAX_SEQUENCE
      ensures Tells(Elements(RunOf(items)), Rank(user), s, r) && TellsOf(items, user, s, r)
    {
      hide Tells, TellsOf, Elements, GetPrefixed, Prefixed, Encoded, Rank, ReadFixed, InternalKey, KeyOf, Sorted;
      var memkey := LookupKey(user, s);
      PositionIs(items, table, memkey, user, s, Value);
      var n := Position(table, memkey);
      r := Missing;
      if n < |table| {
        EncodedParts(items[n]);
        EntryShows(items[n], user);
        var (keyLength, keyPtr) := GetVarint32(table[n]).value;
        if keyPtr[..keyLength - 8] == user {
          var tag := ReadFixed(keyPtr[keyLength - 8..], 8);
          if tag % 256 == 1 {
            r := Found(GetPrefixed(keyPtr[keyLength..]).value.0);
          } else if tag % 256 == 0 {
            r := Deleted;
          }
        }
      }
      FirstTellsEntries(items, user, s, r);
      FirstTellsItems(items, user, s, r);
    }
  }

  lemma BufferIsEncoded(it: Item, buf: Bytes)
    requires buf == [] + Varint(|it.user| + 8) + it.user + Fixed(Pack(it.s, it.kind), 8) + Varint(|it.value|) + it.value
    ensures buf == Encoded(it)
  {
    hide Fixed, Varint;
    FixedSize(Pack(it.s, it.kind), 8);
    Regroup(Varint(|it.user| + 8), it.user, Fixed(Pack(it.s, it.kind), 8), Varint(|it.value|), it.value);
  }

  lemma Regroup(a: Bytes, b: Bytes, c: Bytes, d: Bytes, e: Bytes)
    ensures [] + a + b + c + d + e == (a + (b + c)) + (d + e)
  {
  }

  /** What Get reads in an encoded entry. */
  lemma EntryShows(it: Item, user: Bytes)
    requires Fits(it)
    ensures var s := KeyBytes(it) + Prefixed(it.value);
      var n := |it.user| + 8;
      && n <= |s| && s[..n - 8] == it.user && s[n..] == Prefixed(it.value)
      && ReadFixed(s[n - 8..], 8) == Pack(it.s, it.kind)
    ensures Pack(it.s, it.kind) % 256 == if it.kind == Value then 1 else 0
    ensures it.user == user <==> EntryOf(it).ik.user == Rank(user)
  {
    hide ReadFixed, Fixed, Rank;
    var num := Pack(it.s, it.kind);
    FixedSize(num, 8);
    Fixed64RoundTrip(num, Prefixed(it.value));
    var s := KeyBytes(it) + Prefixed(it.value);
    assert s[|it.user|..] == Fixed(num, 8) + Prefixed(it.value);
    RankEmbedsBytes(it.user, user);
  }
}
