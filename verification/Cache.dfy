/** The LRU cache: reference-counted handles, two lists and a chained hash table (util/cache.cc). */
module Caches {
  import opened Keys

  datatype Id = Id(key: Bytes, hash: nat)

  class Handle {
    const key: Bytes
    const hash: nat
    const charge: nat
    var refs: nat
    var inCache: bool
    /** References given out to clients and not yet released. */
    ghost var held: nat
    /** How often the deleter has run on the value. */
    ghost var deletions: nat

    constructor (key: Bytes, hash: nat, charge: nat)
      ensures this.key == key && this.hash == hash && this.charge == charge
      ensures refs == 1 && !inCache && held == 1 && deletions == 0
    {
      this.key, this.hash, this.charge := key, hash, charge;
      refs, inCache, held, deletions := 1, false, 1, 0;
    }

    function Name(): Id {
      Id(key, hash)
    }
  }

  // The hash table: an array of chains.

  /** Chain i of n holds exactly the handles of `m` with that hash, each once. */
  ghost predicate ChainHolds(chain: seq<Handle>, m: map<Id, Handle>, n: nat, i: nat)
    requires n > 0
  {
    && (forall h | h in chain :: h.hash % n == i && h.Name() in m && m[h.Name()] == h)
    && (forall j, k | 0 <= j < k < |chain| :: chain[j] != chain[k])
    && forall id | id in m && id.hash % n == i :: m[id] in chain
  }

  ghost predicate Holds(list: seq<seq<Handle>>, m: map<Id, Handle>)
    requires |list| > 0
  {
    && (forall id | id in m :: m[id].Name() == id)
    && forall i | 0 <= i < |list| :: ChainHolds(list[i], m, |list|, i)
  }

  class HandleTable {
    var list: seq<seq<Handle>>
    var elems: nat
    ghost var contents: map<Id, Handle>

    ghost predicate Valid()
      reads this
    {
      |list| > 0 && Holds(list, contents) && elems == |contents|
    }

    constructor ()
      ensures Valid() && contents == map[]
    {
      list, elems, contents := [[], [], [], []], 0, map[];
    }

    /** The chain of the hash and the position of the matching handle in it, or its end. */
    method FindPointer(key: Bytes, hash: nat) returns (b: nat, j: nat)
      requires Valid()
      ensures b == hash % |list| && j <= |list[b]|
      ensures if Id(key, hash) in contents then j < |list[b]| && list[b][j] == contents[Id(key, hash)] else j == |list[b]|
    {
      b, j := hash % |list|, 0;
      assert ChainHolds(list[b], contents, |list|, b);
      while j < |list[b]| && (list[b][j].hash != hash || list[b][j].key != key)
        invariant j <= |list[b]|
        invariant Id(key, hash) in contents ==> contents[Id(key, hash)] in list[b][j..]
      {
        assert list[b][j].Name() != Id(key, hash);
        j := j + 1;
      }
    }

    method Lookup(key: Bytes, hash: nat) returns (h: Handle?)
      requires Valid()
      ensures h == if Id(key, hash) in contents then contents[Id(key, hash)] else null
    {
      var b, j := FindPointer(key, hash);
      h := if j < |list[b]| then list[b][j] else null;
    }

    /** Put h in the place of the handle it replaces, which is returned, or at the end of its chain. */
    method Insert(h: Handle) returns (old_: Handle?)
      requires Valid() && (h.Name() in contents ==> contents[h.Name()] != h)
      modifies this
      ensures Valid() && contents == old(contents)[h.Name() := h]
      ensures old_ == if h.Name() in old(contents) then old(contents)[h.Name()] else null
    {
      hide Holds;
      var b, j := FindPointer(h.key, h.hash);
      InsertHolds(list, contents, h, b, j);
      var chain := list[b];
      if j < |chain| {
        old_ := chain[j];
        list := list[b := chain[j := h]];
        contents := contents[h.Name() := h];
      } else {
        old_ := null;
        list := list[b := chain + [h]];
        contents := contents[h.Name() := h];
        elems := elems + 1;
        if elems > |list| {
          Resize();
        }
      }
    }

    method Remove(key: Bytes, hash: nat) returns (h: Handle?)
      requires Valid()
      modifies this
      ensures Valid() && contents == old(contents) - {Id(key, hash)}
      ensures h == if Id(key, hash) in old(contents) then old(contents)[Id(key, hash)] else null
    {
      hide Holds;
      var b, j := FindPointer(key, hash);
      var chain := list[b];
      if j < |chain| {
        RemoveHolds(list, contents, Id(key, hash), b, j);
        h := chain[j];
        list := list[b := chain[..j] + chain[j + 1..]];
        contents := contents - {Id(key, hash)};
        elems := elems - 1;
      } else {
        h := null;
      }
    }

    /** Rehash every handle, each to the front of its new chain. The table is the same map as before. */
    method Resize()
      requires Valid()
      modifies this`list
      ensures Valid() && |list| >= elems
    {
      hide Holds, Rest;
      var chains := list;
      ghost var all := contents;
      var newLength := NewLength(elems);
      var newList: seq<seq<Handle>> := seq(newLength, _ => []);
      var count := 0;
      ghost var done: map<Id, Handle> := map[];
      EmptyHolds(newList);
      RestIsAll(chains, all);
      for i := 0 to |chains|
        invariant |newList| == newLength && Holds(newList, done) && count == |done|
        invariant Rest(chains, all, i, [], done)
      {
        var chain := chains[i];
        RestOpens(chains, all, i, done);
        while chain != []
          invariant |newList| == newLength && Holds(newList, done) && count == |done|
          invariant Rest(chains, all, i + 1, chain, done)
          decreases |chain|
        {
          var h := chain[0];
          RestTakes(chains, all, i + 1, chain, done);
          newList := Prepend(newList, h, done);
          done := done[h.Name() := h];
          chain := chain[1..];
          count := count + 1;
        }
      }
      RestIsNone(chains, all, done);
      assert count == elems;
      list := newList;
    }
  }

  /** An entry goes to the front of its chain. */
  method Prepend(list: seq<seq<Handle>>, h: Handle, ghost m: map<Id, Handle>) returns (r: seq<seq<Handle>>)
    requires |list| > 0 && Holds(list, m) && h.Name() !in m
    ensures |r| == |list| && Holds(r, m[h.Name() := h]) && |m[h.Name() := h]| == |m| + 1
  {
    hide Holds;
    var b := h.hash % |list|;
    PrependHolds(list, m, h);
    r := list[b := [h] + list[b]];
  }

  method NewLength(elems: nat) returns (length: nat)
    ensures length >= 4 && length >= elems
  {
    length := 4;
    while length < elems
      invariant length >= 4
    {
      length := length * 2;
    }
  }

  /** What Resize has not moved yet: `chain` and the chains from i on; `done` holds the others. */
  ghost predicate Rest(list: seq<seq<Handle>>, m: map<Id, Handle>, i: nat, chain: seq<Handle>, done: map<Id, Handle>) {
    && 0 < |list| && i <= |list| && Holds(list, m)
    && (forall j, k | 0 <= j < k < |chain| :: chain[j] != chain[k])
    && (chain == [] || i > 0)
    && (forall h | h in chain :: h in list[i - 1] && h.Name() !in done)
    && (forall id | id in done :: id in m && done[id] == m[id] && id.hash % |list| < i)
    && forall id | id in m && id.hash % |list| < i :: id in done || m[id] in chain
  }

  lemma RestIsAll(list: seq<seq<Handle>>, m: map<Id, Handle>)
    requires |list| > 0 && Holds(list, m)
    ensures Rest(list, m, 0, [], map[])
  {
  }

  lemma RestOpens(list: seq<seq<Handle>>, m: map<Id, Handle>, i: nat, done: map<Id, Handle>)
    requires Rest(list, m, i, [], done) && i < |list|
    ensures Rest(list, m, i + 1, list[i], done)
  {
  }

  lemma RestTakes(list: seq<seq<Handle>>, m: map<Id, Handle>, i: nat, chain: seq<Handle>, done: map<Id, Handle>)
    requires Rest(list, m, i, chain, done) && chain != []
    ensures
      && i > 0
      && chain[0].Name() !in done
      && Rest(list, m, i, chain[1..], done[chain[0].Name() := chain[0]])
  {
    assert ChainHolds(list[i - 1], m, |list|, i - 1);
    assert forall h | h in chain[1..] :: h in chain && h != chain[0];
  }

  lemma RestIsNone(list: seq<seq<Handle>>, m: map<Id, Handle>, done: map<Id, Handle>)
    requires Rest(list, m, |list|, [], done)
    ensures done == m
  {
    forall id | id in m
      ensures id in done
    {
      assert id.hash % |list| < |list|;
    }
  }

  lemma EmptyHolds(list: seq<seq<Handle>>)
    requires |list| > 0 && forall i | 0 <= i < |list| :: list[i] == []
    ensures Holds(list, map[])
  {
  }

  lemma PrependHolds(list: seq<seq<Handle>>, m: map<Id, Handle>, h: Handle)
    requires |list| > 0 && Holds(list, m) && h.Name() !in m
    ensures var b := h.hash % |list|;
      Holds(list[b := [h] + list[b]], m[h.Name() := h])
  {
    var b := h.hash % |list|;
    ChainChanged(list, m, b, [h] + list[b], m[h.Name() := h]);
  }

  lemma InsertHolds(list: seq<seq<Handle>>, m: map<Id, Handle>, h: Handle, b: nat, j: nat)
    requires |list| > 0 && Holds(list, m) && b == h.hash % |list| && j <= |list[b]| && (h.Name() in m ==> m[h.Name()] != h)
    requires if h.Name() in m then j < |list[b]| && list[b][j] == m[h.Name()] else j == |list[b]|
    ensures Holds(list[b := if j < |list[b]| then list[b][j := h] else list[b] + [h]], m[h.Name() := h])
  {
    var old_ := list[b];
    var chain, m' := if j < |old_| then old_[j := h] else old_ + [h], m[h.Name() := h];
    assert ChainHolds(old_, m, |list|, b);
    assert h !in old_ && chain[j] == h;
    assert forall k | 0 <= k < |old_| && k != j :: chain[k] == old_[k] && old_[k].Name() != h.Name();
    forall id | id in m' && id.hash % |list| == b
      ensures m'[id] in chain
    {
      if id != h.Name() {
        var k :| 0 <= k < |old_| && old_[k] == m[id];
        assert chain[k] == m[id];
      }
    }
    ChainChanged(list, m, b, chain, m');
  }

  lemma RemoveHolds(list: seq<seq<Handle>>, m: map<Id, Handle>, id: Id, b: nat, j: nat)
    requires |list| > 0 && Holds(list, m) && b == id.hash % |list| && id in m && j < |list[b]| && list[b][j] == m[id]
    ensures
      && Holds(list[b := list[b][..j] + list[b][j + 1..]], m - {id})
      && |m - {id}| == |m| - 1
  {
    var old_ := list[b];
    var chain, m' := old_[..j] + old_[j + 1..], m - {id};
    assert m == m'[id := m[id]];
    assert ChainHolds(old_, m, |list|, b);
    assert forall k | 0 <= k < |chain| :: chain[k] == old_[if k < j then k else k + 1];
    forall i | i in m' && i.hash % |list| == b
      ensures m'[i] in chain
    {
      var l :| 0 <= l < |old_| && old_[l] == m[i];
      assert chain[if l < j then l else l - 1] == m[i];
    }
    ChainChanged(list, m, b, chain, m');
  }

  /** Changing one chain and the map alike keeps the table right. */
  lemma ChainChanged(list: seq<seq<Handle>>, m: map<Id, Handle>, b: nat, chain: seq<Handle>, m': map<Id, Handle>)
    requires |list| > 0 && Holds(list, m) && b < |list| && ChainHolds(chain, m', |list|, b)
    requires forall id | id in m' :: m'[id].Name() == id
    requires forall id: Id | id.hash % |list| != b :: id in m' <==> id in m
    requires forall id | id in m && id.hash % |list| != b :: m'[id] == m[id]
    ensures Holds(list[b := chain], m')
  {
    var list' := list[b := chain];
    forall i | 0 <= i < |list'|
      ensures ChainHolds(list'[i], m', |list|, i)
    {
      if i != b {
        OtherChain(list[i], m, m', |list|, i, b);
      }
    }
  }

  lemma OtherChain(chain: seq<Handle>, m: map<Id, Handle>, m': map<Id, Handle>, n: nat, i: nat, b: nat)
    requires n > 0 && i != b && ChainHolds(chain, m, n, i)
    requires forall id: Id | id.hash % n != b :: id in m' <==> id in m
    requires forall id | id in m && id.hash % n != b :: m'[id] == m[id]
    ensures ChainHolds(chain, m', n, i)
  {
    forall h | h in chain
      ensures h.Name() in m' && m'[h.Name()] == h
    {
      assert h.Name().hash % n == i;
    }
  }

  // The two lists. The list head's neighbours are the ends of a sequence: oldest first, newest last.

  ghost predicate Distinct(s: seq<Handle>) {
    forall i, j | 0 <= i < j < |s| :: s[i] != s[j]
  }

  /** Unlinking an entry joins its neighbours; the others stay where they are. */
  function Without(s: seq<Handle>, e: Handle): seq<Handle> {
    if s == [] then [] else if s[0] == e then s[1..] else [s[0]] + Without(s[1..], e)
  }

  ghost predicate Before(s: seq<Handle>, a: Handle, b: Handle) {
    exists i, j :: 0 <= i < j < |s| && s[i] == a && s[j] == b
  }

  /** Of two entries that are in both lists, the one that comes first in `s` comes first in `r`. */
  ghost predicate InOrder(s: seq<Handle>, r: seq<Handle>) {
    forall a, b | Before(s, a, b) && a in r && b in r :: Before(r, a, b)
  }

  lemma {:induction false} WithoutCuts(s: seq<Handle>, e: Handle, i: nat)
    requires Distinct(s) && i < |s| && s[i] == e
    ensures Without(s, e) == s[..i] + s[i + 1..]
  {
    if i > 0 {
      WithoutCuts(s[1..], e, i - 1);
      assert s[..i] == [s[0]] + s[1..][..i - 1] && s[1..][i..] == s[i + 1..];
    }
  }

  lemma WithoutKeepsOrder(s: seq<Handle>, e: Handle)
    requires Distinct(s)
    ensures InOrder(s, Without(s, e))
  {
    hide Without;
    WithoutIs(s, e);
    if i :| 0 <= i < |s| && s[i] == e {
      WithoutCuts(s, e, i);
      CutKeepsOrder(s, i);
    }
  }

  lemma CutKeepsOrder(s: seq<Handle>, i: nat)
    requires Distinct(s) && i < |s|
    ensures InOrder(s, s[..i] + s[i + 1..])
  {
    var r := s[..i] + s[i + 1..];
    forall a, b | Before(s, a, b) && a in r && b in r
      ensures Before(r, a, b)
    {
      var j, k :| 0 <= j < k < |s| && s[j] == a && s[k] == b;
      assert s[i] !in r;
      assert r[if j < i then j else j - 1] == a && r[if k < i then k else k - 1] == b;
    }
  }

  lemma AppendKeepsOrder(s: seq<Handle>, r: seq<Handle>, e: Handle)
    requires InOrder(s, r) && e !in s
    ensures InOrder(s, r + [e])
  {
    forall a, b | Before(s, a, b) && a in r + [e] && b in r + [e]
      ensures Before(r + [e], a, b)
    {
      assert a in s && b in s && Before(r, a, b);
      var i, j :| 0 <= i < j < |r| && r[i] == a && r[j] == b;
      assert (r + [e])[i] == a && (r + [e])[j] == b;
    }
  }

  /** Taking an entry off both lists, and putting it at the end of one it was not on, keeps the others in order. */
  lemma MinusKeepsOrder(s: seq<Handle>, e: Handle?, added: Handle)
    requires Distinct(s)
    ensures InOrder(s, Minus(s, e))
    ensures added !in s ==> InOrder(s, s + [added]) && InOrder(s, Minus(s, e) + [added])
    ensures added !in s ==> InOrder(s, Minus(s + [added], e))
  {
    hide InOrder, Without;
    KeepsOrder(s);
    if e != null {
      WithoutKeepsOrder(s, e);
    }
    if added !in s {
      AppendKeepsOrder(s, s, added);
      AppendKeepsOrder(s, Minus(s, e), added);
      AppendIs(s, added);
      if e != null {
        WithoutKeepsOrder(s + [added], e);
        ShorterInOrder(s, added, Without(s + [added], e));
      }
    }
  }

  lemma KeepsOrder(s: seq<Handle>)
    ensures InOrder(s, s)
  {
  }

  lemma ShorterInOrder(s: seq<Handle>, e: Handle, r: seq<Handle>)
    requires InOrder(s + [e], r)
    ensures InOrder(s, r)
  {
    forall a, b | Before(s, a, b) && a in r && b in r
      ensures Before(r, a, b)
    {
      var i, j :| 0 <= i < j < |s| && s[i] == a && s[j] == b;
      assert (s + [e])[i] == a && (s + [e])[j] == b;
      assert Before(s + [e], a, b);
    }
  }

  /** Dropping the oldest entries keeps the others in order. */
  lemma SuffixInOrder(s: seq<Handle>, r: seq<Handle>, k: nat)
    requires Distinct(r) && InOrder(s, r) && k <= |r|
    ensures InOrder(s, r[k..])
  {
    forall a, b | Before(s, a, b) && a in r[k..] && b in r[k..]
      ensures Before(r[k..], a, b)
    {
      assert a in r && b in r;
      var i, j :| 0 <= i < j < |r| && r[i] == a && r[j] == b;
      var m, n :| 0 <= m < |r[k..]| && r[k..][m] == a && 0 <= n < |r[k..]| && r[k..][n] == b;
      assert r[k + m] == a && r[k + n] == b;
    }
  }

  function Charges(s: seq<Handle>): nat {
    if s == [] then 0 else s[0].charge + Charges(s[1..])
  }

  lemma {:induction false} WithoutIs(s: seq<Handle>, e: Handle)
    requires Distinct(s)
    ensures Distinct(Without(s, e)) && e !in Without(s, e)
    ensures
      && (forall h | h in Without(s, e) :: h in s)
      && (forall h | h in s && h != e :: h in Without(s, e))
    ensures Charges(s) == Charges(Without(s, e)) + if e in s then e.charge else 0
    ensures e !in s ==> Without(s, e) == s
  {
    if s == [] {
      assert Without(s, e) == s;
    } else {
      var rest := s[1..];
      assert s == [s[0]] + rest && s[0] !in rest && Distinct(rest);
      WithoutIs(rest, e);
      if s[0] != e {
        assert Without(s, e) == [s[0]] + Without(rest, e);
        assert e !in s ==> Without(s, e) == s;
      }
    }
  }

  lemma {:induction false} AppendIs(s: seq<Handle>, e: Handle)
    ensures Charges(s + [e]) == Charges(s) + e.charge
    ensures Distinct(s) && e !in s ==> Distinct(s + [e])
  {
    if s == [] {
      assert s + [e] == [e];
    } else {
      assert (s + [e])[1..] == s[1..] + [e];
      AppendIs(s[1..], e);
    }
  }

  class LRUCache {
    const capacity: nat
    const table: HandleTable
    var usage: nat
    var lru: seq<Handle>
    var inUse: seq<Handle>
    /** Every handle ever handed out. */
    ghost var handles: set<Handle>

    ghost predicate Valid()
      reads this, table, handles
    {
      && table.Valid() && Filed(handles, table.contents)
      && Ok(Cached(handles, table.contents))
    }

    /** The state of lists and handles when the cache holds a reference to the handles in `cached`. */
    ghost predicate Ok(cached: set<Handle>)
      reads this, handles
    {
      && Distinct(lru)
      && Distinct(inUse)
      && cached <= handles
      && usage == Charges(lru) + Charges(inUse)
      && (forall h | h in lru :: h in handles) && (forall h | h in inUse :: h in handles)
      && forall h | h in handles :: Counted(h, h in cached, h in lru, h in inUse)
    }

    constructor (capacity: nat)
      ensures
        && Valid()
        && handles == {}
        && table.contents == map[] && this.capacity == capacity && fresh(table)
    {
      this.capacity := capacity;
      table := new HandleTable();
      usage, lru, inUse, handles := 0, [], [], {};
    }

    /** A client takes a reference: an entry on the lru list moves to the in-use list. */
    method Ref(e: Handle, ghost cached: set<Handle>)
      requires Ok(cached) && e in handles && e.refs > 0
      modifies this`lru, this`inUse, e
      ensures Ok(cached) && e.held == old(e.held) + 1
      ensures lru == Without(old(lru), e)
      ensures inUse == if e in old(lru) then old(inUse) + [e] else old(inUse)
      ensures InOrder(old(lru), lru) && InOrder(old(inUse), inUse)
    {
      hide Without, Charges, Distinct, InOrder;
      WithoutIs(lru, e);
      WithoutIs(inUse, e);
      AppendIs(inUse, e);
      MinusKeepsOrder(lru, e, e);
      MinusKeepsOrder(inUse, null, e);
      if e.refs == 1 && e.inCache {
        lru := Without(lru, e);
        inUse := inUse + [e];
      }
      e.refs := e.refs + 1;
      e.held := e.held + 1;
    }

    /** A reference goes: the last one runs the deleter, the last but one of a cached entry makes it the newest on the lru list. */
    method Unref(e: Handle)
      requires e.refs > 0
      modifies this`lru, this`inUse, e
      ensures
        && e.refs == old(e.refs) - 1
        && e.inCache == old(e.inCache)
        && e.held == old(e.held)
      ensures e.deletions == old(e.deletions) + if e.refs == 0 then 1 else 0
      ensures var idle := e.inCache && e.refs == 1;
        && lru == (if idle then old(lru) + [e] else old(lru))
        && inUse == if idle then Without(old(inUse), e) else old(inUse)
    {
      e.refs := e.refs - 1;
      if e.refs == 0 {
        e.deletions := e.deletions + 1;
      } else if e.inCache && e.refs == 1 {
        inUse := Without(inUse, e);
        lru := lru + [e];
      }
    }

    /** The client's side of a release. */
    method Release(e: Handle)
      requires Valid() && e in handles && e.held > 0
      modifies this`lru, this`inUse, e
      ensures Valid() && e.held == old(e.held) - 1
      ensures var idle := e in old(inUse) && e.held == 0;
        && lru == (if idle then old(lru) + [e] else old(lru))
        && inUse == if idle then Without(old(inUse), e) else old(inUse)
      ensures InOrder(old(lru), lru) && InOrder(old(inUse), inUse)
    {
      hide Holds, Filed, Cached, Without, Charges, Distinct, InOrder;
      WithoutIs(inUse, e);
      AppendIs(lru, e);
      MinusKeepsOrder(lru, null, e);
      MinusKeepsOrder(inUse, e, e);
      KeepsOrder(inUse);
      Unref(e);
      e.held := e.held - 1;
    }

    /** The cache gives up its reference to an entry that has already left the hash table. */
    method FinishErase(e: Handle?, ghost cached: set<Handle>) returns (erased: bool)
      requires Ok(cached) && (e != null ==> e in cached)
      modifies this`lru, this`inUse, this`usage
      modifies if e != null then {e} else {}
      ensures erased == (e != null) && forall h | h in handles :: h.held == old(h.held)
      ensures if e == null then Ok(cached) else Ok(cached - {e}) && e.held == old(e.held)
      ensures e == null ==> usage == old(usage) && lru == old(lru) && inUse == old(inUse)
      ensures e != null ==> usage == old(usage) - e.charge && lru == Without(old(lru), e) && inUse == Without(old(inUse), e)
      ensures InOrder(old(lru), lru) && InOrder(old(inUse), inUse)
    {
      hide Without, Charges, Distinct, InOrder;
      KeepsOrder(lru);
      KeepsOrder(inUse);
      if e != null {
        MinusKeepsOrder(lru, e, e);
        MinusKeepsOrder(inUse, e, e);
        WithoutIs(lru, e);
        WithoutIs(inUse, e);
        lru, inUse := Without(lru, e), Without(inUse, e);
        e.inCache := false;
        usage := usage - e.charge;
        Unref(e);
      }
      erased := e != null;
    }

    method Lookup(key: Bytes, hash: nat) returns (e: Handle?)
      requires Valid()
      modifies this`lru, this`inUse, handles
      ensures Valid()
      ensures e == if Id(key, hash) in table.contents then table.contents[Id(key, hash)] else null
      ensures e == null ==> lru == old(lru) && inUse == old(inUse)
      ensures e != null ==> lru == Without(old(lru), e) && inUse == if e in old(lru) then old(inUse) + [e] else old(inUse)
      ensures forall h | h in handles :: h.held == old(h.held) + if h == e then 1 else 0
      ensures InOrder(old(lru), lru) && InOrder(old(inUse), inUse)
    {
      hide InOrder;
      KeepsOrder(lru);
      KeepsOrder(inUse);
      e := table.Lookup(key, hash);
      if e != null {
        Ref(e, Cached(handles, table.contents));
      }
    }

    method Erase(key: Bytes, hash: nat)
      requires Valid()
      modifies this`lru, this`inUse, this`usage, table, handles
      ensures Valid() && table.contents == old(table.contents) - {Id(key, hash)}
      ensures var erased := Match(old(table.contents), Id(key, hash));
        lru == Minus(old(lru), erased) && inUse == Minus(old(inUse), erased)
      ensures forall h | h in handles :: h.held == old(h.held)
      ensures InOrder(old(lru), lru) && InOrder(old(inUse), inUse)
    {
      hide InOrder, Ok, Holds, Filed, Cached, Without, Charges, Distinct, Counted;
      ghost var before := table.contents;
      CachedAfterErase(handles, before, Id(key, hash));
      var e := table.Remove(key, hash);
      assert table.Valid() && Filed(handles, table.contents);
      var _ := FinishErase(e, Cached(handles, before));
      assert Ok(Cached(handles, table.contents));
    }

    /** Drop the oldest entry no client uses; its deleter runs. */
    method EvictOldest()
      requires Valid() && lru != []
      modifies this`lru, this`inUse, this`usage, table, handles
      ensures Valid() && lru == old(lru)[1..] && inUse == old(inUse)
      ensures usage == old(usage) - old(lru)[0].charge
      ensures forall h | h in handles :: h.deletions == if h == old(lru)[0] then 1 else old(h.deletions)
      ensures table.contents == old(table.contents) - {old(lru)[0].Name()}
      ensures forall h | h in handles :: h.held == old(h.held)
    {
      hide Ok, Holds, Filed, Counted, Charges, Distinct;
      var e := lru[0];
      ghost var before := table.contents;
      OldestIsIdle(e, Cached(handles, before));
      WithoutIs(inUse, e);
      CachedWithout(handles, before, e.Name());
      var removed := table.Remove(e.key, e.hash);
      var _ := FinishErase(removed, Cached(handles, before));
      ErasedIsDeleted(e, Cached(handles, table.contents));
    }

    lemma OldestIsIdle(e: Handle, cached: set<Handle>)
      requires Ok(cached) && lru != [] && e == lru[0]
      ensures
        && e in cached
        && e in handles
        && e.refs == 1
        && e !in inUse
        && e.held == 0
        && Distinct(inUse)
    {
      assert Counted(e, e in cached, e in lru, e in inUse);
    }

    lemma ErasedIsDeleted(e: Handle, cached: set<Handle>)
      requires Ok(cached) && e in handles && e !in cached && e.held == 0
      ensures e.deletions == 1
    {
      assert Counted(e, e in cached, e in lru, e in inUse);
    }

    /** Cache a new entry, which the caller holds, and evict oldest entries while there are too many. */
    method Insert(key: Bytes, hash: nat, charge: nat) returns (e: Handle, ghost evicted: nat)
      requires Valid()
      modifies this, table, handles
      ensures Valid() && fresh(e) && handles == old(handles) + {e} && e.held == 1
      ensures e.key == key && e.hash == hash && e.charge == charge
      ensures var replaced := if capacity > 0 then Match(old(table.contents), Id(key, hash)) else null;
        var idle := Minus(old(lru), replaced);
        && evicted <= |idle| && lru == idle[evicted..]
        && (usage <= capacity || lru == [])
        && (evicted > 0 ==> usage + idle[evicted - 1].charge > capacity)
        && inUse == if capacity > 0 then Minus(old(inUse) + [e], replaced) else old(inUse)
      ensures forall h | h in old(handles) :: h.held == old(h.held)
      ensures InOrder(old(lru), lru) && InOrder(old(inUse), inUse)
    {
      hide Ok, Holds, Cached, Filed, Without, Charges, InOrder;
      KeepsOrder(lru);
      KeepsOrder(inUse);
      e := new Handle(key, hash, charge);
      if capacity > 0 {
        Adopt(e);
      } else {
        AddUncached(e);
      }
      ghost var idle := lru;
      IdleAreDistinct(Cached(handles, table.contents));
      evicted := EvictExcess();
      SuffixInOrder(old(lru), idle, evicted);
    }

    method EvictExcess() returns (ghost evicted: nat)
      requires Valid()
      modifies this`lru, this`inUse, this`usage, table, handles
      ensures Valid() && inUse == old(inUse) && forall h | h in handles :: h.held == old(h.held)
      ensures evicted <= |old(lru)| && lru == old(lru)[evicted..] && (usage <= capacity || lru == [])
      ensures evicted > 0 ==> usage + old(lru)[evicted - 1].charge > capacity
    {
      hide Ok, Holds, Cached, Filed, Without, Charges;
      evicted := 0;
      while usage > capacity && lru != []
        invariant Valid() && inUse == old(inUse) && evicted <= |old(lru)| && lru == old(lru)[evicted..]
        invariant evicted > 0 ==> usage + old(lru)[evicted - 1].charge > capacity
        invariant forall h | h in handles :: h.held == old(h.held)
        decreases |lru|
      {
        assert old(lru)[evicted..][1..] == old(lru)[evicted + 1..];
        EvictOldest();
        evicted := evicted + 1;
      }
    }

    /** Give the cache a reference to a new entry and take the one it replaces out. */
    method Adopt(e: Handle)
      requires Valid() && e !in handles && e.refs == 1 && !e.inCache && e.held == 1 && e.deletions == 0
      modifies this, table, handles, e
      ensures Valid() && handles == old(handles) + {e} && e.held == 1
      ensures var replaced := Match(old(table.contents), e.Name());
        lru == Minus(old(lru), replaced) && inUse == Minus(old(inUse) + [e], replaced)
      ensures forall h | h in old(handles) :: h.held == old(h.held)
      ensures InOrder(old(lru), lru) && InOrder(old(inUse), inUse)
    {
      hide InOrder, Ok, Holds, Filed, Cached, Without, Charges, Distinct;
      ghost var before := table.contents;
      ghost var cached := Cached(handles, before);
      ListsOrdered(e, Match(before, e.Name()), cached);
      CachedWith(handles, before, e);
      Enlist(e, cached);
      var replaced := table.Insert(e);
      var _ := FinishErase(replaced, cached + {e});
    }

    lemma ListsOrdered(e: Handle, replaced: Handle?, cached: set<Handle>)
      requires Ok(cached) && e !in handles
      ensures InOrder(lru, Minus(lru, replaced)) && InOrder(inUse, Minus(inUse + [e], replaced))
    {
      hide InOrder, Without, Charges;
      MinusKeepsOrder(lru, replaced, e);
      MinusKeepsOrder(inUse, replaced, e);
    }

    /** The new entry becomes the newest of the in-use list. */
    method Enlist(e: Handle, ghost cached: set<Handle>)
      requires Ok(cached) && e !in handles && e.refs == 1 && !e.inCache && e.held == 1 && e.deletions == 0
      modifies this, e
      ensures Ok(cached + {e}) && handles == old(handles) + {e} && e.held == 1
      ensures lru == old(lru) && inUse == old(inUse) + [e]
    {
      hide Charges, Distinct;
      AppendIs(inUse, e);
      e.refs := e.refs + 1;
      e.inCache := true;
      inUse := inUse + [e];
      usage := usage + e.charge;
      handles := handles + {e};
    }

    method AddUncached(e: Handle)
      requires Valid() && e !in handles && e.refs == 1 && !e.inCache && e.held == 1 && e.deletions == 0
      modifies this`handles
      ensures Valid() && handles == old(handles) + {e}
    {
      hide Holds, Without, Charges, Distinct;
      handles := handles + {e};
      assert Cached(handles, table.contents) == Cached(old(handles), table.contents);
    }

    lemma IdleAreDistinct(cached: set<Handle>)
      requires Ok(cached)
      ensures Distinct(lru)
    {
    }

    lemma IdleAreHandles(cached: set<Handle>)
      requires Ok(cached)
      ensures forall h | h in lru :: h in handles
    {
    }

    method Prune()
      requires Valid()
      modifies this`lru, this`inUse, this`usage, table, handles
      ensures Valid() && lru == [] && inUse == old(inUse)
      ensures forall e | e in old(lru) :: e.deletions == 1
      ensures forall h | h in handles :: h.held == old(h.held)
    {
      hide Ok, Holds, Filed, Cached;
      IdleAreHandles(Cached(handles, table.contents));
      ghost var k := 0;
      while lru != []
        invariant Valid() && k <= |old(lru)| && lru == old(lru)[k..] && inUse == old(inUse)
        invariant forall i | 0 <= i < k :: old(lru)[i].deletions == 1
        invariant forall h | h in handles :: h.held == old(h.held)
      {
        assert old(lru)[k..][1..] == old(lru)[k + 1..];
        EvictOldest();
        k := k + 1;
      }
    }
  }

  function Match(m: map<Id, Handle>, id: Id): Handle? {
    if id in m then m[id] else null
  }

  function Minus(s: seq<Handle>, e: Handle?): seq<Handle> {
    if e == null then s else Without(s, e)
  }

  lemma CachedWith(handles: set<Handle>, m: map<Id, Handle>, e: Handle)
    requires Filed(handles, m) && e !in handles
    ensures var m', old_ := m[e.Name() := e], Match(m, e.Name());
      && Filed(handles + {e}, m')
      && (old_ != null ==> old_ != e && old_ in handles && old_ in Cached(handles, m))
      && Cached(handles + {e}, m') == if old_ == null then Cached(handles, m) + {e} else Cached(handles, m) + {e} - {old_}
  {
  }

  lemma CachedWithout(handles: set<Handle>, m: map<Id, Handle>, id: Id)
    requires Filed(handles, m) && id in m
    ensures Filed(handles, m - {id}) && m[id] in handles && m[id] in Cached(handles, m)
    ensures Cached(handles, m - {id}) == Cached(handles, m) - {m[id]}
  {
  }

  lemma CachedAfterErase(handles: set<Handle>, m: map<Id, Handle>, id: Id)
    requires Filed(handles, m)
    ensures Filed(handles, m - {id})
    ensures var e := Match(m, id);
      && (e != null ==> e in handles && e in Cached(handles, m))
      && Cached(handles, m - {id}) == if e == null then Cached(handles, m) else Cached(handles, m) - {e}
  {
    if id in m {
      CachedWithout(handles, m, id);
    } else {
      assert m - {id} == m;
    }
  }

  ghost predicate Filed(handles: set<Handle>, m: map<Id, Handle>) {
    forall id | id in m :: m[id].Name() == id && m[id] in handles
  }

  ghost function Cached(handles: set<Handle>, m: map<Id, Handle>): set<Handle> {
    set h | h in handles && h.Name() in m && m[h.Name()] == h
  }

  /** A handle's references are the cache's and the clients'; its list and its deletion follow from them. */
  ghost predicate Counted(h: Handle, cached: bool, inLru: bool, inUse: bool)
    reads h
  {
    && h.refs == h.held + (if cached then 1 else 0) && h.inCache == cached
    && (inLru <==> cached && h.refs == 1) && (inUse <==> cached && h.refs >= 2)
    && h.deletions == if h.refs == 0 then 1 else 0
  }
}
