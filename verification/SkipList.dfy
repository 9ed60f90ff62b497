/** The memtable's skip list: linked nodes of up to twelve levels (db/skiplist.h). Its methods are proved against
    the sorted sequence of keys at level 0. */
module SkipLists {

  const MAX_HEIGHT: nat := 12

  /** The position of a key in the list's comparator order. */
  type Key = real

  class Node {
    const key: Key
    const height: nat
    var next: seq<Node?>

    constructor (key: Key, height: nat)
      ensures this.key == key && this.height == height && next == seq(height, _ => null)
    {
      this.key, this.height := key, height;
      next := seq(height, _ => null);
    }
  }

  // The list as a sequence of nodes, the head first. Keys and heights never change, so what every link
  // should be is a function of the sequence.

  ghost predicate Ordered(ns: seq<Node>) {
    && |ns| > 0 && (forall i, j | 0 <= i < j < |ns| :: ns[i] != ns[j])
    && forall i, j | 1 <= i < j < |ns| :: ns[i].key < ns[j].key
  }

  /** The next node after position i that is linked at level h. */
  ghost function NextTall(ns: seq<Node>, i: nat, h: nat): (j: nat)
    requires i < |ns|
    ensures i < j <= |ns| && (j < |ns| ==> ns[j].height > h)
    ensures forall k | i < k < j :: ns[k].height <= h
    decreases |ns| - i
  {
    if i + 1 == |ns| || ns[i + 1].height > h then i + 1 else NextTall(ns, i + 1, h)
  }

  ghost function NodeAt(ns: seq<Node>, i: nat): Node? {
    if i < |ns| then ns[i] else null
  }

  ghost function Links(ns: seq<Node>): (r: seq<seq<Node?>>)
    reads ns
    ensures |r| == |ns| && forall i | 0 <= i < |ns| :: r[i] == ns[i].next
  {
    seq(|ns|, i requires 0 <= i < |ns| reads ns => ns[i].next)
  }

  /** Level h links exactly the nodes taller than h, in order: a sublist of the level below. */
  ghost predicate LevelIs(ns: seq<Node>, links: seq<seq<Node?>>, h: nat)
    requires |ns| == |links|
  {
    forall i | 0 <= i < |ns| && ns[i].height > h :: |links[i]| > h && links[i][h] == NodeAt(ns, NextTall(ns, i, h))
  }

  ghost predicate LevelOk(ns: seq<Node>, h: nat)
    reads ns
  {
    LevelIs(ns, Links(ns), h)
  }

  /** How many nodes, counting the head, come before `key`. */
  ghost function Position(ns: seq<Node>, key: Key): (p: nat)
    requires |ns| > 0
    ensures
      && 1 <= p <= |ns|
      && (forall i | 1 <= i < p :: ns[i].key < key)
      && (p < |ns| ==> ns[p].key >= key)
    decreases |ns|
  {
    if |ns| == 1 then 1
    else
      var p := Position(ns[..|ns| - 1], key);
      if p == |ns| - 1 && ns[p].key < key then |ns| else p
  }

  ghost function Inserted<T>(s: seq<T>, p: nat, x: T): (r: seq<T>)
    requires p <= |s|
    ensures |r| == |s| + 1
    ensures forall k | 0 <= k <= |s| :: r[k] == if k < p then s[k] else if k == p then x else s[k - 1]
  {
    s[..p] + [x] + s[p..]
  }

  lemma InsertedIndex<T>(s: seq<T>, p: nat, x: T, k: nat)
    requires p <= |s| && k <= |s|
    ensures |Inserted(s, p, x)| == |s| + 1
    ensures Inserted(s, p, x)[k] == if k < p then s[k] else if k == p then x else s[k - 1]
  {
  }

  lemma SameNode(ns: seq<Node>, p: nat, x: Node, j: nat)
    requires p <= |ns|
    ensures NodeAt(Inserted(ns, p, x), if j < p then j else j + 1) == NodeAt(ns, j)
  {
  }

  lemma XIsAt(ns: seq<Node>, p: nat, x: Node)
    requires p <= |ns|
    ensures NodeAt(Inserted(ns, p, x), p) == x
  {
  }

  lemma NextTallIs(ns: seq<Node>, i: nat, h: nat, j: nat)
    requires i < j <= |ns| && (j < |ns| ==> ns[j].height > h) && forall k | i < k < j :: ns[k].height <= h
    ensures NextTall(ns, i, h) == j
  {
  }

  /** From a position before p the next taller node stays, or is x, or moves up by one. */
  lemma NextFromBefore(ns: seq<Node>, p: nat, x: Node, h: nat, i: nat)
    requires i < p <= |ns|
    ensures NextTall(Inserted(ns, p, x), i, h) ==
      var j := NextTall(ns, i, h);
      if j < p then j else if x.height > h then p else j + 1
  {
    var ns', j := Inserted(ns, p, x), NextTall(ns, i, h);
    NextTallIs(ns', i, h, if j < p then j else if x.height > h then p else j + 1);
  }

  /** From x on everything moves up by one; x takes over what followed the last node before it. */
  lemma NextFromAfter(ns: seq<Node>, p: nat, x: Node, h: nat, q: nat, i: nat)
    requires q < |ns| && p <= |ns| && p <= i <= |ns|
    requires if i == p then q < p && (forall k | q < k < p :: ns[k].height <= h) else q == i - 1
    ensures NextTall(Inserted(ns, p, x), i, h) == NextTall(ns, q, h) + 1
  {
    var ns', j := Inserted(ns, p, x), NextTall(ns, q, h);
    assert p <= j;
    assert forall k | i < k < j + 1 :: ns'[k] == ns[k - 1];
    NextTallIs(ns', i, h, j + 1);
  }

  /** Linking x after the last taller node before it turns the old level into the new one. */
  lemma LinksAfterInsert(ns: seq<Node>, p: nat, x: Node, h: nat, q: nat, i: nat)
    requires 1 <= p <= |ns| && q < p && h < x.height && ns[q].height > h
    requires forall k | q < k < p :: ns[k].height <= h
    requires i <= |ns| && Inserted(ns, p, x)[i].height > h
    ensures NodeAt(Inserted(ns, p, x), NextTall(Inserted(ns, p, x), i, h)) ==
        if i == p then NodeAt(ns, NextTall(ns, q, h))
        else if i == q then x
        else NodeAt(ns, NextTall(ns, if i < p then i else i - 1, h))
  {
    hide Inserted, NodeAt;
    var j := NextTall(ns, if i < p then i else if i == p then q else i - 1, h);
    InsertedIndex(ns, p, x, i);
    if i < p {
      NextFromBefore(ns, p, x, h, i);
      assert NextTall(ns, q, h) >= p;
      assert i < q ==> j <= q;
    } else {
      NextFromAfter(ns, p, x, h, if i == p then q else i - 1, i);
    }
    if i == q {
      XIsAt(ns, p, x);
    } else {
      SameNode(ns, p, x, j);
    }
  }

  /** One pointer store publishes x at level h: the old list of that level becomes the new one. */
  lemma PublishedLevel(ns: seq<Node>, links: seq<seq<Node?>>, p: nat, x: Node, own: seq<Node?>, h: nat, q: nat)
    requires 1 <= p <= |ns| == |links| && q < p && h < x.height && ns[q].height > h
    requires forall k | q < k < p :: ns[k].height <= h
    requires LevelIs(ns, links, h) && |own| > h && own[h] == links[q][h]
    ensures LevelIs(Inserted(ns, p, x), Inserted(links[q := links[q][h := x]], p, own), h)
  {
    var ns', links' := Inserted(ns, p, x), Inserted(links[q := links[q][h := x]], p, own);
    forall i | 0 <= i < |ns'| && ns'[i].height > h
      ensures |links'[i]| > h && links'[i][h] == NodeAt(ns', NextTall(ns', i, h))
    {
      PublishedLink(ns, links, p, x, own, h, q, i);
    }
  }

  lemma PublishedLink(ns: seq<Node>, links: seq<seq<Node?>>, p: nat, x: Node, own: seq<Node?>, h: nat, q: nat, i: nat)
    requires 1 <= p <= |ns| == |links| && q < p && h < x.height && ns[q].height > h && i <= |ns|
    requires forall k | q < k < p :: ns[k].height <= h
    requires LevelIs(ns, links, h) && |own| > h && own[h] == links[q][h]
    requires Inserted(ns, p, x)[i].height > h
    ensures var ns', links' := Inserted(ns, p, x), Inserted(links[q := links[q][h := x]], p, own);
      |links'[i]| > h && links'[i][h] == NodeAt(ns', NextTall(ns', i, h))
  {
    hide Inserted, NextTall, NodeAt;
    var l := links[q := links[q][h := x]];
    LinksAfterInsert(ns, p, x, h, q, i);
    InsertedIndex(ns, p, x, i);
    InsertedIndex(l, p, own, i);
    if i == p {
      assert links[q][h] == NodeAt(ns, NextTall(ns, q, h));
    } else if i == q {
      assert l[q] == links[q][h := x];
    } else {
      var k := if i < p then i else i - 1;
      assert l[k] == links[k] && links[k][h] == NodeAt(ns, NextTall(ns, k, h));
    }
  }

  ghost predicate DiffersAt(l: seq<Node?>, l': seq<Node?>, h: nat) {
    |l'| == |l| && (l' == l || (|l| > h && l' == l[h := l'[h]]))
  }

  /** Stores at level h leave every other level as it was. */
  lemma OtherLevels(ns: seq<Node>, links: seq<seq<Node?>>, links': seq<seq<Node?>>, h: nat)
    requires |ns| == |links| == |links'|
    requires forall k | 0 <= k < |ns| :: DiffersAt(links[k], links'[k], h)
    ensures forall g: nat | g != h && LevelIs(ns, links, g) :: LevelIs(ns, links', g)
  {
  }

  /** The links of the list with x in it, from the links of the list without it. */
  lemma LinksOfInserted(ns: seq<Node>, p: nat, x: Node, links: seq<seq<Node?>>)
    requires p <= |ns| == |links| && forall k | 0 <= k < |ns| :: ns[k].next == links[k]
    ensures Links(Inserted(ns, p, x)) == Inserted(links, p, x.next)
  {
    forall k | 0 <= k <= |ns|
      ensures Links(Inserted(ns, p, x))[k] == Inserted(links, p, x.next)[k]
    {
    }
  }

  lemma BothDiffer(links: seq<seq<Node?>>, p: nat, own: seq<Node?>, q: nat, i: nat, x: Node)
    requires p <= |links| && q < |links| && i < |links[q]| && i < |own|
    ensures var old', new' :=
        Inserted(links, p, own), Inserted(links[q := links[q][i := x]], p, own[i := links[q][i]]);
      forall k | 0 <= k <= |links| :: DiffersAt(old'[k], new'[k], i)
    ensures forall k | 0 <= k < |links| :: DiffersAt(links[k], links[q := links[q][i := x]][k], i)
  {
  }

  /** Node k after the second store at level i: only the predecessor has changed. */
  ghost predicate StoredAt(ns: seq<Node>, links: seq<seq<Node?>>, k: nat, pred: Node, i: nat, x: Node)
    requires k < |ns| == |links|
    reads ns[k]
  {
    if ns[k] == pred then |links[k]| > i && ns[k].next == links[k][i := x] else ns[k].next == links[k]
  }

  /** What the two stores at level i have done to the links. */
  lemma LinkStored(ns: seq<Node>, p: nat, x: Node, i: nat, pred: Node, links: seq<seq<Node?>>, own: seq<Node?>)
    requires 1 <= p <= |ns| == |links| && i < x.height && IsPrev(ns, p, i, pred) && Ordered(ns)
    requires LevelIs(ns, links, i) && |own| > i
    requires forall k | 0 <= k < |ns| :: StoredAt(ns, links, k, pred, i, x) && (ns[k] == pred ==> x.next == own[i := links[k][i]])
    ensures LevelOk(Inserted(ns, p, x), i)
    ensures forall h: nat | h != i && LevelIs(ns, links, h) :: LevelOk(ns, h)
    ensures forall h: nat | h != i && LevelIs(Inserted(ns, p, x), Inserted(links, p, own), h) ::
      LevelOk(Inserted(ns, p, x), h)
  {
    var q := PrevIndex(ns, p, i, pred);
    OnlyAt(ns, q);
    var stored := links[q := links[q][i := x]];
    LinksOfInserted(ns, p, x, stored);
    PublishedLevel(ns, links, p, x, x.next, i, q);
    BothDiffer(links, p, own, q, i, x);
    hide LevelIs, Inserted, NextTall;
    OtherLevels(ns, links, Links(ns), i);
    OtherLevels(Inserted(ns, p, x), Inserted(links, p, own), Inserted(stored, p, x.next), i);
  }

  /** At a level x does not reach, the successor of every other node is what it was. */
  lemma TallLink(ns: seq<Node>, p: nat, x: Node, h: nat, i: nat)
    requires 1 <= p <= |ns| && x.height <= h && i <= |ns| && i != p
    ensures NodeAt(Inserted(ns, p, x), NextTall(Inserted(ns, p, x), i, h)) ==
            NodeAt(ns, NextTall(ns, if i < p then i else i - 1, h))
  {
    hide *;
    var k := if i < p then i else i - 1;
    SameNode(ns, p, x, NextTall(ns, k, h));
    if i < p {
      NextFromBefore(ns, p, x, h, i);
    } else {
      NextFromAfter(ns, p, x, h, k, i);
    }
  }

  /** Levels above the new node's height skip it. */
  lemma TallLevel(ns: seq<Node>, p: nat, x: Node, h: nat)
    requires 1 <= p <= |ns| && x.height <= h && LevelOk(ns, h)
    ensures LevelOk(Inserted(ns, p, x), h)
  {
    var ns' := Inserted(ns, p, x);
    forall i | 0 <= i < |ns'| && ns'[i].height > h
      ensures |ns'[i].next| > h && ns'[i].next[h] == NodeAt(ns', NextTall(ns', i, h))
    {
      InsertedIndex(ns, p, x, i);
      TallLink(ns, p, x, h, i);
    }
  }

  lemma NewOrder(ns: seq<Node>, key: Key, p: nat, x: Node)
    requires Ordered(ns) && p == Position(ns, key) && x !in ns && x.key == key
    requires p < |ns| ==> ns[p].key != key
    ensures Ordered(Inserted(ns, p, x))
  {
    hide Position;
    var ns' := Inserted(ns, p, x);
    assert forall k | p < k < |ns| :: ns[p].key < ns[k].key;
  }

  ghost predicate Shape(ns: seq<Node>, maxHeight: nat)
    reads ns
  {
    ShapeIs(ns, Links(ns), maxHeight)
  }

  ghost predicate ShapeIs(ns: seq<Node>, links: seq<seq<Node?>>, maxHeight: nat)
    requires |links| == |ns|
  {
    && (forall i | 0 <= i < |ns| :: |links[i]| == ns[i].height)
    && forall i | 1 <= i < |ns| :: 1 <= ns[i].height <= maxHeight
  }

  lemma ShapeKept(ns: seq<Node>, links: seq<seq<Node?>>, maxHeight: nat)
    requires |links| == |ns| && ShapeIs(ns, links, maxHeight) && forall k | 0 <= k < |ns| :: |ns[k].next| == |links[k]|
    ensures Shape(ns, maxHeight)
  {
  }

  lemma ShapeGrows(ns: seq<Node>, m: nat, m': nat)
    requires Shape(ns, m) && m <= m'
    ensures Shape(ns, m')
  {
  }

  lemma NewShape(ns: seq<Node>, p: nat, x: Node, maxHeight: nat)
    requires 1 <= p <= |ns| && Shape(ns, maxHeight) && |x.next| == x.height && 1 <= x.height <= maxHeight
    ensures Shape(Inserted(ns, p, x), maxHeight)
  {
  }

  /** Everything about the new list but its links. */
  lemma NewList(ns: seq<Node>, key: Key, p: nat, x: Node, maxHeight: nat)
    requires Ordered(ns) && p == Position(ns, key) && key !in KeysOf(ns) && Shape(ns, maxHeight)
    requires x !in ns && x.key == key && |x.next| == x.height && 1 <= x.height <= maxHeight
    ensures var ns' := Inserted(ns, p, x);
      && Ordered(ns')
      && ns'[0] == ns[0]
      && Shape(ns', maxHeight)
      && (forall n | n in ns' :: n == x || n in ns)
      && InsertedAt(KeysOf(ns), p - 1, key, KeysOf(ns'))
  {
    hide Shape, Links;
    assert p < |ns| ==> KeysOf(ns)[p - 1] == ns[p].key;
    NewShape(ns, p, x, maxHeight);
    NewOrder(ns, key, p, x);
    NewKeys(ns, key, p, x);
  }

  class SkipList {
    const head: Node
    var maxHeight: nat
    ghost var nodes: seq<Node>

    ghost predicate Valid()
      reads this, nodes
    {
      && Ordered(nodes)
      && nodes[0] == head
      && head.height == MAX_HEIGHT
      && 1 <= maxHeight <= MAX_HEIGHT
      && Shape(nodes, maxHeight) && forall h | 0 <= h < MAX_HEIGHT :: LevelOk(nodes, h)
    }

    /** The keys in the list, in order. */
    ghost function Keys(): seq<Key>
      requires |nodes| > 0
      reads this
    {
      KeysOf(nodes)
    }

    constructor ()
      ensures Valid() && Keys() == [] && fresh(head)
    {
      head := new Node(0.0, MAX_HEIGHT);
      maxHeight := 1;
      new;
      nodes := [head];
    }

    /** The first node at or after `key`, and for every level the last node linked there before it. */
    method FindGreaterOrEqual(key: Key) returns (x: Node?, prev: seq<Node>)
      requires Valid()
      ensures x == NodeAt(nodes, Position(nodes, key))
      ensures |prev| == maxHeight
      ensures forall h | 0 <= h < maxHeight :: IsPrev(nodes, Position(nodes, key), h, prev[h])
    {
      hide IsPrev, LevelIs, LevelOk, Shape, Position;
      var level := maxHeight - 1;
      var y := head;
      ghost var at, p := 0, Position(nodes, key);
      prev := [];
      while true
        invariant 0 <= level < maxHeight && |prev| == maxHeight - 1 - level
        invariant 0 <= at < p && nodes[at] == y && y.height > level
        invariant forall k | 0 <= k < |prev| :: IsPrev(nodes, p, level + 1 + k, prev[k])
        decreases level, |nodes| - at
      {
        ghost var j := FollowLink(at, level);
        x := y.next[level];
        BeforeIff(nodes, key, j);
        if x != null && x.key < key {
          y := x;
          at := j;
        } else {
          PrevFound(nodes, p, level, y, at);
          prev := [y] + prev;
          if level == 0 {
            LevelZero(at, j);
            return;
          }
          level := level - 1;
        }
      }
    }

    lemma FollowLink(at: nat, level: nat) returns (j: nat)
      requires Valid() && at < |nodes| && nodes[at].height > level && level < MAX_HEIGHT
      ensures
        && j == NextTall(nodes, at, level)
        && |nodes[at].next| > level
        && nodes[at].next[level] == NodeAt(nodes, j)
    {
      j := NextTall(nodes, at, level);
      assert LevelOk(nodes, level);
    }

    /** Every node is linked at level 0. */
    lemma LevelZero(at: nat, j: nat)
      requires Valid() && at < |nodes| && j == NextTall(nodes, at, 0)
      ensures j == at + 1
    {
    }

    /** The last node before `key`, or the head. */
    method FindLessThan(key: Key) returns (x: Node)
      requires Valid()
      ensures x == nodes[Position(nodes, key) - 1]
    {
      x := head;
      var level := maxHeight - 1;
      ghost var at, p := 0, Position(nodes, key);
      while true
        invariant 0 <= level < maxHeight && 0 <= at < p && nodes[at] == x && x.height > level
        decreases level, |nodes| - at
      {
        ghost var j := FollowLink(at, level);
        var next := x.next[level];
        BeforeIff(nodes, key, j);
        if next == null || next.key >= key {
          if level == 0 {
            LevelZero(at, j);
            return;
          }
          level := level - 1;
        } else {
          x := next;
          at := j;
        }
      }
    }

    /** The last node, or the head of an empty list. */
    method FindLast() returns (x: Node)
      requires Valid()
      ensures x == nodes[|nodes| - 1]
    {
      x := head;
      var level := maxHeight - 1;
      ghost var at := 0;
      while true
        invariant 0 <= level < maxHeight && 0 <= at < |nodes| && nodes[at] == x && x.height > level
        decreases level, |nodes| - at
      {
        ghost var j := FollowLink(at, level);
        var next := x.next[level];
        if next == null {
          if level == 0 {
            LevelZero(at, j);
            return;
          }
          level := level - 1;
        } else {
          x := next;
          at := j;
        }
      }
    }

    method Contains(key: Key) returns (r: bool)
      requires Valid()
      ensures r <==> key in Keys()
    {
      var x, _ := FindGreaterOrEqual(key);
      ghost var p := Position(nodes, key);
      r := x != null && x.key == key;
      assert r ==> Keys()[p - 1] == key;
      if key in Keys() {
        var i :| 0 <= i < |Keys()| && Keys()[i] == key;
        assert nodes[i + 1].key == key;
        BeforeIff(nodes, key, i + 1);
      }
    }

    /** One turn of the insertion loop: x takes over the link at level i, then its predecessor publishes it.
        Level i is the old list before the second store and the new one after it. */
    static method LinkLevel(ghost ns: seq<Node>, ghost top: nat, ghost p: nat, x: Node, i: nat, pred: Node)
      requires 1 <= p <= |ns| && i < x.height == |x.next| && x !in ns && IsPrev(ns, p, i, pred)
      requires Ordered(ns) && Shape(ns, top) && LevelOk(ns, i)
      modifies x, pred
      ensures |x.next| == x.height && Shape(ns, top)
      ensures LevelOk(Inserted(ns, p, x), i)
      ensures forall h: nat | h != i && old(LevelOk(ns, h)) :: LevelOk(ns, h)
      ensures forall h: nat | h != i && old(LevelOk(Inserted(ns, p, x), h)) :: LevelOk(Inserted(ns, p, x), h)
    {
      hide LevelIs, IsPrev, Ordered, ShapeIs, Inserted;
      ghost var links, own := Links(ns), x.next;
      LinksOfInserted(ns, p, x, links);
      PrevIn(ns, p, i, pred, top);
      x.next := x.next[i := pred.next[i]];
      // Not yet published: readers still walk the old list.
      assert Links(ns) == links;
      pred.next := pred.next[i := x];
      assert forall k | 0 <= k < |ns| :: StoredAt(ns, links, k, pred, i, x);
      ShapeKept(ns, links, top);
      LinkStored(ns, p, x, i, pred, links, own);
    }

    /** The insertion loop: every level becomes the one of the list with x at position p. */
    static method LinkAll(ghost ns: seq<Node>, ghost top: nat, ghost p: nat, x: Node, prev: seq<Node>)
      requires 1 <= p <= |ns| && x.height == |x.next| <= |prev| && x.height <= MAX_HEIGHT && x !in ns
      requires forall h | 0 <= h < x.height :: IsPrev(ns, p, h, prev[h])
      requires Ordered(ns) && Shape(ns, top) && forall h | 0 <= h < MAX_HEIGHT :: LevelOk(ns, h)
      modifies x, ns
      ensures |x.next| == x.height && Shape(ns, top)
      ensures forall h | 0 <= h < MAX_HEIGHT :: LevelOk(Inserted(ns, p, x), h)
    {
      hide IsPrev, Ordered, Inserted, LevelOk, Shape;
      for i := 0 to x.height
        invariant Shape(ns, top) && |x.next| == x.height
        invariant forall h | 0 <= h < i :: LevelOk(Inserted(ns, p, x), h)
        invariant forall h | i <= h < MAX_HEIGHT :: LevelOk(ns, h)
      {
        PrevIn(ns, p, i, prev[i], top);
        LinkLevel(ns, top, p, x, i, prev[i]);
      }
      forall h | x.height <= h < MAX_HEIGHT
        ensures LevelOk(Inserted(ns, p, x), h)
      {
        TallLevel(ns, p, x, h);
      }
    }

    /** Insert a key that is not in the list, at a height chosen by the caller (RandomHeight). */
    method Insert(key: Key, height: nat)
      requires Valid() && 1 <= height <= MAX_HEIGHT && key !in Keys()
      modifies this, nodes
      ensures
        && Valid()
        && InsertedAt(old(Keys()), Position(old(nodes), key) - 1, key, Keys())
      ensures forall n | n in nodes :: n in old(nodes) || fresh(n)
    {
      hide IsPrev, Ordered, Inserted, InsertedAt, LevelOk, Shape, NodeAt, NextTall, KeysOf, Links;
      var next, prev := FindGreaterOrEqual(key);
      ghost var ns, p := nodes, Position(nodes, key);
      ghost var top := maxHeight;
      if height > maxHeight {
        prev := prev + seq(height - maxHeight, _ => head);
        maxHeight := height;
      }
      ShapeGrows(ns, top, maxHeight);
      PrevGrows(ns, p, prev, top);
      var x := new Node(key, height);
      LinkAll(ns, maxHeight, p, x, prev);
      NewList(ns, key, p, x, maxHeight);
      nodes := Inserted(ns, p, x);
    }
  }

  ghost function KeysOf(ns: seq<Node>): (r: seq<Key>)
    requires |ns| > 0
    ensures |r| == |ns| - 1 && forall i | 0 <= i < |r| :: r[i] == ns[i + 1].key
  {
    seq(|ns| - 1, i requires 0 <= i < |ns| - 1 => ns[i + 1].key)
  }

  ghost predicate InsertedAt(keys: seq<Key>, p: int, key: Key, keys': seq<Key>) {
    && 0 <= p <= |keys| && keys' == keys[..p] + [key] + keys[p..]
    && (forall i | 0 <= i < p :: keys[i] < key)
    && forall i | p <= i < |keys| :: key < keys[i]
  }

  ghost predicate IsPrevAt(ns: seq<Node>, p: nat, h: nat, n: Node, q: int)
    requires p <= |ns|
  {
    && 0 <= q < p && ns[q] == n && n.height > h
    && forall k | q < k < p :: ns[k].height <= h
  }

  /** `n` is the last node linked at level h before position p. */
  ghost predicate IsPrev(ns: seq<Node>, p: nat, h: nat, n: Node)
    requires p <= |ns|
  {
    exists q :: IsPrevAt(ns, p, h, n, q)
  }

  lemma PrevIn(ns: seq<Node>, p: nat, h: nat, n: Node, top: nat)
    requires p <= |ns| && IsPrev(ns, p, h, n) && Shape(ns, top)
    ensures n in ns && |n.next| > h
  {
  }

  lemma OnlyAt(ns: seq<Node>, q: nat)
    requires Ordered(ns) && q < |ns|
    ensures forall k | 0 <= k < |ns| && k != q :: ns[k] != ns[q]
  {
  }

  lemma PrevFound(ns: seq<Node>, p: nat, h: nat, n: Node, at: nat)
    requires at < p <= |ns| && ns[at] == n && n.height > h && NextTall(ns, at, h) >= p
    ensures IsPrev(ns, p, h, n)
  {
    assert IsPrevAt(ns, p, h, n, at);
  }

  /** Above the height of every node the head is the predecessor of every position. */
  lemma HeadIsPrev(ns: seq<Node>, p: nat, h: nat, maxHeight: nat)
    requires 1 <= p <= |ns| && Shape(ns, maxHeight) && maxHeight <= h < ns[0].height
    ensures IsPrev(ns, p, h, ns[0])
  {
    PrevFound(ns, p, h, ns[0], 0);
  }

  /** Levels above the present height get the head for a predecessor. */
  lemma PrevGrows(ns: seq<Node>, p: nat, prev: seq<Node>, m: nat)
    requires 1 <= p <= |ns| && Shape(ns, m) && m <= |prev| <= ns[0].height
    requires forall h | 0 <= h < m :: IsPrev(ns, p, h, prev[h])
    requires forall h | m <= h < |prev| :: prev[h] == ns[0]
    ensures forall h | 0 <= h < |prev| :: IsPrev(ns, p, h, prev[h])
  {
    hide Shape;
    forall h | m <= h < |prev|
      ensures IsPrev(ns, p, h, prev[h])
    {
      HeadIsPrev(ns, p, h, m);
    }
  }

  lemma PrevIndex(ns: seq<Node>, p: nat, h: nat, n: Node) returns (q: nat)
    requires p <= |ns| && IsPrev(ns, p, h, n)
    ensures IsPrevAt(ns, p, h, n, q)
  {
    q :| IsPrevAt(ns, p, h, n, q);
  }

  lemma NewKeys(ns: seq<Node>, key: Key, p: nat, x: Node)
    requires Ordered(ns) && p == Position(ns, key) && x.key == key && (p < |ns| ==> ns[p].key != key)
    ensures InsertedAt(KeysOf(ns), p - 1, key, KeysOf(Inserted(ns, p, x)))
  {
    var ns' := Inserted(ns, p, x);
    assert forall k | p < k < |ns| :: ns[p].key < ns[k].key;
    assert KeysOf(ns') == KeysOf(ns)[..p - 1] + [key] + KeysOf(ns)[p - 1..];
  }

  lemma BeforeIff(ns: seq<Node>, key: Key, j: nat)
    requires Ordered(ns) && 1 <= j
    ensures j < |ns| ==> (ns[j].key < key <==> j < Position(ns, key))
    ensures j >= |ns| ==> j >= Position(ns, key)
  {
    var p := Position(ns, key);
    assert p < j < |ns| ==> ns[p].key < ns[j].key;
  }
}
