module Separators {
  // Internal keys as byte strings, their order, and the shortened keys of index blocks
  // (db/dbformat.cc, util/comparator.cc).

  import opened Keys
  import opened Coding

  // The bytewise order.

  lemma {:induction false} LessTransitive(a: Bytes, b: Bytes, c: Bytes)
    requires BytesLess(a, b) && BytesLess(b, c)
    ensures BytesLess(a, c)
  {
    if a != [] && a[0] == b[0] == c[0] {
      LessTransitive(a[1..], b[1..], c[1..]);
    }
  }

  lemma {:induction false} LessIrreflexive(a: Bytes)
    ensures !BytesLess(a, a)
  {
    if a != [] {
      LessIrreflexive(a[1..]);
    }
  }

  lemma {:induction false} LessTotal(a: Bytes, b: Bytes)
    ensures a == b || BytesLess(a, b) || BytesLess(b, a)
  {
    if a != [] && b != [] && a[0] == b[0] {
      LessTotal(a[1..], b[1..]);
      assert a == [a[0]] + a[1..] && b == [b[0]] + b[1..];
    }
  }

  /** Past a common prefix the first differing byte decides. */
  lemma {:induction false} LessAt(a: Bytes, b: Bytes, n: nat)
    requires n < |a| && n < |b| && a[..n] == b[..n] && a[n] != b[n]
    ensures BytesLess(a, b) <==> a[n] < b[n]
  {
    if n > 0 {
      assert a[0] == a[..n][0] == b[..n][0] == b[0];
      assert a[1..][..n - 1] == a[..n][1..] == b[..n][1..] == b[1..][..n - 1];
      LessAt(a[1..], b[1..], n - 1);
    }
  }

  /** The first byte in which `start` and `limit` differ leaves room for a value in between. */
  ghost predicate HasRoomAt(start: Bytes, limit: Bytes, n: nat) {
    && n < |start| && n < |limit| && start[..n] == limit[..n]
    && start[n] as int + 1 < limit[n] as int
  }

  /** Raise the first byte that tells `start` from `limit`, if there is room below the limit, and cut the rest off. */
  method FindShortestSeparator(start: Bytes, limit: Bytes) returns (r: Bytes)
    ensures r == start || (|r| <= |start| && BytesLess(start, r) && BytesLess(r, limit))
    ensures r == start <==> forall n: nat :: !HasRoomAt(start, limit, n)
    ensures r != start ==> HasRoomAt(start, limit, |r| - 1) && r == start[..|r| - 1] + [start[|r| - 1] + 1]
  {
    var minLength := if |start| < |limit| then |start| else |limit|;
    var diff := 0;
    while diff < minLength && start[diff] == limit[diff]
      invariant 0 <= diff <= minLength && start[..diff] == limit[..diff]
    {
      diff := diff + 1;
    }
    r := start;
    if diff < minLength {
      var b := start[diff];
      if b < 0xff && b + 1 < limit[diff] {
        r := start[diff := b + 1];
        r := r[..diff + 1];
        assert r[..diff] == start[..diff];
        LessAt(start, r, diff);
        LessAt(r, limit, diff);
        assert HasRoomAt(start, limit, diff);
        LessIrreflexive(start);
      }
    }
    forall n: nat | HasRoomAt(start, limit, n)
      ensures n == diff
    {
      SameUpTo(start, limit, n);
      SameUpTo(start, limit, diff);
    }
  }

  lemma SameUpTo(a: Bytes, b: Bytes, n: nat)
    requires n <= |a| && n <= |b| && a[..n] == b[..n]
    ensures forall i | 0 <= i < n :: a[i] == b[i]
  {
    assert forall i | 0 <= i < n :: a[..n][i] == b[..n][i];
  }

  /** Raise the first byte that can be raised and cut the rest off; a run of 0xff bytes stays. */
  method FindShortSuccessor(key: Bytes) returns (r: Bytes)
    ensures r == key || (|r| <= |key| && BytesLess(key, r))
    ensures r == key <==> forall b | b in key :: b == 0xff
    ensures r != key ==> r[|r| - 1] as int == key[|r| - 1] as int + 1 && forall i | 0 <= i < |r| - 1 :: r[i] == key[i] == 0xff
  {
    for i := 0 to |key|
      invariant forall j | 0 <= j < i :: key[j] == 0xff
    {
      if key[i] != 0xff {
        r := key[i := key[i] + 1][..i + 1];
        assert r[..i] == key[..i];
        LessAt(key, r, i);
        LessIrreflexive(key);
        assert key[i] in key;
        return;
      }
    }
    r := key;
  }

  // Internal keys: the user key, then sequence number and type in eight bytes.

  /** Sequence number and type packed into 64 bits. */
  function Pack(s: nat, kind: Kind): nat {
    s * 256 + if kind == Value then 1 else 0
  }

  function InternalKey(user: Bytes, num: nat): Bytes {
    user + Fixed(num, 8)
  }

  function UserOf(key: Bytes): Bytes
    requires |key| >= 8
  {
    key[..|key| - 8]
  }

  function NumOf(key: Bytes): nat
    requires |key| >= 8
  {
    ReadFixed(key[|key| - 8..], 8)
  }

  lemma InternalKeyParts(user: Bytes, num: nat)
    requires num < WORD64
    ensures var key := InternalKey(user, num);
      |key| >= 8 && UserOf(key) == user && NumOf(key) == num
  {
    hide Fixed, ReadFixed;
    FixedSize(num, 8);
    Fixed64RoundTrip(num, []);
    assert Fixed(num, 8) + [] == Fixed(num, 8);
    assert InternalKey(user, num)[|user|..] == Fixed(num, 8);
  }

  /** Increasing user key, then decreasing number. Strings too short for an internal key come nowhere. */
  predicate InternalLess(a: Bytes, b: Bytes) {
    && |a| >= 8 && |b| >= 8
    && (BytesLess(UserOf(a), UserOf(b)) || (UserOf(a) == UserOf(b) && NumOf(a) > NumOf(b)))
  }

  /** The byte form keeps the order of internal keys. */
  lemma InternalOrder(u: Bytes, s: nat, k: Kind, v: Bytes, t: nat, l: Kind)
    requires s <= MAX_SEQUENCE && t <= MAX_SEQUENCE
    ensures InternalLess(InternalKey(u, Pack(s, k)), InternalKey(v, Pack(t, l)))
        <==> Less(IKey(Rank(u), s, k), IKey(Rank(v), t, l))
  {
    hide NumOf, UserOf, InternalKey, Rank;
    InternalKeyParts(u, Pack(s, k));
    InternalKeyParts(v, Pack(t, l));
    RankEmbedsBytes(u, v);
  }

  lemma InternalTransitive(a: Bytes, b: Bytes, c: Bytes)
    requires InternalLess(a, b) && InternalLess(b, c)
    ensures InternalLess(a, c)
  {
    hide NumOf;
    if UserOf(a) != UserOf(b) && UserOf(b) != UserOf(c) {
      LessTransitive(UserOf(a), UserOf(b), UserOf(c));
    }
  }

  /** A separator is the start itself, or it has a user key strictly between the two. */
  ghost predicate Separates(start: Bytes, limit: Bytes, sep: Bytes) {
    && |start| >= 8 && |limit| >= 8 && |sep| >= 8
    && (sep == start || (BytesLess(UserOf(start), UserOf(sep)) && BytesLess(UserOf(sep), UserOf(limit))))
  }

  method FindShortestInternalSeparator(start: Bytes, limit: Bytes) returns (sep: Bytes)
    requires |start| >= 8 && |limit| >= 8
    ensures Separates(start, limit, sep)
  {
    hide Fixed, ReadFixed;
    var userStart := UserOf(start);
    var tmp := FindShortestSeparator(userStart, UserOf(limit));
    sep := start;
    if |tmp| < |userStart| && BytesLess(userStart, tmp) {
      sep := InternalKey(tmp, Pack(MAX_SEQUENCE, Value));
      InternalKeyParts(tmp, Pack(MAX_SEQUENCE, Value));
    }
  }

  method FindShortInternalSuccessor(key: Bytes) returns (sep: Bytes)
    requires |key| >= 8
    ensures |sep| >= 8 && (sep == key || BytesLess(UserOf(key), UserOf(sep)))
  {
    hide Fixed, ReadFixed;
    var userKey := UserOf(key);
    var tmp := FindShortSuccessor(userKey);
    sep := key;
    if |tmp| < |userKey| && BytesLess(userKey, tmp) {
      sep := InternalKey(tmp, Pack(MAX_SEQUENCE, Value));
      InternalKeyParts(tmp, Pack(MAX_SEQUENCE, Value));
    }
  }

  /** last key of a block <= separator < first key of the next. */
  lemma SeparatorBetween(start: Bytes, limit: Bytes, sep: Bytes)
    requires Separates(start, limit, sep) && InternalLess(start, limit)
    ensures (sep == start || InternalLess(start, sep)) && InternalLess(sep, limit)
  {
  }

  /** A target that the index sends to the block before `limit`, although nothing in that block reaches it,
      shares its user key with nothing from `limit` on. */
  lemma NothingBeyond(start: Bytes, limit: Bytes, sep: Bytes, target: Bytes, e: Bytes)
    requires Separates(start, limit, sep) && |target| >= 8 && |e| >= 8
    requires !InternalLess(sep, target) && InternalLess(start, target)
    requires e == limit || InternalLess(limit, e)
    ensures UserOf(e) != UserOf(target)
  {
    hide NumOf;
    LessTotal(UserOf(sep), UserOf(target));
    if UserOf(limit) != UserOf(e) {
      LessTransitive(UserOf(sep), UserOf(limit), UserOf(e));
    }
    if UserOf(sep) != UserOf(target) {
      LessTransitive(UserOf(target), UserOf(sep), UserOf(e));
    }
    LessIrreflexive(UserOf(e));
  }
}
