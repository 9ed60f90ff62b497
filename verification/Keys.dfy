/** User keys, internal keys and their orders (dbformat.h, dbformat.cc, comparator.cc). */
module Keys {

  const WORD32: nat := 0x1_0000_0000
  const WORD64: nat := 0x1_0000_0000_0000_0000

  type byte = b: int | 0 <= b < 256
  type Bytes = seq<byte>

  /** The order of the bytewise comparator: unsigned bytes first, then length. */
  predicate BytesLess(a: Bytes, b: Bytes) {
    if b == [] then false
    else if a == [] then true
    else a[0] < b[0] || (a[0] == b[0] && BytesLess(a[1..], b[1..]))
  }

  /** The position of a byte string in the unit interval: base-257 digits, where digit 0 is "no byte". */
  function Rank(k: Bytes): (r: real)
    ensures 0.0 <= r < 1.0
  {
    if k == [] then 0.0 else (k[0] as real + 1.0 + Rank(k[1..])) / 257.0
  }

  /** User keys reach the database only through a comparator. The project therefore represents a key
      by its rank; `RankEmbedsBytes` shows that nothing about the order of byte strings is lost. */
  type UserKey = real

  lemma {:induction false} RankEmbedsBytes(a: Bytes, b: Bytes)
    ensures BytesLess(a, b) <==> Rank(a) < Rank(b)
    ensures a == b <==> Rank(a) == Rank(b)
  {
    if a == [] || b == [] {
    } else {
      RankEmbedsBytes(a[1..], b[1..]);
      assert a == [a[0]] + a[1..] && b == [b[0]] + b[1..];
    }
  }

  datatype Kind = Deletion | Value

  const NUM_LEVELS: nat := 7

  const MAX_SEQUENCE: nat := 0xFF_FFFF_FFFF_FFFF

  datatype IKey = IKey(user: UserKey, sn: nat, kind: Kind)

  /** Increasing user key, then decreasing sequence number, then decreasing type. */
  predicate Less(a: IKey, b: IKey) {
    || a.user < b.user
    || (a.user == b.user && (a.sn > b.sn || (a.sn == b.sn && a.kind == Value && b.kind == Deletion)))
  }

  predicate AtMost(a: IKey, b: IKey) {
    !Less(b, a)
  }

  /** The key a read of `u` at sequence `s` seeks to: the smallest internal key with sequence at most `s`. */
  function Target(u: UserKey, s: nat): IKey {
    IKey(u, s, Value)
  }
}
