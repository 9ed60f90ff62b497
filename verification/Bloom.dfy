/** The Bloom filter policy over an arbitrary 32-bit hash (util/bloom.cc). */
module Blooms {
  import opened Keys
  import opened Coding
  import opened Crc32c

  predicate HasBit(x: nat, b: nat) {
    if b == 0 then x % 2 == 1 else HasBit(x / 2, b - 1)
  }

  /** x | (1 << b) */
  function SetBit(x: nat, b: nat): nat {
    if b == 0 then x + (1 - x % 2) else x % 2 + 2 * SetBit(x / 2, b - 1)
  }

  lemma {:induction false} SetBitIs(x: nat, b: nat, c: nat)
    ensures HasBit(SetBit(x, b), c) <==> HasBit(x, c) || b == c
  {
    if b > 0 && c > 0 {
      SetBitIs(x / 2, b - 1, c - 1);
    }
  }

  lemma {:induction false} SetBitFits(x: nat, b: nat, n: nat)
    requires b < n && x < Pow(2, n)
    ensures SetBit(x, b) < Pow(2, n)
  {
    if b > 0 {
      SetBitFits(x / 2, b - 1, n - 1);
    }
  }

  function SetBitOfByte(x: byte, b: nat): byte
    requires b < 8
  {
    assert Pow(2, 8) == 256 by {
      assert Pow(2, 4) == 2 * (2 * Pow(2, 2)) == 16;
      assert Pow(2, 8) == 2 * (2 * Pow(2, 6)) && Pow(2, 6) == 2 * (2 * Pow(2, 4));
    }
    SetBitFits(x, b, 8);
    SetBit(x, b)
  }

  lemma {:induction false} ZeroHasNoBit(b: nat)
    ensures !HasBit(0, b)
  {
    if b > 0 {
      ZeroHasNoBit(b - 1);
    }
  }

  predicate BitAt(bits: Bytes, p: nat)
    requires p < 8 * |bits|
  {
    HasBit(bits[p / 8], p % 8)
  }

  /** Double hashing: the j-th probe adds the rotated hash j times, in 32 bits. */
  function Probe(h: word, delta: word, j: nat): word
    decreases j
  {
    if j == 0 then h else (Probe(h, delta, j - 1) + delta) % WORD32
  }

  function Rotated(h: word): word {
    h / 0x2_0000 + h % 0x2_0000 * 0x8000
  }

  class BloomFilterPolicy {
    const hash: Bytes -> word
    const bitsPerKey: nat
    const k: nat

    ghost predicate Valid() {
      1 <= k <= 30
    }

    constructor (bitsPerKey: nat, hash: Bytes -> word)
      ensures Valid() && this.bitsPerKey == bitsPerKey && this.hash == hash
    {
      this.hash, this.bitsPerKey := hash, bitsPerKey;
      var probes := (bitsPerKey as real * 0.69).Floor;
      k := if probes < 1 then 1 else if probes > 30 then 30 else probes;
    }

    /** The bit that probe j of a key looks at. */
    function Position(key: Bytes, j: nat, bits: nat): nat
      requires bits > 0
    {
      Probe(hash(key), Rotated(hash(key)), j) % bits
    }

    /** Bit p is set on account of one of the keys. */
    ghost predicate Wanted(keys: seq<Bytes>, probes: nat, bits: nat, p: nat)
      requires bits > 0
    {
      exists i, j :: 0 <= i < |keys| && 0 <= j < probes && Position(keys[i], j, bits) == p
    }

    /** The filter of `keys`: their bits and no others, then the number of probes. */
    ghost predicate IsFilter(keys: seq<Bytes>, filter: Bytes) {
      && |filter| >= 9
      && filter[|filter| - 1] == k
      && 8 * (|filter| - 1) >= |keys| * bitsPerKey
      && BitsAre(keys, filter[..|filter| - 1])
    }

    ghost predicate BitsAre(keys: seq<Bytes>, array_: Bytes)
      requires array_ != []
    {
      forall p | 0 <= p < 8 * |array_| :: BitAt(array_, p) <==> Wanted(keys, k, 8 * |array_|, p)
    }

    method CreateFilter(keys: seq<Bytes>, dst: Bytes) returns (r: Bytes)
      requires Valid()
      ensures |dst| <= |r| && r[..|dst|] == dst && IsFilter(keys, r[|dst|..])
    {
      var bits := |keys| * bitsPerKey;
      if bits < 64 {
        bits := 64;
      }
      var bytes := (bits + 7) / 8;
      bits := bytes * 8;
      var a: Bytes := seq(bytes, _ => 0);
      forall p | 0 <= p < bits
        ensures !BitAt(a, p)
      {
        ZeroHasNoBit(p % 8);
      }
      for i := 0 to |keys|
        invariant |a| == bytes
        invariant forall p | 0 <= p < bits :: BitAt(a, p) <==> Wanted(keys[..i], k, bits, p)
      {
        a := SetProbes(a, keys[i]);
        OneMoreKey(keys, i, bits);
      }
      assert keys[..|keys|] == keys;
      r := dst + a + [k];
      assert r[|dst|..] == a + [k] && (a + [k])[..bytes] == a;
    }

    method SetProbes(before: Bytes, key: Bytes) returns (a: Bytes)
      requires before != []
      ensures |a| == |before|
      ensures forall p | 0 <= p < 8 * |a| :: BitAt(a, p) <==> BitAt(before, p) || Wanted([key], k, 8 * |a|, p)
    {
      hide SetBitOfByte, HasBit;
      a := before;
      var h, bits := hash(key), 8 * |before|;
      var delta := Rotated(h);
      for j := 0 to k
        invariant |a| == |before| && h == Probe(hash(key), delta, j)
        invariant forall p | 0 <= p < bits :: BitAt(a, p) <==> BitAt(before, p) || Wanted([key], j, bits, p)
      {
        var pos := h % bits;
        ghost var a0 := a;
        a := a[pos / 8 := SetBitOfByte(a[pos / 8], pos % 8)];
        forall p | 0 <= p < bits
          ensures BitAt(a, p) <==> BitAt(a0, p) || p == pos
        {
          SetBitAt(a0, pos, p);
        }
        OneMoreProbe(key, j, bits);
        h := (h + delta) % WORD32;
      }
    }

    lemma OneMoreProbe(key: Bytes, j: nat, bits: nat)
      requires bits > 0
      ensures forall p | 0 <= p < bits :: Wanted([key], j + 1, bits, p) <==> Wanted([key], j, bits, p) || p == Position(key, j, bits)
    {
      forall p | 0 <= p < bits
        ensures Wanted([key], j + 1, bits, p) <==> Wanted([key], j, bits, p) || p == Position(key, j, bits)
      {
        if p == Position(key, j, bits) {
          assert Position([key][0], j, bits) == p;
        }
        if Wanted([key], j + 1, bits, p) && p != Position(key, j, bits) {
          var i, l :| 0 <= i < 1 && 0 <= l < j + 1 && Position([key][i], l, bits) == p;
          assert Position([key][i], l, bits) == p && l < j;
        }
      }
    }

    lemma OneMoreKey(keys: seq<Bytes>, i: nat, bits: nat)
      requires bits > 0 && i < |keys|
      ensures forall p | 0 <= p < bits ::
        Wanted(keys[..i + 1], k, bits, p) <==> Wanted(keys[..i], k, bits, p) || Wanted([keys[i]], k, bits, p)
    {
      forall p | 0 <= p < bits
        ensures Wanted(keys[..i + 1], k, bits, p) <==> Wanted(keys[..i], k, bits, p) || Wanted([keys[i]], k, bits, p)
      {
        if Wanted(keys[..i + 1], k, bits, p) {
          var l, j :| 0 <= l < i + 1 && 0 <= j < k && Position(keys[..i + 1][l], j, bits) == p;
          assert l < i ==> Position(keys[..i][l], j, bits) == p;
          assert l == i ==> Position([keys[i]][0], j, bits) == p;
        }
        if Wanted(keys[..i], k, bits, p) {
          var l, j :| 0 <= l < i && 0 <= j < k && Position(keys[..i][l], j, bits) == p;
          assert Position(keys[..i + 1][l], j, bits) == p;
        }
        if Wanted([keys[i]], k, bits, p) {
          var l, j :| 0 <= l < 1 && 0 <= j < k && Position([keys[i]][l], j, bits) == p;
          assert Position(keys[..i + 1][i], j, bits) == p;
        }
      }
    }

    /** The probes the filter itself asks for; more than 30 are reserved and always match. */
    predicate Matches(key: Bytes, filter: Bytes) {
      && |filter| >= 2
      && var probes := filter[|filter| - 1];
      && (probes > 30 || AllHit(key, filter[..|filter| - 1], probes))
    }

    predicate AllHit(key: Bytes, array_: Bytes, probes: nat)
      requires array_ != []
    {
      forall j | 0 <= j < probes :: Hits(key, array_, j)
    }

    predicate Hits(key: Bytes, array_: Bytes, j: nat)
      requires array_ != []
    {
      BitAt(array_, Position(key, j, 8 * |array_|))
    }

    method KeyMayMatch(key: Bytes, filter: Bytes) returns (r: bool)
      ensures r == Matches(key, filter)
    {
      if |filter| < 2 {
        return false;
      }
      var array_, bits := filter[..|filter| - 1], (|filter| - 1) * 8;
      var probes := filter[|filter| - 1];
      if probes > 30 {
        return true;
      }
      var h := hash(key);
      var delta := Rotated(h);
      for j := 0 to probes
        invariant h == Probe(hash(key), delta, j)
        invariant forall i | 0 <= i < j :: Hits(key, array_, i)
      {
        var pos := h % bits;
        if !HasBit(array_[pos / 8], pos % 8) {
          assert !Hits(key, array_, j);
          return false;
        }
        h := (h + delta) % WORD32;
      }
      return true;
    }

    /** Some key asked for the bit that probe j of `key` looks at. */
    ghost predicate ProbeWanted(keys: seq<Bytes>, bits: nat, key: Bytes, j: nat)
      requires bits > 0
    {
      Wanted(keys, k, bits, Position(key, j, bits))
    }

    /** A key matches exactly when each of its probes is at a bit that some key of the filter asked for. */
    lemma MatchesWanted(keys: seq<Bytes>, filter: Bytes, key: Bytes, bits: nat)
      requires Valid() && IsFilter(keys, filter) && bits == 8 * (|filter| - 1)
      ensures Matches(key, filter) <==> forall j | 0 <= j < k :: ProbeWanted(keys, bits, key, j)
    {
      hide Wanted, Probe;
      var array_ := filter[..|filter| - 1];
      forall j | 0 <= j < k
        ensures Hits(key, array_, j) <==> ProbeWanted(keys, bits, key, j)
      {
        assert 0 <= Position(key, j, bits) < bits;
      }
    }

    /** No false negatives, for any hash. */
    lemma AddedKeysMatch(keys: seq<Bytes>, filter: Bytes, key: Bytes)
      requires Valid() && IsFilter(keys, filter) && key in keys
      ensures Matches(key, filter)
    {
      var i :| 0 <= i < |keys| && keys[i] == key;
      var array_ := filter[..|filter| - 1];
      var bits := 8 * |array_|;
      forall j | 0 <= j < k
        ensures Hits(key, array_, j)
      {
        assert Position(keys[i], j, bits) == Position(key, j, bits);
        assert Wanted(keys, k, bits, Position(key, j, bits));
      }
    }
  }

  lemma SetBitAt(a: Bytes, pos: nat, p: nat)
    requires pos < 8 * |a| && p < 8 * |a|
    ensures BitAt(a[pos / 8 := SetBitOfByte(a[pos / 8], pos % 8)], p) <==> BitAt(a, p) || p == pos
  {
    if p / 8 == pos / 8 {
      SetBitIs(a[pos / 8], pos % 8, p % 8);
    }
  }
}
