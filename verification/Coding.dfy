/** Fixed-width and variable-length integers, and length-prefixed strings (util/coding.cc). */
module Coding {
  import opened Keys
  import opened Entries

  function Pow(b: nat, n: nat): (p: nat)
    ensures b > 0 ==> p > 0
  {
    if n == 0 then 1 else b * Pow(b, n - 1)
  }

  // Base-128 varints, low group first; the top bit of a byte says that another one follows.

  function Varint(v: nat): (r: Bytes)
    ensures |r| >= 1
  {
    if v < 128 then [v] else [v % 128 + 128] + Varint(v / 128)
  }

  /** A varint of at most `n` bytes at the front of `s`, and the bytes after it. */
  function ReadVarint(s: Bytes, n: nat): Option<(nat, Bytes)> {
    if n == 0 || s == [] then None
    else if s[0] < 128 then Some((s[0], s[1..]))
    else match ReadVarint(s[1..], n - 1)
      case None => None
      case Some((v, rest)) => Some((s[0] - 128 + 128 * v, rest))
  }

  function Truncated(r: Option<(nat, Bytes)>, word: nat): Option<(nat, Bytes)>
    requires word > 0
  {
    match r
    case None => None
    case Some((v, rest)) => Some((v % word, rest))
  }

  /** The decoders stop at five (ten) bytes and keep the low 32 (64) bits. */
  function GetVarint32(s: Bytes): Option<(nat, Bytes)> {
    Truncated(ReadVarint(s, 5), WORD32)
  }

  function GetVarint64(s: Bytes): Option<(nat, Bytes)> {
    Truncated(ReadVarint(s, 10), WORD64)
  }

  lemma {:induction false} ReadVarintRoundTrip(v: nat, n: nat, rest: Bytes)
    requires n > 0 && v < Pow(128, n)
    ensures ReadVarint(Varint(v) + rest, n) == Some((v, rest))
    ensures |Varint(v)| <= n
  {
    if v < 128 {
      assert (Varint(v) + rest)[1..] == rest;
    } else {
      assert (Varint(v) + rest)[1..] == Varint(v / 128) + rest;
      ReadVarintRoundTrip(v / 128, n - 1, rest);
    }
  }

  lemma PowersOf128()
    ensures Pow(128, 5) == 0x8_0000_0000
    ensures Pow(128, 10) == 0x40_0000_0000_0000_0000
  {
    assert Pow(128, 2) == 128 * Pow(128, 1) == 16384;
    assert Pow(128, 4) == 128 * Pow(128, 3) == 268435456;
    assert Pow(128, 6) == 128 * Pow(128, 5);
    assert Pow(128, 8) == 128 * Pow(128, 7);
  }

  lemma Varint32RoundTrip(v: nat, rest: Bytes)
    requires v < WORD32
    ensures GetVarint32(Varint(v) + rest) == Some((v, rest)) && |Varint(v)| <= 5
  {
    hide Pow, Varint, ReadVarint;
    PowersOf128();
    ReadVarintRoundTrip(v, 5, rest);
  }

  lemma Varint64RoundTrip(v: nat, rest: Bytes)
    requires v < WORD64
    ensures GetVarint64(Varint(v) + rest) == Some((v, rest)) && |Varint(v)| <= 10
  {
    hide Pow, Varint, ReadVarint;
    PowersOf128();
    ReadVarintRoundTrip(v, 10, rest);
  }

  /** The five unrolled cases of the 32-bit encoder. */
  method PutVarint32(dst: Bytes, v: nat) returns (r: Bytes)
    requires v < WORD32
    ensures r == dst + Varint(v)
  {
    if v < 0x80 {
      r := dst + [v];
    } else if v < 0x4000 {
      r := dst + [v % 128 + 128, v / 0x80];
    } else if v < 0x20_0000 {
      r := dst + [v % 128 + 128, v / 0x80 % 128 + 128, v / 0x4000];
      assert Varint(v / 0x80) == [v / 0x80 % 128 + 128] + Varint(v / 0x4000);
    } else if v < 0x1000_0000 {
      r := dst + [v % 128 + 128, v / 0x80 % 128 + 128, v / 0x4000 % 128 + 128, v / 0x20_0000];
      assert Varint(v / 0x4000) == [v / 0x4000 % 128 + 128] + Varint(v / 0x20_0000);
      assert Varint(v / 0x80) == [v / 0x80 % 128 + 128] + Varint(v / 0x4000);
    } else {
      r := dst + [v % 128 + 128, v / 0x80 % 128 + 128, v / 0x4000 % 128 + 128, v / 0x20_0000 % 128 + 128, v / 0x1000_0000];
      assert Varint(v / 0x20_0000) == [v / 0x20_0000 % 128 + 128] + Varint(v / 0x1000_0000);
      assert Varint(v / 0x4000) == [v / 0x4000 % 128 + 128] + Varint(v / 0x20_0000);
      assert Varint(v / 0x80) == [v / 0x80 % 128 + 128] + Varint(v / 0x4000);
    }
  }

  lemma QuotientIs(v: nat, d: nat, q: nat, r: nat)
    requires v == d * q + r && r < d
    ensures v / d == q
  {
    var k := v / d - q;
    assert d * k == r - v % d;
    assert k >= 1 ==> d * k >= d;
    assert k <= -1 ==> d * k + d <= 0;
  }

  method PutVarint64(dst: Bytes, v: nat) returns (r: Bytes)
    ensures r == dst + Varint(v)
  {
    var w := v;
    r := dst;
    while w >= 128
      invariant r + Varint(w) == dst + Varint(v)
    {
      r := r + [w % 128 + 128];
      w := w / 128;
    }
    r := r + [w];
  }

  method VarintLength(v: nat) returns (len: nat)
    ensures len == |Varint(v)|
  {
    len := 1;
    var w := v;
    while w >= 128
      invariant len - 1 + |Varint(w)| == |Varint(v)|
    {
      w := w / 128;
      len := len + 1;
    }
  }

  /** The decoding loop in a word of `word` values: at most n bytes, higher bits shifted out. */
  method GetVarintPtr(s: Bytes, n: nat, word: nat) returns (r: Option<(nat, Bytes)>)
    requires word > 0
    ensures r == Truncated(ReadVarint(s, n), word)
  {
    hide Prepend, Shifted;
    var p: nat, result: nat, unit: nat := 0, 0, 1;
    ghost var low: nat := 0;
    PrependNothing(ReadVarint(s, n), word);
    assert s[0..] == s;
    while p < n && p < |s|
      invariant 0 <= p <= n
      invariant p <= |s|
      invariant result == low % word && ReadVarint(s, n) == Prepend(low, unit, ReadVarint(s[p..], n - p))
    {
      var b := s[p];
      p := p + 1;
      assert s[p - 1..][1..] == s[p..];
      assert b % 128 == if b < 128 then b else b - 128;
      ModAdd(low, Shifted(unit, b % 128), word);
      result := (result + Shifted(unit, b % 128)) % word;
      if b < 128 {
        PrependLast(low, unit, b, s[p..]);
        return Some((result, s[p..]));
      }
      PrependStep(low, unit, b - 128, ReadVarint(s[p..], n - p));
      low := low + Shifted(unit, b % 128);
      unit := unit * 128;
    }
    PrependNone(low, unit);
    r := None;
  }

  /** A group of bits at its place in the number. */
  function Shifted(unit: nat, group: nat): nat {
    unit * group
  }

  /** A low part in front of a number. */
  ghost function Prepend(low: nat, unit: nat, r: Option<(nat, Bytes)>): Option<(nat, Bytes)> {
    match r
    case None => None
    case Some((v, rest)) => Some((low + unit * v, rest))
  }

  lemma PrependNothing(r: Option<(nat, Bytes)>, word: nat)
    requires word > 0
    ensures Prepend(0, 1, r) == r && 0 % word == 0
  {
  }

  lemma PrependNone(low: nat, unit: nat)
    ensures Prepend(low, unit, None) == None
  {
  }

  lemma PrependLast(low: nat, unit: nat, b: nat, rest: Bytes)
    ensures Prepend(low, unit, Some((b, rest))) == Some((low + Shifted(unit, b), rest))
  {
  }

  lemma PrependStep(low: nat, unit: nat, g: nat, r: Option<(nat, Bytes)>)
    ensures Prepend(low, unit, match r case None => None case Some((v, rest)) => Some((g + 128 * v, rest)))
         == Prepend(low + Shifted(unit, g), unit * 128, r)
  {
    match r
    case None =>
    case Some((v, _)) => Distribute(unit, g, 128 * v);
  }

  lemma Distribute(a: nat, b: nat, c: nat)
    ensures a * (b + c) == a * b + a * c
  {
  }

  lemma ModAdd(a: nat, b: nat, m: nat)
    requires m > 0
    ensures (a % m + b) % m == (a + b) % m
  {
    var q, k := (a % m + b) / m, a / m;
    Distribute(m, k, q);
    QuotientIs(a + b, m, k + q, (a % m + b) % m);
  }

  // Little-endian integers of n bytes.

  function Fixed(v: nat, n: nat): (r: Bytes)
    ensures |r| == n
  {
    if n == 0 then [] else [v % 256] + Fixed(v / 256, n - 1)
  }

  function ReadFixed(s: Bytes, n: nat): (v: nat)
    requires |s| >= n
  {
    if n == 0 then 0 else s[0] + 256 * ReadFixed(s[1..], n - 1)
  }

  lemma {:induction false} FixedRoundTrip(v: nat, n: nat, rest: Bytes)
    requires v < Pow(256, n)
    ensures ReadFixed(Fixed(v, n) + rest, n) == v
  {
    if n > 0 {
      assert (Fixed(v, n) + rest)[1..] == Fixed(v / 256, n - 1) + rest;
      FixedRoundTrip(v / 256, n - 1, rest);
    }
  }

  lemma Fixed32RoundTrip(v: nat, rest: Bytes)
    requires v < WORD32
    ensures ReadFixed(Fixed(v, 4) + rest, 4) == v
  {
    assert Pow(256, 4) == 256 * (256 * Pow(256, 2)) == WORD32;
    FixedRoundTrip(v, 4, rest);
  }

  lemma Fixed64RoundTrip(v: nat, rest: Bytes)
    requires v < WORD64
    ensures ReadFixed(Fixed(v, 8) + rest, 8) == v
  {
    assert Pow(256, 4) == 256 * (256 * Pow(256, 2)) == WORD32;
    assert Pow(256, 8) == 256 * (256 * Pow(256, 6)) && Pow(256, 6) == 256 * (256 * Pow(256, 4));
    FixedRoundTrip(v, 8, rest);
  }

  // Arrays of 32-bit integers.

  lemma {:induction false} ReadFixedDiffers(s: Bytes, n: nat, i: nat, x: byte)
    requires i < n <= |s| && s[i] != x
    ensures ReadFixed(s[i := x], n) != ReadFixed(s, n)
  {
    if i == 0 {
      assert s[0 := x][1..] == s[1..];
    } else {
      ReadFixedDiffers(s[1..], n - 1, i - 1, x);
      assert s[i := x][1..] == s[1..][i - 1 := x];
    }
  }

  lemma {:induction false} SameFixed(s: Bytes, t: Bytes, n: nat)
    requires n <= |s| && n <= |t| && forall i | 0 <= i < n :: s[i] == t[i]
    ensures ReadFixed(s, n) == ReadFixed(t, n)
  {
    if n > 0 {
      SameFixed(s[1..], t[1..], n - 1);
    }
  }

  lemma ReadFixedSmall(s: Bytes)
    requires |s| >= 4
    ensures ReadFixed(s, 4) < WORD32
  {
    var a: nat, b: nat, c: nat, d: nat := s[0], s[1], s[2], s[3];
    assert ReadFixed(s[3..], 1) == d && s[2..][1..] == s[3..] && s[1..][1..] == s[2..];
    assert ReadFixed(s[2..], 2) == c + 256 * d;
    assert ReadFixed(s[1..], 3) == b + 256 * (c + 256 * d);
    assert ReadFixed(s, 4) == a + 256 * (b + 256 * (c + 256 * d));
  }

  function FixedAll(xs: seq<nat>): (r: Bytes)
    ensures |r| == 4 * |xs|
  {
    if xs == [] then [] else FixedAll(xs[..|xs| - 1]) + Fixed(xs[|xs| - 1], 4)
  }

  lemma FixedNone()
    ensures FixedAll([]) == []
  {
  }

  lemma FixedOneMore(xs: seq<nat>, x: nat)
    ensures FixedAll(xs + [x]) == FixedAll(xs) + Fixed(x, 4)
  {
    assert (xs + [x])[..|xs|] == xs;
  }

  lemma {:induction false} ReadsFixed(before: Bytes, xs: seq<nat>, after: Bytes, j: nat)
    requires j < |xs| && xs[j] < WORD32
    ensures ReadFixed((before + FixedAll(xs) + after)[|before| + 4 * j..], 4) == xs[j]
  {
    hide ReadFixed, Fixed;
    var n := |xs| - 1;
    var rest, last := FixedAll(xs[..n]), Fixed(xs[n], 4);
    FixedSize(xs[n], 4);
    if j == n {
      assert (before + FixedAll(xs) + after)[|before| + 4 * j..] == last + after;
      Fixed32RoundTrip(xs[n], after);
    } else {
      ReadsFixed(before, xs[..n], last + after, j);
      assert before + FixedAll(xs) + after == before + rest + (last + after);
    }
  }

  lemma FixedSize(v: nat, n: nat)
    ensures |Fixed(v, n)| == n
  {
  }

  lemma FixedAllSize(xs: seq<nat>)
    ensures |FixedAll(xs)| == 4 * |xs|
  {
  }

  // Length-prefixed strings.

  function Prefixed(s: Bytes): Bytes {
    Varint(|s|) + s
  }

  function GetPrefixed(s: Bytes): Option<(Bytes, Bytes)> {
    match GetVarint32(s)
    case None => None
    case Some((len, rest)) => if |rest| >= len then Some((rest[..len], rest[len..])) else None
  }

  lemma {:induction false} ReadVarintShrinks(s: Bytes, n: nat)
    ensures var r := ReadVarint(s, n);
      r.Some? ==> |r.value.1| < |s|
  {
    if n > 0 && s != [] && s[0] >= 128 {
      ReadVarintShrinks(s[1..], n - 1);
    }
  }

  /** Every getter consumes at least one byte. */
  lemma GettersShrink(s: Bytes)
    ensures GetVarint32(s).Some? ==> |GetVarint32(s).value.1| < |s|
    ensures GetVarint64(s).Some? ==> |GetVarint64(s).value.1| < |s|
    ensures GetPrefixed(s).Some? ==> |GetPrefixed(s).value.1| < |s|
  {
    ReadVarintShrinks(s, 5);
    ReadVarintShrinks(s, 10);
  }

  lemma PrefixedRoundTrip(s: Bytes, rest: Bytes)
    requires |s| < WORD32
    ensures GetPrefixed(Prefixed(s) + rest) == Some((s, rest))
  {
    assert Prefixed(s) + rest == Varint(|s|) + (s + rest);
    Varint32RoundTrip(|s|, s + rest);
  }
}
