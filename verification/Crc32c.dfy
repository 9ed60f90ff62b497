/** The checksum of stored records and its masked form (util/crc32c.h, util/crc32c.cc). */
module Crc32c {
  import opened Keys

  type word = x: int | 0 <= x < WORD32

  /** Bitwise exclusive or of the low n bits. */
  function Xor(a: nat, b: nat, n: nat): (r: nat)
    ensures r <= 2 * Top(n) - 1
  {
    if n == 0 then 0 else (a + b) % 2 + 2 * Xor(a / 2, b / 2, n - 1)
  }

  /** Half of 2 to the n, rounded up: the weight of the highest of n bits. */
  function Top(n: nat): (r: nat)
    ensures r >= 1
  {
    if n <= 1 then 1 else 2 * Top(n - 1)
  }

  lemma Top32()
    ensures Top(32) == 0x8000_0000
  {
    assert Top(8) == 2 * (2 * (2 * (2 * Top(4)))) == 128;
    assert Top(16) == 256 * Top(8) by {
      assert Top(12) == 2 * (2 * (2 * (2 * Top(8)))) && Top(16) == 2 * (2 * (2 * (2 * Top(12))));
    }
    assert Top(24) == 256 * Top(16) by {
      assert Top(20) == 2 * (2 * (2 * (2 * Top(16)))) && Top(24) == 2 * (2 * (2 * (2 * Top(20))));
    }
    assert Top(28) == 2 * (2 * (2 * (2 * Top(24)))) && Top(32) == 2 * (2 * (2 * (2 * Top(28))));
  }

  function Xor32(a: word, b: word): word {
    Top32();
    Xor(a, b, 32)
  }

  /** One bit of the reflected Castagnoli polynomial. */
  function ShiftBit(c: word): word {
    if c % 2 == 1 then Xor32(c / 2, 0x82f6_3b78) else c / 2
  }

  function ShiftBits(c: word, n: nat): word
    decreases n
  {
    if n == 0 then c else ShiftBits(ShiftBit(c), n - 1)
  }

  function Fold(c: word, s: Bytes): word
    decreases s
  {
    if s == [] then c else Fold(ShiftBits(Xor32(c, s[0]), 8), s[1..])
  }

  /** The checksum of a string appended to one whose checksum is `crc`: inverted on the way in and out. */
  function Extend(crc: word, s: Bytes): word {
    WORD32 - 1 - Fold(WORD32 - 1 - crc, s)
  }

  function Sum(s: Bytes): word {
    Extend(0, s)
  }

  lemma {:induction false} FoldConcat(c: word, s: Bytes, t: Bytes)
    ensures Fold(c, s + t) == Fold(Fold(c, s), t)
    decreases s
  {
    hide Xor32, ShiftBits;
    if s == [] {
      assert s + t == t;
    } else {
      assert (s + t)[0] == s[0] && (s + t)[1..] == s[1..] + t;
      FoldConcat(ShiftBits(Xor32(c, s[0]), 8), s[1..], t);
    }
  }

  /** The writer extends a stored checksum of the type byte; the reader sums type and payload at once. */
  lemma ExtendConcat(crc: word, s: Bytes, t: Bytes)
    ensures Extend(crc, s + t) == Extend(Extend(crc, s), t)
  {
    hide Fold;
    FoldConcat(WORD32 - 1 - crc, s, t);
  }

  // One changed byte always changes the checksum: each step of the division can be undone.

  lemma {:induction false} XorUndone(a: nat, a': nat, b: nat, n: nat)
    requires n > 0 && a < 2 * Top(n) && a' < 2 * Top(n) && a != a'
    ensures Xor(a, b, n) != Xor(a', b, n)
  {
    Halves(a, a', n);
    if n > 1 && a / 2 != a' / 2 {
      XorUndone(a / 2, a' / 2, b / 2, n - 1);
      NotEqual((a + b) % 2, Xor(a / 2, b / 2, n - 1), (a' + b) % 2, Xor(a' / 2, b / 2, n - 1));
    } else {
      Parity(a, a', b);
      NotEqual((a + b) % 2, Xor(a / 2, b / 2, n - 1), (a' + b) % 2, Xor(a' / 2, b / 2, n - 1));
    }
  }

  lemma Halves(a: nat, a': nat, n: nat)
    requires n > 0 && a < 2 * Top(n) && a' < 2 * Top(n) && a != a'
    ensures if n > 1 then a / 2 < 2 * Top(n - 1) && a' / 2 < 2 * Top(n - 1) else a / 2 == a' / 2
  {
  }

  lemma Parity(a: nat, a': nat, b: nat)
    requires a != a' && a / 2 == a' / 2
    ensures (a + b) % 2 != (a' + b) % 2
  {
    assert a == 2 * (a / 2) + a % 2 && a' == 2 * (a' / 2) + a' % 2;
  }

  lemma NotEqual(x: nat, y: nat, x': nat, y': nat)
    requires x < 2 && x' < 2 && (x != x' || y != y')
    ensures x + 2 * y != x' + 2 * y'
  {
  }

  lemma {:induction false} XorCommutes(a: nat, b: nat, n: nat)
    ensures Xor(a, b, n) == Xor(b, a, n)
  {
    if n > 0 {
      XorCommutes(a / 2, b / 2, n - 1);
    }
  }

  /** The polynomial has its highest bit set. */
  lemma {:induction false} XorHigh(a: nat, b: nat, n: nat)
    requires n > 0 && a < Top(n) <= b < 2 * Top(n)
    ensures Xor(a, b, n) >= Top(n)
  {
    if n > 1 {
      XorHigh(a / 2, b / 2, n - 1);
    }
  }

  lemma ShiftUndone(c: word, c': word)
    requires c != c'
    ensures ShiftBit(c) != ShiftBit(c')
  {
    hide Xor;
    Top32();
    if c % 2 == 1 && c' % 2 == 1 {
      XorUndone(c / 2, c' / 2, 0x82f6_3b78, 32);
    } else if c % 2 == 1 {
      XorHigh(c / 2, 0x82f6_3b78, 32);
    } else if c' % 2 == 1 {
      XorHigh(c' / 2, 0x82f6_3b78, 32);
    }
  }

  lemma {:induction false} ShiftsUndone(c: word, c': word, n: nat)
    requires c != c'
    ensures ShiftBits(c, n) != ShiftBits(c', n)
    decreases n
  {
    if n > 0 {
      ShiftUndone(c, c');
      ShiftsUndone(ShiftBit(c), ShiftBit(c'), n - 1);
    }
  }

  lemma {:induction false} FoldUndone(c: word, c': word, s: Bytes)
    requires c != c'
    ensures Fold(c, s) != Fold(c', s)
    decreases s
  {
    hide ShiftBits, Xor;
    if s != [] {
      Top32();
      XorUndone(c, c', s[0], 32);
      ShiftsUndone(Xor32(c, s[0]), Xor32(c', s[0]), 8);
      FoldUndone(ShiftBits(Xor32(c, s[0]), 8), ShiftBits(Xor32(c', s[0]), 8), s[1..]);
    }
  }

  lemma {:induction false} FoldDiffers(c: word, s: Bytes, i: nat, x: byte)
    requires i < |s| && s[i] != x
    ensures Fold(c, s[i := x]) != Fold(c, s)
    decreases s
  {
    hide ShiftBits, Xor;
    if i == 0 {
      Top32();
      XorUndone(s[0], x, c, 32);
      XorCommutes(c, s[0], 32);
      XorCommutes(c, x, 32);
      ShiftsUndone(Xor32(c, s[0]), Xor32(c, x), 8);
      FoldUndone(ShiftBits(Xor32(c, s[0]), 8), ShiftBits(Xor32(c, x), 8), s[1..]);
      assert s[0 := x][1..] == s[1..];
    } else {
      FoldDiffers(ShiftBits(Xor32(c, s[0]), 8), s[1..], i - 1, x);
      assert s[i := x][1..] == s[1..][i - 1 := x];
    }
  }

  lemma ChangedByteChangesSum(s: Bytes, i: nat, x: byte)
    requires i < |s| && s[i] != x
    ensures Sum(s[i := x]) != Sum(s)
  {
    FoldDiffers(WORD32 - 1, s, i, x);
  }

  const DELTA: word := 0xa282_ead8

  /** Rotate right by 15 bits and add a constant, in 32 bits. */
  function Mask(crc: word): word {
    (crc / 0x8000 + crc % 0x8000 * 0x2_0000 + DELTA) % WORD32
  }

  function Unmask(masked: word): word {
    var rot := (masked - DELTA) % WORD32;
    rot / 0x2_0000 + rot % 0x2_0000 * 0x8000
  }

  lemma UnmaskDiffers(a: word, b: word)
    requires a != b
    ensures Unmask(a) != Unmask(b)
  {
    var r, q := (a - DELTA) % WORD32, (b - DELTA) % WORD32;
    assert r == if a >= DELTA then a - DELTA else a - DELTA + WORD32;
    assert q == if b >= DELTA then b - DELTA else b - DELTA + WORD32;
    RotationDiffers(r / 0x2_0000, r % 0x2_0000, q / 0x2_0000, q % 0x2_0000);
  }

  lemma RotationDiffers(high: nat, low: nat, high': nat, low': nat)
    requires high < 0x8000 && high' < 0x8000 && (high != high' || low != low')
    ensures high + low * 0x8000 != high' + low' * 0x8000
  {
  }

  lemma UnmaskMask(crc: word)
    ensures Unmask(Mask(crc)) == crc
  {
    var high, low := crc / 0x8000, crc % 0x8000;
    var rot := high + low * 0x2_0000;
    assert Mask(crc) == if rot + DELTA < WORD32 then rot + DELTA else rot + DELTA - WORD32;
    assert (Mask(crc) - DELTA) % WORD32 == rot;
    assert high < 0x2_0000;
    assert rot / 0x2_0000 == low;
    assert rot % 0x2_0000 == high;
  }
}
