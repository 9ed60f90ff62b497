/** Bytes that other programs write and read: each format with one small value spelled out. */
module Formats {
  import opened Keys
  import opened Coding
  import B = WriteBatches
  import E = EditCodecs
  import L = Logs
  import K = Blocks
  import S = Separators
  import P = Protos

  lemma KnownIntegers()
    ensures Varint(1) == [1] && Varint(300) == [0xac, 0x02]
    ensures Fixed(0x0403_0201, 4) == [1, 2, 3, 4]
    ensures Prefixed([0x61, 0x62]) == [2, 0x61, 0x62]
  {
    assert Fixed(0x0403, 2) == [3, 4];
    assert Varint(300) == [0xac] + Varint(2);
  }

  lemma KnownZeros()
    ensures Fixed(7, 8) == [7, 0, 0, 0, 0, 0, 0, 0] && Fixed(2, 4) == [2, 0, 0, 0]
  {
    assert Fixed(0, 3) == [0, 0, 0];
    assert Fixed(0, 7) == [0, 0, 0, 0] + Fixed(0, 3);
  }

  /** A batch at sequence 7 that puts "v" under "k" and deletes "k". */
  lemma KnownBatch()
    ensures B.Encoded(7, [B.Put([0x6b], [0x76]), B.Delete([0x6b])])
      == [7, 0, 0, 0, 0, 0, 0, 0] + [2, 0, 0, 0] + [1, 1, 0x6b, 1, 0x76] + [0, 1, 0x6b]
  {
    KnownZeros();
    var put, del := B.Put([0x6b], [0x76]), B.Delete([0x6b]);
    assert [put, del][..1] == [put] && [put][..0] == [];
    assert B.Records([put]) == [] + B.Record(put);
    assert B.Record(put) == [1, 1, 0x6b, 1, 0x76] && B.Record(del) == [0, 1, 0x6b];
  }

  /** The tags of a version edit; 8 was used for large value references. */
  lemma KnownEdits()
    ensures E.Written(E.Comparator([0x63])) == [1, 1, 0x63]
    ensures E.Written(E.LogNumber(5)) == [2, 5] && E.Written(E.NextFileNumber(6)) == [3, 6] && E.Written(E.LastSequence(7)) == [4, 7]
    ensures E.Written(E.CompactPointer(2, [0x6b])) == [5, 2, 1, 0x6b] && E.Written(E.DeletedFile(3, 8)) == [6, 3, 8]
    ensures E.Written(E.NewFile(1, E.FileMeta(9, 100, [0x61], [0x7a]))) == [7, 1, 9, 100, 1, 0x61, 1, 0x7a]
    ensures E.Written(E.PrevLogNumber(4)) == [9, 4]
  {
  }

  /** Behind the four bytes of its checksum a log fragment has its length, low byte first, its type and its payload. */
  lemma KnownFragment(payload: Bytes)
    requires |payload| == 258
    ensures L.Physical(1, payload)[4..7] == [2, 1, 1] && L.Physical(1, payload)[7..] == payload
  {
    L.FixedTwo(258);
  }

  /** "abd" after "abc" in a block. */
  lemma KnownEntry()
    ensures K.EntryBytes(2, K.Pair([0x61, 0x62, 0x64], [0x76])) == [2, 1, 1, 0x64, 0x76]
  {
    assert [0x61, 0x62, 0x64][2..] == [0x64];
  }

  /** An internal key ends in its sequence number, shifted by the type byte; values have type 1. */
  lemma KnownInternalKey()
    ensures S.InternalKey([0x6b], S.Pack(2, Value)) == [0x6b] + [1, 2, 0, 0, 0, 0, 0, 0]
    ensures S.InternalKey([0x6b], S.Pack(2, Deletion)) == [0x6b] + [0, 2, 0, 0, 0, 0, 0, 0]
  {
    assert Fixed(0, 6) == [0, 0, 0] + Fixed(0, 3) && Fixed(0, 3) == [0, 0, 0];
    assert Fixed(513, 8) == [1] + Fixed(2, 7) && Fixed(2, 7) == [2] + Fixed(0, 6);
    assert Fixed(512, 8) == [0] + Fixed(2, 7);
  }

  /** Protocol Buffers: field 1 with 150, field 2 with the string "testing", a fixed 32-bit field 3, a signed field 4
      with -1 in ZigZag form, and a negative int32 in ten bytes. */
  lemma KnownFields()
    ensures P.TagBytes(1, P.WireType(P.TInt(32))) + P.ValueBytes(P.TInt(32), P.VInt(150)) == [0x08, 0x96, 0x01]
    ensures var s := [0x74, 0x65, 0x73, 0x74, 0x69, 0x6e, 0x67];
      P.TagBytes(2, P.WireType(P.TString(10))) + P.ValueBytes(P.TString(10), P.VBytes(s)) == [0x12, 0x07] + s
    ensures P.TagBytes(3, P.WireType(P.TFixed32)) + P.ValueBytes(P.TFixed32, P.VInt(0x0403_0201)) == [0x1d, 1, 2, 3, 4]
    ensures P.TagBytes(4, P.WireType(P.TSInt(32))) + P.ValueBytes(P.TSInt(32), P.VInt(-1)) == [0x20, 0x01]
    ensures P.TagBytes(5, P.WireType(P.TFixed64)) == [0x29]
  {
    KnownIntegers();
    assert Varint(150) == [0x96] + Varint(1);
  }
}
