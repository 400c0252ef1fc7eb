/** Known bytes: one small sample of every format, byte by byte (BSON Specification 1.1, "Examples"; OP_MSG). */
module Samples {
  import opened Bytes
  import opened Bson
  import opened ArrayWriter
  import opened Contents
  import Wire

  const A: NulFree := [97]

  /** The characters of an ASCII string as bytes. */
  function Ascii(s: string): seq<int> {
    seq(|s|, i requires 0 <= i < |s| => s[i] as int)
  }

  lemma FourBytes(a: byte, b: byte, c: byte, d: byte)
    ensures UnLE([a, b, c, d]) == a + 256 * (b + 256 * (c + 256 * d))
  {
    var s := [a, b, c, d];
    assert s[0..] == s && UnLE(s[4..]) == 0;
    hide UnLE;
    LowByte(s, 0);
    LowByte(s, 1);
    LowByte(s, 2);
    LowByte(s, 3);
  }

  /** Numbers are little-endian, negative ones in two's complement. */
  lemma Numbers32()
    ensures LE32(0x01020304) == [4, 3, 2, 1] && ReadU32([4, 3, 2, 1]) == ReadI32([4, 3, 2, 1]) == 0x01020304
    ensures LE32(-2) == [254, 255, 255, 255] && ReadI32([254, 255, 255, 255]) == -2
  {
    FourBytes(4, 3, 2, 1);
    FourBytes(254, 255, 255, 255);
    LEOfUnLE([4, 3, 2, 1]);
    LEOfUnLE([254, 255, 255, 255]);
    hide LE, UnLE;
    assert [4, 3, 2, 1][..4] == [4, 3, 2, 1] && [254, 255, 255, 255][..4] == [254, 255, 255, 255];
    assert -2 % TWO_32 == 0xFFFF_FFFE;
  }

  lemma EightBytes(s: seq<byte>)
    requires |s| == 8
    ensures UnLE(s) == UnLE(s[..4]) + TWO_32 * UnLE(s[4..])
  {
    FourBytes(s[0], s[1], s[2], s[3]);
    assert s[..4] == [s[0], s[1], s[2], s[3]];
    LowByte(s, 0);
    LowByte(s, 1);
    LowByte(s, 2);
    LowByte(s, 3);
    assert s[0..] == s;
    hide UnLE;
  }

  lemma LowByte(s: seq<byte>, k: nat)
    requires k < |s|
    ensures UnLE(s[k..]) == s[k] + 256 * UnLE(s[k + 1..])
  {
    assert s[k..][1..] == s[k + 1..];
  }

  lemma Counted()
    ensures LE64(0x0102030405060708) == COUNT
  {
    hide LE, LE64, UnLE;
    EightNumber(COUNT, 0x05060708, 0x01020304);
    assert 0x05060708 + TWO_32 * 0x01020304 == 0x0102030405060708;
  }

  lemma MinusTwo()
    ensures LE64(-2) == MINUS_TWO
  {
    hide LE, LE64, UnLE;
    EightNumber(MINUS_TWO, 0xFFFF_FFFE, 0xFFFF_FFFF);
    assert -2 % TWO_64 == 0xFFFF_FFFE + TWO_32 * 0xFFFF_FFFF;
    Signed(-2, 0xFFFF_FFFF_FFFF_FFFE);
  }

  lemma Signed(n: int, u: uint64)
    requires n % TWO_64 == u
    ensures LE64(n) == LE64(u)
  {
    hide LE;
    assert u % TWO_64 == u;
  }

  lemma EightNumber(s: seq<byte>, low: nat, high: nat)
    requires |s| == 8
    requires low == s[0] as int + 256 * (s[1] as int + 256 * (s[2] as int + 256 * s[3] as int))
    requires high == s[4] as int + 256 * (s[5] as int + 256 * (s[6] as int + 256 * s[7] as int))
    ensures LE64(low + TWO_32 * high) == s
  {
    EightBytes(s);
    FourBytes(s[0], s[1], s[2], s[3]);
    FourBytes(s[4], s[5], s[6], s[7]);
    assert s[..4] == [s[0], s[1], s[2], s[3]] && s[4..] == [s[4], s[5], s[6], s[7]];
    hide LE, UnLE;
    assert UnLE(s) == low + TWO_32 * high;
    Word64(s);
    assert ReadU64(s) == UnLE(s) by { assert s[..8] == s; }
  }

  lemma HeadOf(id: byte)
    ensures Head(id, A) == [id, 97, 0]
  {
  }

  /** An entry of each type under the key `a`. */
  lemma ShortEntries(bits: Bytes8, oid: Bytes12, wide: Bytes16)
    ensures EncEntry(Entry(A, F64(bits))) == [0x01, 97, 0] + bits
    ensures EncEntry(Entry(A, ObjectId(oid))) == [0x07, 97, 0] + oid
    ensures EncEntry(Entry(A, Bool(true))) == [0x08, 97, 0, 1] && EncEntry(Entry(A, Bool(false))) == [0x08, 97, 0, 0]
    ensures EncEntry(Entry(A, Null)) == [0x0A, 97, 0]
    ensures EncEntry(Entry(A, Regex([120], [105]))) == [0x0B, 97, 0] + [120, 0, 105, 0]
    ensures EncEntry(Entry(A, F128(wide))) == [0x13, 97, 0] + wide
  {
    HeadOf(0x01);
    HeadOf(0x07);
    HeadOf(0x08);
    HeadOf(0x0A);
    HeadOf(0x0B);
    HeadOf(0x13);
    hide Head;
  }

  const COUNT: Bytes8 := [8, 7, 6, 5, 4, 3, 2, 1]
  const MINUS_TWO: Bytes8 := [254, 255, 255, 255, 255, 255, 255, 255]

  lemma SignedEntries()
    ensures EncEntry(Entry(A, Datetime(-2))) == [0x09, 97, 0] + MINUS_TWO
    ensures EncEntry(Entry(A, I64(-2))) == [0x12, 97, 0] + MINUS_TWO
  {
    HeadOf(0x09);
    HeadOf(0x12);
    MinusTwo();
    hide LE64, Head, MINUS_TWO;
  }

  lemma NumberEntries()
    ensures EncEntry(Entry(A, I32(-2))) == [0x10, 97, 0] + [254, 255, 255, 255]
    ensures EncEntry(Entry(A, Timestamp(0x0102030405060708))) == [0x11, 97, 0] + COUNT
  {
    HeadOf(0x10);
    HeadOf(0x11);
    Numbers32();
    Counted();
    hide LE32, LE64, Head, COUNT;
  }

  lemma LongEntries()
    ensures EncEntry(Entry(A, Str([104, 105]))) == [0x02, 97, 0] + ([3, 0, 0, 0] + [104, 105, 0])
    ensures EncEntry(Entry(A, Doc([]))) == [0x03, 97, 0] + [5, 0, 0, 0, 0]
    ensures EncEntry(Entry(A, Arr([]))) == [0x04, 97, 0] + [5, 0, 0, 0, 0]
    ensures EncEntry(Entry(A, Binary(4, [7]))) == [0x05, 97, 0] + ([1, 0, 0, 0] + [4, 7])
  {
    HeadOf(0x02);
    HeadOf(0x03);
    HeadOf(0x04);
    HeadOf(0x05);
    SmallLE32(1);
    SmallLE32(3);
    SmallLE32(5);
    hide LE32, Head;
  }

  const HELLO: NulFree := [104, 101, 108, 108, 111]
  const WORLD: seq<byte> := [119, 111, 114, 108, 100]

  /** `{"hello": "world"}`. */
  lemma HelloWorld()
    ensures EncDoc([Entry(HELLO, Str(WORLD))])
         == [22, 0, 0, 0] + ([2] + HELLO + [0] + ([6, 0, 0, 0] + WORLD + [0])) + [0]
  {
    var e := Entry(HELLO, Str(WORLD));
    SmallLE32(6);
    SmallLE32(22);
    EncSingle(e);
    assert |HELLO| == 5 && |WORLD| == 5;
    hide LE32, EncEntries, HELLO, WORLD;
  }

  /** The array `[7]`, as the array writer writes it. */
  lemma OneElement()
    ensures Frame(ElementsBytes([I32(7)])) == [12, 0, 0, 0, 16, 48, 0, 7, 0, 0, 0, 0]
  {
    SmallLE32(7);
    SmallLE32(12);
    var none: seq<Value> := [];
    assert [I32(7)][..0] == none && ElementsBytes(none) == [];
    assert ElementBytes(0, I32(7)) == [16, 48, 0, 7, 0, 0, 0];
    assert ElementsBytes([I32(7)]) == [] + ElementBytes(0, I32(7));
  }

  /** What `send` writes for request 1 and an empty document. */
  lemma EmptyMessage()
    ensures Wire.Sent(1, EncDoc([])) == [26, 0, 0, 0] + [1, 0, 0, 0] + [0, 0, 0, 0] + [0xDD, 0x07, 0, 0]
                                        + [0, 0, 0, 0, 0] + [5, 0, 0, 0, 0]
  {
    SmallLE32(0);
    SmallLE32(1);
    SmallLE32(5);
    SmallLE32(26);
    OpMsg();
    assert EncDoc([]) == [5, 0, 0, 0] + EncEntries([]) + [0] && EncEntries([]) == [];
    assert Zeros(5) == [0, 0, 0, 0, 0];
    hide LE32, EncDoc, Zeros;
  }

  /** The same through the compressor that does nothing. */
  lemma EmptyNoop()
    ensures Wire.SentNoop(1, EncDoc([])) == [38, 0, 0, 0] + [1, 0, 0, 0] + [0, 0, 0, 0] + [0xDC, 0x07, 0, 0]
                                            + ([0xDD, 0x07, 0, 0] + [10, 0, 0, 0] + [0] + [0, 0, 0]
                                               + ([0, 0, 0, 0, 0] + [5, 0, 0, 0, 0]))
  {
    SmallLE32(0);
    SmallLE32(1);
    SmallLE32(5);
    SmallLE32(10);
    SmallLE32(38);
    OpMsg();
    assert EncDoc([]) == [5, 0, 0, 0] + EncEntries([]) + [0] && EncEntries([]) == [];
    assert Zeros(5) == [0, 0, 0, 0, 0] && Zeros(3) == [0, 0, 0];
    hide LE32, EncDoc, Zeros;
  }

  lemma OpMsg()
    ensures LE32(2012) == [0xDC, 0x07, 0, 0] && LE32(2013) == [0xDD, 0x07, 0, 0]
  {
    FourBytes(0xDC, 0x07, 0, 0);
    FourBytes(0xDD, 0x07, 0, 0);
    LEOfUnLE([0xDC, 0x07, 0, 0]);
    LEOfUnLE([0xDD, 0x07, 0, 0]);
    hide LE, UnLE;
  }

  lemma KeyNames()
    ensures OID == Ascii("$oid") && DATE == Ascii("$date") && TIMESTAMP == Ascii("$timestamp")
    ensures DOCUMENT == Ascii("$document") && REGEX == Ascii("$regularExpression")
    ensures PATTERN == Ascii("pattern") && OPTIONS == Ascii("options")
    ensures BINARY == Ascii("$binary") && CODE == Ascii("$code") && SCOPE == Ascii("$scope")
  {
  }
}
