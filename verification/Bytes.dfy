/** Bytes, C strings and the fixed-width little-endian numbers of BSON and the wire protocol. */
module Bytes {

  type byte = b: int | 0 <= b < 256

  const TWO_31 := 0x8000_0000
  const TWO_32 := 0x1_0000_0000
  const TWO_63 := 0x8000_0000_0000_0000
  const TWO_64 := 0x1_0000_0000_0000_0000

  type int32 = n: int | -TWO_31 <= n < TWO_31
  type int64 = n: int | -TWO_63 <= n < TWO_63
  type uint64 = n: int | 0 <= n < TWO_64

  /** A string that can be written as a NUL-terminated one. */
  type NulFree = s: seq<byte> | 0 !in s witness []

  type Bytes8 = s: seq<byte> | |s| == 8 witness [0, 0, 0, 0, 0, 0, 0, 0]
  type Bytes12 = s: seq<byte> | |s| == 12 witness [0, 0, 0, 0, 0, 0, 0, 0, 0, 0, 0, 0]
  type Bytes16 = s: seq<byte> | |s| == 16 witness [0, 0, 0, 0, 0, 0, 0, 0, 0, 0, 0, 0, 0, 0, 0, 0]

  function Pow256(width: nat): (p: nat)
    ensures p > 0
  {
    if width == 0 then 1 else 256 * Pow256(width - 1)
  }

  function LE(n: nat, width: nat): (s: seq<byte>)
    ensures |s| == width
  {
    if width == 0 then [] else [n % 256] + LE(n / 256, width - 1)
  }

  function UnLE(s: seq<byte>): nat {
    if s == [] then 0 else s[0] + 256 * UnLE(s[1..])
  }

  lemma {:induction false} UnLEOfLE(n: nat, width: nat)
    requires n < Pow256(width)
    ensures UnLE(LE(n, width)) == n
  {
    if width > 0 {
      UnLEOfLE(n / 256, width - 1);
      assert LE(n, width)[1..] == LE(n / 256, width - 1);
    }
  }

  /** `to_le_bytes` after a cast to a 32-bit integer, signed or not: the cast keeps `n` modulo 2^32. */
  function LE32(n: int): (s: seq<byte>)
    ensures |s| == 4
  {
    LE(n % TWO_32, 4)
  }

  /** `to_le_bytes` after a cast to a 64-bit integer, signed or not. */
  function LE64(n: int): (s: seq<byte>)
    ensures |s| == 8
  {
    LE(n % TWO_64, 8)
  }

  function ReadU32(s: seq<byte>): nat
    requires |s| >= 4
  {
    UnLE(s[..4])
  }

  /** `i32::from_le_bytes` of the first four bytes. */
  function ReadI32(s: seq<byte>): int
    requires |s| >= 4
  {
    var u := UnLE(s[..4]);
    if u >= TWO_31 then u - TWO_32 else u
  }

  function ReadU64(s: seq<byte>): nat
    requires |s| >= 8
  {
    UnLE(s[..8])
  }

  function ReadI64(s: seq<byte>): int
    requires |s| >= 8
  {
    var u := UnLE(s[..8]);
    if u >= TWO_63 then u - TWO_64 else u
  }

  lemma Pow256Values()
    ensures Pow256(4) == TWO_32
    ensures Pow256(8) == TWO_64
  {
    assert Pow256(1) == 256;
    assert Pow256(2) == 0x1_0000;
    assert Pow256(3) == 0x100_0000;
    assert Pow256(5) == 0x100_0000_0000;
    assert Pow256(6) == 0x1_0000_0000_0000;
    assert Pow256(7) == 0x100_0000_0000_0000;
  }

  /** A 32-bit number is read back from its bytes, whatever follows them. */
  lemma Read32(n: int, rest: seq<byte>)
    ensures (LE32(n) + rest)[4..] == rest
    ensures 0 <= n < TWO_32 ==> ReadU32(LE32(n) + rest) == n
    ensures -TWO_31 <= n < TWO_31 ==> ReadI32(LE32(n) + rest) == n
  {
    Pow256Values();
    UnLEOfLE(n % TWO_32, 4);
    assert (LE32(n) + rest)[..4] == LE32(n);
  }

  /** A 64-bit number is read back from its bytes, whatever follows them. */
  lemma Read64(n: int, rest: seq<byte>)
    ensures (LE64(n) + rest)[8..] == rest
    ensures 0 <= n < TWO_64 ==> ReadU64(LE64(n) + rest) == n
    ensures -TWO_63 <= n < TWO_63 ==> ReadI64(LE64(n) + rest) == n
  {
    Pow256Values();
    UnLEOfLE(n % TWO_64, 8);
    assert (LE64(n) + rest)[..8] == LE64(n);
  }

  function Zeros(n: nat): (s: seq<byte>)
    ensures |s| == n
  {
    seq(n, _ => 0)
  }

  // ----- bytes that are read and written back -----

  lemma {:induction false} UnLEBelow(s: seq<byte>)
    ensures UnLE(s) < Pow256(|s|)
  {
    if s != [] { UnLEBelow(s[1..]); }
  }

  lemma UnLEBound(s: seq<byte>)
    requires |s| == 4
    ensures UnLE(s) < TWO_32
  {
    UnLEBelow(s);
    Pow256Values();
  }

  lemma {:induction false} LEOfUnLE(s: seq<byte>)
    ensures LE(UnLE(s), |s|) == s
  {
    if s != [] {
      LEOfUnLE(s[1..]);
      assert UnLE(s) % 256 == s[0] && UnLE(s) / 256 == UnLE(s[1..]);
    }
  }

  lemma Word(s: seq<byte>)
    requires |s| >= 4
    ensures LE32(ReadU32(s)) == s[..4] && LE32(ReadI32(s)) == s[..4]
  {
    var u := UnLE(s[..4]);
    UnLEBound(s[..4]);
    LEOfUnLE(s[..4]);
    hide UnLE, LE;
    assert u % TWO_32 == u;
    assert (u - TWO_32) % TWO_32 == u;
  }

  lemma Word64(s: seq<byte>)
    requires |s| == 8
    ensures ReadU64(s) < TWO_64 && LE64(ReadU64(s)) == s && LE64(ReadI64(s)) == s
  {
    var u := UnLE(s[..8]);
    UnLEBelow(s[..8]);
    Pow256Values();
    LEOfUnLE(s[..8]);
    assert s[..8] == s;
    hide UnLE, LE;
    assert u % TWO_64 == u;
    assert (u - TWO_64) % TWO_64 == u;
  }

  /** The high bytes of small numbers are zeros. */
  lemma SmallLE32(n: nat)
    requires n < 256
    ensures LE32(n) == [n, 0, 0, 0]
  {
    assert LE(n, 4) == [n] + LE(0, 3) && LE(0, 3) == [0] + LE(0, 2);
    assert LE(0, 2) == [0] + LE(0, 1) && LE(0, 1) == [0] + LE(0, 0);
  }
}
