/** BSON value trees and their one recursive encoding (BSON Specification 1.1, `document` and `e_list`). */
module Bson {
  import opened Bytes

  type Subtype = b: byte | b == 0 || b == 1 || b == 4 || b == 5 || b == 6 || b == 0x80

  datatype Entry = Entry(key: NulFree, val: Value)

  /** The supported element types. Doubles and 128-bit decimals are opaque bytes. The keys of an array are kept,
      because the byte-level code neither reads nor checks them. */
  datatype Value =
    | F64(bits: Bytes8)
    | Str(text: seq<byte>)
    | Doc(entries: seq<Entry>)
    | Arr(elements: seq<Entry>)
    | Binary(subtype: Subtype, data: seq<byte>)
    | ObjectId(oid: Bytes12)
    | Bool(b: bool)
    | Datetime(millis: int64)
    | Null
    | Regex(pattern: NulFree, options: NulFree)
    | I32(i: int32)
    | Timestamp(stamp: uint64)
    | I64(l: int64)
    | F128(wide: Bytes16)

  function Id(v: Value): (id: byte)
    ensures id != 0
  {
    match v
    case F64(_) => 0x01
    case Str(_) => 0x02
    case Doc(_) => 0x03
    case Arr(_) => 0x04
    case Binary(_, _) => 0x05
    case ObjectId(_) => 0x07
    case Bool(_) => 0x08
    case Datetime(_) => 0x09
    case Null => 0x0A
    case Regex(_, _) => 0x0B
    case I32(_) => 0x10
    case Timestamp(_) => 0x11
    case I64(_) => 0x12
    case F128(_) => 0x13
  }

  /** A document around the bytes of its entries: total length, entries, terminator. */
  function Frame(body: seq<byte>): (s: seq<byte>)
    ensures |s| == |body| + 5
  {
    LE32(|body| + 5) + body + [0]
  }

  function EncVal(v: Value): seq<byte>
    decreases v, 0
  {
    match v
    case F64(bits) => bits
    case Str(text) => LE32(|text| + 1) + text + [0]
    case Doc(entries) => Frame(EncEntries(entries))
    case Arr(elements) => Frame(EncEntries(elements))
    case Binary(subtype, data) => LE32(|data|) + [subtype] + data
    case ObjectId(oid) => oid
    case Bool(b) => [if b then 1 else 0]
    case Datetime(millis) => LE64(millis)
    case Null => []
    case Regex(pattern, options) => pattern + [0] + options + [0]
    case I32(i) => LE32(i)
    case Timestamp(stamp) => LE64(stamp)
    case I64(l) => LE64(l)
    case F128(wide) => wide
  }

  /** The bytes before an entry's value. */
  function Head(id: byte, key: seq<byte>): (s: seq<byte>)
    ensures |s| == |key| + 2
  {
    [id] + key + [0]
  }

  function EncEntry(e: Entry): seq<byte>
    decreases e, 1
  {
    Head(Id(e.val), e.key) + EncVal(e.val)
  }

  function EncEntries(es: seq<Entry>): seq<byte>
    decreases es, 0
  {
    if es == [] then [] else EncEntry(es[0]) + EncEntries(es[1..])
  }

  function EncDoc(es: seq<Entry>): seq<byte> {
    Frame(EncEntries(es))
  }

  /** `size()` of a value, as each `BsonValue` implementation computes it. */
  function Size(v: Value): nat {
    match v
    case Str(text) => 5 + |text|
    case Doc(entries) => |EncDoc(entries)|
    case Arr(elements) => |EncDoc(elements)|
    case Binary(_, data) => 5 + |data|
    case ObjectId(_) => 12
    case Bool(_) => 1
    case Null => 0
    case Regex(pattern, options) => 2 + |pattern| + |options|
    case I32(_) => 4
    case F128(_) => 16
    case F64(_) | Datetime(_) | Timestamp(_) | I64(_) => 8
  }

  /** The number of bytes a value is encoded in is its `size()`. */
  lemma SizeIsEncodedLength(v: Value)
    ensures |EncVal(v)| == Size(v)
  {
  }

  lemma {:induction false} EncConcat(a: seq<Entry>, b: seq<Entry>)
    ensures EncEntries(a + b) == EncEntries(a) + EncEntries(b)
  {
    if a == [] {
      assert a + b == b;
    } else {
      assert (a + b)[1..] == a[1..] + b;
      EncConcat(a[1..], b);
    }
  }

  lemma EncSingle(e: Entry)
    ensures EncEntries([e]) == EncEntry(e)
  {
    assert [e][1..] == [];
  }

  lemma EncAppend(es: seq<Entry>, e: Entry)
    ensures EncEntries(es + [e]) == EncEntries(es) + EncEntry(e)
  {
    EncConcat(es, [e]);
    EncSingle(e);
  }

  /** The encoding of a list splits around any of its entries. */
  lemma EncSplit(es: seq<Entry>, i: nat)
    requires i < |es|
    ensures EncEntries(es) == EncEntries(es[..i]) + EncEntry(es[i]) + EncEntries(es[i + 1..])
    ensures EncEntries(es[i..]) == EncEntry(es[i]) + EncEntries(es[i + 1..])
  {
    assert es == es[..i] + es[i..];
    EncConcat(es[..i], es[i..]);
    assert es[i..][1..] == es[i + 1..];
  }

  /** What a scanner sees first: the terminator exactly when no entry is left, else the type of the next one. */
  lemma FirstByte(es: seq<Entry>, rest: seq<byte>)
    ensures (EncEntries(es) + [0] + rest)[0] == if es == [] then 0 else Id(es[0].val)
  {
    if es != [] {
      assert EncEntries(es)[0] == EncEntry(es[0])[0];
    }
  }

  /** The bytes of an entry list start with its first entry's head and value. */
  lemma FirstEntry(es: seq<Entry>, tail: seq<byte>)
    requires es != []
    ensures EncEntries(es) + [0] + tail
         == Head(Id(es[0].val), es[0].key) + (EncVal(es[0].val) + (EncEntries(es[1..]) + [0] + tail))
    ensures |EncVal(es[0].val)| <= |EncEntries(es)| && |EncEntries(es[1..])| <= |EncEntries(es)|
  {
  }

  /** A NUL-terminated string ends at its first NUL. */
  lemma CStringInjective(a: NulFree, b: NulFree, r: seq<byte>, s: seq<byte>)
    requires a + [0] + r == b + [0] + s
    ensures a == b && r == s
  {
    var x, y := a + [0] + r, b + [0] + s;
    assert |a| == |b| by {
      assert x[|a|] == 0 && y[|b|] == 0;
      assert forall i | 0 <= i < |a| :: x[i] == a[i];
      assert forall i | 0 <= i < |b| :: y[i] == b[i];
    }
    assert a == x[..|a|] && b == y[..|b|];
    assert r == x[|a| + 1..] && s == y[|b| + 1..];
  }

  lemma HeadInjective(i: byte, j: byte, a: NulFree, b: NulFree, r: seq<byte>, s: seq<byte>)
    requires Head(i, a) + r == Head(j, b) + s
    ensures i == j && a == b && r == s
  {
    var x, y := Head(i, a) + r, Head(j, b) + s;
    assert x[0] == i && y[0] == j;
    assert x[1..] == a + [0] + r && y[1..] == b + [0] + s;
    CStringInjective(a, b, r, s);
  }

  lemma TakeEqual(a: seq<byte>, b: seq<byte>, r: seq<byte>, s: seq<byte>)
    requires a + r == b + s && |a| == |b|
    ensures a == b && r == s
  {
    assert a == (a + r)[..|a|] && b == (b + s)[..|b|];
    assert r == (a + r)[|a|..] && s == (b + s)[|b|..];
  }

  lemma Prefixed32Injective(m: int, n: int, r: seq<byte>, s: seq<byte>)
    requires -TWO_31 <= m < TWO_31 && -TWO_31 <= n < TWO_31
    requires LE32(m) + r == LE32(n) + s
    ensures m == n && r == s
  {
    TakeEqual(LE32(m), LE32(n), r, s);
    Read32(m, r);
    Read32(n, s);
  }

  lemma Prefixed64Injective(m: int64, n: int64, r: seq<byte>, s: seq<byte>)
    requires LE64(m) + r == LE64(n) + s
    ensures m == n && r == s
  {
    TakeEqual(LE64(m), LE64(n), r, s);
    Read64(m, r);
    Read64(n, s);
  }

  lemma Prefixed64UnsignedInjective(m: uint64, n: uint64, r: seq<byte>, s: seq<byte>)
    requires LE64(m) + r == LE64(n) + s
    ensures m == n && r == s
  {
    TakeEqual(LE64(m), LE64(n), r, s);
    Read64(m, r);
    Read64(n, s);
  }

  lemma RegexInjective(v: Value, w: Value, r: seq<byte>, s: seq<byte>)
    requires v.Regex? && w.Regex?
    requires EncVal(v) + r == EncVal(w) + s
    ensures v == w && r == s
  {
    assert v.pattern + [0] + (v.options + [0] + r) == EncVal(v) + r;
    assert w.pattern + [0] + (w.options + [0] + s) == EncVal(w) + s;
    CStringInjective(v.pattern, w.pattern, v.options + [0] + r, w.options + [0] + s);
    CStringInjective(v.options, w.options, r, s);
  }

  lemma StringInjective(v: Value, w: Value, r: seq<byte>, s: seq<byte>)
    requires v.Str? && w.Str?
    requires |EncVal(v)| < TWO_31 && |EncVal(w)| < TWO_31
    requires EncVal(v) + r == EncVal(w) + s
    ensures v == w && r == s
  {
    assert LE32(|v.text| + 1) + (v.text + [0] + r) == EncVal(v) + r;
    assert LE32(|w.text| + 1) + (w.text + [0] + s) == EncVal(w) + s;
    Prefixed32Injective(|v.text| + 1, |w.text| + 1, v.text + [0] + r, w.text + [0] + s);
    TakeEqual(v.text + [0], w.text + [0], r, s);
    TakeEqual(v.text, w.text, [0], [0]);
  }

  lemma BinaryInjective(v: Value, w: Value, r: seq<byte>, s: seq<byte>)
    requires v.Binary? && w.Binary?
    requires |EncVal(v)| < TWO_31 && |EncVal(w)| < TWO_31
    requires EncVal(v) + r == EncVal(w) + s
    ensures v == w && r == s
  {
    var x, y := [v.subtype] + v.data, [w.subtype] + w.data;
    assert LE32(|v.data|) + (x + r) == EncVal(v) + r;
    assert LE32(|w.data|) + (y + s) == EncVal(w) + s;
    Prefixed32Injective(|v.data|, |w.data|, x + r, y + s);
    TakeEqual(x, y, r, s);
    assert v.data == x[1..] && w.data == y[1..];
  }

  /** Unique decodability: the type byte and the bytes determine the value and where it ends. */
  lemma {:induction false} ValueInjective(v: Value, w: Value, r: seq<byte>, s: seq<byte>)
    requires Id(v) == Id(w)
    requires |EncVal(v)| < TWO_31 && |EncVal(w)| < TWO_31
    requires EncVal(v) + r == EncVal(w) + s
    ensures v == w && r == s
    decreases v, 0
  {
    match v
    case F64(_) => TakeEqual(EncVal(v), EncVal(w), r, s);
    case ObjectId(_) => TakeEqual(EncVal(v), EncVal(w), r, s);
    case F128(_) => TakeEqual(EncVal(v), EncVal(w), r, s);
    case Bool(_) => TakeEqual(EncVal(v), EncVal(w), r, s);
    case Null => assert EncVal(v) + r == r && EncVal(w) + s == s;
    case Str(_) => StringInjective(v, w, r, s);
    case Binary(_, _) => BinaryInjective(v, w, r, s);
    case Regex(_, _) => RegexInjective(v, w, r, s);
    case I32(i) => Prefixed32Injective(i, w.i, r, s);
    case I64(l) => Prefixed64Injective(l, w.l, r, s);
    case Datetime(m) => Prefixed64Injective(m, w.millis, r, s);
    case Timestamp(m) => Prefixed64UnsignedInjective(m, w.stamp, r, s);
    case Doc(es) => FrameInjective(es, w.entries, r, s);
    case Arr(es) => FrameInjective(es, w.elements, r, s);
  }

  lemma {:induction false} FrameInjective(es: seq<Entry>, fs: seq<Entry>, r: seq<byte>, s: seq<byte>)
    requires |EncDoc(es)| < TWO_31 && |EncDoc(fs)| < TWO_31
    requires EncDoc(es) + r == EncDoc(fs) + s
    ensures es == fs && r == s
    decreases es, 1
  {
    var a, b := EncEntries(es), EncEntries(fs);
    assert LE32(|a| + 5) + (a + [0] + r) == EncDoc(es) + r;
    assert LE32(|b| + 5) + (b + [0] + s) == EncDoc(fs) + s;
    Prefixed32Injective(|a| + 5, |b| + 5, a + [0] + r, b + [0] + s);
    EntriesInjective(es, fs, r, s);
  }

  /** An entry list is determined by its bytes up to and with the terminator, without any length. */
  lemma {:induction false} EntriesInjective(es: seq<Entry>, fs: seq<Entry>, r: seq<byte>, s: seq<byte>)
    requires |EncEntries(es)| < TWO_31 && |EncEntries(fs)| < TWO_31
    requires EncEntries(es) + [0] + r == EncEntries(fs) + [0] + s
    ensures es == fs && r == s
    decreases es, 0
  {
    var x, y := EncEntries(es) + [0] + r, EncEntries(fs) + [0] + s;
    FirstByte(es, r);
    FirstByte(fs, s);
    if es == [] {
      assert r == x[1..] && s == y[1..];
    } else {
      var e, f := es[0], fs[0];
      var x', y' := EncEntries(es[1..]) + [0] + r, EncEntries(fs[1..]) + [0] + s;
      FirstEntry(es, r);
      FirstEntry(fs, s);
      hide *;
      HeadInjective(Id(e.val), Id(f.val), e.key, f.key, EncVal(e.val) + x', EncVal(f.val) + y');
      ValueInjective(e.val, f.val, x', y');
      EntriesInjective(es[1..], fs[1..], r, s);
      assert es == [e] + es[1..] && fs == [f] + fs[1..];
    }
  }

  /** The bytes are those of some entry list. */
  ghost predicate IsList(b: seq<byte>) {
    exists es :: b == EncEntries(es)
  }

  /** What entries some bytes after other entries belong to: none are split or joined. */
  lemma {:induction false} EntriesPrefix(es: seq<Entry>, more: seq<byte>, fs: seq<Entry>)
    requires EncEntries(es) + more == EncEntries(fs) && |EncEntries(fs)| < TWO_31
    ensures es <= fs && more == EncEntries(fs[|es|..])
    decreases es
  {
    if es == [] {
      assert fs[0..] == fs;
    } else {
      assert fs != [];
      var e, f := es[0], fs[0];
      var x, y := EncEntries(es[1..]) + more, EncEntries(fs[1..]);
      assert EncEntries(es) + more == Head(Id(e.val), e.key) + (EncVal(e.val) + x);
      assert EncEntries(fs) == Head(Id(f.val), f.key) + (EncVal(f.val) + y);
      hide *;
      HeadInjective(Id(e.val), Id(f.val), e.key, f.key, EncVal(e.val) + x, EncVal(f.val) + y);
      ValueInjective(e.val, f.val, x, y);
      EntriesPrefix(es[1..], more, fs[1..]);
      assert es == [e] + es[1..] && fs == [f] + fs[1..];
      assert fs[1..][|es| - 1..] == fs[|es|..];
    }
  }

  /** Bytes after whole entries hold a list exactly when they are one themselves. */
  lemma ListAfter(es: seq<Entry>, more: seq<byte>)
    requires |EncEntries(es) + more| < TWO_31
    ensures IsList(EncEntries(es) + more) <==> IsList(more)
  {
    if IsList(EncEntries(es) + more) {
      var fs :| EncEntries(es) + more == EncEntries(fs);
      EntriesPrefix(es, more, fs);
    }
    if IsList(more) {
      var gs :| more == EncEntries(gs);
      EncConcat(es, gs);
    }
  }
}
