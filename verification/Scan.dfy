/** The read side: skipping a value, reading one, and iterating over a document. */
module Scan {
  import opened Bytes
  import opened Bson

  /** What `Bson::read` hands out: a scalar, or the bytes after a nested document's length with no end marked. */
  datatype Item = Scalar(v: Value) | DocRef(tail: seq<byte>) | ArrayRef(tail: seq<byte>)

  function ItemOf(v: Value, rest: seq<byte>): Item {
    match v
    case Doc(entries) => DocRef(EncEntries(entries) + [0] + rest)
    case Arr(elements) => ArrayRef(EncEntries(elements) + [0] + rest)
    case _ => Scalar(v)
  }

  /** The bytes from the entry list's start on: entries, terminator, whatever follows the document. */
  function Tail(es: seq<Entry>, rest: seq<byte>): (s: seq<byte>)
    ensures |s| > 0
  {
    EncEntries(es) + [0] + rest
  }

  /** How far `get_value_size` moves over a value: it stops at, not after, the second NUL of a regular expression. */
  function Skipped(v: Value): nat {
    if v.Regex? then Size(v) - 1 else Size(v)
  }

  /** What that leaves of the value. */
  function Stray(v: Value): seq<byte> {
    if v.Regex? then [0] else []
  }

  /** The entries a scan comes across: it takes the NUL left of a regular expression for the terminator. */
  function Visible(es: seq<Entry>): (vs: seq<Entry>)
    ensures vs <= es
    ensures es != [] ==> vs != []
  {
    if es == [] then [] else if es[0].val.Regex? then [es[0]] else [es[0]] + Visible(es[1..])
  }

  /** The position of the first entry with the key, or the length. */
  function IndexOf(es: seq<Entry>, key: seq<byte>): (i: nat)
    ensures i <= |es|
    ensures i < |es| ==> es[i].key == key
    ensures forall j | 0 <= j < i :: es[j].key != key
  {
    if es == [] then 0 else if es[0].key == key then 0 else 1 + IndexOf(es[1..], key)
  }

  /** A scan sees every entry exactly when no regular expression stands before the last one. */
  lemma {:induction false} VisibleIsAll(es: seq<Entry>)
    ensures Visible(es) == es <==> forall i | 0 <= i < |es| - 1 :: !es[i].val.Regex?
  {
    if es != [] {
      var tl := es[1..];
      VisibleIsAll(tl);
      assert es == [es[0]] + tl;
      if es[0].val.Regex? {
        assert Visible(es) == es <==> |es| == 1;
        assert |es| > 1 ==> es[0].val.Regex? && 0 < |es| - 1;
      } else {
        assert Visible(es) == es <==> Visible(tl) == tl by {
          assert Visible(es)[1..] == Visible(tl);
        }
        assert forall i | 0 < i < |es| - 1 :: es[i] == tl[i - 1];
        assert forall i | 0 <= i < |tl| - 1 :: tl[i] == es[i + 1];
      }
    }
  }

  lemma {:induction false} VisiblePlain(es: seq<Entry>, i: nat)
    requires i < |Visible(es)| - 1
    ensures !es[i].val.Regex?
  {
    if i > 0 {
      VisiblePlain(es[1..], i - 1);
    }
  }

  /** Skipping equals decoding, except for regular expressions: the two sizes agree exactly on all other values. */
  lemma SkipAgrees(v: Value)
    ensures Skipped(v) == |EncVal(v)| <==> !v.Regex?
    ensures EncVal(v) == EncVal(v)[..Skipped(v)] + Stray(v)
  {
    SizeIsEncodedLength(v);
    if v.Regex? {
      assert EncVal(v) == (v.pattern + [0] + v.options) + [0];
    }
  }

  /** After skipping a value the scan stands on what follows it, or on a stray NUL before that. */
  lemma SkipLeaves(v: Value, rest: seq<byte>)
    ensures Skipped(v) <= |EncVal(v) + rest|
    ensures (EncVal(v) + rest)[Skipped(v)..] == Stray(v) + rest
  {
    SkipAgrees(v);
    var x := EncVal(v) + rest;
    assert x == EncVal(v)[..Skipped(v)] + (Stray(v) + rest);
  }

  method ReadStrNt(buf: seq<byte>) returns (s: seq<byte>)
    requires 0 in buf
    ensures 0 !in s && |s| < |buf| && buf[|s|] == 0 && s == buf[..|s|]
  {
    var len := 0;
    while buf[len] != 0
      invariant len < |buf|
      invariant 0 !in buf[..len]
      decreases |buf| - len
    {
      assert buf[..len + 1] == buf[..len] + [buf[len]];
      len := len + 1;
      assert len < |buf|;
    }
    s := buf[..len];
  }

  method SkipRegex(buf: seq<byte>, ghost v: Value, ghost rest: seq<byte>) returns (len: nat)
    requires v.Regex? && buf == EncVal(v) + rest
    ensures len == Skipped(v)
  {
    ghost var p, o := |v.pattern|, |v.options|;
    assert buf == v.pattern + [0] + v.options + [0] + rest;
    len := 0;
    while buf[len] != 0
      invariant len <= p
      decreases p - len
    {
      len := len + 1;
    }
    assert len == p;
    len := len + 1;
    while buf[len] != 0
      invariant p < len <= p + 1 + o
      decreases p + 1 + o - len
    {
      len := len + 1;
    }
    assert len == p + 1 + o;
  }

  /** `get_value_size`. On bytes that do not start with a value of that type the source panics. */
  method GetValueSize(id: byte, buf: seq<byte>, ghost v: Value, ghost rest: seq<byte>) returns (n: nat)
    requires id == Id(v) && buf == EncVal(v) + rest && |EncVal(v)| < TWO_31
    ensures n == Skipped(v)
  {
    SizeIsEncodedLength(v);
    if id == 0x0A {
      n := 0;
    } else if id == 0x08 {
      n := 1;
    } else if id == 0x10 {
      n := 4;
    } else if id == 0x07 {
      n := 12;
    } else if id == 0x13 {
      n := 16;
    } else if id == 0x0B {
      n := SkipRegex(buf, v, rest);
    } else if id == 0x09 || id == 0x11 || id == 0x12 || id == 0x01 {
      n := 8;
    } else {
      LengthField(v, rest);
      if id == 0x05 {
        n := 5 + ReadI32(buf);
      } else if id == 0x02 {
        n := 4 + ReadI32(buf);
      } else {
        n := ReadI32(buf);
      }
    }
  }

  /** What the length field of a variable-size value says about the value's size. */
  lemma LengthField(v: Value, rest: seq<byte>)
    requires v.Binary? || v.Str? || v.Doc? || v.Arr?
    requires |EncVal(v)| < TWO_31
    ensures |EncVal(v) + rest| >= 4
    ensures Size(v) == ReadI32(EncVal(v) + rest) + match v case Binary(_, _) => 5 case Str(_) => 4 case _ => 0
  {
    match v
    case Binary(t, d) =>
      assert EncVal(v) + rest == LE32(|d|) + ([t] + d + rest);
      Read32(|d|, [t] + d + rest);
    case Str(t) =>
      assert EncVal(v) + rest == LE32(|t| + 1) + (t + [0] + rest);
      Read32(|t| + 1, t + [0] + rest);
    case Doc(es) => FrameLength(es, rest);
    case Arr(es) => FrameLength(es, rest);
  }

  lemma FrameLength(es: seq<Entry>, rest: seq<byte>)
    requires |EncDoc(es)| < TWO_31
    ensures ReadI32(EncDoc(es) + rest) == |EncDoc(es)|
    ensures (EncDoc(es) + rest)[4..] == Tail(es, rest)
  {
    var body := EncEntries(es);
    assert EncDoc(es) + rest == LE32(|body| + 5) + Tail(es, rest);
    Read32(|body| + 5, Tail(es, rest));
  }
}
