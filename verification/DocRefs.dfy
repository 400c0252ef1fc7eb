/** Iterating over and looking up in an encoded document: `DocRef` and `DocRefIter`. */
module DocRefs {
  import opened Bytes
  import opened Bson
  import opened Wrappers
  import opened Scan

  method ReadRegex(buf: seq<byte>, ghost v: Value, ghost rest: seq<byte>) returns (r: Value)
    requires v.Regex? && buf == EncVal(v) + rest
    ensures r == v
  {
    assert EncVal(v) + rest == v.pattern + [0] + (v.options + [0] + rest);
    hide *;
    var pattern := ReadCString(buf, v.pattern, v.options + [0] + rest);
    var options := ReadCString(buf[|pattern| + 1..], v.options, rest);
    r := Regex(pattern, options);
  }

  method ReadCString(buf: seq<byte>, ghost s: NulFree, ghost rest: seq<byte>) returns (r: NulFree)
    requires buf == s + [0] + rest
    ensures r == s && buf[|r| + 1..] == rest
  {
    assert buf[|s|] == 0;
    r := ReadStrNt(buf);
    assert buf == r + [0] + buf[|r| + 1..];
    CStringInjective(s, r, rest, buf[|r| + 1..]);
  }

  /** `BinarySubtype::from(u8)`. */
  function SubtypeOf(b: byte): Subtype {
    if b == 0 || b == 1 || b == 4 || b == 5 || b == 6 then b else 0x80
  }

  /** The length-prefixed values as they stand in the buffer. */
  lemma PrefixedLayout(v: Value, rest: seq<byte>)
    requires v.Str? || v.Binary?
    requires |EncVal(v)| < TWO_31
    ensures |EncVal(v) + rest| >= 5
    ensures v.Str? ==> ReadI32(EncVal(v) + rest) == |v.text| + 1 && |v.text| + 5 <= |EncVal(v) + rest|
                       && (EncVal(v) + rest)[4..4 + |v.text|] == v.text && (EncVal(v) + rest)[|v.text| + 5..] == rest
    ensures v.Binary? ==> ReadI32(EncVal(v) + rest) == |v.data| && |v.data| + 5 <= |EncVal(v) + rest|
                          && (EncVal(v) + rest)[4] == v.subtype && (EncVal(v) + rest)[5..5 + |v.data|] == v.data
                          && (EncVal(v) + rest)[|v.data| + 5..] == rest
  {
    LengthField(v, rest);
    match v
    case Str(t) => assert EncVal(v) + rest == LE32(|t| + 1) + t + [0] + rest;
    case Binary(s, d) => assert EncVal(v) + rest == LE32(|d|) + [s] + d + rest;
  }

  /** `Bson::read`. Neither unknown types nor truncated values occur in an encoding. */
  method ReadBson(id: byte, buf: seq<byte>, ghost v: Value, ghost rest: seq<byte>) returns (item: Item)
    requires id == Id(v) && buf == EncVal(v) + rest && |EncVal(v)| < TWO_31
    ensures item == ItemOf(v, rest)
  {
    SizeIsEncodedLength(v);
    if id == 0x03 || id == 0x04 {
      FrameLength(if v.Doc? then v.entries else v.elements, rest);
      item := if id == 0x03 then DocRef(buf[4..]) else ArrayRef(buf[4..]);
    } else if id == 0x0B {
      var r := ReadRegex(buf, v, rest);
      item := Scalar(r);
    } else if id == 0x02 || id == 0x05 {
      PrefixedLayout(v, rest);
      item := Scalar(if id == 0x02 then Str(buf[4..4 + ReadI32(buf) - 1])
                     else Binary(SubtypeOf(buf[4]), buf[5..5 + ReadI32(buf)]));
    } else {
      item := ReadFixed(id, buf, v, rest);
    }
  }

  method ReadFixed(id: byte, buf: seq<byte>, ghost v: Value, ghost rest: seq<byte>) returns (item: Item)
    requires id == Id(v) && buf == EncVal(v) + rest
    requires !v.Doc? && !v.Arr? && !v.Regex? && !v.Str? && !v.Binary?
    ensures item == Scalar(v)
  {
    SizeIsEncodedLength(v);
    FixedLayout(v, rest);
    item := Scalar(
      if id == 0x01 then F64(buf[..8])
      else if id == 0x07 then ObjectId(buf[..12])
      else if id == 0x08 then Bool(buf[0] != 0)
      else if id == 0x09 then Datetime(ReadI64(buf))
      else if id == 0x0A then Null
      else if id == 0x10 then I32(ReadI32(buf))
      else if id == 0x11 then Timestamp(ReadU64(buf))
      else if id == 0x12 then I64(ReadI64(buf))
      else F128(buf[..16]));
  }

  lemma FixedLayout(v: Value, rest: seq<byte>)
    requires !v.Doc? && !v.Arr? && !v.Regex? && !v.Str? && !v.Binary?
    ensures (EncVal(v) + rest)[..Size(v)] == EncVal(v)
    ensures v.I32? ==> ReadI32(EncVal(v) + rest) == v.i
    ensures v.I64? ==> ReadI64(EncVal(v) + rest) == v.l
    ensures v.Datetime? ==> ReadI64(EncVal(v) + rest) == v.millis
    ensures v.Timestamp? ==> ReadU64(EncVal(v) + rest) == v.stamp
  {
    SizeIsEncodedLength(v);
    match v
    case I32(n) => Read32(n, rest);
    case I64(n) => Read64(n, rest);
    case Datetime(n) => Read64(n, rest);
    case Timestamp(n) => Read64(n, rest);
    case _ =>
  }

  class DocRefIter {
    var buf: seq<byte>

    constructor (buf: seq<byte>)
      ensures this.buf == buf
    {
      this.buf := buf;
    }

    /** One entry is handed out and passed, up to the NUL that skipping a regular expression leaves. */
    method Next(ghost es: seq<Entry>, ghost tail: seq<byte>) returns (r: Option<(seq<byte>, Item)>)
      requires buf == Tail(es, tail) && |EncEntries(es)| < TWO_31
      modifies this
      ensures r.None? <==> es == []
      ensures es == [] ==> buf == old(buf)
      ensures es != [] ==> r == Some((es[0].key, ItemOf(es[0].val, Tail(es[1..], tail))))
      ensures es != [] ==> buf == Stray(es[0].val) + Tail(es[1..], tail)
    {
      FirstByte(es, tail);
      var id := buf[0];
      if id == 0 {
        return None;
      }
      FirstEntry(es, tail);
      ghost var v, more := es[0].val, Tail(es[1..], tail);
      assert buf[1..] == es[0].key + [0] + (EncVal(v) + more);
      assert buf[1..][|es[0].key|] == 0;
      var key := ReadStrNt(buf[1..]);
      assert buf[1..] == key + [0] + buf[2 + |key|..];
      CStringInjective(es[0].key, key, EncVal(v) + more, buf[2 + |key|..]);
      buf := buf[2 + |key|..];
      var val := ReadBson(id, buf, v, more);
      var size := GetValueSize(id, buf, v, more);
      SkipLeaves(v, more);
      buf := buf[size..];
      r := Some((key, val));
    }
  }

  /** What a scan of `es` has left after its first `i` visible entries. */
  ghost function Remaining(es: seq<Entry>, i: nat, tail: seq<byte>): seq<byte>
    requires i <= |Visible(es)|
  {
    (if i > 0 then Stray(es[i - 1].val) else []) + Tail(es[i..], tail)
  }

  /** Past the last visible entry the next byte is zero, before that it is the next entry's type. */
  lemma RemainingStep(es: seq<Entry>, i: nat, tail: seq<byte>)
    requires i <= |Visible(es)|
    ensures i < |Visible(es)| ==> Remaining(es, i, tail) == Tail(es[i..], tail)
    ensures i == |Visible(es)| ==> exists t :: Remaining(es, i, tail) == Tail([], t)
  {
    if i < |Visible(es)| {
      if i > 0 {
        VisiblePlain(es, i - 1);
        assert Remaining(es, i, tail) == Tail(es[i..], tail);
      }
    } else {
      VisibleEnd(es);
      if i > 0 && es[i - 1].val.Regex? {
        assert Remaining(es, i, tail) == Tail([], Tail(es[i..], tail));
      } else {
        assert es[i..] == [];
        assert Remaining(es, i, tail) == Tail([], tail);
      }
    }
  }

  /** What a scan of `es` reads next. */
  lemma ScanHere(es: seq<Entry>, i: nat, tail: seq<byte>)
    requires i <= |Visible(es)| && |EncEntries(es)| < TWO_31
    ensures |Remaining(es, i, tail)| > 0
    ensures Remaining(es, i, tail)[0] == 0 <==> i == |Visible(es)|
    ensures i < |Visible(es)| ==>
              && Remaining(es, i, tail) == Tail(es[i..], tail)
              && Remaining(es, i, tail) == Head(Id(es[i].val), es[i].key)
                  + (EncVal(es[i].val) + Tail(es[i + 1..], tail))
              && Remaining(es, i, tail)[0] == Id(es[i].val)
              && |EncVal(es[i].val)| < TWO_31
  {
    RemainingStep(es, i, tail);
    if i < |Visible(es)| {
      FirstEntry(es[i..], tail);
      assert es[i..][1..] == es[i + 1..];
      FirstByte(es[i..], tail);
      EncSplitLength(es, i);
    } else {
      var t :| Remaining(es, i, tail) == Tail([], t);
      FirstByte([], t);
    }
  }

  /** Passing entry `i` leaves what the scan reads next. */
  lemma VisibleStep(es: seq<Entry>, i: nat, tail: seq<byte>)
    requires i < |Visible(es)|
    ensures Remaining(es, i + 1, tail) == Stray(es[i].val) + Tail(es[i + 1..], tail)
  {
  }

  /** A scan ends early only at a regular expression. */
  lemma {:induction false} VisibleEnd(es: seq<Entry>)
    ensures |Visible(es)| < |es| ==> |Visible(es)| > 0 && es[|Visible(es)| - 1].val.Regex?
  {
    if es != [] && !es[0].val.Regex? {
      VisibleEnd(es[1..]);
      if |Visible(es)| < |es| {
        assert es[|Visible(es)| - 1] == es[1..][|Visible(es[1..])| - 1];
      }
    }
  }

  /** `Document::len`, which counts what the iterator yields. */
  method Len(buf: seq<byte>, ghost es: seq<Entry>, ghost tail: seq<byte>) returns (n: nat)
    requires buf == Tail(es, tail) && |EncEntries(es)| < TWO_31
    ensures n == |Visible(es)|
  {
    var it := new DocRefIter(buf);
    n := 0;
    assert es[0..] == es;
    while true
      invariant n <= |Visible(es)|
      invariant it.buf == Remaining(es, n, tail)
      decreases |Visible(es)| - n
    {
      var r := Advance(it, es, n, tail);
      if r.None? {
        return;
      }
      n := n + 1;
    }
  }

  /** One step of a scan over `es`, seen from the visible entries. */
  method Advance(it: DocRefIter, ghost es: seq<Entry>, ghost i: nat, ghost tail: seq<byte>)
    returns (r: Option<(seq<byte>, Item)>)
    requires i <= |Visible(es)| && it.buf == Remaining(es, i, tail) && |EncEntries(es)| < TWO_31
    modifies it
    ensures r.None? <==> i == |Visible(es)|
    ensures r.Some? ==> r.value == (es[i].key, ItemOf(es[i].val, Tail(es[i + 1..], tail)))
    ensures r.Some? ==> it.buf == Remaining(es, i + 1, tail)
  {
    RemainingStep(es, i, tail);
    EncSplitLength(es, i);
    ghost var left, after := es[i..], tail;
    if i == |Visible(es)| {
      after :| Remaining(es, i, tail) == Tail([], after);
      left := [];
    } else {
      assert left[1..] == es[i + 1..];
    }
    r := it.Next(left, after);
  }

  lemma EncSplitLength(es: seq<Entry>, i: nat)
    requires i <= |es|
    ensures |EncEntries(es[i..])| <= |EncEntries(es)|
    ensures |EncEntries(es[..i])| + |EncEntries(es[i..])| == |EncEntries(es)|
  {
    EncConcat(es[..i], es[i..]);
    assert es == es[..i] + es[i..];
  }

  /** `DocRef::get_any`: the first visible entry with the key, as `Bson::read` hands it out. */
  method GetAny(buf: seq<byte>, key: seq<byte>, ghost es: seq<Entry>, ghost tail: seq<byte>)
    returns (r: Option<Item>)
    requires buf == Tail(es, tail) && |EncEntries(es)| < TWO_31
    ensures var i := IndexOf(Visible(es), key);
            r == if i == |Visible(es)| then None else Some(ItemOf(es[i].val, Tail(es[i + 1..], tail)))
  {
    var it := new DocRefIter(buf);
    ghost var n := 0;
    assert es[0..] == es;
    while true
      invariant n <= |Visible(es)|
      invariant it.buf == Remaining(es, n, tail)
      invariant forall j | 0 <= j < n :: es[j].key != key
      decreases |Visible(es)| - n
    {
      var e := Advance(it, es, n, tail);
      if e.None? {
        return None;
      }
      if e.value.0 == key {
        return Some(e.value.1);
      }
      n := n + 1;
    }
  }

  /** `DocRef::contains_any`. */
  method ContainsAny(buf: seq<byte>, key: seq<byte>, ghost es: seq<Entry>, ghost tail: seq<byte>)
    returns (r: bool)
    requires buf == Tail(es, tail) && |EncEntries(es)| < TWO_31
    ensures r <==> exists e :: e in Visible(es) && e.key == key
  {
    var it := new DocRefIter(buf);
    ghost var n := 0;
    assert es[0..] == es;
    while true
      invariant n <= |Visible(es)|
      invariant it.buf == Remaining(es, n, tail)
      invariant forall j | 0 <= j < n :: es[j].key != key
      decreases |Visible(es)| - n
    {
      var e := Advance(it, es, n, tail);
      if e.None? {
        return false;
      }
      if e.value.0 == key {
        assert es[n] == Visible(es)[n];
        return true;
      }
      n := n + 1;
    }
  }

  // ----- whole iterations -----

  /** What iterating over a document and over those nested in it comes across. */
  function Seen(es: seq<Entry>): (r: seq<Entry>)
    ensures |r| == |Visible(es)|
    decreases es, 1
  {
    if es == [] then []
    else [Entry(es[0].key, SeenVal(es[0].val))] + (if es[0].val.Regex? then [] else Seen(es[1..]))
  }

  function SeenVal(v: Value): Value
    decreases v, 0
  {
    match v
    case Doc(entries) => Doc(Seen(entries))
    case Arr(elements) => Arr(Seen(elements))
    case _ => v
  }

  lemma {:induction false} SeenAt(es: seq<Entry>, i: nat)
    requires i < |Visible(es)|
    ensures Seen(es)[i] == Entry(es[i].key, SeenVal(es[i].val))
    decreases |es|
  {
    if i > 0 {
      assert Visible(es)[1..] == Visible(es[1..]);
      SeenAt(es[1..], i - 1);
    }
  }

  /** No regular expression stands before the last entry of any document. */
  predicate Whole(es: seq<Entry>)
    decreases es, 1
  {
    && (forall i | 0 <= i < |es| - 1 :: !es[i].val.Regex?)
    && (forall i | 0 <= i < |es| :: WholeVal(es[i].val))
  }

  predicate WholeVal(v: Value)
    decreases v, 0
  {
    match v
    case Doc(entries) => Whole(entries)
    case Arr(elements) => Whole(elements)
    case _ => true
  }

  /** An iteration through all depths sees everything exactly when no regular expression stands before the last entry
      of any document. */
  lemma {:induction false} SeenIsAll(es: seq<Entry>)
    ensures Seen(es) == es <==> Whole(es)
    decreases es, 1
  {
    VisibleIsAll(es);
    if Visible(es) == es {
      forall i | 0 <= i < |es|
        ensures Seen(es)[i] == es[i] <==> WholeVal(es[i].val)
      {
        SeenAt(es, i);
        SeenValIsAll(es[i].val);
      }
    }
  }

  lemma {:induction false} SeenValIsAll(v: Value)
    ensures SeenVal(v) == v <==> WholeVal(v)
    decreases v, 0
  {
    match v
    case Doc(entries) => SeenIsAll(entries);
    case Arr(elements) => SeenIsAll(elements);
    case _ =>
  }

  /** Iterating over a document, and over every nested one by the bytes that it was handed out with. */
  method Collect(buf: seq<byte>, ghost es: seq<Entry>, ghost tail: seq<byte>) returns (r: seq<Entry>)
    requires buf == Tail(es, tail) && |EncEntries(es)| < TWO_31
    ensures r == Seen(es)
    decreases es, 1
  {
    hide EncEntries, EncVal, EncEntry, Seen, SeenVal, Remaining, Visible, Tail;
    r := [];
    StartsHere(es, tail);
    var it := new DocRefIter(buf);
    ghost var n := 0;
    while true
      invariant n <= |Visible(es)|
      invariant it.buf == Remaining(es, n, tail)
      invariant r == Seen(es)[..n]
      decreases |Visible(es)| - n
    {
      var e := Advance(it, es, n, tail);
      if e.None? { return; }
      SeenAt(es, n);
      ValueFits(es, n);
      var v := CollectItem(e.value.1, es[n].val, Tail(es[n + 1..], tail));
      r := r + [Entry(e.value.0, v)];
      n := n + 1;
    }
  }

  lemma ValueFits(es: seq<Entry>, i: nat)
    requires i < |es|
    ensures |EncVal(es[i].val)| <= |EncEntries(es)|
  {
    EncSplit(es, i);
  }

  lemma StartsHere(es: seq<Entry>, tail: seq<byte>)
    ensures Remaining(es, 0, tail) == Tail(es, tail)
  {
    assert es[0..] == es;
  }

  /** A value as it was handed out, and if it is nested what iterating over it yields. */
  method CollectItem(item: Item, ghost v: Value, ghost rest: seq<byte>) returns (r: Value)
    requires item == ItemOf(v, rest) && |EncVal(v)| < TWO_31
    ensures r == SeenVal(v)
    decreases v, 0
  {
    match item {
      case Scalar(scalar) => r := scalar;
      case DocRef(nested) =>
        var entries := Collect(nested, v.entries, rest);
        r := Doc(entries);
      case ArrayRef(nested) =>
        var elements := Collect(nested, v.elements, rest);
        r := Arr(elements);
    }
  }
}
