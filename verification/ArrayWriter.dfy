/** Writing a slice of values as an array: `impl BsonValue for &[Bson]`. */
module ArrayWriter {
  import opened Bytes
  import opened Bson
  import opened Vecs
  import opened Write

  /** `to_string()` of an index, in ASCII. */
  function Decimal(n: nat): (s: NulFree)
    ensures s != []
  {
    var digit: byte := 48 + n % 10;
    if n < 10 then [digit] else Decimal(n / 10) + [digit]
  }

  function DecimalValue(s: seq<byte>): int {
    if s == [] then 0 else 10 * DecimalValue(s[..|s| - 1]) + s[|s| - 1] - 48
  }

  /** Different indices have different keys. */
  lemma {:induction false} DecimalRoundTrip(n: nat)
    ensures DecimalValue(Decimal(n)) == n
  {
    if n >= 10 {
      DecimalRoundTrip(n / 10);
      assert Decimal(n)[..|Decimal(n)| - 1] == Decimal(n / 10);
    } else {
      assert Decimal(n)[..0] == [];
    }
  }

  /** Digits without a leading zero. */
  predicate Numeral(s: seq<byte>) {
    && s != [] && (forall i | 0 <= i < |s| :: 48 <= s[i] <= 57)
    && (s[0] == 48 ==> |s| == 1)
  }

  function Pow10(width: nat): (p: nat)
    ensures p > 0
  {
    if width == 0 then 1 else 10 * Pow10(width - 1)
  }

  /** A numeral of `k` digits stands for a number below the `k`-th power of ten, and not below the one before. */
  lemma {:induction false} NumeralBounds(s: seq<byte>)
    requires Numeral(s)
    ensures 0 <= DecimalValue(s) < Pow10(|s|)
    ensures s != [48] ==> Pow10(|s| - 1) <= DecimalValue(s)
  {
    var front := s[..|s| - 1];
    if front == [] {
      assert DecimalValue(s) == s[0] - 48 && Pow10(0) == 1 && Pow10(1) == 10;
    } else {
      assert front[0] == s[0] && front != [48];
      NumeralBounds(front);
    }
  }

  /** The key of an index is its only numeral, as wide as the number needs. */
  lemma OnlyNumeral(n: nat, s: seq<byte>)
    ensures s == Decimal(n) <==> Numeral(s) && DecimalValue(s) == n
    ensures n > 0 ==> Pow10(|Decimal(n)| - 1) <= n < Pow10(|Decimal(n)|)
  {
    DecimalRoundTrip(n);
    DecimalIsNumeral(n);
    NumeralBounds(Decimal(n));
    if Numeral(s) && DecimalValue(s) == n { NumeralIsDecimal(s); }
  }

  lemma {:induction false} NumeralIsDecimal(s: seq<byte>)
    requires Numeral(s)
    ensures DecimalValue(s) >= 0 && s == Decimal(DecimalValue(s))
    decreases |s|
  {
    if |s| == 1 {
      assert DecimalValue(s[..0]) == 0 && s == [s[0]];
    } else {
      NumeralFront(s);
      hide *;
      NumeralIsDecimal(s[..|s| - 1]);
      DecimalSnoc(DecimalValue(s[..|s| - 1]), s[|s| - 1]);
      assert s == s[..|s| - 1] + [s[|s| - 1]];
    }
  }

  lemma NumeralFront(s: seq<byte>)
    requires Numeral(s) && |s| > 1
    ensures var front, last := s[..|s| - 1], s[|s| - 1];
            && Numeral(front) && DecimalValue(front) > 0 && 48 <= last <= 57
            && DecimalValue(s) == 10 * DecimalValue(front) + (last - 48)
  {
    var front := s[..|s| - 1];
    assert front[0] == s[0] && Numeral(front);
    NumeralBounds(front);
  }

  lemma DecimalSnoc(q: nat, digit: byte)
    requires q > 0 && 48 <= digit <= 57
    ensures Decimal(10 * q + (digit - 48)) == Decimal(q) + [digit]
  {
    assert (10 * q + (digit - 48)) / 10 == q && (10 * q + (digit - 48)) % 10 == digit - 48;
  }

  lemma {:induction false} DecimalIsNumeral(n: nat)
    ensures Numeral(Decimal(n)) && (Decimal(n)[0] == 48 ==> n == 0)
  {
    if n >= 10 { DecimalIsNumeral(n / 10); }
  }

  /** The entries of an array: the values under their indices. */
  function Indexed(vs: seq<Value>): (es: seq<Entry>)
    ensures |es| == |vs|
  {
    if vs == [] then [] else Indexed(vs[..|vs| - 1]) + [Entry(Decimal(|vs| - 1), vs[|vs| - 1])]
  }

  /** `Bson::id`, which is not the type's own id for a null. */
  function BsonId(v: Value): byte {
    if v.Null? then 0 else Id(v)
  }

  function ElementSize(i: nat, v: Value): nat {
    2 + |Decimal(i)| + Size(v)
  }

  function ElementsSize(vs: seq<Value>): nat {
    if vs == [] then 0 else ElementsSize(vs[..|vs| - 1]) + ElementSize(|vs| - 1, vs[|vs| - 1])
  }

  /** `size()` of the slice. */
  function ArraySize(vs: seq<Value>): nat {
    5 + ElementsSize(vs)
  }

  function ElementBytes(i: nat, v: Value): (s: seq<byte>)
    ensures |s| == ElementSize(i, v)
  {
    SizeIsEncodedLength(v);
    Head(BsonId(v), Decimal(i)) + EncVal(v)
  }

  function ElementsBytes(vs: seq<Value>): (s: seq<byte>)
    ensures |s| == ElementsSize(vs)
  {
    if vs == [] then [] else ElementsBytes(vs[..|vs| - 1]) + ElementBytes(|vs| - 1, vs[|vs| - 1])
  }

  lemma {:induction false} SizesAgree(vs: seq<Value>)
    ensures ArraySize(vs) == |EncDoc(Indexed(vs))|
  {
    if vs != [] {
      var front, i, v := vs[..|vs| - 1], |vs| - 1, vs[|vs| - 1];
      SizesAgree(front);
      SizeIsEncodedLength(v);
      EncAppend(Indexed(front), Entry(Decimal(i), v));
    }
  }

  /** The writer produces the index-keyed document, as `DocBuilder` does, exactly when no element is null. */
  lemma {:induction false} ElementsAgree(vs: seq<Value>)
    ensures ElementsBytes(vs) == EncEntries(Indexed(vs)) <==> Null !in vs
  {
    if vs != [] {
      var front, i, v := vs[..|vs| - 1], |vs| - 1, vs[|vs| - 1];
      assert vs == front + [v];
      ElementsAgree(front);
      SizesAgree(front);
      EncAppend(Indexed(front), Entry(Decimal(i), v));
      var x, y := ElementBytes(i, v), EncEntry(Entry(Decimal(i), v));
      assert x[0] == BsonId(v) && y[0] == Id(v);
      if ElementsBytes(vs) == EncEntries(Indexed(vs)) {
        TakeEqual(ElementsBytes(front), EncEntries(Indexed(front)), x, y);
      }
    }
  }

  /** The entries of an array are its elements in order, each under the numeral of its index. */
  lemma {:induction false} IndexedAt(vs: seq<Value>, i: nat)
    requires i < |vs|
    ensures Indexed(vs)[i].val == vs[i]
    ensures Numeral(Indexed(vs)[i].key) && DecimalValue(Indexed(vs)[i].key) == i
    decreases |vs|
  {
    if i == |vs| - 1 { OnlyNumeral(i, Decimal(i)); } else { IndexedAt(vs[..|vs| - 1], i); }
  }

  lemma {:induction false} PartialSize(vs: seq<Value>, i: nat)
    requires i < |vs|
    ensures ElementsSize(vs[..i]) + ElementSize(i, vs[i]) == ElementsSize(vs[..i + 1]) <= ElementsSize(vs)
    ensures ElementsBytes(vs[..i + 1]) == ElementsBytes(vs[..i]) + ElementBytes(i, vs[i])
    decreases |vs|
  {
    assert vs[..i + 1][..i] == vs[..i];
    if i + 1 == |vs| {
      assert vs[..i + 1] == vs;
    } else {
      var front := vs[..|vs| - 1];
      PartialSize(front, i);
      assert front[..i] == vs[..i] && front[..i + 1] == vs[..i + 1];
    }
  }

  /** A null is written with the type of a terminator: a reader takes the elements before the first one for all. */
  lemma NullEnds(vs: seq<Value>, i: nat)
    requires i < |vs| && vs[i] == Null && Null !in vs[..i]
    ensures exists t :: ElementsBytes(vs) + [0] == EncEntries(Indexed(vs[..i])) + [0] + t
  {
    hide *;
    PartialSize(vs, i);
    ElementsAgree(vs[..i]);
    BytesPrefix(vs, i + 1);
    NullFirst(i);
    var t := ZeroNext(ElementsBytes(vs), ElementsBytes(vs[..i]), ElementBytes(i, Null));
    assert ElementsBytes(vs) + [0] == EncEntries(Indexed(vs[..i])) + [0] + t;
  }

  lemma NullFirst(i: nat)
    ensures ElementBytes(i, Null) != [] && ElementBytes(i, Null)[0] == 0
  {
  }

  lemma ZeroNext(x: seq<byte>, a: seq<byte>, e: seq<byte>) returns (t: seq<byte>)
    requires a + e <= x && e != [] && e[0] == 0
    ensures x + [0] == a + [0] + t
  {
    t := x[|a| + 1..] + [0];
    assert x[..|a|] == a && x[|a|] == e[0];
  }

  lemma {:induction false} BytesPrefix(vs: seq<Value>, i: nat)
    requires i <= |vs|
    ensures ElementsBytes(vs[..i]) <= ElementsBytes(vs)
    decreases |vs| - i
  {
    if i == |vs| {
      assert vs[..i] == vs;
    } else {
      BytesPrefix(vs, i + 1);
      PartialSize(vs, i);
    }
  }

  lemma SpliceBefore(s: seq<byte>, at: nat, x: seq<byte>, y: seq<byte>)
    requires at + |x| + |y| <= |s|
    ensures Splice(Splice(s, at + |x|, y), at, x) == Splice(s, at, x + y)
  {
  }

  /** One round of the write loop. */
  method WriteElement(i: nat, v: Value, vec: Vec, off: nat) returns (next: nat)
    requires off + ElementSize(i, v) <= |vec.data| && !v.Datetime?
    modifies vec
    ensures vec.data == Splice(old(vec.data), off, ElementBytes(i, v))
    ensures next == off + ElementSize(i, v)
  {
    var key := Decimal(i);
    ghost var was := vec.data;
    SizeIsEncodedLength(v);
    assert Head(BsonId(v), key) == [BsonId(v)] + key + [0];
    assert ElementBytes(i, v) == Head(BsonId(v), key) + EncVal(v);
    assert ElementSize(i, v) == 2 + |key| + Size(v);
    hide *;
    WriteParts(vec, off, [BsonId(v)], key, [0]);
    next := off + 1 + |key|;
    WriteBson(v, vec, next + 1);
    SpliceTwice(was, off, Head(BsonId(v), key), EncVal(v));
    next := next + 1 + Size(v);
  }

  /** `write_bson` of the slice at `at`: it fills exactly its precomputed size. Dates among the elements make it
      panic. */
  method WriteArray(vs: seq<Value>, vec: Vec, at: nat)
    requires at + ArraySize(vs) <= |vec.data|
    requires forall i | 0 <= i < |vs| :: !vs[i].Datetime?
    modifies vec
    ensures vec.data == Splice(old(vec.data), at, Frame(ElementsBytes(vs)))
  {
    ArraySizeIs(vs);
    hide *;
    var off := at + 4;
    ghost var was := vec.data;
    WriteNothing(was, off);
    assert vs[..0] == [];
    for i := 0 to |vs|
      invariant off == at + 4 + ElementsSize(vs[..i]) && off + 1 <= at + ArraySize(vs)
      invariant |vec.data| == |was|
      invariant vec.data == Splice(was, at + 4, ElementsBytes(vs[..i]))
    {
      PartialSize(vs, i);
      off := WriteElement(i, vs[i], vec, off);
      SpliceTwice(was, at + 4, ElementsBytes(vs[..i]), ElementBytes(i, vs[i]));
    }
    assert vs[..|vs|] == vs;
    vec.Set(off, 0);
    SpliceTwice(was, at + 4, ElementsBytes(vs), [0]);
    vec.CopyFromSlice(at, LE32(off - at + 1));
    SpliceBefore(was, at, LE32(off - at + 1), ElementsBytes(vs) + [0]);
    FrameIs(ElementsBytes(vs));
  }

  /** The slice that a date among the elements is written to is longer than the date. */
  lemma DateNeverWrites(vs: seq<Value>, i: nat, at: nat, end: nat)
    requires i < |vs| && vs[i].Datetime? && at + ArraySize(vs) <= end
    ensures at + 4 + ElementsSize(vs[..i]) + 2 + |Decimal(i)| + Size(vs[i]) < end
  {
    PartialSize(vs, i);
  }

  lemma WriteNothing(s: seq<byte>, off: nat)
    requires off <= |s|
    ensures Splice(s, off, []) == s
  {
  }

  lemma ArraySizeIs(vs: seq<Value>)
    ensures ArraySize(vs) == 5 + ElementsSize(vs)
    ensures ElementsSize([]) == 0 && ElementsBytes([]) == []
  {
  }

  lemma FrameIs(body: seq<byte>)
    ensures Frame(body) == LE32(|body| + 5) + (body + [0])
  {
  }
}
