/** What is left of an entry list when its last bytes are overwritten with zeros. */
module Zeroing {
  import opened Bytes
  import opened Bson

  /** The last `n` bytes are overwritten, or all when there are fewer. */
  function Zeroed(e: seq<byte>, n: nat): (r: seq<byte>)
    ensures |r| == |e|
  {
    if n >= |e| then Zeros(|e|) else e[..|e| - n] + Zeros(n)
  }

  /** An entry whose last `n` bytes, four at most, are overwritten is still an entry exactly with a value like these:
      it keeps its length whatever its last bytes are, or the overwritten ones were zeros already. */
  predicate Tolerates(v: Value, n: nat)
    decreases v, 0
  {
    match v
    case Bool(_) => n <= 2
    case Null => n <= 1
    case Regex(pattern, options) => n <= 1 || (n == 2 && options == []) || (n == 3 && pattern == [] && options == [])
    case Doc(entries) => n == 0 || Tolerant(entries, n - 1)
    case Arr(elements) => n == 0 || Tolerant(elements, n - 1)
    case _ => true
  }

  /** It is the value of the last entry that decides. */
  predicate Tolerant(es: seq<Entry>, n: nat)
    decreases es, 1
  {
    es == [] || Tolerates(es[|es| - 1].val, n)
  }

  lemma ZeroedTail(a: seq<byte>, b: seq<byte>, n: nat)
    ensures n <= |b| ==> Zeroed(a + b, n) == a + Zeroed(b, n)
    ensures n >= |b| ==> Zeroed(a + b, n) == Zeroed(a, n - |b|) + Zeros(|b|)
  {
  }

  /** No entry has the type zero. */
  lemma NoZeroType(m: nat, y: seq<byte>)
    requires m > 0
    ensures !IsList(Zeros(m) + y)
  {
    assert (Zeros(m) + y)[0] == 0;
    forall es
      ensures Zeros(m) + y != EncEntries(es)
    {
      TypeFirst(es);
    }
  }

  lemma TypeFirst(es: seq<Entry>)
    ensures es == [] <==> EncEntries(es) == []
    ensures es != [] ==> EncEntries(es)[0] != 0
  {
    if es != [] { assert EncEntries(es) == EncEntry(es[0]) + EncEntries(es[1..]); }
  }

  /** An overwritten entry that reads like another one followed by zeros is a list only without those. */
  lemma ReadsLike(z: seq<byte>, h: Entry, m: nat, y: seq<byte>)
    requires z == EncEntry(h) + Zeros(m) && |z + y| < TWO_31
    ensures IsList(z + y) <==> m == 0 && IsList(y)
  {
    EncSingle(h);
    hide EncEntry, EncEntries, IsList;
    assert z + y == EncEntries([h]) + (Zeros(m) + y);
    ListAfter([h], Zeros(m) + y);
    if m > 0 { NoZeroType(m, y); } else { assert Zeros(m) + y == y; }
  }

  // ----- values of one kind -----

  /** Values that keep their length whatever their last four bytes are. */
  predicate Rigid(v: Value) {
    !v.Bool? && !v.Null? && !v.Regex? && !v.Doc? && !v.Arr?
  }

  lemma RigidZeroed(v: Value, n: nat) returns (w: Value)
    requires Rigid(v) && n <= 4
    ensures n <= |EncVal(v)| && Id(w) == Id(v) && EncVal(w) == Zeroed(EncVal(v), n)
  {
    var z := Zeroed(EncVal(v), n);
    match v {
      case F64(_) => w := F64(z);
      case ObjectId(_) => w := ObjectId(z);
      case F128(_) => w := F128(z);
      case I32(_) => UnLEBound(z); Word(z); assert z[..4] == z; w := I32(ReadI32(z));
      case I64(_) => Word64(z); w := I64(ReadI64(z));
      case Datetime(_) => Word64(z); w := Datetime(ReadI64(z));
      case Timestamp(_) => Word64(z); w := Timestamp(ReadU64(z));
      case Str(text) => w := StrZeroed(text, n);
      case Binary(subtype, data) => w := BinaryZeroed(subtype, data, n);
    }
  }

  lemma StrZeroed(text: seq<byte>, n: nat) returns (w: Value)
    requires n <= 4
    ensures w.Str? && EncVal(w) == Zeroed(EncVal(Str(text)), n)
  {
    var len, end := LE32(|text| + 1), text + [0];
    assert EncVal(Str(text)) == len + end;
    if n == 0 {
      w := Str(text);
    } else {
      w := Str(Zeroed(text, n - 1));
      assert Zeroed([0], 1) == [0] && Zeros(1) == [0];
      ZeroedTail(text, [0], n);
      assert Zeroed(end, n) == Zeroed(text, n - 1) + [0];
      ZeroedLength(len, |text| + 1, end, n);
    }
  }

  lemma BinaryZeroed(subtype: Subtype, data: seq<byte>, n: nat) returns (w: Value)
    requires n <= 4
    ensures w.Binary? && EncVal(w) == Zeroed(EncVal(Binary(subtype, data)), n)
  {
    var len, end := LE32(|data|), [subtype] + data;
    assert EncVal(Binary(subtype, data)) == len + end;
    var z := Zeroed(end, n);
    w := Binary(z[0], z[1..]);
    ZeroedLength(len, |data|, end, n);
    assert [z[0]] + z[1..] == z;
  }

  /** A length of which less than three bytes follow has zeros to lose only. */
  lemma ZeroedLength(len: seq<byte>, size: nat, end: seq<byte>, n: nat)
    requires n <= 4 && end != [] && len == LE32(size) && size <= |end|
    ensures Zeroed(len + end, n) == len + Zeroed(end, n)
  {
    ZeroedTail(len, end, n);
    if n > |end| {
      SmallLE32(size);
      assert Zeroed(len, n - |end|) == len;
    }
  }

  /** What a value of one of the other kinds reads like, once its entry's last bytes are overwritten, and the zeros that
      are left over. */
  lemma FlagZeroed(e: Entry, n: nat) returns (h: Entry, m: nat)
    requires (e.val.Null? || e.val.Bool?) && n <= 4 && n < |EncEntry(e)|
    ensures Zeroed(EncEntry(e), n) == EncEntry(h) + Zeros(m) && (m == 0 <==> Tolerates(e.val, n))
  {
    var key, used := e.key, if e.val.Null? then 1 else 2;
    if n == 0 {
      h, m := e, 0;
      assert Zeros(0) == [];
    } else if n <= used {
      h, m := Entry(key, if e.val.Null? then Null else Bool(false)), 0;
      assert Zeros(1) == [0] && Zeros(2) == [0, 0];
    } else {
      m := n - used;
      h := Entry(key[..|key| - m], if e.val.Null? then Null else Bool(false));
      assert Zeros(n) == Zeros(used) + Zeros(m) && Zeros(1) == [0] && Zeros(2) == [0, 0];
      assert Zeroed(EncEntry(e), n) == [Id(e.val)] + key[..|key| - m] + Zeros(n);
    }
  }

  lemma RegexZeroed(e: Entry, n: nat) returns (h: Entry, m: nat)
    requires e.val.Regex? && n <= 4 && n < |EncEntry(e)|
    ensures Zeroed(EncEntry(e), n) == EncEntry(h) + Zeros(m) && (m == 0 <==> Tolerates(e.val, n))
  {
    var key, p, o := e.key, e.val.pattern, e.val.options;
    if n == 0 {
      h, m := e, 0;
    } else if n <= |o| + 1 {
      m := n - 1;
      h := Entry(key, Regex(p, o[..|o| - m]));
      OptionsZeroed(key, p, o, n);
    } else if n <= |o| + |p| + 2 {
      m := n - 2;
      h := Entry(key, Regex(p[..|p| - (m - |o|)], []));
      PatternZeroed(key, p, o, n);
    } else {
      m := n - 3;
      h := Entry(key[..|key| - (m - |o| - |p|)], Regex([], []));
      RegexKeyZeroed(key, p, o, n);
    }
  }

  lemma OptionsZeroed(key: NulFree, p: NulFree, o: NulFree, n: nat)
    requires 1 <= n <= |o| + 1
    ensures Zeroed(EncEntry(Entry(key, Regex(p, o))), n)
         == EncEntry(Entry(key, Regex(p, o[..|o| - (n - 1)]))) + Zeros(n - 1)
  {
    NulsFirst(1, n - 1);
    ZeroedTail([0x0B] + key + [0] + p + [0], o + [0], n);
    assert EncEntry(Entry(key, Regex(p, o))) == [0x0B] + key + [0] + p + [0] + (o + [0]);
    assert Zeroed(o + [0], n) == o[..|o| - (n - 1)] + Zeros(n);
  }

  lemma PatternZeroed(key: NulFree, p: NulFree, o: NulFree, n: nat)
    requires |o| + 2 <= n <= |o| + |p| + 2
    ensures Zeroed(EncEntry(Entry(key, Regex(p, o))), n)
         == EncEntry(Entry(key, Regex(p[..|p| - (n - 2 - |o|)], []))) + Zeros(n - 2)
  {
    NulsFirst(2, n - 2);
    var tail := p + [0] + o + [0];
    ZeroedTail([0x0B] + key + [0], tail, n);
    assert EncEntry(Entry(key, Regex(p, o))) == [0x0B] + key + [0] + tail;
    assert Zeroed(tail, n) == p[..|p| - (n - 2 - |o|)] + Zeros(n);
  }

  lemma RegexKeyZeroed(key: NulFree, p: NulFree, o: NulFree, n: nat)
    requires |o| + |p| + 3 <= n <= |o| + |p| + 3 + |key|
    ensures Zeroed(EncEntry(Entry(key, Regex(p, o))), n)
         == EncEntry(Entry(key[..|key| - (n - 3 - |o| - |p|)], Regex([], []))) + Zeros(n - 3)
  {
    NulsFirst(3, n - 3);
    var tail := key + [0] + p + [0] + o + [0];
    ZeroedTail([0x0B], tail, n);
    assert EncEntry(Entry(key, Regex(p, o))) == [0x0B] + tail;
    assert Zeroed(tail, n) == key[..|key| - (n - 3 - |o| - |p|)] + Zeros(n);
  }

  lemma NulsFirst(k: nat, m: nat)
    ensures Zeros(k + m) == Zeros(k) + Zeros(m)
    ensures Zeros(1) == [0] && Zeros(2) == [0, 0] && Zeros(3) == [0, 0, 0]
  {
  }

  // ----- entries and lists -----

  /** A nested document with its last bytes overwritten: the length field still says how long it is. */
  lemma NestedBytes(es: seq<Entry>, n: nat)
    requires 1 <= n <= 4
    ensures Zeroed(EncDoc(es), n) == LE32(|EncEntries(es)| + 5) + Zeroed(EncEntries(es), n - 1) + [0]
    ensures |EncDoc(es)| > n
  {
    var inner, len := EncEntries(es), LE32(|EncEntries(es)| + 5);
    assert EncDoc(es) == len + (inner + [0]);
    assert Zeroed([0], 1) == [0] && Zeros(1) == [0];
    ZeroedTail(inner, [0], n);
    ZeroedTail(len, inner + [0], n);
    if n > |inner| + 1 {
      SmallLE32(|inner| + 5);
      assert Zeroed(len, n - |inner| - 1) == len;
      assert Zeroed(inner + [0], n) == Zeros(|inner| + 1) == Zeroed(inner, n - 1) + [0];
    }
  }

  /** Where a nested document's bytes are some list's, they are between its length and its terminator. */
  lemma NestedZeroed(e: Entry, es: seq<Entry>, n: nat, y: seq<byte>)
    requires (e.val == Doc(es) || e.val == Arr(es)) && 1 <= n <= 4
    requires |Zeroed(EncEntry(e), n) + y| < TWO_31
    ensures IsList(Zeroed(EncEntry(e), n) + y) <==> IsList(Zeroed(EncEntries(es), n - 1)) && IsList(y)
  {
    var id, z := Id(e.val), Zeroed(EncEntries(es), n - 1);
    var len := |EncEntries(es)| + 5;
    hide EncEntries, EncDoc, Zeroed, LE32, EncEntry, EncVal, Head;
    NestedEntryBytes(e, es, n);
    var x := Zeroed(EncEntry(e), n);
    assert x + y == Head(id, e.key) + (LE32(len) + (z + [0] + y));
    if IsList(x + y) {
      var gs :| x + y == EncEntries(gs);
      TypeFirst(gs);
      NestedFirst(id, e.key, len, z, y, gs);
    }
    if IsList(z) {
      var fs :| z == EncEntries(fs);
      NestedAgain(e, fs, len, x);
      ReadsLike(x, Entry(e.key, if e.val.Doc? then Doc(fs) else Arr(fs)), 0, y);
    }
  }

  lemma NestedEntryBytes(e: Entry, es: seq<Entry>, n: nat)
    requires (e.val == Doc(es) || e.val == Arr(es)) && 1 <= n <= 4
    ensures Zeroed(EncEntry(e), n)
         == Head(Id(e.val), e.key) + (LE32(|EncEntries(es)| + 5) + (Zeroed(EncEntries(es), n - 1) + [0]))
  {
    NestedBytes(es, n);
    assert EncEntry(e) == Head(Id(e.val), e.key) + EncDoc(es);
    hide EncEntry, EncDoc, EncEntries, LE32;
    ZeroedTail(Head(Id(e.val), e.key), EncDoc(es), n);
  }

  lemma NestedAgain(e: Entry, fs: seq<Entry>, len: nat, x: seq<byte>)
    requires (e.val.Doc? || e.val.Arr?) && len == |EncEntries(fs)| + 5
    requires x == Head(Id(e.val), e.key) + (LE32(len) + (EncEntries(fs) + [0]))
    ensures x == EncEntry(Entry(e.key, if e.val.Doc? then Doc(fs) else Arr(fs))) + Zeros(0)
  {
    assert Zeros(0) == [];
  }

  lemma NestedFirst(id: byte, key: NulFree, len: nat, z: seq<byte>, y: seq<byte>, gs: seq<Entry>)
    requires id == 0x03 || id == 0x04
    requires gs != [] && |EncEntries(gs)| < TWO_31 && len == |z| + 5
    requires Head(id, key) + (LE32(len) + (z + [0] + y)) == EncEntries(gs)
    ensures IsList(z) && IsList(y)
  {
    var g, rest := gs[0], EncEntries(gs[1..]);
    IdOfNested(g.val);
    hide *;
    FirstParts(gs);
    HeadInjective(id, Id(g.val), key, g.key, LE32(len) + (z + [0] + y), EncVal(g.val) + rest);
    var fs := if g.val.Doc? then g.val.entries else g.val.elements;
    FramedParts(g.val, fs, rest);
    Prefixed32Injective(len, |EncEntries(fs)| + 5, z + [0] + y, EncEntries(fs) + [0] + rest);
    TakeEqual(z + [0], EncEntries(fs) + [0], y, rest);
    TakeEqual(z, EncEntries(fs), [0], [0]);
    Listed(fs);
    Listed(gs[1..]);
  }

  lemma IdOfNested(v: Value)
    ensures (Id(v) == 0x03 <==> v.Doc?) && (Id(v) == 0x04 <==> v.Arr?)
  {
  }

  lemma Listed(es: seq<Entry>)
    ensures IsList(EncEntries(es))
  {
  }

  lemma FirstParts(gs: seq<Entry>)
    requires gs != []
    ensures EncEntries(gs) == Head(Id(gs[0].val), gs[0].key) + (EncVal(gs[0].val) + EncEntries(gs[1..]))
    ensures |EncVal(gs[0].val)| <= |EncEntries(gs)|
  {
    hide Head, EncVal;
  }

  lemma FramedParts(v: Value, fs: seq<Entry>, rest: seq<byte>)
    requires v == Doc(fs) || v == Arr(fs)
    ensures EncVal(v) + rest == LE32(|EncEntries(fs)| + 5) + (EncEntries(fs) + [0] + rest)
    ensures |EncEntries(fs)| + 5 == |EncVal(v)|
  {
    hide LE32, EncEntries;
  }

  lemma {:induction false} EntryZeroed(e: Entry, n: nat, y: seq<byte>)
    requires n <= 4 && n < |EncEntry(e)| && |EncEntry(e) + y| < TWO_31
    ensures IsList(Zeroed(EncEntry(e), n) + y) <==> Tolerates(e.val, n) && IsList(y)
    decreases e.val, 1
  {
    var z := Zeroed(EncEntry(e), n);
    if Rigid(e.val) {
      var w := RigidZeroed(e.val, n);
      ZeroedTail(Head(Id(e.val), e.key), EncVal(e.val), n);
      assert Zeros(0) == [] && z == EncEntry(Entry(e.key, w)) + Zeros(0);
      ReadsLike(z, Entry(e.key, w), 0, y);
    } else if e.val.Doc? || e.val.Arr? {
      var es := if e.val.Doc? then e.val.entries else e.val.elements;
      if n == 0 {
        assert Zeros(0) == [] && z == EncEntry(e) + Zeros(0);
        ReadsLike(z, e, 0, y);
      } else {
        NestedZeroed(e, es, n, y);
        assert |EncEntries(es)| <= |EncEntry(e)|;
        ListZeroed(es, n - 1, []);
        assert Zeroed(EncEntries(es), n - 1) + [] == Zeroed(EncEntries(es), n - 1) && EncEntries([]) == [];
      }
    } else if e.val.Regex? {
      var h, m := RegexZeroed(e, n);
      ReadsLike(z, h, m, y);
    } else {
      var h, m := FlagZeroed(e, n);
      ReadsLike(z, h, m, y);
    }
  }

  /** Overwriting the last bytes of an entry list leaves a list, whatever list follows, exactly when its last value
      tolerates that. */
  lemma {:induction false} ListZeroed(es: seq<Entry>, n: nat, y: seq<byte>)
    requires n <= 4 && |EncEntries(es) + y| < TWO_31
    ensures IsList(Zeroed(EncEntries(es), n) + y) <==> Tolerant(es, n) && IsList(y)
    decreases es, 2
  {
    if es == [] {
      assert Zeroed([], n) + y == y;
    } else {
      var front, last := es[..|es| - 1], es[|es| - 1];
      var a, b := EncEntries(front), EncEntry(last);
      assert es == front + [last];
      EncAppend(front, last);
      ZeroedTail(a, b, n);
      if n < |b| {
        EntryZeroed(last, n, y);
        assert Zeroed(a + b, n) + y == a + (Zeroed(b, n) + y);
        ListAfter(front, Zeroed(b, n) + y);
      } else {
        ListZeroed(front, n - |b|, Zeros(|b|) + y);
        NoZeroType(|b|, y);
        assert Zeroed(a + b, n) + y == Zeroed(a, n - |b|) + (Zeros(|b|) + y);
        ShortEntry(last, n);
      }
    }
  }

  lemma ShortEntry(e: Entry, n: nat)
    requires |EncEntry(e)| <= n <= 4
    ensures !Tolerates(e.val, n)
  {
  }
}
