/** Documents written as values from their own buffers: `Document` writes its whole buffer, `DocRef` a length and its
    tail. */
module DocEmbeds {
  import opened Bytes
  import opened Bson
  import opened Vecs
  import opened Scan
  import opened Write
  import opened DocMuts

  /** A document that a shrinking replacement left stale bytes in, written as a value between other entries: the
      enclosing document holds a list exactly when those bytes and the entries behind them are one. */
  lemma EmbedHoldsList(before: seq<Entry>, key: NulFree, es: seq<Entry>, stale: seq<byte>, after: seq<Entry>)
    requires |EncEntries(before) + Head(0x03, key) + (EncDoc(es) + stale) + EncEntries(after)| < TWO_31
    ensures IsList(EncEntries(before) + Head(0x03, key) + (EncDoc(es) + stale) + EncEntries(after))
            <==> IsList(stale + EncEntries(after))
  {
    var e := Entry(key, Doc(es));
    EncAppend(before, e);
    assert EncEntry(e) == Head(0x03, key) + EncDoc(es);
    var a, head, doc, b := EncEntries(before), Head(0x03, key), EncDoc(es), EncEntries(after);
    hide EncEntries, EncEntry, EncDoc, IsList, Head;
    Regroup4(a, head, doc, stale, b);
    ListAfter(before + [e], stale + b);
  }

  /** They are the list that was asked for exactly when there are no stale bytes. */
  lemma EmbedIsAsked(before: seq<Entry>, key: NulFree, es: seq<Entry>, stale: seq<byte>, after: seq<Entry>)
    ensures EncEntries(before) + Head(0x03, key) + (EncDoc(es) + stale) + EncEntries(after)
              == EncEntries(before + [Entry(key, Doc(es))] + after)
            <==> stale == []
  {
    var e := Entry(key, Doc(es));
    EncConcat(before + [e], after);
    EncAppend(before, e);
    assert EncEntry(e) == Head(0x03, key) + EncDoc(es);
    var a, head, doc, b := EncEntries(before), Head(0x03, key), EncDoc(es), EncEntries(after);
    hide *;
    Regroup4(a, head, doc, stale, b);
    Assoc(a, head, doc);
    if stale == [] { assert [] + b == b; }
  }

  lemma Regroup4(a: seq<byte>, head: seq<byte>, doc: seq<byte>, stale: seq<byte>, b: seq<byte>)
    ensures a + head + (doc + stale) + b == a + (head + doc) + (stale + b)
  {
  }

  /** A nested document as the iterator hands it out, written as a value: the enclosing document holds a list exactly
      when nothing follows the nested one where it was read. */
  lemma TailHoldsList(before: seq<Entry>, key: NulFree, es: seq<Entry>, rest: seq<byte>)
    requires |EncEntries(before) + Head(0x03, key) + (LE32(|Tail(es, rest)| + 4) + Tail(es, rest))| < TWO_31
    ensures IsList(EncEntries(before) + Head(0x03, key) + (LE32(|Tail(es, rest)| + 4) + Tail(es, rest))) <==> rest == []
  {
    var tail := Tail(es, rest);
    var x := Head(0x03, key) + (LE32(|tail| + 4) + tail);
    Assoc(EncEntries(before), Head(0x03, key), LE32(|tail| + 4) + tail);
    ListAfter(before, x);
    if rest == [] {
      EncSingle(Entry(key, Doc(es)));
      assert tail == EncEntries(es) + [0];
      assert LE32(|tail| + 4) + tail == EncDoc(es);
      assert x == EncEntries([Entry(key, Doc(es))]);
    }
    if IsList(x) {
      var fs :| x == EncEntries(fs);
      assert fs != [];
      FirstIsNested(key, es, rest, fs);
    }
  }

  lemma FirstIsNested(key: NulFree, es: seq<Entry>, rest: seq<byte>, fs: seq<Entry>)
    requires fs != [] && |EncEntries(fs)| < TWO_31
    requires Head(0x03, key) + (LE32(|Tail(es, rest)| + 4) + Tail(es, rest)) == EncEntries(fs)
    ensures rest == []
  {
    var f, tail, y := fs[0], Tail(es, rest), EncEntries(fs[1..]);
    assert EncEntries(fs) == Head(Id(f.val), f.key) + (EncVal(f.val) + y);
    HeadInjective(0x03, Id(f.val), key, f.key, LE32(|tail| + 4) + tail, EncVal(f.val) + y);
    var gs := f.val.entries;
    assert EncVal(f.val) + y == LE32(|EncEntries(gs)| + 5) + (EncEntries(gs) + [0] + y);
    Prefixed32Injective(|tail| + 4, |EncEntries(gs)| + 5, tail, EncEntries(gs) + [0] + y);
    EntriesInjective(es, gs, rest, y);
    assert |tail| == |EncEntries(es)| + 1 + |rest|;
  }

  /** The four writes of such an entry into a gap of its size. */
  method WriteRaw(vec: Vec, at: nat, key: NulFree, value: seq<byte>, ghost pre: seq<byte>, ghost gap: seq<byte>,
      ghost post: seq<byte>)
    requires vec.data == pre + gap + post && at == |pre| && |gap| == 2 + |key| + |value|
    modifies vec
    ensures vec.data == pre + Head(0x03, key) + value + post
  {
    ghost var head := Head(0x03, key);
    ghost var g1, g2 := gap[..|head|], gap[|head|..];
    assert head == [0x03] + key + [0];
    hide *;
    CutGap(pre, gap, g1, g2, post);
    WriteParts(vec, at, [0x03], key, [0]);
    SpliceBetween(pre, g1, g2 + post, head);
    Assoc(pre + head, g2, post);
    vec.CopyFromSlice(at + 2 + |key|, value);
    SpliceBetween(pre + head, g2, post, value);
  }

  /** `append` of a `Document` or a `DocRef`, whose `write_bson` copies `value` as it is. */
  method PutBytes(doc: DocMut, key: NulFree, value: seq<byte>, ghost p: Place, ghost es: seq<Entry>,
      ghost stale: seq<byte>)
    requires doc.Holds(p, es, stale)
    requires RootLen(p, |EncDoc(es)| + 2 + |key| + |value|) < TWO_31
    modifies doc.vec
    ensures doc.vec.data == Layout(p, EncEntries(es) + Head(0x03, key) + value, stale)
  {
    ghost var body, len := EncEntries(es), 2 + |key| + |value|;
    hide *;
    Room(doc, p, es, stale, len);
    var at, gap := doc.GrowAtEnd(2 + |key| + |value|, p, body, stale);
    WriteRaw(doc.vec, at, key, value, Open(p, |body| + 5 + len) + body, gap, Close(p, stale));
    LayoutIs(p, body, Head(0x03, key), value, stale);
  }

  method AppendBytes(doc: DocMut, key: NulFree, value: seq<byte>, ghost p: Place, ghost es: seq<Entry>,
      ghost stale: seq<byte>)
    requires doc.Holds(p, es, stale)
    requires RootLen(p, |EncDoc(es)| + 2 + |key| + |value|) < TWO_31
    modifies doc.vec
    ensures doc.vec.data == Layout(p, EncEntries(es) + Head(0x03, key) + value, stale)
    ensures (exists fs, t :: doc.Holds(p, fs, t)) <==> IsList(EncEntries(es) + Head(0x03, key) + value)
  {
    hide *;
    Room(doc, p, es, stale, 2 + |key| + |value|);
    AppendedBytes(p, es, key, value);
    PutBytes(doc, key, value, p, es, stale);
    HoldsList(doc, p, EncEntries(es) + Head(0x03, key) + value, stale);
  }

  lemma Room(doc: DocMut, p: Place, es: seq<Entry>, stale: seq<byte>, len: nat)
    requires doc.Holds(p, es, stale) && RootLen(p, |EncDoc(es)| + len) < TWO_31
    ensures doc.At(p) && doc.vec.data == Layout(p, EncEntries(es), stale)
    ensures RootLen(p, |EncEntries(es)| + 5) < TWO_31 && RootLen(p, |EncEntries(es)| + 5 + len) < TWO_31
    ensures |Open(p, |EncEntries(es)| + 5 + len)| == doc.off + 4
  {
  }

  lemma LayoutIs(p: Place, body: seq<byte>, head: seq<byte>, value: seq<byte>, stale: seq<byte>)
    ensures var n := |body + head + value| + 5;
            (Open(p, n) + body) + head + value + Close(p, stale) == Layout(p, body + head + value, stale)
  {
    hide Open, Close;
  }

  /** `append` of a `Document` whose buffer holds `stale'` behind its declared end. The buffer then holds the list that
      was asked for exactly when there is nothing; otherwise some list exactly when those bytes are one, and then its
      entries follow as phantoms. */
  method AppendDocument(doc: DocMut, key: NulFree, value: seq<byte>, ghost p: Place, ghost es: seq<Entry>,
                        ghost stale: seq<byte>, ghost ds: seq<Entry>, ghost stale': seq<byte>)
    requires doc.Holds(p, es, stale) && value == EncDoc(ds) + stale'
    requires RootLen(p, |EncDoc(es)| + 2 + |key| + |value|) < TWO_31
    modifies doc.vec
    ensures (exists t :: doc.Holds(p, es + [Entry(key, Doc(ds))], t)) <==> stale' == []
    ensures (exists fs, t :: doc.Holds(p, fs, t)) <==> IsList(stale')
    ensures forall gs :: stale' == EncEntries(gs) ==> doc.Holds(p, es + [Entry(key, Doc(ds))] + gs, stale)
  {
    DocumentFits(p, es, key, value);
    hide *;
    WholeBuffer(es, key, ds, stale', value);
    AppendBytes(doc, key, value, p, es, stale);
    AppendedBytes(p, es, key, value);
    WhichList(doc, p, EncEntries(es) + Head(0x03, key) + value, stale);
    assert es + [Entry(key, Doc(ds))] + [] == es + [Entry(key, Doc(ds))];
  }

  lemma DocumentFits(p: Place, es: seq<Entry>, key: NulFree, value: seq<byte>)
    requires RootLen(p, |EncDoc(es)| + 2 + |key| + |value|) < TWO_31
    ensures |EncEntries(es) + Head(0x03, key) + value| < TWO_31
  {
  }

  lemma WholeBuffer(es: seq<Entry>, key: NulFree, ds: seq<Entry>, stale: seq<byte>, value: seq<byte>)
    requires value == EncDoc(ds) + stale && |EncEntries(es) + Head(0x03, key) + value| < TWO_31
    ensures IsList(EncEntries(es) + Head(0x03, key) + value) <==> IsList(stale)
    ensures forall gs :: stale == EncEntries(gs) <==>
              EncEntries(es) + Head(0x03, key) + value == EncEntries(es + [Entry(key, Doc(ds))] + gs)
    ensures EncEntries([]) == []
  {
    EmbedHoldsList(es, key, ds, stale, []);
    var head, whole := Head(0x03, key), es + [Entry(key, Doc(ds))];
    EncAppend(es, Entry(key, Doc(ds)));
    assert EncEntry(Entry(key, Doc(ds))) == head + EncDoc(ds);
    assert EncEntries([]) == [];
    hide EncEntries, EncDoc, IsList, Head, EncEntry;
    assert EncEntries(es) + head + value + [] == EncEntries(es) + head + value && stale + [] == stale;
    assert EncEntries(es) + head + value == EncEntries(whole) + stale;
    forall gs
      ensures stale == EncEntries(gs) <==> EncEntries(es) + head + value == EncEntries(whole + gs)
    {
      EncConcat(whole, gs);
      if EncEntries(whole) + stale == EncEntries(whole) + EncEntries(gs) {
        TakeEqual(EncEntries(whole), EncEntries(whole), stale, EncEntries(gs));
      }
    }
  }

  /** `append` of a nested document that the iterator handed out. The buffer then holds the list that was asked for, or
      any at all, exactly when nothing followed that document where it was read. */
  method AppendDocRef(doc: DocMut, key: NulFree, value: seq<byte>, ghost p: Place, ghost es: seq<Entry>,
                      ghost stale: seq<byte>, ghost ds: seq<Entry>, ghost rest: seq<byte>)
    requires doc.Holds(p, es, stale) && value == Tail(ds, rest)
    requires RootLen(p, |EncDoc(es)| + 6 + |key| + |value|) < TWO_31
    modifies doc.vec
    ensures (exists fs, t :: doc.Holds(p, fs, t)) <==> rest == []
    ensures rest == [] ==> doc.Holds(p, es + [Entry(key, Doc(ds))], stale)
  {
    var bytes := LE32(|value| + 4) + value;
    WholeTail(es, key, ds, rest, bytes);
    hide *;
    AppendBytes(doc, key, bytes, p, es, stale);
    AppendedBytes(p, es, key, bytes);
    WhichList(doc, p, EncEntries(es) + Head(0x03, key) + bytes, stale);
  }

  lemma WholeTail(es: seq<Entry>, key: NulFree, ds: seq<Entry>, rest: seq<byte>, bytes: seq<byte>)
    requires bytes == LE32(|Tail(ds, rest)| + 4) + Tail(ds, rest)
    requires |EncEntries(es) + Head(0x03, key) + bytes| < TWO_31
    ensures IsList(EncEntries(es) + Head(0x03, key) + bytes) <==> rest == []
    ensures rest == [] ==> EncEntries(es) + Head(0x03, key) + bytes == EncEntries(es + [Entry(key, Doc(ds))])
  {
    TailHoldsList(es, key, ds, rest);
    if rest == [] {
      assert bytes == EncDoc(ds) + [];
      WholeBuffer(es, key, ds, [], bytes);
      assert es + [Entry(key, Doc(ds))] + [] == es + [Entry(key, Doc(ds))];
    }
  }

  /** A buffer holds exactly the lists that its entry bytes are the encoding of. */
  lemma WhichList(doc: DocMut, p: Place, body: seq<byte>, stale: seq<byte>)
    requires doc.At(p) && doc.vec.data == Layout(p, body, stale) && RootLen(p, |body| + 5) < TWO_31
    ensures forall fs :: body == EncEntries(fs) ==> doc.Holds(p, fs, stale)
    ensures forall fs, t :: doc.Holds(p, fs, t) ==> body == EncEntries(fs)
  {
    forall fs, t | doc.Holds(p, fs, t)
      ensures body == EncEntries(fs)
    {
      LayoutInjective(p, body, EncEntries(fs), stale, t);
    }
  }

  /** Stale bytes that happen to be an entry: the enclosing document gains a flag that nobody wrote. */
  lemma PhantomEntry(es: seq<Entry>, key: NulFree, ds: seq<Entry>)
    ensures EncEntries(es) + Head(0x03, key) + (EncDoc(ds) + [8, 97, 0, 0])
         == EncEntries(es + [Entry(key, Doc(ds)), Entry([97], Bool(false))])
  {
    var e, f := Entry(key, Doc(ds)), Entry([97], Bool(false));
    assert EncEntry(f) == [8, 97, 0, 0] && EncEntry(e) == Head(0x03, key) + EncDoc(ds);
    assert es + [e, f] == es + [e] + [f];
    EncAppend(es, e);
    EncAppend(es + [e], f);
    hide EncEntries, EncEntry, EncDoc;
    Regroup4(EncEntries(es), Head(0x03, key), EncDoc(ds), [8, 97, 0, 0], []);
    assert EncEntries(es) + Head(0x03, key) + (EncDoc(ds) + [8, 97, 0, 0]) + []
        == EncEntries(es) + Head(0x03, key) + (EncDoc(ds) + [8, 97, 0, 0]);
  }

  lemma AppendedBytes(p: Place, es: seq<Entry>, key: NulFree, value: seq<byte>)
    requires RootLen(p, |EncDoc(es)| + 2 + |key| + |value|) < TWO_31
    ensures |EncEntries(es) + Head(0x03, key) + value| + 5 == |EncDoc(es)| + 2 + |key| + |value| < TWO_31
    ensures RootLen(p, |EncEntries(es) + Head(0x03, key) + value| + 5) < TWO_31
  {
  }

  lemma HoldsList(doc: DocMut, p: Place, body: seq<byte>, stale: seq<byte>)
    requires doc.At(p) && doc.vec.data == Layout(p, body, stale) && RootLen(p, |body| + 5) < TWO_31
    ensures (exists fs, t :: doc.Holds(p, fs, t)) <==> IsList(body)
  {
    WhichList(doc, p, body, stale);
    hide Layout, RootLen, EncEntries;
  }
}
