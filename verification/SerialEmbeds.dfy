/** A document embedded behind other entries of a map: the four bytes before it are overwritten with zeros. */
module SerialEmbeds {
  import opened Bytes
  import opened Bson
  import opened Wrappers
  import opened Contents
  import opened SerialForm
  import opened SerialLaws
  import opened SerialMixes
  import opened Zeroing

  /** Fields that make a document on their own: ordinary ones, perhaps behind an embedded document. */
  ghost predicate Documental(fs: seq<Field>) {
    Domain(CMap(fs)) && Meaning(CMap(fs)).Some? && Meaning(CMap(fs)).value.Doc?
  }

  ghost function EntriesOf(fs: seq<Field>): seq<Entry>
    requires Documental(fs)
  {
    Meaning(CMap(fs)).value.entries
  }

  /** Ordinary fields with a meaning. */
  ghost predicate Plainly(fs: seq<Field>) {
    (forall i | 0 <= i < |fs| :: Ordinary(fs[i]) && Domain(fs[i].val)) && MeaningFields(fs).Some?
  }

  ghost predicate Embeds(f: Field) {
    f.key == DOCUMENT && f.val.CBytes? && IsBody(f.val.data)
  }

  /** The parts of a map with an embedded document among its fields. */
  ghost predicate Parts(pre: seq<Field>, f: Field, post: seq<Field>) {
    Documental(pre) && Embeds(f) && Plainly(post)
  }

  lemma DocumentalBytes(fs: seq<Field>)
    requires Documental(fs)
    ensures Modelled(CMap(fs)) && SerFields(Zeros(4), 0x03, fs) == Done(Zeros(4) + EncEntries(EntriesOf(fs)), 0x03)
  {
    DomainModelled(CMap(fs));
    assert [] + Zeros(4) == Zeros(4);
    if Headed(fs) {
      var rest := fs[1..];
      HeadFirst([], fs);
      SpecialMeaning([], fs[0]);
      assert fs[0].key == DOCUMENT by {
        assert |OID| == 4 && |DATE| == 5 && |TIMESTAMP| == 10 && |DOCUMENT| == 9 && |REGEX| == 18;
      }
      assert forall j | 0 <= j < |rest| :: rest[j] == fs[j + 1];
      var es, later := WrapperMeaning(fs[0]).value.entries, MeaningFields(rest).value;
      RestFields(Zeros(4) + EncEntries(es), rest);
      EncConcat(es, later);
      Join(Zeros(4), EncEntries(es), EncEntries(later));
    } else {
      assert forall j | 0 <= j < |fs| :: Ordinary(fs[j]);
      RestFields(Zeros(4), fs);
    }
  }

  lemma PlainlyModelled(fs: seq<Field>)
    requires Plainly(fs)
    ensures forall i | 0 <= i < |fs| :: ModelledField(fs[i])
  {
    forall i | 0 <= i < |fs| ensures ModelledField(fs[i]) {
      assert Ordinary(fs[i]);
      DomainModelled(fs[i].val);
    }
  }

  lemma PartsModelled(pre: seq<Field>, f: Field, post: seq<Field>)
    requires Parts(pre, f, post)
    ensures forall i | 0 <= i < |pre| :: ModelledField(pre[i])
    ensures forall i | 0 <= i < |[f] + post| :: ModelledField(([f] + post)[i])
    ensures forall i | 0 <= i < |pre + ([f] + post)| :: ModelledField((pre + ([f] + post))[i])
  {
    DocumentalBytes(pre);
    PlainlyModelled(post);
    assert ModelledField(f) by { Keys(); }
  }

  /** The fields in turn: those before, the document, those behind. */
  lemma EmbeddedFields(pre: seq<Field>, f: Field, post: seq<Field>)
    requires Parts(pre, f, post)
    requires forall i | 0 <= i < |pre + ([f] + post)| :: ModelledField((pre + ([f] + post))[i])
    ensures SerFields(Zeros(4), 0x03, pre + ([f] + post))
         == Done(Zeros(4) + Zeroed(EncEntries(EntriesOf(pre)), 4) + EncEntries(BodyEntries(f.val.data))
                 + EncEntries(MeaningFields(post).value), 0x03)
  {
    var tail, e := [f] + post, EncEntries(EntriesOf(pre));
    PartsModelled(pre, f, post);
    DocumentalBytes(pre);
    PlainlyModelled(post);
    RetractedBytes(e, f);
    assert tail[0] == f && tail[1..] == post;
    assert Embeds(f) && Plainly(post);
    hide SerFields, SerSpecial, Documental, EntriesOf, Domain, Special, ModelledField, EncEntries, Zeroed;
    FieldsSplit(Zeros(4), 0x03, pre, tail);
    SpecialThen(Zeros(4) + e, 0x03, tail);
    RestFields(Zeros(4) + Zeroed(e, 4) + EncEntries(BodyEntries(f.val.data)), post);
  }

  /** What such a map is written as: the entries before the document lose their last four bytes to zeros. */
  lemma EmbeddedForm(pre: seq<Field>, f: Field, post: seq<Field>)
    requires Parts(pre, f, post)
    ensures Modelled(CMap(pre + [f] + post))
    ensures Ser([], CMap(pre + [f] + post))
         == Done(Frame(Zeroed(EncEntries(EntriesOf(pre)), 4)
                       + EncEntries(BodyEntries(f.val.data) + MeaningFields(post).value)), 0x03)
  {
    var z, body, later := Zeroed(EncEntries(EntriesOf(pre)), 4), BodyEntries(f.val.data), MeaningFields(post).value;
    assert pre + [f] + post == pre + ([f] + post);
    PartsModelled(pre, f, post);
    EmbeddedFields(pre, f, post);
    EncConcat(body, later);
    assert [] + Zeros(4) == Zeros(4);
    hide SerFields, Parts, EntriesOf, MeaningFields, Zeroed, EncEntries, Finish, Frame, ModelledField;
    Join(Zeros(4) + z, EncEntries(body), EncEntries(later));
    Join(Zeros(4), z, EncEntries(body + later));
    FinishAtStart(Zeros(4) + z + EncEntries(body + later), z + EncEntries(body + later));
  }

  /** What is retracted is written again as zeros, in the entries or in the placeholder. */
  lemma RetractedBytes(e: seq<byte>, f: Field)
    requires Embeds(f)
    ensures Special(f.key)
    ensures SerSpecial(Zeros(4) + e, f.key, f.val)
         == Done(Zeros(4) + Zeroed(e, 4) + EncEntries(BodyEntries(f.val.data)), 0x03)
  {
    Keys();
    var x, body := Zeros(4) + e, EncEntries(BodyEntries(f.val.data));
    assert f.val.data == body + [0] && f.val.data[..|f.val.data| - 1] == body;
    assert x[..|x| - 4] + Zeros(4) == Zeros(4) + Zeroed(e, 4);
  }

  /** A map with an embedded document is written as what it means, its entries in order with those of the document among
      them, exactly when the document comes first or the four bytes before it are zeros. */
  lemma EmbeddedRightly(pre: seq<Field>, f: Field, post: seq<Field>)
    requires Parts(pre, f, post)
    ensures Modelled(CMap(pre + [f] + post))
    ensures var a, b, c := EntriesOf(pre), BodyEntries(f.val.data), MeaningFields(post).value;
            var e := EncEntries(a);
            Ser([], CMap(pre + [f] + post)) == Done(EncVal(Doc(a + b + c)), 0x03)
            <==> e == [] || (|e| >= 4 && e[|e| - 4..] == Zeros(4))
  {
    var a, b, c := EntriesOf(pre), BodyEntries(f.val.data), MeaningFields(post).value;
    hide Ser, Parts, EntriesOf, MeaningFields, EncEntries, EncVal, Zeroed, IsBody, Frame;
    EmbeddedForm(pre, f, post);
    Whole(a, b, c);
    ZerosAlready(a);
    FrameSame(Zeroed(EncEntries(a), 4), EncEntries(a), EncEntries(b + c));
  }

  lemma Whole(a: seq<Entry>, b: seq<Entry>, c: seq<Entry>)
    ensures EncVal(Doc(a + b + c)) == Frame(EncEntries(a) + EncEntries(b + c))
  {
    assert a + b + c == a + (b + c);
    EncConcat(a, b + c);
  }

  lemma FrameSame(x: seq<byte>, y: seq<byte>, r: seq<byte>)
    requires |x| == |y|
    ensures Frame(x + r) == Frame(y + r) <==> x == y
  {
    var m := LE32(|x + r| + 5);
    assert Frame(x + r) == m + (x + (r + [0])) && Frame(y + r) == m + (y + (r + [0]));
    if Frame(x + r) == Frame(y + r) {
      TakeEqual(m, m, x + (r + [0]), y + (r + [0]));
      TakeEqual(x, y, r + [0], r + [0]);
    }
  }

  /** Overwriting changes nothing exactly when there is nothing, or zeros already. */
  lemma ZerosAlready(a: seq<Entry>)
    ensures var e := EncEntries(a);
            Zeroed(e, 4) == e <==> e == [] || (|e| >= 4 && e[|e| - 4..] == Zeros(4))
  {
    var e := EncEntries(a);
    TypeFirst(a);
    if |e| >= 4 {
      assert e == e[..|e| - 4] + e[|e| - 4..];
      if Zeroed(e, 4) == e { TakeEqual(e[..|e| - 4], e[..|e| - 4], Zeros(4), e[|e| - 4..]); }
    }
  }

  /** It is written as some value, right or wrong, exactly when the last entry before the document has a value that
      tolerates four zeros: a number, a string, bytes, an object id, or a nested document whose own last entry does. */
  lemma EmbeddedIsValue(pre: seq<Field>, f: Field, post: seq<Field>)
    requires Parts(pre, f, post)
    requires |EncEntries(EntriesOf(pre))| + |EncEntries(BodyEntries(f.val.data) + MeaningFields(post).value)| < TWO_31
    ensures Modelled(CMap(pre + [f] + post))
    ensures IsValue(Ser([], CMap(pre + [f] + post))) <==> Tolerant(EntriesOf(pre), 4)
  {
    var a, r := EntriesOf(pre), BodyEntries(f.val.data) + MeaningFields(post).value;
    EmbeddedForm(pre, f, post);
    FramedList(Zeroed(EncEntries(a), 4) + EncEntries(r));
    assert IsList(EncEntries(r));
    hide Ser, Parts, EntriesOf, MeaningFields, IsValue, Tolerant;
    ListZeroed(a, 4, EncEntries(r));
  }

  /** A wrong value: the integer before the document is written as zero, whatever it is. */
  lemma IntegerLost(n: int32, es: seq<Entry>)
    ensures var c := CMap([Field(A, CI32(n)), Field(DOCUMENT, CBytes(EncEntries(es) + [0]))]);
            Modelled(c) && Ser([], c) == Done(EncVal(Doc([Entry(A, I32(0))] + es)), 0x03)
  {
    var zero := EncEntry(Entry(A, I32(0)));
    var x := [] + Zeros(4) + EncEntry(Entry(A, I32(n)));
    Keys();
    IntegerZeroed(n);
    EncConcat([Entry(A, I32(0))], es);
    EncSingle(Entry(A, I32(0)));
    assert EncVal(Doc([Entry(A, I32(0))] + es)) == Frame(zero + EncEntries(es));
    hide EncEntries, EncEntry, EncVal, SerEntry, Special, Unmodelled, A, DOCUMENT, Finish, Frame, Ser;
    SmallMap([], Field(A, CI32(n)), Field(DOCUMENT, CBytes(EncEntries(es) + [0])));
    EntryMeaning([] + Zeros(4), 0x03, A, CI32(n));
    DocumentStep(x, 0x03, EncEntries(es));
    Join(Zeros(4), zero, EncEntries(es));
    FinishAtStart(Zeros(4) + zero + EncEntries(es), zero + EncEntries(es));
  }

  lemma IntegerZeroed(n: int32)
    ensures var x := [] + Zeros(4) + EncEntry(Entry(A, I32(n)));
            |x| >= 4 && x[..|x| - 4] + Zeros(4) == Zeros(4) + EncEntry(Entry(A, I32(0)))
  {
    ZeroBytes(4);
    var head := Head(0x10, A);
    assert EncEntry(Entry(A, I32(n))) == head + LE32(n) && EncEntry(Entry(A, I32(0))) == head + Zeros(4);
  }
}
