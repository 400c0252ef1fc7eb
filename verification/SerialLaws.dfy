/** What the serializer's form is worth: where it is the encoding of a value, and where it is not. */
module SerialLaws {
  import opened Bytes
  import opened Bson
  import opened Wrappers
  import opened Vecs
  import opened ArrayWriter
  import opened Contents
  import opened SerialForm

  // ----- several fields -----

  lemma {:induction false} FieldsSplit(buf: seq<byte>, type_: byte, a: seq<Field>, b: seq<Field>)
    requires (forall i | 0 <= i < |a| :: ModelledField(a[i])) && (forall i | 0 <= i < |b| :: ModelledField(b[i]))
    requires forall i | 0 <= i < |a + b| :: ModelledField((a + b)[i])
    ensures SerFields(buf, type_, a + b) ==
              match SerFields(buf, type_, a) case Done(x, t) => SerFields(x, t, b) case Failed(e) => Failed(e)
    decreases |a|
  {
    if a == [] {
      assert a + b == b;
    } else {
      assert (a + b)[0] == a[0] && (a + b)[1..] == a[1..] + b;
      match SerEntry(buf, type_, a[0].key, a[0].val)
      case Done(x, t) => FieldsSplit(x, t, a[1..], b);
      case Failed(_) =>
    }
  }

  lemma FieldsSnoc(buf: seq<byte>, type_: byte, fs: seq<Field>)
    requires fs != [] && forall i | 0 <= i < |fs| :: ModelledField(fs[i])
    ensures ModelledField(fs[|fs| - 1])
    ensures SerFields(buf, type_, fs) ==
              match SerFields(buf, type_, fs[..|fs| - 1])
              case Done(x, t) => SerEntry(x, t, fs[|fs| - 1].key, fs[|fs| - 1].val)
              case Failed(e) => Failed(e)
  {
    var f := fs[|fs| - 1];
    assert ModelledField(f);
    assert fs == fs[..|fs| - 1] + [f] && [f][1..] == [];
    FieldsSplit(buf, type_, fs[..|fs| - 1], [f]);
  }

  // ----- contents with a meaning -----

  lemma {:induction false} DomainModelled(c: Content)
    requires Domain(c)
    ensures Modelled(c)
    decreases c
  {
    match c
    case CSeq(elems) =>
      forall i | 0 <= i < |elems| ensures Modelled(elems[i]) { DomainModelled(elems[i]); }
    case CMap(fields) =>
      forall i | 0 <= i < |fields| ensures ModelledField(fields[i]) {
        if !(i == 0 && Headed(fields)) { assert Ordinary(fields[i]); DomainModelled(fields[i].val); }
        assert |OID| == 4 && |DATE| == 5 && |TIMESTAMP| == 10 && |DOCUMENT| == 9 && |REGEX| == 18;
      }
    case _ =>
  }

  /** A content in the domain appends the encoding of what it denotes, and fails exactly when it denotes nothing. */
  lemma {:induction false} SerMeaning(buf: seq<byte>, c: Content)
    requires Domain(c) && Modelled(c)
    ensures match Meaning(c)
            case Some(v) => Ser(buf, c) == Done(buf + EncVal(v), Id(v))
            case None => Ser(buf, c) == Failed(InvalidType)
    decreases c, 0, 0
  {
    match c
    case CSeq(elems) =>
      assert elems[..0] == [] && MeaningElems([]) == Some([]) && EncEntries([]) == [];
      assert buf + Zeros(4) + [] == buf + Zeros(4);
      ElemsMeaning(buf + Zeros(4), elems, 0, []);
      if Meaning(c).Some? { Patched(buf, EncEntries(Meaning(c).value.elements), 0x04); }
    case CMap(fields) => MapMeaning(buf, fields);
    case _ =>
  }

  lemma EntryMeaning(buf: seq<byte>, type_: byte, key: NulFree, c: Content)
    requires !Special(key) && Domain(c) && Modelled(c) && (type_ == 0x03 || type_ == 0x04)
    ensures match Meaning(c)
            case Some(v) => SerEntry(buf, type_, key, c) == Done(buf + EncEntry(Entry(key, v)), type_)
            case None => SerEntry(buf, type_, key, c) == Failed(InvalidType)
    decreases c, 1, 0
  {
    SerMeaning(buf + Head(0, key), c);
    if Meaning(c).Some? { PatchHead(buf, key, EncVal(Meaning(c).value), Id(Meaning(c).value)); }
  }

  lemma PatchHead(a: seq<byte>, key: seq<byte>, val: seq<byte>, id: byte)
    ensures |a + Head(0, key) + val| > |a| && (a + Head(0, key) + val)[|a| := id] == a + (Head(id, key) + val)
  {
  }

  lemma Patched(pre: seq<byte>, body: seq<byte>, id: byte)
    requires id == 0x03 || id == 0x04
    ensures Finish(|pre|, Done(pre + Zeros(4) + body, id)) == Done(pre + Frame(body), id)
  {
    assert |pre + Zeros(4) + body| + 1 - |pre| == |body| + 5;
    assert Splice(pre + Zeros(4) + body + [0], |pre|, LE32(|body| + 5)) == pre + Frame(body);
  }

  /** The elements from `i` on, after those before it. */
  lemma {:induction false} ElemsMeaning(buf: seq<byte>, cs: seq<Content>, i: nat, es: seq<Entry>)
    requires i <= |cs| && forall j | 0 <= j < |cs| :: Domain(cs[j]) && Modelled(cs[j])
    requires MeaningElems(cs[..i]) == Some(es)
    ensures match MeaningElems(cs)
            case Some(all) => SerElems(buf + EncEntries(es), cs, i) == Done(buf + EncEntries(all), 0x04)
            case None => SerElems(buf + EncEntries(es), cs, i) == Failed(InvalidType)
    decreases cs, 2, |cs| - i
  {
    if i == |cs| {
      assert cs[..i] == cs;
    } else {
      DecimalIsOrdinary(i);
      EntryMeaning(buf + EncEntries(es), 0x04, Decimal(i), cs[i]);
      assert cs[..i + 1][..i] == cs[..i];
      match Meaning(cs[i])
      case None => MeaningElemsFails(cs, i + 1);
      case Some(v) =>
        Appended(buf, es, Entry(Decimal(i), v));
        ElemsMeaning(buf, cs, i + 1, es + [Entry(Decimal(i), v)]);
    }
  }

  lemma {:induction false} FieldsMeaning(buf: seq<byte>, fs: seq<Field>, i: nat, es: seq<Entry>)
    requires i <= |fs| && forall j | 0 <= j < |fs| :: Ordinary(fs[j]) && Domain(fs[j].val) && ModelledField(fs[j])
    requires MeaningFields(fs[..i]) == Some(es)
    ensures match MeaningFields(fs)
            case Some(all) => SerFields(buf + EncEntries(es), 0x03, fs[i..]) == Done(buf + EncEntries(all), 0x03)
            case None => SerFields(buf + EncEntries(es), 0x03, fs[i..]) == Failed(InvalidType)
    decreases fs, 2, |fs| - i
  {
    if i == |fs| {
      assert fs[..i] == fs;
    } else {
      assert Ordinary(fs[i]) && ModelledField(fs[i]);
      EntryMeaning(buf + EncEntries(es), 0x03, fs[i].key, fs[i].val);
      assert fs[..i + 1][..i] == fs[..i];
      assert fs[i..][0] == fs[i] && fs[i..][1..] == fs[i + 1..];
      match Meaning(fs[i].val)
      case None => MeaningFieldsFails(fs, i + 1);
      case Some(v) =>
        Appended(buf, es, Entry(fs[i].key, v));
        FieldsMeaning(buf, fs, i + 1, es + [Entry(fs[i].key, v)]);
    }
  }

  lemma {:induction false} MapMeaning(buf: seq<byte>, fs: seq<Field>)
    requires Domain(CMap(fs)) && Modelled(CMap(fs))
    ensures match Meaning(CMap(fs))
            case Some(v) => Ser(buf, CMap(fs)) == Done(buf + EncVal(v), Id(v))
            case None => Ser(buf, CMap(fs)) == Failed(InvalidType)
    decreases fs, 3, 0
  {
    if Headed(fs) {
      HeadFirst(buf, fs);
      SpecialMeaning(buf, fs[0]);
      if WrapperMeaning(fs[0]).Some? {
        if fs[0].key == DOCUMENT {
          EmbeddedMeaning(buf, fs);
        } else {
          assert fs[1..] == [];
        }
      }
    } else {
      assert fs[..0] == [] && fs[0..] == fs && MeaningFields([]) == Some([]) && EncEntries([]) == [];
      assert buf + Zeros(4) + [] == buf + Zeros(4);
      assert forall j | 0 <= j < |fs| :: Ordinary(fs[j]);
      FieldsMeaning(buf + Zeros(4), fs, 0, []);
      if MeaningFields(fs).Some? { Patched(buf, EncEntries(MeaningFields(fs).value), 0x03); }
    }
  }

  lemma HeadFirst(buf: seq<byte>, fs: seq<Field>)
    requires Headed(fs) && forall i | 0 <= i < |fs| :: ModelledField(fs[i])
    ensures SerFields(buf + Zeros(4), 0x03, fs) ==
              match SerSpecial(buf + Zeros(4), fs[0].key, fs[0].val)
              case Done(b, t) => SerFields(b, t, fs[1..])
              case Failed(e) => Failed(e)
  {
    assert ModelledField(fs[0]);
  }

  /** A special key that finds the placeholder. */
  lemma SpecialMeaning(buf: seq<byte>, f: Field)
    requires Special(f.key) && WellShaped(f)
    ensures match WrapperMeaning(f)
            case None => SerSpecial(buf + Zeros(4), f.key, f.val) == Failed(InvalidType)
            case Some(v) =>
              SerSpecial(buf + Zeros(4), f.key, f.val)
              == Done(if f.key == DOCUMENT then buf + Zeros(4) + EncEntries(v.entries) else buf + EncVal(v), Id(v))
  {
    var kept := (buf + Zeros(4))[..|buf|];
    assert kept == buf;
    if f.key == REGEX && f.val.CMap? {
      RegexMeaning(buf, f.val.fields);
    }
  }

  lemma RegexMeaning(buf: seq<byte>, fs: seq<Field>)
    requires RegexFields(fs)
    ensures if fs[0].val.CStr? && fs[1].val.CStr?
            then SerRegexFields(buf, fs) == Done(buf + EncVal(Regex(fs[0].val.text, fs[1].val.text)), 0x0B)
            else SerRegexFields(buf, fs) == Failed(InvalidType)
  {
    assert |PATTERN| == 7 && |OPTIONS| == 7;
    if fs[0].val.CStr? {
      var b := buf + fs[0].val.text + [0];
      assert SerRegex(buf, fs[0].val) == Done(b, 0x0B);
      assert SerRegexFields(buf, fs) == SerRegexFields(b, fs[1..]);
      assert fs[1..][0] == fs[1] && fs[1..][1..] == [];
      if fs[1].val.CStr? {
        assert SerRegexFields(b, fs[1..]) == Done(b + fs[1].val.text + [0], 0x0B);
        assert b + fs[1].val.text + [0] == buf + EncVal(Regex(fs[0].val.text, fs[1].val.text));
      } else {
        assert SerRegex(b, fs[1].val).Failed?;
      }
    } else {
      assert SerRegex(buf, fs[0].val).Failed?;
    }
  }

  /** The other entries of a map follow those of the document it embeds. */
  lemma {:induction false} EmbeddedMeaning(buf: seq<byte>, fs: seq<Field>)
    requires Domain(CMap(fs)) && Modelled(CMap(fs)) && Headed(fs) && fs[0].key == DOCUMENT && fs[0].val.CBytes?
    ensures match Meaning(CMap(fs))
            case Some(v) => Ser(buf, CMap(fs)) == Done(buf + EncVal(v), Id(v))
            case None => Ser(buf, CMap(fs)) == Failed(InvalidType)
    decreases fs, 2, |fs| + 3
  {
    var es, rest := BodyEntries(fs[0].val.data), fs[1..];
    EmbeddedParts(buf, fs);
    EmbeddedRest(buf, fs);
    hide *;
    if MeaningFields(rest).Some? {
      EncConcat(es, MeaningFields(rest).value);
      Patched(buf, EncEntries(es + MeaningFields(rest).value), 0x03);
      Assoc(buf + Zeros(4), EncEntries(es), EncEntries(MeaningFields(rest).value));
    }
  }

  lemma Assoc(a: seq<byte>, b: seq<byte>, c: seq<byte>)
    ensures (a + b) + c == a + (b + c)
  {
  }

  lemma {:induction false} EmbeddedRest(buf: seq<byte>, fs: seq<Field>)
    requires Domain(CMap(fs)) && Modelled(CMap(fs)) && Headed(fs) && fs[0].key == DOCUMENT && fs[0].val.CBytes?
    ensures forall i | 0 <= i < |fs[1..]| :: Domain(fs[1..][i].val)
    ensures var x := buf + Zeros(4) + EncEntries(BodyEntries(fs[0].val.data));
            SerFields(buf + Zeros(4), 0x03, fs) ==
              match MeaningFields(fs[1..])
              case Some(es) => Done(x + EncEntries(es), 0x03)
              case None => Failed(InvalidType)
    decreases fs, 2, |fs| + 2
  {
    var rest := fs[1..];
    HeadFirst(buf, fs);
    SpecialMeaning(buf, fs[0]);
    assert forall j | 0 <= j < |rest| :: rest[j] == fs[j + 1];
    assert WrapperMeaning(fs[0]) == Some(Doc(BodyEntries(fs[0].val.data)));
    hide SerFields, SerSpecial, EncEntries, BodyEntries, MeaningFields, Ser, Meaning;
    RestFields(buf + Zeros(4) + EncEntries(BodyEntries(fs[0].val.data)), rest);
  }

  lemma EmbeddedParts(buf: seq<byte>, fs: seq<Field>)
    requires Domain(CMap(fs)) && Modelled(CMap(fs)) && Headed(fs) && fs[0].key == DOCUMENT && fs[0].val.CBytes?
    ensures Ser(buf, CMap(fs)) == Finish(|buf|, SerFields(buf + Zeros(4), 0x03, fs))
    ensures WrapperMeaning(fs[0]) == Some(Doc(BodyEntries(fs[0].val.data)))
    ensures Meaning(CMap(fs)) == match MeaningFields(fs[1..])
                                 case Some(es) => Some(Doc(BodyEntries(fs[0].val.data) + es))
                                 case None => None
    ensures forall e :: Finish(|buf|, Failed(e)) == Failed(e)
    ensures forall es :: EncVal(Doc(es)) == Frame(EncEntries(es)) && Id(Doc(es)) == 0x03
  {
    hide SerFields, MeaningFields, SerSpecial, EncEntries, BodyEntries;
  }

  lemma {:induction false} RestFields(x: seq<byte>, fs: seq<Field>)
    requires forall j | 0 <= j < |fs| :: Ordinary(fs[j]) && Domain(fs[j].val) && ModelledField(fs[j])
    ensures match MeaningFields(fs)
            case Some(es) => SerFields(x, 0x03, fs) == Done(x + EncEntries(es), 0x03)
            case None => SerFields(x, 0x03, fs) == Failed(InvalidType)
    decreases fs, 2, |fs| + 1
  {
    assert fs[..0] == [] && fs[0..] == fs && MeaningFields([]) == Some([]) && EncEntries([]) == [] && x + [] == x;
    FieldsMeaning(x, fs, 0, []);
  }

  lemma Appended(a: seq<byte>, es: seq<Entry>, e: Entry)
    ensures a + EncEntries(es) + EncEntry(e) == a + EncEntries(es + [e])
  {
    EncAppend(es, e);
  }

  lemma {:induction false} MeaningElemsFails(cs: seq<Content>, i: nat)
    requires forall k | 0 <= k < |cs| :: Domain(cs[k])
    requires i <= |cs| && MeaningElems(cs[..i]).None?
    ensures MeaningElems(cs).None?
    decreases |cs| - i
  {
    if i == |cs| {
      assert cs[..i] == cs;
    } else {
      assert cs[..i + 1][..i] == cs[..i];
      MeaningElemsFails(cs, i + 1);
    }
  }

  lemma {:induction false} MeaningFieldsFails(fs: seq<Field>, i: nat)
    requires forall k | 0 <= k < |fs| :: Domain(fs[k].val)
    requires i <= |fs| && MeaningFields(fs[..i]).None?
    ensures MeaningFields(fs).None?
    decreases |fs| - i
  {
    if i == |fs| {
      assert fs[..i] == fs;
    } else {
      assert fs[..i + 1][..i] == fs[..i];
      MeaningFieldsFails(fs, i + 1);
    }
  }

  // ----- what has no type of its own -----

  /** A bare unsigned number is written by its own eight bytes and read as a signed one, the same below 2^63 and 2^64
      less from there on. */
  lemma BareUnsigned(buf: seq<byte>, u: uint64)
    ensures Ser(buf, CU64(u)) == Done(buf + LE64(u), 0x12)
    ensures u < TWO_63 ==> Meaning(CU64(u)) == Meaning(CI64(u))
    ensures var v := Meaning(CU64(u)).value;
            ReadU64(EncVal(v)) == u && View(v) == Some(CI64(if u < TWO_63 then u else u - TWO_64))
  {
    var l: int64 := if u < TWO_63 then u else u - TWO_64;
    SameBytes(u);
    assert Ser(buf, CU64(u)) == Done(buf + LE64(l), 0x12);
    assert Meaning(CU64(u)) == Some(I64(l)) && Meaning(CI64(l)) == Some(I64(l));
    assert EncVal(I64(l)) == LE64(l) && View(I64(l)) == Some(CI64(l));
    hide Ser, Meaning, EncVal, View, LE64, ReadU64;
  }

  lemma SameBytes(u: uint64)
    ensures LE64(if u < TWO_63 then u else u - TWO_64) == LE64(u) && ReadU64(LE64(u)) == u
  {
    Read64(u, []);
    assert LE64(u) + [] == LE64(u);
    hide LE64, ReadU64;
    Wraps(u);
  }

  lemma Wraps(u: uint64)
    ensures LE64(u - TWO_64) == LE64(u)
  {
    assert (u - TWO_64) % TWO_64 == u % TWO_64;
  }

  /** Bare bytes are written as generic binary data. */
  lemma BareBytes(buf: seq<byte>, data: seq<byte>)
    ensures Ser(buf, CBytes(data)) == Done(buf + (LE32(|data|) + [0] + data), 0x05)
    ensures Meaning(CBytes(data)) == Some(Binary(0, data))
  {
  }
}
