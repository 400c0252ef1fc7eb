/** Laws between the serializer's and the deserializer's side of the codec. */
module CodecLaws {
  import opened Bytes
  import opened Bson
  import opened Wrappers
  import opened ArrayWriter
  import opened Contents

  /** No binary data, regular expression or 128-bit decimal at any depth. */
  predicate Showable(v: Value)
    decreases v
  {
    match v
    case Doc(es) => forall i | 0 <= i < |es| :: Showable(es[i].val)
    case Arr(es) => forall i | 0 <= i < |es| :: Showable(es[i].val)
    case Binary(_, _) => false
    case Regex(_, _) => false
    case F128(_) => false
    case _ => true
  }

  /** Exactly those values can be read back through `deserialize_any`. */
  lemma {:induction false} ViewDefined(v: Value)
    ensures View(v).Some? <==> Showable(v)
    decreases v, 0
  {
    match v
    case Doc(es) => ViewFieldsDefined(es);
    case Arr(es) => ViewElemsDefined(es);
    case _ =>
  }

  lemma {:induction false} ViewFieldsDefined(es: seq<Entry>)
    ensures ViewFields(es).Some? <==> forall i | 0 <= i < |es| :: Showable(es[i].val)
    decreases es, 1
  {
    if es != [] {
      var front := es[..|es| - 1];
      ViewFieldsDefined(front);
      ViewDefined(es[|es| - 1].val);
      assert forall i | 0 <= i < |front| :: front[i] == es[i];
      assert (forall i | 0 <= i < |es| :: Showable(es[i].val))
        <==> (forall i | 0 <= i < |front| :: Showable(front[i].val)) && Showable(es[|es| - 1].val);
    }
  }

  lemma {:induction false} ViewElemsDefined(es: seq<Entry>)
    ensures ViewElems(es).Some? <==> forall i | 0 <= i < |es| :: Showable(es[i].val)
    decreases es, 1
  {
    if es != [] {
      var front := es[..|es| - 1];
      ViewElemsDefined(front);
      ViewDefined(es[|es| - 1].val);
      assert forall i | 0 <= i < |front| :: front[i] == es[i];
      assert (forall i | 0 <= i < |es| :: Showable(es[i].val))
        <==> (forall i | 0 <= i < |front| :: Showable(front[i].val)) && Showable(es[|es| - 1].val);
    }
  }

  /** No bare `u64`, which is written as an `i64`; no bare bytes, embedded raw document or regular expression. */
  predicate Plain(c: Content)
    decreases c
  {
    match c
    case CU64(_) => false
    case CBytes(_) => false
    case CSeq(elems) => forall i | 0 <= i < |elems| :: Plain(elems[i])
    case CMap(fields) =>
      if Headed(fields) then fields[0].key != DOCUMENT && fields[0].key != REGEX
      else forall i | 0 <= i < |fields| :: Plain(fields[i].val)
    case _ => true
  }

  /** Deserializing what was serialized gives the content back exactly when it is plain. */
  lemma {:induction false} RoundTrip(c: Content)
    requires Domain(c) && Meaning(c).Some?
    ensures View(Meaning(c).value) == Some(c) <==> Plain(c)
    decreases c, 0
  {
    match c
    case CSeq(elems) => RoundTripElems(elems);
    case CMap(fields) =>
      if Headed(fields) {
        RoundTripHeaded(fields);
      } else {
        assert forall i | 0 <= i < |fields| :: Domain(fields[i].val);
        RoundTripFields(fields);
      }
    case _ =>
  }

  lemma RoundTripHeaded(fs: seq<Field>)
    requires Headed(fs) && Domain(CMap(fs)) && Meaning(CMap(fs)).Some?
    ensures View(Meaning(CMap(fs)).value) == Some(CMap(fs)) <==> fs[0].key != DOCUMENT && fs[0].key != REGEX
  {
    assert |OID| == 4 && |DATE| == 5 && |TIMESTAMP| == 10 && |DOCUMENT| == 9 && |REGEX| == 18;
    if fs[0].key == DOCUMENT {
      var es := Meaning(CMap(fs)).value.entries;
      if View(Doc(es)) == Some(CMap(fs)) {
        NoBareBytes(es, 0);
        assert false;
      }
    } else {
      assert fs == [fs[0]];
      RoundTripWrapper(fs[0]);
    }
  }

  lemma RoundTripWrapper(f: Field)
    requires Special(f.key) && f.key != DOCUMENT && WellShaped(f) && WrapperMeaning(f).Some?
    ensures View(WrapperMeaning(f).value) == Some(CMap([f])) <==> f.key != REGEX
  {
    assert |OID| == 4 && |DATE| == 5 && |TIMESTAMP| == 10 && |DOCUMENT| == 9 && |REGEX| == 18;
    var v := WrapperMeaning(f).value;
    if f.key == REGEX {
      assert v.Regex?;
    } else {
      assert f == Field(f.key, f.val);
      assert View(v) == Some(CMap([Field(f.key, f.val)]));
    }
  }

  /** A visitor never sees bare bytes. */
  lemma {:induction false} NoBareBytes(es: seq<Entry>, i: nat)
    requires ViewFields(es).Some? && i < |ViewFields(es).value|
    ensures !ViewFields(es).value[i].val.CBytes?
    decreases |es|
  {
    if es != [] {
      var front := ViewFields(es[..|es| - 1]).value;
      if i < |front| {
        NoBareBytes(es[..|es| - 1], i);
      } else {
        assert ViewFields(es).value[i].val == View(es[|es| - 1].val).value;
      }
    }
  }

  lemma {:induction false} RoundTripElems(cs: seq<Content>)
    requires (forall i | 0 <= i < |cs| :: Domain(cs[i])) && MeaningElems(cs).Some?
    ensures ViewElems(MeaningElems(cs).value) == Some(cs) <==> forall i | 0 <= i < |cs| :: Plain(cs[i])
    decreases cs, 1
  {
    if cs != [] {
      hide View, Plain, ViewElems;
      var front, last := cs[..|cs| - 1], cs[|cs| - 1];
      RoundTripElems(front);
      RoundTrip(last);
      assert MeaningElems(front).Some? && Meaning(last).Some?;
      var es := MeaningElems(front).value;
      assert MeaningElems(cs) == Some(es + [Entry(Decimal(|cs| - 1), Meaning(last).value)]);
      assert cs == front + [last];
      hide *;
      LastElem(es, Entry(Decimal(|cs| - 1), Meaning(last).value));
      assert forall i | 0 <= i < |front| :: front[i] == cs[i];
    }
  }

  lemma LastElem(es: seq<Entry>, e: Entry)
    ensures ViewElems(es + [e]) == match (ViewElems(es), View(e.val))
                                   case (Some(cs), Some(c)) => Some(cs + [c])
                                   case _ => None
  {
    assert (es + [e])[..|es|] == es;
  }

  lemma {:induction false} RoundTripFields(fs: seq<Field>)
    requires (forall i | 0 <= i < |fs| :: Domain(fs[i].val)) && MeaningFields(fs).Some?
    ensures ViewFields(MeaningFields(fs).value) == Some(fs) <==> forall i | 0 <= i < |fs| :: Plain(fs[i].val)
    decreases fs, 1
  {
    if fs != [] {
      var front, last := fs[..|fs| - 1], fs[|fs| - 1];
      RoundTripFields(front);
      RoundTrip(last.val);
      var es := MeaningFields(front).value;
      var all := es + [Entry(last.key, Meaning(last.val).value)];
      assert MeaningFields(fs) == Some(all);
      assert all[..|all| - 1] == es;
      assert fs == front + [last];
      hide Meaning, View, Plain, MeaningFields, Domain;
      assert forall i | 0 <= i < |front| :: front[i] == fs[i];
      assert (forall i | 0 <= i < |fs| :: Plain(fs[i].val))
        <==> (forall i | 0 <= i < |front| :: Plain(front[i].val)) && Plain(last.val);
    }
  }

  /** The keys of documents mean nothing to the serializer, and arrays are keyed by their indices. */
  predicate Regular(v: Value)
    decreases v
  {
    match v
    case Doc(es) => forall i | 0 <= i < |es| :: !Special(es[i].key) && !Unmodelled(es[i].key) && Regular(es[i].val)
    case Arr(es) => forall i | 0 <= i < |es| :: es[i].key == Decimal(i) && Regular(es[i].val)
    case _ => true
  }

  /** Serializing what was deserialized gives the bytes back. */
  lemma {:induction false} Reencode(v: Value)
    requires Regular(v) && View(v).Some?
    ensures Domain(View(v).value) && Meaning(View(v).value) == Some(v)
    decreases v, 0
  {
    match v
    case Doc(es) =>
      ReencodeFields(es);
      var fs := ViewFields(es).value;
      assert forall i | 0 <= i < |fs| :: fs[i].key == es[i].key && Ordinary(fs[i]);
    case Arr(es) => ReencodeElems(es);
    case Timestamp(_) => assert Headed(View(v).value.fields);
    case Datetime(_) => assert Headed(View(v).value.fields);
    case ObjectId(_) => assert Headed(View(v).value.fields);
    case _ =>
  }

  lemma {:induction false} ReencodeFields(es: seq<Entry>)
    requires forall i | 0 <= i < |es| :: Regular(es[i].val)
    requires ViewFields(es).Some?
    ensures var fs := ViewFields(es).value;
            && |fs| == |es| && (forall i | 0 <= i < |es| :: fs[i].key == es[i].key && Domain(fs[i].val))
            && MeaningFields(fs) == Some(es)
    decreases es, 1
  {
    if es != [] {
      var front, last := es[..|es| - 1], es[|es| - 1];
      ReencodeFields(front);
      Reencode(last.val);
      var fs := ViewFields(front).value;
      var all := fs + [Field(last.key, View(last.val).value)];
      hide View, Meaning, Regular;
      assert all[..|all| - 1] == fs;
      assert es == front + [last];
    }
  }

  lemma {:induction false} ReencodeElems(es: seq<Entry>)
    requires forall i | 0 <= i < |es| :: es[i].key == Decimal(i) && Regular(es[i].val)
    requires ViewElems(es).Some?
    ensures var cs := ViewElems(es).value;
            && |cs| == |es| && (forall i | 0 <= i < |es| :: Domain(cs[i]))
            && MeaningElems(cs) == Some(es)
    decreases es, 1
  {
    if es != [] {
      var front, last := es[..|es| - 1], es[|es| - 1];
      ReencodeElems(front);
      Reencode(last.val);
      var cs := ViewElems(front).value;
      var all := cs + [View(last.val).value];
      hide View, Meaning, Regular, Domain, Decimal;
      assert all[..|all| - 1] == cs;
      assert es == front + [last];
    }
  }

  /** Embedding a finished document through its raw body means embedding its entries. */
  lemma RawDocument(es: seq<Entry>)
    requires |EncDoc(es)| < TWO_31
    ensures var c := CMap([Field(DOCUMENT, CBytes(EncEntries(es) + [0]))]);
            Domain(c) && Meaning(c) == Some(Doc(es))
  {
    var b := EncEntries(es) + [0];
    assert IsBody(b);
    var fs := BodyEntries(b);
    assert |EncEntries(fs)| == |EncEntries(es)|;
    assert EncEntries(es) + [0] + [] == EncEntries(fs) + [0] + [];
    EntriesInjective(es, fs, [], []);
    assert [Field(DOCUMENT, CBytes(b))][1..] == [] && MeaningFields([]) == Some([]) && fs + [] == fs;
  }
}
