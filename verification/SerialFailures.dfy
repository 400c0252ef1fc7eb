/** Which error ends a serialization outside the domain; in it that is always `InvalidType`, by `SerMeaning`. */
module SerialFailures {
  import opened Bytes
  import opened Bson
  import opened Wrappers
  import opened Contents
  import opened SerialForm
  import opened SerialLaws
  import opened SerialMixes

  /** An ordinary field behind a special one that embeds no document. */
  lemma EntryRefused(buf: seq<byte>, fs: seq<Field>)
    requires |fs| > 1 && Headed(fs) && fs[0].key != DOCUMENT && WellShaped(fs[0]) && WrapperMeaning(fs[0]).Some?
    requires Ordinary(fs[1]) && forall i | 0 <= i < |fs| :: ModelledField(fs[i])
    ensures Ser(buf, CMap(fs)) == Failed(InvalidIdentifier)
  {
    HeadFirst(buf, fs);
    SpecialMeaning(buf, fs[0]);
    var o := SerSpecial(buf + Zeros(4), fs[0].key, fs[0].val);
    SpecialType(buf + Zeros(4), fs[0]);
    assert fs[1..][0] == fs[1];
    assert forall i | 0 <= i < |fs[1..]| :: fs[1..][i] == fs[i + 1];
    assert o.id != 0x03 && o.id != 0x04;
    hide SerFields, SerSpecial;
    EntryFails(o.buf, o.id, fs[1..]);
  }

  /** A regular expression under another name than pattern and options. */
  lemma RegexKeyRefused(buf: seq<byte>, f: Field, fs: seq<Field>)
    requires f.key != PATTERN && f.key != OPTIONS
    ensures Ser(buf, CMap([Field(REGEX, CMap([f] + fs))])) == Failed(InvalidIdentifier)
  {
    var g := Field(REGEX, CMap([f] + fs));
    assert SerRegexFields(buf, [f] + fs) == Failed(InvalidIdentifier);
    assert (buf + Zeros(4))[..|buf|] == buf;
    assert |OID| == 4 && |DATE| == 5 && |TIMESTAMP| == 10 && |DOCUMENT| == 9 && |REGEX| == 18;
    HeadFirst(buf, [g]);
  }

  /** A second special key that finds less than four bytes. */
  lemma NothingToRetract(data: seq<byte>, f: Field, fs: seq<Field>)
    requires |data| < 4 && Special(f.key) && forall i | 0 <= i < |fs| :: ModelledField(fs[i])
    ensures var c := CMap([Field(OID, CBytes(data)), f] + fs); Modelled(c) && Ser([], c) == Failed(Panicked)
  {
    var o := Field(OID, CBytes(data));
    var all := [o, f] + fs;
    assert |OID| == 4 && |DATE| == 5 && |TIMESTAMP| == 10 && |DOCUMENT| == 9 && |REGEX| == 18
        && |BINARY| == 7 && |SCOPE| == 6;
    forall i | 0 <= i < |all| ensures ModelledField(all[i]) {
      if i >= 2 { assert all[i] == fs[i - 2]; }
    }
    assert [] + Zeros(4) == Zeros(4);
    HeadFirst([], all);
    assert SerSpecial(Zeros(4), OID, CBytes(data)) == Done(data, 0x07);
    assert all[1..] == [f] + fs;
    assert SerSpecial(data, f.key, f.val) == Failed(Panicked);
  }

  /** An embedded document without even a terminator. */
  lemma EmptyBody(buf: seq<byte>, fs: seq<Field>)
    requires forall i | 0 <= i < |fs| :: ModelledField(fs[i])
    ensures var c := CMap([Field(DOCUMENT, CBytes([]))] + fs); Modelled(c) && Ser(buf, c) == Failed(Panicked)
  {
    var all := [Field(DOCUMENT, CBytes([]))] + fs;
    Keys();
    assert DOCUMENT != OID;
    forall i | 0 <= i < |all| ensures ModelledField(all[i]) {
      if i >= 1 { assert all[i] == fs[i - 1]; }
    }
    HeadFirst(buf, all);
  }

  /** A nested map that has retracted its own placeholder and seven bytes before it. */
  function Retracting(data: seq<byte>): seq<Field> {
    [Field(OID, CBytes([])), Field(OID, CBytes(data)), Field(DOCUMENT, CBytes([0]))]
  }

  lemma Keys()
    ensures Special(OID) && Special(DOCUMENT) && OID != DOCUMENT && !Special(A)
    ensures !Unmodelled(OID) && !Unmodelled(DOCUMENT) && !Unmodelled(A)
    ensures DOCUMENT != DATE && DOCUMENT != TIMESTAMP
  {
    assert |OID| == 4 && |DOCUMENT| == 9 && |DATE| == 5 && |TIMESTAMP| == 10 && |REGEX| == 18;
    assert |BINARY| == 7 && |SCOPE| == 6 && |CODE| == 5 && |A| == 1;
  }

  lemma RetractingModelled(data: seq<byte>)
    ensures forall i | 0 <= i < 3 :: ModelledField(Retracting(data)[i])
    ensures Modelled(CMap(Retracting(data))) && ModelledField(Field(A, CMap(Retracting(data))))
  {
    Keys();
  }

  lemma RetractedFields(buf: seq<byte>, data: seq<byte>)
    requires |buf| == 7
    ensures Modelled(CMap(Retracting(data)))
    ensures if |data| < 7 then Ser(buf, CMap(Retracting(data))) == Failed(Panicked)
            else Ser(buf, CMap(Retracting(data))).Done? && |Ser(buf, CMap(Retracting(data))).buf| >= 11
  {
    var fs, x := Retracting(data), buf + Zeros(4);
    Keys();
    RetractingModelled(data);
    assert fs[1..] == [fs[1], fs[2]] && fs[1..][1..] == [fs[2]];
    HeadFirst(buf, fs);
    assert x[..7] == buf;
    assert SerSpecial(x, OID, CBytes([])) == Done(buf, 0x07) by { assert buf + [] == buf; }
    SpecialThen(buf, 0x07, fs[1..]);
    var y := buf[..3] + data;
    assert SerSpecial(buf, OID, CBytes(data)) == Done(y, 0x07);
    SpecialThen(y, 0x07, [fs[2]]);
    hide Modelled, ModelledField, Unmodelled, Special;
    if |y| >= 4 {
      assert SerSpecial(y, DOCUMENT, CBytes([0])) == Done(y[..|y| - 4] + Zeros(4) + [], 0x03);
    }
  }

  /** It ends as a document, whose length panics exactly when it no longer fits in front of the end. */
  lemma EndPanics(data: seq<byte>)
    ensures var c := CMap([Field(A, CMap(Retracting(data)))]);
            Modelled(c) && (Ser([], c) == Failed(Panicked) <==> |data| < 7)
  {
    var f := Field(A, CMap(Retracting(data)));
    var buf := Zeros(4) + Head(0, A);
    Keys();
    RetractingModelled(data);
    assert [] + Zeros(4) == Zeros(4) && |buf| == 7;
    RetractedFields(buf, data);
    FieldsSnoc(Zeros(4), 0x03, [f]);
    assert [f][..0] == [];
    hide Retracting, Modelled, Special, Unmodelled;
  }
}
