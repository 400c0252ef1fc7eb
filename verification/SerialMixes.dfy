/** Maps that hold a special key among others: what retracting four bytes does to them, and when a value remains. */
module SerialMixes {
  import opened Bytes
  import opened Bson
  import opened Wrappers
  import opened Vecs
  import opened ArrayWriter
  import opened Contents
  import opened SerialForm
  import opened SerialLaws

  // ----- what was written before -----

  /** What is done on some bytes is done alike on more of them, unless it ran out of bytes. */
  predicate Lifts(pre: seq<byte>, o: Out, p: Out) {
    match o
    case Done(b, id) => p == Done(pre + b, id)
    case Failed(Panicked) => true
    case Failed(e) => p == Failed(e)
  }

  /** A content that serializes on its own serializes alike behind anything, and leaves that alone. */
  lemma {:induction false} SerFrame(pre: seq<byte>, buf: seq<byte>, c: Content)
    requires Modelled(c)
    ensures Lifts(pre, Ser(buf, c), Ser(pre + buf, c))
    decreases c, 0, 0
  {
    match c
    case CSeq(elems) =>
      ElemsFrame(pre, buf + Zeros(4), elems, 0);
      assert pre + (buf + Zeros(4)) == pre + buf + Zeros(4);
      FinishFrame(pre, |buf|, SerElems(buf + Zeros(4), elems, 0), SerElems(pre + (buf + Zeros(4)), elems, 0));
    case CMap(fields) =>
      FieldsFrame(pre, buf + Zeros(4), 0x03, fields);
      assert pre + (buf + Zeros(4)) == pre + buf + Zeros(4);
      FinishFrame(pre, |buf|, SerFields(buf + Zeros(4), 0x03, fields), SerFields(pre + (buf + Zeros(4)), 0x03, fields));
    case _ => ScalarFrame(pre, buf, c);
  }

  lemma ScalarFrame(pre: seq<byte>, buf: seq<byte>, c: Content)
    requires !c.CSeq? && !c.CMap?
    ensures Lifts(pre, Ser(buf, c), Ser(pre + buf, c))
  {
    hide EncVal, LE32, LE64;
    match c
    case CBool(b) => Join(pre, buf, [if b then 1 else 0]);
    case CI32(i) => Join(pre, buf, LE32(i));
    case CI64(l) => Join(pre, buf, LE64(l));
    case CU64(u) => Join(pre, buf, LE64(AsI64(u)));
    case CF64(bits) => Join(pre, buf, bits);
    case CStr(text) => Join(pre, buf, EncVal(Str(text)));
    case CBytes(data) => Join(pre, buf, EncVal(Binary(0, data)));
    case CUnit =>
  }

  lemma Join(a: seq<byte>, b: seq<byte>, c: seq<byte>)
    ensures a + b + c == a + (b + c)
  {
  }

  lemma FinishFrame(pre: seq<byte>, off: nat, o: Out, p: Out)
    requires Lifts(pre, o, p)
    ensures Lifts(pre, Finish(off, o), Finish(|pre| + off, p))
  {
    if o.Done? && (o.id == 0x03 || o.id == 0x04) && |o.buf| + 1 >= off + 4 {
      var len := LE32(|o.buf| + 1 - off);
      assert pre + o.buf + [0] == pre + (o.buf + [0]);
      assert Splice(pre + (o.buf + [0]), |pre| + off, len) == pre + Splice(o.buf + [0], off, len);
    }
  }

  lemma {:induction false} EntryFrame(pre: seq<byte>, buf: seq<byte>, type_: byte, key: NulFree, val: Content)
    requires Special(key) || Modelled(val)
    ensures Lifts(pre, SerEntry(buf, type_, key, val), SerEntry(pre + buf, type_, key, val))
    decreases val, 1, 0
  {
    if Special(key) {
      SpecialFrame(pre, buf, key, val);
    } else if type_ == 0x03 || type_ == 0x04 {
      SerFrame(pre, buf + Head(0, key), val);
      assert pre + (buf + Head(0, key)) == pre + buf + Head(0, key);
      match Ser(buf + Head(0, key), val)
      case Done(b, id) => assert |buf| < |b| ==> (pre + b)[|pre + buf| := id] == pre + b[|buf| := id];
      case Failed(_) =>
    }
  }

  lemma SpecialFrame(pre: seq<byte>, buf: seq<byte>, key: NulFree, val: Content)
    requires Special(key)
    ensures Lifts(pre, SerSpecial(buf, key, val), SerSpecial(pre + buf, key, val))
  {
    if |buf| >= 4 {
      var kept := buf[..|buf| - 4];
      assert (pre + buf)[..|pre + buf| - 4] == pre + kept;
      RegexFrame(pre, kept, val);
      hide SerRegex;
      forall x: seq<byte> ensures pre + kept + x == pre + (kept + x) {}
      if val.CBytes? && val.data != [] {
        assert pre + kept + Zeros(4) + val.data[..|val.data| - 1]
            == pre + (kept + Zeros(4) + val.data[..|val.data| - 1]);
      }
    }
  }

  lemma {:induction false} RegexFrame(pre: seq<byte>, buf: seq<byte>, val: Content)
    ensures Lifts(pre, SerRegex(buf, val), SerRegex(pre + buf, val))
    decreases val, 0
  {
    match val
    case CStr(text) => assert pre + buf + text + [0] == pre + (buf + text + [0]);
    case CMap(fields) => RegexFieldsFrame(pre, buf, fields);
    case _ =>
  }

  lemma {:induction false} RegexFieldsFrame(pre: seq<byte>, buf: seq<byte>, fs: seq<Field>)
    ensures Lifts(pre, SerRegexFields(buf, fs), SerRegexFields(pre + buf, fs))
    decreases fs, 1
  {
    if fs != [] && (fs[0].key == PATTERN || fs[0].key == OPTIONS) {
      RegexFrame(pre, buf, fs[0].val);
      match SerRegex(buf, fs[0].val)
      case Done(b, _) => RegexFieldsFrame(pre, b, fs[1..]);
      case Failed(_) =>
    }
  }

  lemma {:induction false} FieldsFrame(pre: seq<byte>, buf: seq<byte>, type_: byte, fs: seq<Field>)
    requires forall i | 0 <= i < |fs| :: ModelledField(fs[i])
    ensures Lifts(pre, SerFields(buf, type_, fs), SerFields(pre + buf, type_, fs))
    decreases fs, 2, 0
  {
    if fs != [] {
      assert ModelledField(fs[0]);
      EntryFrame(pre, buf, type_, fs[0].key, fs[0].val);
      match SerEntry(buf, type_, fs[0].key, fs[0].val)
      case Done(b, t) => FieldsFrame(pre, b, t, fs[1..]);
      case Failed(_) =>
    }
  }

  lemma {:induction false} ElemsFrame(pre: seq<byte>, buf: seq<byte>, cs: seq<Content>, i: nat)
    requires i <= |cs| && forall j | 0 <= j < |cs| :: Modelled(cs[j])
    ensures Lifts(pre, SerElems(buf, cs, i), SerElems(pre + buf, cs, i))
    decreases cs, 2, |cs| - i
  {
    if i < |cs| {
      DecimalIsOrdinary(i);
      EntryFrame(pre, buf, 0x04, Decimal(i), cs[i]);
      match SerEntry(buf, 0x04, Decimal(i), cs[i])
      case Done(b, t) => ElemsFrame(pre, b, cs, i + 1);
      case Failed(_) =>
    }
  }

  // ----- when a mixed map is a value -----

  /** The bytes and the type are those of a value. */
  ghost predicate IsValue(o: Out) {
    exists v :: o == Done(EncVal(v), Id(v))
  }

  /** The map up to its last special key, which stands at `k`. */
  ghost predicate LastSpecial(fs: seq<Field>, k: nat) {
    && k < |fs| && Special(fs[k].key) && (fs[k].key == OID || WellShaped(fs[k]))
    && (forall i | 0 <= i < |fs| :: ModelledField(fs[i]))
    && (forall i | k < i < |fs| :: Ordinary(fs[i]) && Domain(fs[i].val))
  }

  /** What the last special key has to find among the bytes the map has written so far. For a date or a timestamp it is
      the placeholder alone, for an object id what makes twelve bytes with its own, for a regular expression no NUL
      before what is retracted, and for an embedded document an entry list once zeros replace the last four bytes.
      Behind another special key those can be any bytes; behind the entries of a document `SerialEmbeds` says which
      entries make it a list, and which the one that is meant. */
  ghost predicate Retractable(x: seq<byte>, fs: seq<Field>, k: nat)
    requires LastSpecial(fs, k) && |x| >= 4
  {
    var kept := x[..|x| - 4];
    if fs[k].key == REGEX then 0 !in kept
    else if fs[k].key == OID then fs[k].val.CBytes? && |kept| + |fs[k].val.data| == 12
    else if fs[k].key != DOCUMENT then kept == []
    else
      fs[k].val.CBytes? && MeaningFields(fs[k + 1..]).Some?
      && IsList((kept + Zeros(4))[4..] + EncEntries(BodyEntries(fs[k].val.data) + MeaningFields(fs[k + 1..]).value))
  }

  /** A map with a special key anywhere that serializes without an error is a value, right or wrong, if and only if the
      last special key finds what it can retract. */
  lemma MixedExactly(fs: seq<Field>, k: nat)
    requires LastSpecial(fs, k) && Ser([], CMap(fs)).Done?
    ensures forall i | 0 <= i < k :: ModelledField(fs[..k][i])
    ensures var o := SerFields(Zeros(4), 0x03, fs[..k]);
            o.Done? && |o.buf| >= 4 && (IsValue(Ser([], CMap(fs))) <==> Retractable(o.buf, fs, k))
  {
    assert fs == fs[..k] + fs[k..];
    assert forall i | 0 <= i < |fs[k..]| :: fs[k..][i] == fs[k + i];
    assert [] + Zeros(4) == Zeros(4);
    FieldsSplit(Zeros(4), 0x03, fs[..k], fs[k..]);
    var x := SerFields(Zeros(4), 0x03, fs[..k]);
    SpecialThen(x.buf, x.id, fs[k..]);
    assert fs[k..][0] == fs[k] && fs[k..][1..] == fs[k + 1..];
    hide SerFields, WellShaped, Domain, Retractable, SerSpecial, IsValue;
    if fs[k].key == DOCUMENT {
      EmbeddedExactly(x.buf, fs, k);
    } else {
      NothingFollows(x.buf, fs, k);
      if fs[k].key == REGEX { RegexExactly(x.buf, fs, k); } else { FixedExactly(x.buf, fs, k); }
    }
  }

  lemma SpecialThen(x: seq<byte>, type_: byte, fs: seq<Field>)
    requires Headed(fs) && forall i | 0 <= i < |fs| :: ModelledField(fs[i])
    ensures SerFields(x, type_, fs) ==
              match SerSpecial(x, fs[0].key, fs[0].val)
              case Done(b, t) => SerFields(b, t, fs[1..])
              case Failed(e) => Failed(e)
  {
    assert ModelledField(fs[0]);
  }

  /** Behind a type that is no document's every entry is an error. */
  lemma NothingFollows(x: seq<byte>, fs: seq<Field>, k: nat)
    requires LastSpecial(fs, k) && fs[k].key != DOCUMENT
    requires var o := SerSpecial(x, fs[k].key, fs[k].val); o.Done? && SerFields(o.buf, o.id, fs[k + 1..]).Done?
    ensures fs[k + 1..] == []
    ensures var o := SerSpecial(x, fs[k].key, fs[k].val); SerFields(o.buf, o.id, fs[k + 1..]) == o
  {
    var o := SerSpecial(x, fs[k].key, fs[k].val);
    SpecialType(x, fs[k]);
    assert fs[k + 1..] == [] ==> SerFields(o.buf, o.id, fs[k + 1..]) == o;
    hide SerFields, SerSpecial;
    if |fs| > k + 1 { EntryFails(o.buf, o.id, fs[k + 1..]); }
  }

  lemma EntryFails(x: seq<byte>, type_: byte, fs: seq<Field>)
    requires fs != [] && Ordinary(fs[0]) && type_ != 0x03 && type_ != 0x04
    requires forall i | 0 <= i < |fs| :: ModelledField(fs[i])
    ensures SerFields(x, type_, fs) == Failed(InvalidIdentifier)
  {
    assert ModelledField(fs[0]);
    assert SerEntry(x, type_, fs[0].key, fs[0].val) == Failed(InvalidIdentifier);
  }

  lemma SpecialType(x: seq<byte>, f: Field)
    requires Special(f.key) && (f.key == OID || WellShaped(f)) && SerSpecial(x, f.key, f.val).Done?
    ensures |x| >= 4
    ensures var o := SerSpecial(x, f.key, f.val);
            && (f.key == OID ==> o.id == 0x07 && f.val.CBytes? && o.buf == x[..|x| - 4] + f.val.data)
            && (f.key == DATE ==> o.id == 0x09 && f.val.CI64? && o.buf == x[..|x| - 4] + LE64(f.val.l))
            && (f.key == TIMESTAMP ==> o.id == 0x11 && f.val.CU64? && o.buf == x[..|x| - 4] + LE64(f.val.u))
            && (f.key == REGEX ==> o.id == 0x0B && f.val.CMap? && RegexFields(f.val.fields)
                                   && f.val.fields[0].val.CStr? && f.val.fields[1].val.CStr?
                                   && o.buf == x[..|x| - 4] + EncVal(Regex(f.val.fields[0].val.text,
                                       f.val.fields[1].val.text)))
            && (f.key == DOCUMENT ==> o.id == 0x03 && f.val.CBytes? && IsBody(f.val.data)
                                      && o.buf == x[..|x| - 4] + Zeros(4) + EncEntries(BodyEntries(f.val.data)))
  {
    assert |OID| == 4 && |DATE| == 5 && |TIMESTAMP| == 10 && |DOCUMENT| == 9 && |REGEX| == 18;
    if f.key == REGEX { RegexMeaning(x[..|x| - 4], f.val.fields); }
    if f.key == DOCUMENT {
      var b, es := f.val.data, BodyEntries(f.val.data);
      assert b[..|b| - 1] == EncEntries(es);
    }
  }

  lemma FixedExactly(x: seq<byte>, fs: seq<Field>, k: nat)
    requires LastSpecial(fs, k) && fs[k].key != DOCUMENT && fs[k].key != REGEX
    requires SerSpecial(x, fs[k].key, fs[k].val).Done?
    ensures |x| >= 4 && (IsValue(Finish(0, SerSpecial(x, fs[k].key, fs[k].val))) <==> Retractable(x, fs, k))
  {
    var o, kept := SerSpecial(x, fs[k].key, fs[k].val), x[..|x| - 4];
    SpecialType(x, fs[k]);
    if fs[k].key == OID {
      if |kept| + |fs[k].val.data| == 12 { assert o == Done(EncVal(ObjectId(o.buf)), Id(ObjectId(o.buf))); }
    } else if kept == [] {
      var v := if fs[k].key == DATE then Datetime(fs[k].val.l) else Timestamp(fs[k].val.u);
      assert o == Done(EncVal(v), Id(v));
    }
    if IsValue(Finish(0, o)) {
      var v :| o == Done(EncVal(v), Id(v));
      assert |EncVal(v)| == if fs[k].key == OID then 12 else 8;
    }
  }

  lemma RegexExactly(x: seq<byte>, fs: seq<Field>, k: nat)
    requires LastSpecial(fs, k) && fs[k].key == REGEX && SerSpecial(x, fs[k].key, fs[k].val).Done?
    ensures |x| >= 4 && (IsValue(Finish(0, SerSpecial(x, fs[k].key, fs[k].val))) <==> Retractable(x, fs, k))
  {
    var o, kept := SerSpecial(x, fs[k].key, fs[k].val), x[..|x| - 4];
    SpecialType(x, fs[k]);
    var p, q := fs[k].val.fields[0].val.text, fs[k].val.fields[1].val.text;
    if 0 !in kept {
      var v := Regex(kept + p, q);
      assert o == Done(EncVal(v), Id(v));
    }
    if IsValue(Finish(0, o)) {
      var v :| o == Done(EncVal(v), Id(v));
      ThreeNuls(kept, p, q, v);
    }
  }

  /** A regular expression has two NULs, and the last one ends it. */
  lemma ThreeNuls(kept: seq<byte>, p: NulFree, q: NulFree, v: Value)
    requires v.Regex? && kept + EncVal(Regex(p, q)) == EncVal(v)
    ensures 0 !in kept
  {
    var b, m := EncVal(v), |v.pattern|;
    assert b == v.pattern + [0] + v.options + [0];
    assert forall i | 0 <= i < |b| && b[i] == 0 :: i == m || i == |b| - 1 by {
      assert forall i | 0 <= i < m :: b[i] == v.pattern[i];
      assert forall i | m < i < |b| - 1 :: b[i] == v.options[i - m - 1];
    }
    var c := EncVal(Regex(p, q));
    assert c == p + [0] + q + [0] && c[|p|] == 0 && |c| == |p| + |q| + 2;
    assert b[|kept| + |p|] == c[|p|] == 0;
    assert forall i | 0 <= i < |kept| :: b[i] == kept[i];
  }

  lemma EmbeddedExactly(x: seq<byte>, fs: seq<Field>, k: nat)
    requires LastSpecial(fs, k) && fs[k].key == DOCUMENT
    requires var o := SerSpecial(x, fs[k].key, fs[k].val); o.Done? && SerFields(o.buf, o.id, fs[k + 1..]).Done?
    ensures var o := SerSpecial(x, fs[k].key, fs[k].val);
            |x| >= 4 && (IsValue(Finish(0, SerFields(o.buf, o.id, fs[k + 1..]))) <==> Retractable(x, fs, k))
  {
    EmbeddedBytes(x, fs, k);
    var kept, body, later := x[..|x| - 4], BodyEntries(fs[k].val.data), MeaningFields(fs[k + 1..]).value;
    hide SerSpecial, SerFields, EncEntries, Finish, IsValue, IsList, MeaningFields, Special, WellShaped, Domain;
    var list := (kept + Zeros(4))[4..] + EncEntries(body + later);
    TailOfSum(kept + Zeros(4), EncEntries(body + later));
    FinishAtStart(kept + Zeros(4) + EncEntries(body + later), list);
    FramedList(list);
  }

  lemma TailOfSum(a: seq<byte>, b: seq<byte>)
    requires |a| >= 4
    ensures (a + b)[4..] == a[4..] + b
  {
  }

  lemma LaterFields(fs: seq<Field>, k: nat, rest: seq<Field>)
    requires LastSpecial(fs, k) && rest == fs[k + 1..]
    ensures forall j | 0 <= j < |rest| :: Ordinary(rest[j]) && Domain(rest[j].val) && ModelledField(rest[j])
  {
    assert forall j | 0 <= j < |rest| :: rest[j] == fs[k + 1 + j];
  }

  lemma EmbeddedBytes(x: seq<byte>, fs: seq<Field>, k: nat)
    requires LastSpecial(fs, k) && fs[k].key == DOCUMENT
    requires var o := SerSpecial(x, fs[k].key, fs[k].val); o.Done? && SerFields(o.buf, o.id, fs[k + 1..]).Done?
    ensures |x| >= 4 && fs[k].val.CBytes? && IsBody(fs[k].val.data) && MeaningFields(fs[k + 1..]).Some?
    ensures var o := SerSpecial(x, fs[k].key, fs[k].val);
            SerFields(o.buf, o.id, fs[k + 1..])
            == Done(x[..|x| - 4] + Zeros(4)
                + EncEntries(BodyEntries(fs[k].val.data) + MeaningFields(fs[k + 1..]).value), 0x03)
  {
    var o, kept, rest := SerSpecial(x, fs[k].key, fs[k].val), x[..|x| - 4], fs[k + 1..];
    SpecialType(x, fs[k]);
    LaterFields(fs, k, rest);
    hide *;
    RestFields(o.buf, rest);
    EncConcat(BodyEntries(fs[k].val.data), MeaningFields(rest).value);
    Join(x[..|x| - 4] + Zeros(4), EncEntries(BodyEntries(fs[k].val.data)), EncEntries(MeaningFields(rest).value));
  }

  lemma FinishAtStart(y: seq<byte>, list: seq<byte>)
    requires |y| >= 4 && list == y[4..]
    ensures Finish(0, Done(y, 0x03)) == Done(Frame(list), 0x03)
  {
    assert Splice(y + [0], 0, LE32(|y| + 1)) == LE32(|list| + 5) + list + [0];
  }

  lemma FramedList(list: seq<byte>)
    ensures IsValue(Done(Frame(list), 0x03)) <==> IsList(list)
  {
    if IsValue(Done(Frame(list), 0x03)) {
      var v :| Done(Frame(list), 0x03) == Done(EncVal(v), Id(v));
      assert v.Doc? && EncVal(v) == Frame(EncEntries(v.entries));
      var a, b := list, EncEntries(v.entries);
      assert |a| == |b|;
      assert Frame(a)[4..][..|a|] == a && Frame(b)[4..][..|b|] == b;
    }
    if IsList(list) {
      var es :| list == EncEntries(es);
      assert Done(Frame(list), 0x03) == Done(EncVal(Doc(es)), Id(Doc(es)));
    }
  }

  // ----- special keys behind ordinary ones -----

  /** Every special key holds what its wrapper type hands over, every other key a content with a meaning. */
  ghost predicate WellFilled(fs: seq<Field>) {
    forall i | 0 <= i < |fs| :: ModelledField(fs[i])
        && if Special(fs[i].key) then WellShaped(fs[i]) else Domain(fs[i].val)
  }

  /** As long as a map is a document its bytes hold four zeros for its length, and its last ordinary entry behind
      them. */
  lemma {:induction false} PlaceholderStays(fs: seq<Field>) returns (a: seq<byte>, e: seq<byte>)
    requires WellFilled(fs) && SerFields(Zeros(4), 0x03, fs).Done?
    ensures var o := SerFields(Zeros(4), 0x03, fs);
            && (o.id == 0x03 ==> o.buf == a + Zeros(4) + e)
            && (fs != [] && !Special(fs[|fs| - 1].key) ==> o.id == 0x03 && |e| >= 2)
            && o.id != 0x04
    decreases |fs|
  {
    if fs == [] {
      assert [] + Zeros(4) + [] == Zeros(4);
      a, e := [], [];
    } else {
      var front, f := fs[..|fs| - 1], fs[|fs| - 1];
      assert forall i | 0 <= i < |front| :: front[i] == fs[i];
      assert forall i | 0 <= i < |fs| :: ModelledField(fs[i]);
      FieldsSnoc(Zeros(4), 0x03, fs);
      a, e := PlaceholderStays(front);
      var o := SerFields(Zeros(4), 0x03, front);
      assert Special(f.key) ==> WellShaped(f);
      assert !Special(f.key) ==> Domain(f.val) && Modelled(f.val);
      hide *;
      a, e := FieldAfter(o.buf, o.id, f, a, e);
    }
  }

  lemma FieldAfter(x: seq<byte>, type_: byte, f: Field, a: seq<byte>, e: seq<byte>)
    returns (b: seq<byte>, g: seq<byte>)
    requires if Special(f.key) then WellShaped(f) else Domain(f.val) && Modelled(f.val)
    requires SerEntry(x, type_, f.key, f.val).Done? && type_ != 0x04 && (type_ == 0x03 ==> x == a + Zeros(4) + e)
    ensures var o := SerEntry(x, type_, f.key, f.val);
            && (o.id == 0x03 ==> o.buf == b + Zeros(4) + g)
            && (!Special(f.key) ==> o.id == 0x03 && |g| >= 2)
            && o.id != 0x04
  {
    b, g := a, e;
    if Special(f.key) {
      assert SerEntry(x, type_, f.key, f.val) == SerSpecial(x, f.key, f.val);
      SpecialType(x, f);
      if f.key == DOCUMENT { b, g := x[..|x| - 4], EncEntries(BodyEntries(f.val.data)); }
    } else {
      hide *;
      EntryAfter(x, type_, f);
      var entry := EncEntry(Entry(f.key, Meaning(f.val).value));
      Join(a + Zeros(4), e, entry);
      g := e + entry;
    }
  }

  lemma EntryAfter(x: seq<byte>, type_: byte, f: Field)
    requires !Special(f.key) && Domain(f.val) && Modelled(f.val) && SerEntry(x, type_, f.key, f.val).Done?
              && type_ != 0x04
    ensures type_ == 0x03 && Meaning(f.val).Some?
    ensures SerEntry(x, type_, f.key, f.val) == Done(x + EncEntry(Entry(f.key, Meaning(f.val).value)), 0x03)
    ensures |EncEntry(Entry(f.key, Meaning(f.val).value))| >= 2
  {
    EntryMeaning(x, type_, f.key, f.val);
  }

  /** Right behind an ordinary entry a special key that embeds no document spoils the map: it serializes, but to no
      value. */
  lemma SpoiledByEntry(fs: seq<Field>, k: nat)
    requires LastSpecial(fs, k) && WellFilled(fs) && fs[k].key != DOCUMENT && k > 0 && !Special(fs[k - 1].key)
    requires Ser([], CMap(fs)).Done?
    ensures !IsValue(Ser([], CMap(fs)))
  {
    MixedExactly(fs, k);
    assert forall i | 0 <= i < k :: fs[..k][i] == fs[i];
    var a, e := PlaceholderStays(fs[..k]);
    var x := SerFields(Zeros(4), 0x03, fs[..k]).buf;
    assert fs[k].key == OID && fs[k].val.CBytes? ==> |fs[k].val.data| == 12;
    hide SerFields, Ser, IsValue, LastSpecial, WellFilled;
    assert x[..|x| - 4][|a|] == 0;
  }

  /** A map with one special key that embeds no document is a value exactly when that key comes first. */
  lemma OneSpecialKey(fs: seq<Field>, k: nat)
    requires LastSpecial(fs, k) && WellFilled(fs) && fs[k].key != DOCUMENT
              && forall i | 0 <= i < k :: !Special(fs[i].key)
    requires Ser([], CMap(fs)).Done?
    ensures IsValue(Ser([], CMap(fs))) <==> k == 0
  {
    if k > 0 {
      SpoiledByEntry(fs, k);
    } else {
      MixedExactly(fs, 0);
      assert fs[..0] == [] && SerFields(Zeros(4), 0x03, []) == Done(Zeros(4), 0x03);
      assert Zeros(4)[..0] == [];
      HeadFirst([], fs);
      assert [] + Zeros(4) == Zeros(4);
      SpecialType(Zeros(4), fs[0]);
    }
  }

  // ----- four maps -----

  const A: NulFree := [97]

  lemma SmallMap(buf: seq<byte>, f: Field, g: Field)
    requires ModelledField(f) && ModelledField(g)
    ensures Modelled(CMap([f, g]))
    ensures Ser(buf, CMap([f, g])) == Finish(|buf|,
              match SerEntry(buf + Zeros(4), 0x03, f.key, f.val)
              case Done(b, t) => SerEntry(b, t, g.key, g.val)
              case Failed(e) => Failed(e))
  {
    assert forall i | 0 <= i < |[f, g]| :: ModelledField([f, g][i]);
    FieldsSnoc(buf + Zeros(4), 0x03, [f, g]);
    assert [f, g][..1] == [f] && [f][1..] == [];
    hide SerEntry, ModelledField;
    assert SerFields(buf + Zeros(4), 0x03, [f]) == SerEntry(buf + Zeros(4), 0x03, f.key, f.val);
  }

  lemma Keys()
    ensures !Special(A) && !Unmodelled(A)
    ensures forall k | k == OID || k == DATE || k == DOCUMENT || k == REGEX :: Special(k) && !Unmodelled(k)
    ensures OID != DATE && OID != DOCUMENT && OID != REGEX && DATE != DOCUMENT && DATE != REGEX && DATE != TIMESTAMP
    ensures DOCUMENT != TIMESTAMP && DOCUMENT != REGEX && REGEX != TIMESTAMP
  {
    assert |OID| == 4 && |DATE| == 5 && |TIMESTAMP| == 10 && |DOCUMENT| == 9 && |REGEX| == 18 && |A| == 1;
    assert |BINARY| == 7 && |CODE| == 5 && |SCOPE| == 6 && DATE[1] != CODE[1];
  }

  lemma DateStep(buf: seq<byte>, type_: byte, l: int64)
    requires |buf| >= 4
    ensures Special(DATE) && SerEntry(buf, type_, DATE, CI64(l)) == Done(buf[..|buf| - 4] + LE64(l), 0x09)
  {
    Keys();
  }

  lemma IdStep(buf: seq<byte>, type_: byte, data: seq<byte>)
    requires |buf| >= 4
    ensures Special(OID) && SerEntry(buf, type_, OID, CBytes(data)) == Done(buf[..|buf| - 4] + data, 0x07)
  {
    Keys();
  }

  lemma DocumentStep(buf: seq<byte>, type_: byte, body: seq<byte>)
    requires |buf| >= 4
    ensures Special(DOCUMENT)
    ensures SerEntry(buf, type_, DOCUMENT, CBytes(body + [0])) == Done(buf[..|buf| - 4] + Zeros(4) + body, 0x03)
  {
    Keys();
    assert (body + [0])[..|body + [0]| - 1] == body;
  }

  /** A date behind an ordinary entry: twelve bytes of type date. */
  lemma DateAfterEntry()
    ensures var c := CMap([Field(A, CBool(true)), Field(DATE, CI64(0))]);
            Modelled(c) && var o := Ser([], c); o.Done? && o.id == 0x09 && |o.buf| == 12 && !IsValue(o)
  {
    Keys();
    assert |EncEntry(Entry(A, Bool(true)))| == 4;
    SmallMap([], Field(A, CBool(true)), Field(DATE, CI64(0)));
    EntryMeaning([] + Zeros(4), 0x03, A, CBool(true));
    DateStep([] + Zeros(4) + EncEntry(Entry(A, Bool(true))), 0x03, 0);
    hide Special, Unmodelled, A, DATE, SerEntry, Ser, EncEntry;
    NotTwelve(Ser([], CMap([Field(A, CBool(true)), Field(DATE, CI64(0))])));
  }

  lemma NotTwelve(o: Out)
    requires o.Done? && o.id == 0x09 && |o.buf| == 12
    ensures !IsValue(o)
  {
    assert forall v: Value :: Id(v) == 0x09 ==> |EncVal(v)| == 8;
  }

  /** With an object id of no bytes before it a date retracts what stood before the map. */
  lemma CutsEarlier(buf: seq<byte>)
    requires |buf| >= 4
    ensures var c := CMap([Field(OID, CBytes([])), Field(DATE, CI64(0))]);
            Modelled(c) && Ser(buf, c) == Done(buf[..|buf| - 4] + LE64(0), 0x09)
  {
    Keys();
    hide Special, Unmodelled, OID, DATE, SerEntry, Ser, LE64;
    SmallMap(buf, Field(OID, CBytes([])), Field(DATE, CI64(0)));
    IdStep(buf + Zeros(4), 0x03, []);
    assert (buf + Zeros(4))[..|buf|] + [] == buf;
    DateStep(buf, 0x07, 0);
  }

  /** A document embedded behind an integer whose last bytes are zeros: what is retracted is written again. */
  lemma DocumentAfterZeros(es: seq<Entry>)
    ensures var c := CMap([Field(A, CI64(0)), Field(DOCUMENT, CBytes(EncEntries(es) + [0]))]);
            Modelled(c) && Ser([], c) == Done(EncVal(Doc([Entry(A, I64(0))] + es)), 0x03)
  {
    var first := EncEntry(Entry(A, I64(0)));
    var x := [] + Zeros(4) + first;
    Keys();
    SmallMap([], Field(A, CI64(0)), Field(DOCUMENT, CBytes(EncEntries(es) + [0])));
    EntryMeaning([] + Zeros(4), 0x03, A, CI64(0));
    EndsInZeros(x);
    DocumentStep(x, 0x03, EncEntries(es));
    EncConcat([Entry(A, I64(0))], es);
    EncSingle(Entry(A, I64(0)));
    assert EncVal(Doc([Entry(A, I64(0))] + es)) == Frame(first + EncEntries(es));
    hide EncEntries, EncEntry, EncVal, SerEntry, Special, Unmodelled, A, DOCUMENT, Finish, Frame, Ser;
    Patched([], first + EncEntries(es), 0x03);
    Join([] + Zeros(4), first, EncEntries(es));
    assert [] + Frame(first + EncEntries(es)) == Frame(first + EncEntries(es));
  }

  lemma EndsInZeros(x: seq<byte>)
    requires x == [] + Zeros(4) + EncEntry(Entry(A, I64(0)))
    ensures |x| >= 4 && x[..|x| - 4] + Zeros(4) == x
  {
    ZeroBytes(8);
    assert EncEntry(Entry(A, I64(0))) == Head(0x12, A) + Zeros(8);
    assert Zeros(8) == Zeros(4) + Zeros(4);
    assert x == [] + Zeros(4) + (Head(0x12, A) + Zeros(4)) + Zeros(4);
  }

  lemma {:induction false} ZeroBytes(n: nat)
    ensures LE(0, n) == Zeros(n)
  {
    if n > 0 { ZeroBytes(n - 1); }
  }

  /** A date behind a regular expression of four bytes, which it retracts whole. */
  lemma DateAfterRegex(l: int64)
    ensures var r := CMap([Field(PATTERN, CStr([65])), Field(OPTIONS, CStr([66]))]);
            var c := CMap([Field(REGEX, r), Field(DATE, CI64(l))]);
            Modelled(c) && Ser([], c) == Done(EncVal(Datetime(l)), 0x09)
  {
    var rs := [Field(PATTERN, CStr([65])), Field(OPTIONS, CStr([66]))];
    var f := Field(REGEX, CMap(rs));
    var x := EncVal(Regex([65], [66]));
    Keys();
    SmallMap([], f, Field(DATE, CI64(l)));
    assert RegexFields(rs) && WellShaped(f) && WrapperMeaning(f) == Some(Regex([65], [66]));
    SpecialMeaning([], f);
    assert |x| == 4 && [] + x == x && x[..0] + LE64(l) == LE64(l);
    assert SerEntry([] + Zeros(4), 0x03, REGEX, f.val) == SerSpecial([] + Zeros(4), REGEX, f.val);
    DateStep(x, 0x0B, l);
    hide Special, Unmodelled, REGEX, DATE, SerEntry, SerSpecial, Ser;
  }
}
