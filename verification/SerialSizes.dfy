/** When the serializer leaves alone what was written before: an account of sizes only. */
module SerialSizes {
  import opened Bytes
  import opened Bson
  import opened Wrappers
  import opened ArrayWriter
  import opened Contents
  import opened SerialForm
  import opened SerialMixes

  /** What the strings of a regular expression take. */
  function RegexSize(val: Content): nat
    decreases val, 0
  {
    match val
    case CStr(text) => |text| + 1
    case CMap(fields) => RegexFieldsSize(fields)
    case _ => 0
  }

  function RegexFieldsSize(fs: seq<Field>): nat
    decreases fs, 1
  {
    if fs == [] then 0 else RegexSize(fs[0].val) + RegexFieldsSize(fs[1..])
  }

  /** What a special key adds behind the four bytes it retracts; a document without a body panics. */
  function SpecialSize(key: NulFree, val: Content): Option<nat> {
    if key == OID then Some(if val.CBytes? then |val.data| else 0)
    else if key == DATE || key == TIMESTAMP then Some(8)
    else if key == DOCUMENT then
      if val == CBytes([]) then None else Some(if val.CBytes? then 3 + |val.data| else 0)
    else Some(RegexSize(val))
  }

  function SpecialId(key: NulFree): byte {
    if key == OID then 0x07 else if key == DATE then 0x09 else if key == TIMESTAMP then 0x11
    else if key == DOCUMENT then 0x03 else 0x0B
  }

  /** The bytes that a content takes; none when some special key, at whatever depth, finds less than four bytes of its
      own map. */
  function Room(c: Content): Option<nat>
    requires Modelled(c)
    decreases c, 0, 0
  {
    match c
    case CBool(_) => Some(1)
    case CI32(_) => Some(4)
    case CI64(_) | CU64(_) | CF64(_) => Some(8)
    case CStr(text) => Some(5 + |text|)
    case CUnit => Some(0)
    case CBytes(data) => Some(5 + |data|)
    case CSeq(elems) => RoomElems(4, elems, 0)
    case CMap(fields) => RoomFields(4, 0x03, fields)
  }

  function RoomFields(written: nat, type_: byte, fs: seq<Field>): Option<nat>
    requires forall i | 0 <= i < |fs| :: ModelledField(fs[i])
    decreases fs, 2, 0
  {
    if fs == [] then Some(if type_ == 0x03 then written + 1 else written)
    else
      assert ModelledField(fs[0]);
      if Special(fs[0].key) then
        match SpecialSize(fs[0].key, fs[0].val)
        case Some(n) => if written < 4 then None else RoomFields(written - 4 + n, SpecialId(fs[0].key), fs[1..])
        case None => None
      else
        match Room(fs[0].val)
        case Some(n) => RoomFields(written + 2 + |fs[0].key| + n, type_, fs[1..])
        case None => None
  }

  function RoomElems(written: nat, cs: seq<Content>, i: nat): Option<nat>
    requires i <= |cs| && forall j | 0 <= j < |cs| :: Modelled(cs[j])
    decreases cs, 2, |cs| - i
  {
    if i == |cs| then Some(written + 1)
    else
      match Room(cs[i])
      case Some(n) => RoomElems(written + 2 + |Decimal(i)| + n, cs, i + 1)
      case None => None
  }

  /** No panic, and if no error either then `n` more bytes behind `pre`. */
  predicate Extends(pre: seq<byte>, o: Out, n: nat) {
    match o
    case Done(b, _) => |b| == |pre| + n && pre <= b
    case Failed(e) => e != Panicked
  }

  lemma {:induction false} RegexExtends(buf: seq<byte>, val: Content)
    ensures Extends(buf, SerRegex(buf, val), RegexSize(val))
    ensures SerRegex(buf, val).Done? ==> SerRegex(buf, val).id == 0x0B
    decreases val, 0
  {
    if val.CMap? { RegexFieldsExtend(buf, val.fields); }
  }

  lemma {:induction false} RegexFieldsExtend(buf: seq<byte>, fs: seq<Field>)
    ensures Extends(buf, SerRegexFields(buf, fs), RegexFieldsSize(fs))
    ensures SerRegexFields(buf, fs).Done? ==> SerRegexFields(buf, fs).id == 0x0B
    decreases fs, 1
  {
    if fs != [] && (fs[0].key == PATTERN || fs[0].key == OPTIONS) {
      RegexExtends(buf, fs[0].val);
      match SerRegex(buf, fs[0].val)
      case Done(b, _) => RegexFieldsExtend(b, fs[1..]);
      case Failed(_) =>
    }
  }

  lemma SpecialExtends(pre: seq<byte>, x: seq<byte>, key: NulFree, val: Content)
    requires Special(key) && pre <= x && |x| >= |pre| + 4 && SpecialSize(key, val).Some?
    ensures Extends(pre, SerSpecial(x, key, val), |x| - |pre| - 4 + SpecialSize(key, val).value)
    ensures SerSpecial(x, key, val).Done? ==> SerSpecial(x, key, val).id == SpecialId(key)
  {
    assert |OID| == 4 && |DATE| == 5 && |TIMESTAMP| == 10 && |DOCUMENT| == 9 && |REGEX| == 18;
    RegexExtends(x[..|x| - 4], val);
    hide SerRegex, RegexSize;
  }

  /** Where every special key finds four bytes of its own map nothing panics, and what was written before stays. */
  lemma {:induction false} RoomSuffices(buf: seq<byte>, c: Content)
    requires Modelled(c) && Room(c).Some?
    ensures Extends(buf, Ser(buf, c), Room(c).value)
    decreases c, 0, 0
  {
    match c
    case CSeq(elems) => ElemsExtend(buf, buf + Zeros(4), elems, 0);
    case CMap(fields) => FieldsExtend(buf, buf + Zeros(4), 0x03, fields);
    case _ =>
  }

  lemma {:induction false} EntryExtends(pre: seq<byte>, x: seq<byte>, type_: byte, key: NulFree, c: Content)
    requires !Special(key) && Modelled(c) && Room(c).Some? && pre <= x
    ensures Extends(pre, SerEntry(x, type_, key, c), |x| - |pre| + 2 + |key| + Room(c).value)
    ensures SerEntry(x, type_, key, c).Done? ==> SerEntry(x, type_, key, c).id == type_
    decreases c, 1, 0
  {
    RoomSuffices(x + Head(0, key), c);
  }

  lemma {:induction false} FieldsExtend(pre: seq<byte>, x: seq<byte>, type_: byte, fs: seq<Field>)
    requires forall i | 0 <= i < |fs| :: ModelledField(fs[i])
    requires pre <= x && type_ != 0x04 && (type_ == 0x03 ==> |x| >= |pre| + 4)
    requires RoomFields(|x| - |pre|, type_, fs).Some?
    ensures Extends(pre, Finish(|pre|, SerFields(x, type_, fs)), RoomFields(|x| - |pre|, type_, fs).value)
    decreases fs, 2, 0
  {
    if fs != [] {
      assert ModelledField(fs[0]);
      if Special(fs[0].key) {
        SpecialExtends(pre, x, fs[0].key, fs[0].val);
      } else {
        EntryExtends(pre, x, type_, fs[0].key, fs[0].val);
      }
      match SerEntry(x, type_, fs[0].key, fs[0].val)
      case Done(b, t) => FieldsExtend(pre, b, t, fs[1..]);
      case Failed(_) =>
    }
  }

  lemma {:induction false} ElemsExtend(pre: seq<byte>, x: seq<byte>, cs: seq<Content>, i: nat)
    requires i <= |cs| && forall j | 0 <= j < |cs| :: Modelled(cs[j])
    requires pre <= x && |x| >= |pre| + 4 && RoomElems(|x| - |pre|, cs, i).Some?
    ensures Extends(pre, Finish(|pre|, SerElems(x, cs, i)), RoomElems(|x| - |pre|, cs, i).value)
    decreases cs, 2, |cs| - i
  {
    if i < |cs| {
      DecimalIsOrdinary(i);
      EntryExtends(pre, x, 0x04, Decimal(i), cs[i]);
      match SerEntry(x, 0x04, Decimal(i), cs[i])
      case Done(b, _) => ElemsExtend(pre, b, cs, i + 1);
      case Failed(_) =>
    }
  }

  /** A content with room serializes alike behind anything, errors included, and leaves that alone. */
  lemma FrameByRoom(pre: seq<byte>, buf: seq<byte>, c: Content)
    requires Modelled(c) && Room(c).Some?
    ensures match Ser(buf, c)
            case Done(b, id) => Ser(pre + buf, c) == Done(pre + b, id) && buf <= b
            case Failed(e) => Ser(pre + buf, c) == Failed(e)
  {
    SerFrame(pre, buf, c);
    RoomSuffices(buf, c);
    hide Ser, Room;
  }
}
