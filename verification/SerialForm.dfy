/** The streaming serializer as a function on the bytes written so far: which bytes a content leaves, and which type. */
module SerialForm {
  import opened Bytes
  import opened Bson
  import opened Vecs
  import opened ArrayWriter
  import opened Contents

  /** `Panicked` is an underflow or an index out of bounds. */
  datatype Error = InvalidType | InvalidIdentifier | Panicked

  datatype Out = Done(buf: seq<byte>, id: byte) | Failed(error: Error)

  /** No map in it has a key whose meaning is not part of this model. What a special key holds does not matter. */
  predicate Modelled(c: Content)
    decreases c
  {
    match c
    case CSeq(elems) => forall i | 0 <= i < |elems| :: Modelled(elems[i])
    case CMap(fields) => forall i | 0 <= i < |fields| :: ModelledField(fields[i])
    case _ => true
  }

  predicate ModelledField(f: Field)
    decreases f
  {
    !Unmodelled(f.key) && (Special(f.key) || Modelled(f.val))
  }

  /** `serialize`. */
  function Ser(buf: seq<byte>, c: Content): Out
    requires Modelled(c)
    decreases c, 0, 0
  {
    match c
    case CBool(b) => Done(buf + [if b then 1 else 0], 0x08)
    case CI32(i) => Done(buf + LE32(i), 0x10)
    case CI64(l) => Done(buf + LE64(l), 0x12)
    case CU64(u) => Done(buf + LE64(AsI64(u)), 0x12)
    case CF64(bits) => Done(buf + bits, 0x01)
    case CStr(text) => Done(buf + EncVal(Str(text)), 0x02)
    case CUnit => Done(buf, 0x0A)
    case CBytes(data) => Done(buf + EncVal(Binary(0, data)), 0x05)
    case CSeq(elems) => Finish(|buf|, SerElems(buf + Zeros(4), elems, 0))
    case CMap(fields) => Finish(|buf|, SerFields(buf + Zeros(4), 0x03, fields))
  }

  /** `serialize_entry`: the bytes and the map's type afterwards. */
  function SerEntry(buf: seq<byte>, type_: byte, key: NulFree, val: Content): Out
    requires Special(key) || Modelled(val)
    decreases val, 1, 0
  {
    if Special(key) then SerSpecial(buf, key, val)
    else if type_ != 0x03 && type_ != 0x04 then Failed(InvalidIdentifier)
    else
      match Ser(buf + Head(0, key), val)
      case Done(b, id) => if |buf| < |b| then Done(b[|buf| := id], type_) else Failed(Panicked)
      case Failed(e) => Failed(e)
  }

  /** `serialize_entry` under a special key, wherever it stands in its map: the last four bytes are retracted. */
  function SerSpecial(buf: seq<byte>, key: NulFree, val: Content): Out
    requires Special(key)
  {
    if |buf| < 4 then Failed(Panicked)
    else
      var kept := buf[..|buf| - 4];
      if key == OID then (if val.CBytes? then Done(kept + val.data, 0x07) else Failed(InvalidType))
      else if key == DATE then (if val.CI64? then Done(kept + LE64(val.l), 0x09) else Failed(InvalidType))
      else if key == TIMESTAMP then (if val.CU64? then Done(kept + LE64(val.u), 0x11) else Failed(InvalidType))
      else if key == DOCUMENT then
        if !val.CBytes? then Failed(InvalidType)
        else if val.data == [] then Failed(Panicked)
        else Done(kept + Zeros(4) + val.data[..|val.data| - 1], 0x03)
      else SerRegex(kept, val)
  }

  /** A regular expression writes each string it is given with a NUL, however they are nested. */
  function SerRegex(buf: seq<byte>, val: Content): Out
    decreases val, 0
  {
    match val
    case CStr(text) => Done(buf + text + [0], 0x0B)
    case CMap(fields) => SerRegexFields(buf, fields)
    case _ => Failed(InvalidType)
  }

  function SerRegexFields(buf: seq<byte>, fs: seq<Field>): Out
    decreases fs, 1
  {
    if fs == [] then Done(buf, 0x0B)
    else if fs[0].key != PATTERN && fs[0].key != OPTIONS then Failed(InvalidIdentifier)
    else
      match SerRegex(buf, fs[0].val)
      case Done(b, _) => SerRegexFields(b, fs[1..])
      case Failed(e) => Failed(e)
  }

  function SerFields(buf: seq<byte>, type_: byte, fs: seq<Field>): Out
    requires forall i | 0 <= i < |fs| :: ModelledField(fs[i])
    decreases fs, 2, 0
  {
    if fs == [] then Done(buf, type_)
    else
      assert ModelledField(fs[0]);
      match SerEntry(buf, type_, fs[0].key, fs[0].val)
      case Done(b, t) => SerFields(b, t, fs[1..])
      case Failed(e) => Failed(e)
  }

  function SerElems(buf: seq<byte>, cs: seq<Content>, i: nat): Out
    requires i <= |cs| && forall j | 0 <= j < |cs| :: Modelled(cs[j])
    decreases cs, 2, |cs| - i
  {
    if i == |cs| then Done(buf, 0x04)
    else
      DecimalIsOrdinary(i);
      match SerEntry(buf, 0x04, Decimal(i), cs[i])
      case Done(b, _) => SerElems(b, cs, i + 1)
      case Failed(e) => Failed(e)
  }

  /** `end` of a document that started at `off`. */
  function Finish(off: nat, o: Out): Out {
    match o
    case Failed(e) => o
    case Done(b, id) =>
      if id != 0x03 && id != 0x04 then o
      else if |b| + 1 < off + 4 then Failed(Panicked)
      else Done(Splice(b + [0], off, LE32(|b| + 1 - off)), id)
  }

  /** Index keys are never special. */
  lemma DecimalIsOrdinary(n: nat)
    ensures !Special(Decimal(n)) && !Unmodelled(Decimal(n))
  {
    DecimalFirst(n);
  }

  lemma {:induction false} DecimalFirst(n: nat)
    ensures Decimal(n)[0] != 36
  {
    if n >= 10 {
      DecimalFirst(n / 10);
    }
  }
}
