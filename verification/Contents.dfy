/** The serde data model on both sides of the BSON codec: what a serialized value is worth in BSON, and how a BSON
    value shows itself to a visitor. */
module Contents {
  import opened Bytes
  import opened Bson
  import opened Wrappers
  import opened ArrayWriter

  datatype Field = Field(key: NulFree, val: Content)

  /** The calls a value makes on a serializer, or a deserializer makes on a visitor. A struct is a map; narrower
      integers, floats, tuples and newtypes forward to these and are left out. */
  datatype Content =
    | CBool(b: bool)
    | CI32(i: int32)
    | CI64(l: int64)
    | CU64(u: uint64)
    | CF64(bits: Bytes8)
    | CStr(text: seq<byte>)
    | CUnit
    | CBytes(data: seq<byte>)
    | CSeq(elems: seq<Content>)
    | CMap(fields: seq<Field>)

  const OID: NulFree := [36, 111, 105, 100]                                      // $oid
  const DATE: NulFree := [36, 100, 97, 116, 101]                                 // $date
  const TIMESTAMP: NulFree := [36, 116, 105, 109, 101, 115, 116, 97, 109, 112]   // $timestamp
  const DOCUMENT: NulFree := [36, 100, 111, 99, 117, 109, 101, 110, 116]         // $document
  const REGEX: NulFree := [36, 114, 101, 103, 117, 108, 97, 114, 69, 120, 112, 114, 101, 115, 115, 105, 111, 110]
                                                                                 // $regularExpression
  const PATTERN: NulFree := [112, 97, 116, 116, 101, 114, 110]                   // pattern
  const OPTIONS: NulFree := [111, 112, 116, 105, 111, 110, 115]                  // options
  const BINARY: NulFree := [36, 98, 105, 110, 97, 114, 121]                      // $binary
  const CODE: NulFree := [36, 99, 111, 100, 101]                                 // $code
  const SCOPE: NulFree := [36, 115, 99, 111, 112, 101]                           // $scope

  /** Keys under which a map stands for a value of another type. */
  predicate Special(key: seq<byte>) {
    key == OID || key == DATE || key == TIMESTAMP || key == DOCUMENT || key == REGEX
  }

  /** Keys with a meaning to the serializer that is not part of this model. */
  predicate Unmodelled(key: seq<byte>) {
    key == BINARY || key == CODE || key == SCOPE
  }

  ghost predicate IsBody(b: seq<byte>) {
    exists es :: b == EncEntries(es) + [0]
  }

  ghost function BodyEntries(b: seq<byte>): (es: seq<Entry>)
    requires IsBody(b)
    ensures b == EncEntries(es) + [0]
  {
    var es :| b == EncEntries(es) + [0];
    es
  }

  /** What the special wrapper types hand over: twelve bytes, the body of a document, pattern and options. */
  ghost predicate WellShaped(f: Field)
    requires Special(f.key)
  {
    && (f.key == OID && f.val.CBytes? ==> |f.val.data| == 12)
    && (f.key == DOCUMENT && f.val.CBytes? ==> IsBody(f.val.data))
    && (f.key == REGEX ==> !f.val.CStr? && (f.val.CMap? ==> RegexFields(f.val.fields)))
  }

  predicate RegexFields(fs: seq<Field>) {
    && |fs| == 2 && fs[0].key == PATTERN && fs[1].key == OPTIONS
    && !fs[0].val.CMap? && !fs[1].val.CMap?
    && (fs[0].val.CStr? ==> 0 !in fs[0].val.text)
    && (fs[1].val.CStr? ==> 0 !in fs[1].val.text)
  }

  /** A map that begins with a special key stands for a value of that type. */
  predicate Headed(fields: seq<Field>) {
    fields != [] && Special(fields[0].key)
  }

  predicate Ordinary(f: Field) {
    !Special(f.key) && !Unmodelled(f.key)
  }

  /** The contents that have a meaning in BSON: a special key stands first in its map, and alone unless it embeds a
      document, whose entries the map's others then follow. */
  ghost predicate Domain(c: Content)
    decreases c
  {
    match c
    case CSeq(elems) => forall i | 0 <= i < |elems| :: Domain(elems[i])
    case CMap(fields) =>
      && (Headed(fields) ==> WellShaped(fields[0]) && (|fields| == 1 || fields[0].key == DOCUMENT))
      && forall i | 0 <= i < |fields| :: (i == 0 && Headed(fields)) || (Ordinary(fields[i]) && Domain(fields[i].val))
    case _ => true
  }

  /** `as i64` of a `u64`. */
  function AsI64(u: uint64): int64 {
    if u < TWO_63 then u else u - TWO_64
  }

  /** The BSON value that a content denotes; none when a special key holds a value of the wrong type. */
  ghost function Meaning(c: Content): Option<Value>
    requires Domain(c)
    decreases c, 0
  {
    match c
    case CBool(b) => Some(Bool(b))
    case CI32(i) => Some(I32(i))
    case CI64(l) => Some(I64(l))
    case CU64(u) => Some(I64(AsI64(u)))
    case CF64(bits) => Some(F64(bits))
    case CStr(text) => Some(Str(text))
    case CUnit => Some(Null)
    case CBytes(data) => Some(Binary(0, data))
    case CSeq(elems) => (match MeaningElems(elems) case Some(es) => Some(Arr(es)) case None => None)
    case CMap(fields) =>
      if Headed(fields) then
        (match WrapperMeaning(fields[0])
         case None => None
         case Some(v) =>
           if fields[0].key != DOCUMENT then Some(v)
           else (match MeaningFields(fields[1..]) case Some(es) => Some(Doc(v.entries + es)) case None => None))
      else (match MeaningFields(fields) case Some(es) => Some(Doc(es)) case None => None)
  }

  ghost function WrapperMeaning(f: Field): Option<Value>
    requires Special(f.key) && WellShaped(f)
  {
    if f.key == OID then (if f.val.CBytes? then Some(ObjectId(f.val.data)) else None)
    else if f.key == DATE then (if f.val.CI64? then Some(Datetime(f.val.l)) else None)
    else if f.key == TIMESTAMP then (if f.val.CU64? then Some(Timestamp(f.val.u)) else None)
    else if f.key == DOCUMENT then (if f.val.CBytes? then Some(Doc(BodyEntries(f.val.data))) else None)
    else if f.val.CMap? && f.val.fields[0].val.CStr? && f.val.fields[1].val.CStr?
    then Some(Regex(f.val.fields[0].val.text, f.val.fields[1].val.text))
    else None
  }

  ghost function MeaningElems(cs: seq<Content>): (r: Option<seq<Entry>>)
    requires forall i | 0 <= i < |cs| :: Domain(cs[i])
    ensures r.Some? ==> |r.value| == |cs|
    decreases cs, 1
  {
    if cs == [] then Some([])
    else
      match (MeaningElems(cs[..|cs| - 1]), Meaning(cs[|cs| - 1]))
      case (Some(es), Some(v)) => Some(es + [Entry(Decimal(|cs| - 1), v)])
      case _ => None
  }

  ghost function MeaningFields(fs: seq<Field>): (r: Option<seq<Entry>>)
    requires forall i | 0 <= i < |fs| :: Domain(fs[i].val)
    ensures r.Some? ==> |r.value| == |fs|
    decreases fs, 1
  {
    if fs == [] then Some([])
    else
      match (MeaningFields(fs[..|fs| - 1]), Meaning(fs[|fs| - 1].val))
      case (Some(es), Some(v)) => Some(es + [Entry(fs[|fs| - 1].key, v)])
      case _ => None
  }

  /** How a value shows itself to a visitor through `deserialize_any`; the other types end in an error or a panic. */
  function View(v: Value): Option<Content>
    decreases v, 0
  {
    match v
    case F64(bits) => Some(CF64(bits))
    case Str(text) => Some(CStr(text))
    case Doc(entries) => (match ViewFields(entries) case Some(fs) => Some(CMap(fs)) case None => None)
    case Arr(elements) => (match ViewElems(elements) case Some(cs) => Some(CSeq(cs)) case None => None)
    case ObjectId(oid) => Some(CMap([Field(OID, CBytes(oid))]))
    case Bool(b) => Some(CBool(b))
    case Datetime(millis) => Some(CMap([Field(DATE, CI64(millis))]))
    case Null => Some(CUnit)
    case I32(i) => Some(CI32(i))
    case Timestamp(stamp) => Some(CMap([Field(TIMESTAMP, CU64(stamp))]))
    case I64(l) => Some(CI64(l))
    case Binary(_, _) => None
    case Regex(_, _) => None
    case F128(_) => None
  }

  function ViewFields(es: seq<Entry>): Option<seq<Field>>
    decreases es, 1
  {
    if es == [] then Some([])
    else
      match (ViewFields(es[..|es| - 1]), View(es[|es| - 1].val))
      case (Some(fs), Some(c)) => Some(fs + [Field(es[|es| - 1].key, c)])
      case _ => None
  }

  function ViewElems(es: seq<Entry>): Option<seq<Content>>
    decreases es, 1
  {
    if es == [] then Some([])
    else
      match (ViewElems(es[..|es| - 1]), View(es[|es| - 1].val))
      case (Some(cs), Some(c)) => Some(cs + [c])
      case _ => None
  }
}
