/** The streaming serializer: placeholders for types and lengths are written first and patched afterwards. */
module Serialize {
  import opened Bytes
  import opened Bson
  import opened Wrappers
  import opened Vecs
  import opened ArrayWriter
  import opened Contents
  import opened SerialForm
  import SerialLaws

  /** A method that returned `r` and left `data` did as the function on the bytes says. What an error leaves is lost. */
  predicate Does(o: Out, r: Result<byte, Error>, data: seq<byte>) {
    match o
    case Done(buf, id) => r == Ok(id) && data == buf
    case Failed(e) => r == Err(e)
  }

  class Serializer {
    const vec: Vec

    constructor (vec: Vec)
      ensures this.vec == vec
    {
      this.vec := vec;
    }

    /** Serializing any content leaves exactly the bytes that its form says. A content with a meaning appends the
        encoding of the value it denotes, returns that value's type, and fails exactly when it denotes none. */
    method Serialize(c: Content) returns (r: Result<byte, Error>)
      requires Modelled(c)
      modifies vec
      ensures Does(Ser(old(vec.data), c), r, vec.data)
      ensures Domain(c) ==> (r.Ok? <==> Meaning(c).Some?)
      ensures Domain(c) && r.Ok? ==>
                r.value == Id(Meaning(c).value) && vec.data == old(vec.data) + EncVal(Meaning(c).value)
      decreases c, 0, 1
    {
      ghost var was := vec.data;
      r := Write(c);
      if Domain(c) { SerialLaws.SerMeaning(was, c); }
    }

    method Write(c: Content) returns (r: Result<byte, Error>)
      requires Modelled(c)
      modifies vec
      ensures Does(Ser(old(vec.data), c), r, vec.data)
      decreases c, 0, 0
    {
      match c
      case CBool(b) =>
        vec.Push(if b then 1 else 0);
        r := Ok(0x08);
      case CI32(i) =>
        vec.Extend(LE32(i));
        r := Ok(0x10);
      case CI64(l) =>
        vec.Extend(LE64(l));
        r := Ok(0x12);
      case CU64(u) =>
        vec.Extend(LE64(AsI64(u)));
        r := Ok(0x12);
      case CF64(bits) =>
        vec.Extend(bits);
        r := Ok(0x01);
      case CStr(text) =>
        r := SerializeStr(text);
      case CUnit =>
        r := Ok(0x0A);
      case CBytes(data) =>
        r := SerializeBytes(data);
      case CSeq(elems) =>
        r := SerializeSeq(elems);
      case CMap(fields) =>
        r := SerializeMap(fields);
    }

    method SerializeStr(text: seq<byte>) returns (r: Result<byte, Error>)
      modifies vec
      ensures r == Ok(0x02) && vec.data == old(vec.data) + EncVal(Str(text))
    {
      vec.Extend(LE32(|text| + 1));
      vec.Extend(text);
      vec.Push(0);
      r := Ok(0x02);
    }

    method SerializeBytes(data: seq<byte>) returns (r: Result<byte, Error>)
      modifies vec
      ensures r == Ok(0x05) && vec.data == old(vec.data) + EncVal(Binary(0, data))
    {
      vec.Extend(LE32(|data|));
      vec.Push(0);
      vec.Extend(data);
      r := Ok(0x05);
    }

    method SerializeSeq(elems: seq<Content>) returns (r: Result<byte, Error>)
      requires Modelled(CSeq(elems))
      modifies vec
      ensures Does(Ser(old(vec.data), CSeq(elems)), r, vec.data)
      decreases elems, 4, 0
    {
      var doc := new DocSerializer(this, 0x04);
      for i := 0 to |elems|
        invariant doc.inner == this && doc.offset == |old(vec.data)| && doc.type_ == 0x04 && doc.index == i
        invariant SerElems(vec.data, elems, i) == SerElems(old(vec.data) + Zeros(4), elems, 0)
      {
        var done := doc.SerializeElement(elems[i]);
        if done.Err? { return Err(done.error); }
      }
      r := doc.End();
    }

    method SerializeMap(fields: seq<Field>) returns (r: Result<byte, Error>)
      requires Modelled(CMap(fields))
      modifies vec
      ensures Does(Ser(old(vec.data), CMap(fields)), r, vec.data)
      decreases fields, 4, 0
    {
      var doc := new DocSerializer(this, 0x03);
      assert fields[0..] == fields;
      for i := 0 to |fields|
        invariant doc.inner == this && doc.offset == |old(vec.data)|
        invariant SerFields(vec.data, doc.type_, fields[i..]) == SerFields(old(vec.data) + Zeros(4), 0x03, fields)
      {
        assert fields[i..][0] == fields[i] && fields[i..][1..] == fields[i + 1..];
        assert ModelledField(fields[i]);
        var done := doc.SerializeEntry(fields[i].key, fields[i].val);
        if done.Err? { return Err(done.error); }
      }
      r := doc.End();
    }
  }

  /** `Document::from`. */
  method DocumentFrom(c: Content) returns (r: Result<seq<byte>, Error>)
    requires Modelled(c)
    ensures match Ser([], c) case Done(buf, _) => r == Ok(buf) case Failed(e) => r == Err(e)
    ensures Domain(c) ==> (r.Ok? <==> Meaning(c).Some?)
    ensures Domain(c) && r.Ok? ==> r.value == EncVal(Meaning(c).value)
  {
    var vec := new Vec([]);
    var d := new Serializer(vec);
    var done := d.Serialize(c);
    if done.Err? {
      return Err(done.error);
    }
    r := Ok(vec.data);
  }

  class DocSerializer {
    const inner: Serializer
    const offset: nat
    var index: nat
    var type_: byte

    /** `new`: remembers where the document starts and writes a placeholder for its length. */
    constructor (ser: Serializer, type_: byte)
      modifies ser.vec
      ensures inner == ser && offset == |old(ser.vec.data)| && index == 0 && this.type_ == type_
      ensures ser.vec.data == old(ser.vec.data) + Zeros(4)
    {
      this.inner := ser;
      this.offset := |ser.vec.data|;
      this.index := 0;
      this.type_ := type_;
      new;
      assert LE32(0) == Zeros(4);
      ser.vec.Extend(LE32(0));
    }

    /** `serialize_entry`, under any key and wherever it stands in its map. */
    method SerializeEntry(key: NulFree, value: Content) returns (r: Result<(), Error>)
      requires Special(key) || Modelled(value)
      modifies this, inner.vec
      ensures index == old(index)
      ensures match SerEntry(old(inner.vec.data), old(type_), key, value)
              case Done(b, t) => r == Ok(()) && inner.vec.data == b && type_ == t
              case Failed(e) => r == Err(e)
      decreases value, 2, 0
    {
      if Special(key) {
        var id := SerializeSpecial(key, value);
        if id.Err? { return Err(id.error); }
        type_ := id.value;
        return Ok(());
      }
      if type_ != 0x03 && type_ != 0x04 {
        return Err(InvalidIdentifier);
      }
      r := SerializeOrdinary(key, value);
    }

    /** An ordinary entry: a placeholder for its type, the key, the value, and then its type. */
    method SerializeOrdinary(key: NulFree, value: Content) returns (r: Result<(), Error>)
      requires !Special(key) && Modelled(value) && (type_ == 0x03 || type_ == 0x04)
      modifies inner.vec
      ensures match SerEntry(old(inner.vec.data), type_, key, value)
              case Done(b, t) => r == Ok(()) && inner.vec.data == b && type_ == t
              case Failed(e) => r == Err(e)
      decreases value, 1, 0
    {
      hide Special, Modelled, Ser;
      var vec := inner.vec;
      var off := |vec.data|;
      ghost var was := vec.data;
      vec.Push(0);
      vec.Extend(key);
      vec.Push(0);
      assert vec.data == was + Head(0, key);
      var id := inner.Write(value);
      if id.Err? {
        return Err(id.error);
      }
      if off >= |vec.data| { return Err(Panicked); }
      assert Splice(vec.data, off, [id.value]) == vec.data[off := id.value];
      vec.Set(off, id.value);
      r := Ok(());
    }

    /** `serialize_element`. */
    method SerializeElement(value: Content) returns (r: Result<(), Error>)
      requires Modelled(value) && type_ == 0x04
      modifies this, inner.vec
      ensures match SerEntry(old(inner.vec.data), 0x04, Decimal(old(index)), value)
              case Done(b, _) => r == Ok(()) && inner.vec.data == b && type_ == 0x04 && index == old(index) + 1
              case Failed(e) => r == Err(e)
      decreases value, 3, 0
    {
      DecimalIsOrdinary(index);
      r := SerializeEntry(Decimal(index), value);
      if r.Ok? {
        index := index + 1;
      }
    }

    /** The special serializers: the last four bytes are retracted, as if they were the map's length placeholder. */
    method SerializeSpecial(key: NulFree, value: Content) returns (r: Result<byte, Error>)
      requires Special(key)
      modifies inner.vec
      ensures Does(SerSpecial(old(inner.vec.data), key, value), r, inner.vec.data)
    {
      var vec := inner.vec;
      if |vec.data| < 4 { return Err(Panicked); }
      vec.Resize(|vec.data| - 4);
      if key == OID {
        if !value.CBytes? { return Err(InvalidType); }
        vec.Extend(value.data);
        r := Ok(0x07);
      } else if key == DATE {
        if !value.CI64? { return Err(InvalidType); }
        vec.Extend(LE64(value.l));
        r := Ok(0x09);
      } else if key == TIMESTAMP {
        if !value.CU64? { return Err(InvalidType); }
        vec.Extend(LE64(value.u));
        r := Ok(0x11);
      } else if key == DOCUMENT {
        if !value.CBytes? { return Err(InvalidType); }
        if value.data == [] { return Err(Panicked); }
        assert LE32(0) == Zeros(4);
        vec.Extend(LE32(0));
        vec.Extend(value.data[..|value.data| - 1]);
        r := Ok(0x03);
      } else {
        r := SerializeRegex(value);
      }
    }

    /** The strings of a regular expression, each with a NUL. */
    method SerializeRegex(value: Content) returns (r: Result<byte, Error>)
      modifies inner.vec
      ensures Does(SerRegex(old(inner.vec.data), value), r, inner.vec.data)
      decreases value, 0
    {
      match value
      case CStr(text) =>
        inner.vec.Extend(text);
        inner.vec.Push(0);
        r := Ok(0x0B);
      case CMap(fields) =>
        r := SerializeRegexFields(fields);
      case _ =>
        r := Err(InvalidType);
    }

    method SerializeRegexFields(fields: seq<Field>) returns (r: Result<byte, Error>)
      modifies inner.vec
      ensures Does(SerRegexFields(old(inner.vec.data), fields), r, inner.vec.data)
      decreases fields, 1
    {
      assert fields[0..] == fields;
      for i := 0 to |fields|
        invariant SerRegexFields(inner.vec.data, fields[i..]) == SerRegexFields(old(inner.vec.data), fields)
      {
        assert fields[i..][0] == fields[i] && fields[i..][1..] == fields[i + 1..];
        if fields[i].key != PATTERN && fields[i].key != OPTIONS { return Err(InvalidIdentifier); }
        var done := SerializeRegex(fields[i].val);
        if done.Err? { return Err(done.error); }
      }
      r := Ok(0x0B);
    }

    /** `end`: a document or array gets its terminator, and its length in place of the placeholder. */
    method End() returns (r: Result<byte, Error>)
      modifies inner.vec
      ensures Does(Finish(offset, Done(old(inner.vec.data), type_)), r, inner.vec.data)
    {
      var vec := inner.vec;
      if type_ == 0x03 || type_ == 0x04 {
        vec.Push(0);
        if |vec.data| < offset + 4 { return Err(Panicked); }
        vec.CopyFromSlice(offset, LE32(|vec.data| - offset));
      }
      r := Ok(type_);
    }
  }
}
