/** Writing values into buffers of a precomputed size: `write_bson` and `DocBuilder`. */
module Write {
  import opened Bytes
  import opened Bson
  import opened Vecs

  method WriteStr(v: Value, vec: Vec, at: nat)
    requires v.Str? && at + Size(v) <= |vec.data|
    modifies vec
    ensures vec.data == Splice(old(vec.data), at, EncVal(v))
  {
    WriteParts(vec, at, LE32(|v.text| + 1), v.text, [0]);
  }

  method WriteBinary(v: Value, vec: Vec, at: nat)
    requires v.Binary? && at + Size(v) <= |vec.data|
    modifies vec
    ensures vec.data == Splice(old(vec.data), at, EncVal(v))
  {
    WriteParts(vec, at, LE32(|v.data|), [v.subtype], v.data);
  }

  /** Three adjacent copies. */
  method WriteParts(vec: Vec, at: nat, x: seq<byte>, y: seq<byte>, z: seq<byte>)
    requires at + |x| + |y| + |z| <= |vec.data|
    modifies vec
    ensures vec.data == Splice(old(vec.data), at, x + y + z)
  {
    vec.CopyFromSlice(at, x);
    vec.CopyFromSlice(at + |x|, y);
    SpliceTwice(old(vec.data), at, x, y);
    vec.CopyFromSlice(at + |x| + |y|, z);
    SpliceTwice(old(vec.data), at, x + y, z);
  }

  method WriteRegex(v: Value, vec: Vec, at: nat)
    requires v.Regex? && at + Size(v) <= |vec.data|
    modifies vec
    ensures vec.data == Splice(old(vec.data), at, EncVal(v))
  {
    assert EncVal(v) == v.pattern + [0] + v.options + [0];
    hide EncVal;
    WriteParts(vec, at, v.pattern, [0], v.options);
    vec.Set(at + |v.pattern| + 1 + |v.options|, 0);
    SpliceTwice(old(vec.data), at, v.pattern + [0] + v.options, [0]);
  }

  /** `value.write_bson(&mut buf[at..])`. A `UtcDateTime` copies itself over the whole slice and panics unless that
      is eight bytes long; every other value touches its own `size()` bytes. */
  method WriteBson(v: Value, vec: Vec, at: nat)
    requires at + Size(v) <= |vec.data|
    requires v.Datetime? ==> at + 8 == |vec.data|
    modifies vec
    ensures |EncVal(v)| == Size(v)
    ensures vec.data == Splice(old(vec.data), at, EncVal(v))
  {
    match v
    case Str(_) => WriteStr(v, vec, at);
    case Binary(_, _) => WriteBinary(v, vec, at);
    case Regex(_, _) => WriteRegex(v, vec, at);
    case Doc(entries) => vec.CopyFromSlice(at, EncDoc(entries));
    case Arr(elements) => vec.CopyFromSlice(at, EncDoc(elements));
    case Bool(b) => vec.Set(at, if b then 1 else 0);
    case I32(i) => vec.CopyFromSlice(at, LE32(i));
    case I64(l) => vec.CopyFromSlice(at, LE64(l));
    case Datetime(millis) => vec.CopyFromSlice(at, LE64(millis));
    case Timestamp(stamp) => vec.CopyFromSlice(at, LE64(stamp));
    case F64(bits) => vec.CopyFromSlice(at, bits);
    case ObjectId(oid) => vec.CopyFromSlice(at, oid);
    case F128(wide) => vec.CopyFromSlice(at, wide);
    case Null => assert Splice(vec.data, at, []) == vec.data;
  }

  class DocBuilder {
    const vec: Vec

    /** The entries appended so far are encoded in the buffer, with neither length nor terminator. */
    ghost predicate Holds(es: seq<Entry>)
      reads vec
    {
      vec.data == EncEntries(es)
    }

    constructor ()
      ensures Holds([]) && fresh(vec)
    {
      vec := new Vec([]);
    }

    method Append(key: NulFree, v: Value, ghost es: seq<Entry>)
      requires Holds(es)
      modifies vec
      ensures Holds(es + [Entry(key, v)])
    {
      hide EncVal, Id, EncEntries;
      vec.Push(Id(v));
      vec.Extend(key);
      vec.Push(0);
      ghost var pre := vec.data;
      vec.Extend(Zeros(Size(v)));
      var len := |vec.data|;
      WriteBson(v, vec, len - Size(v));
      assert vec.data == pre + EncVal(v);
      Concat4(EncEntries(es), [Id(v)], key, EncVal(v));
      EncAppend(es, Entry(key, v));
    }

    static lemma Concat4(a: seq<byte>, id: seq<byte>, key: seq<byte>, val: seq<byte>)
      ensures a + id + key + [0] + val == a + (id + key + [0] + val)
    {
    }

    method Finish(ghost es: seq<Entry>) returns (doc: seq<byte>)
      requires Holds(es)
      modifies vec
      ensures doc == EncDoc(es)
    {
      vec.Push(0);
      ghost var body := EncEntries(es) + [0];
      for i := 0 to 4
        invariant vec.data == Zeros(i) + body
      {
        vec.Insert(0, 0);
        assert vec.data == Zeros(i + 1) + body;
      }
      var len := |vec.data|;
      vec.CopyFromSlice(0, LE32(len));
      doc := vec.data;
      assert doc == LE32(len) + body;
    }
  }
}
