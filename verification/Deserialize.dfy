/** The deserializer: a cursor over the bytes and the type of the value it stands on. */
module Deserialize {
  import opened Bytes
  import opened Bson
  import opened Wrappers
  import opened Scan
  import opened DocRefs
  import opened Contents
  import opened Visitors
  import opened VisitErrors

  /** A visit goes on after some fields are collected. */
  function After<T>(done: seq<T>, r: (Option<seq<T>>, Stack)): (Option<seq<T>>, Stack) {
    (if r.0.None? then None else Some(done + r.0.value), r.1)
  }

  lemma AfterNothing<T>(r: (Option<seq<T>>, Stack))
    ensures After([], r) == r
  {
    assert r.0.Some? ==> [] + r.0.value == r.0.value;
  }

  /** What remains behind the first value on top of the stack. */
  lemma BehindFirst(cur: Stack, rest: seq<byte>)
    requires cur != [] && cur[0] != []
    ensures Remains(Popped(cur), rest) == Tail(cur[0][1..], Remains(cur[1..], rest))
    ensures |Remains(Popped(cur), rest)| >= |rest|
    ensures Weight(cur[0][0].val) + StackWeight(Popped(cur)) < StackWeight(cur)
  {
    assert Popped(cur)[1..] == cur[1..];
    RemainsLength(Popped(cur), rest);
    PoppedWeight(cur);
  }

  /** One field of a map is taken. */
  lemma FieldTaken(vis: Visitor, cur: Stack, fields: seq<Field>)
    requires cur != [] && cur[0] != [] && cur[0][0].key !in vis.ignored
    ensures var e := cur[0][0];
            var (c, left) := ValueVisit(Sub(vis, e.key), e.val, Popped(cur));
            && (c.None? ==> After(fields, MapVisit(vis, cur)).0.None?)
            && (c.Some? ==> left != [] && StackWeight(left) < StackWeight(cur)
                            && After(fields, MapVisit(vis, cur))
                                == After(fields + [Field(e.key, c.value)], MapVisit(vis, left)))
  {
    PoppedWeight(cur);
    var e := cur[0][0];
    var (c, left) := ValueVisit(Sub(vis, e.key), e.val, Popped(cur));
    if c.Some? && MapVisit(vis, left).0.Some? {
      var f, fs := Field(e.key, c.value), MapVisit(vis, left).0.value;
      assert fields + ([f] + fs) == (fields + [f]) + fs;
    }
  }

  /** One element of an array is taken. */
  lemma ElemTaken(vis: Visitor, cur: Stack, elems: seq<Content>)
    requires cur != [] && cur[0] != []
    ensures var (c, left) := ValueVisit(vis, cur[0][0].val, Popped(cur));
            && (c.None? ==> After(elems, SeqVisit(vis, cur)).0.None?)
            && (c.Some? ==> left != [] && StackWeight(left) < StackWeight(cur)
                            && After(elems, SeqVisit(vis, cur)) == After(elems + [c.value], SeqVisit(vis, left)))
  {
    PoppedWeight(cur);
    var (c, left) := ValueVisit(vis, cur[0][0].val, Popped(cur));
    if c.Some? && SeqVisit(vis, left).0.Some? {
      var cs := SeqVisit(vis, left).0.value;
      assert elems + ([c.value] + cs) == (elems + [c.value]) + cs;
    }
  }

  lemma {:induction false} RemainsLength(stack: Stack, rest: seq<byte>)
    ensures |Remains(stack, rest)| >= |rest|
    decreases |stack|
  {
    if stack != [] { RemainsLength(stack[1..], rest); }
  }

  class Deserializer {
    var buf: seq<byte>
    var next: Option<byte>

    /** A deserializer starts on a document. */
    constructor (buf: seq<byte>)
      ensures this.buf == buf && next == Some(0x03)
    {
      this.buf := buf;
      this.next := Some(0x03);
    }

    /** `deserialize_any`, on the encoding of a value before what is still to be read: it succeeds exactly when the
        visit does, yields what the visitor comes across and moves to what the visit leaves. */
    method DeserializeAny(vis: Visitor, ghost v: Value, ghost stack: Stack, ghost rest: seq<byte>)
      returns (r: Result<Content, Error>)
      requires next == Some(Id(v)) && buf == EncVal(v) + Remains(stack, rest) && |buf| - |rest| < TWO_31
      modifies this
      ensures r.Ok? <==> ValueVisit(vis, v, stack).0.Some?
      ensures r.Err? ==> r.error == ValueFails(vis, v, stack)
      ensures r.Ok? ==>
                r.value == ValueVisit(vis, v, stack).0.value && buf == Remains(ValueVisit(vis, v, stack).1, rest)
      ensures r.Ok? ==> |buf| <= |old(buf)|
      decreases Weight(v) + StackWeight(stack), 3
    {
      RemainsLength(stack, rest);
      var id := next.value;
      if id == 0x03 || id == 0x04 {
        r := DeserializeNested(vis, v, stack, rest);
        return;
      }
      ghost var more := Remains(stack, rest);
      assert ValueVisit(vis, v, stack) == (View(v), stack);
      assert View(v).None? ==> ValueFails(vis, v, stack) == Refusal(v);
      hide ValueFails, ValueVisit, Remains, View, EncVal;
      if id == 0x05 || id == 0x07 || id == 0x09 || id == 0x0B || id == 0x11 {
        var special := new SpecialDeserializer(this, id, if id == 0x05 || id == 0x0B then 6 else 2);
        r := special.Visit(v, more);
      } else {
        r := DeserializeScalar(v, more);
      }
    }

    method DeserializeNested(vis: Visitor, ghost v: Value, ghost stack: Stack, ghost rest: seq<byte>)
      returns (r: Result<Content, Error>)
      requires v.Doc? || v.Arr?
      requires next == Some(Id(v)) && buf == EncVal(v) + Remains(stack, rest) && |buf| - |rest| < TWO_31
      modifies this
      ensures r.Ok? <==> ValueVisit(vis, v, stack).0.Some?
      ensures r.Err? ==> r.error == ValueFails(vis, v, stack)
      ensures r.Ok? ==>
                r.value == ValueVisit(vis, v, stack).0.value && buf == Remains(ValueVisit(vis, v, stack).1, rest)
      ensures r.Ok? ==> |buf| <= |old(buf)|
      decreases Weight(v) + StackWeight(stack), 2
    {
      ghost var es := if v.Doc? then v.entries else v.elements;
      ghost var all := [es] + stack;
      RemainsLength(stack, rest);
      FrameLength(es, Remains(stack, rest));
      PushedWeight(es, stack);
      assert all[1..] == stack;
      assert Remains(all, rest) == Tail(es, Remains(stack, rest));
      assert StackWeight(all) < Weight(v) + StackWeight(stack);
      var id := next.value;
      buf := buf[4..];
      if id == 0x03 {
        assert ValueVisit(vis, v, stack).0.Some? <==> MapVisit(vis, all).0.Some?;
        assert MapVisit(vis, all).0.None? ==> ValueFails(vis, v, stack) == MapFails(vis, all);
        hide Remains, EncVal, Tail;
        var fs := VisitMap(vis, all, rest);
        r := if fs.Ok? then Ok(CMap(fs.value)) else Err(fs.error);
      } else {
        assert ValueVisit(vis, v, stack).0.Some? <==> SeqVisit(vis, all).0.Some?;
        assert SeqVisit(vis, all).0.None? ==> ValueFails(vis, v, stack) == SeqFails(vis, all);
        hide Remains, EncVal, Tail;
        var cs := VisitSeq(vis, all, rest);
        r := if cs.Ok? then Ok(CSeq(cs.value)) else Err(cs.error);
      }
    }

    method DeserializeScalar(ghost v: Value, ghost rest: seq<byte>) returns (r: Result<Content, Error>)
      requires next == Some(Id(v)) && buf == EncVal(v) + rest && |EncVal(v)| < TWO_31
      requires v.Bool? || v.I32? || v.I64? || v.F64? || v.F128? || v.Str? || v.Null?
      modifies this
      ensures r.Ok? <==> View(v).Some?
      ensures r.Err? ==> r.error == Refusal(v)
      ensures v.F128? ==> r == Err(F128Unsupported)
      ensures r.Ok? ==> r.value == View(v).value && buf == rest
    {
      ScalarLayout(v, rest);
      var id := next.value;
      if id == 0x08 {
        r := Ok(CBool(buf[0] == 1));
        buf := buf[1..];
      } else if id == 0x10 {
        r := Ok(CI32(ReadI32(buf)));
        buf := buf[4..];
      } else if id == 0x12 {
        r := Ok(CI64(ReadI64(buf)));
        buf := buf[8..];
      } else if id == 0x01 {
        r := Ok(CF64(buf[..8]));
        buf := buf[8..];
      } else if id == 0x13 {
        r := Err(F128Unsupported);
      } else if id == 0x02 {
        PrefixedLayout(v, rest);
        var len := ReadI32(buf);
        var str := buf[4..4 + len - 1];
        buf := buf[5 + |str|..];
        r := Ok(CStr(str));
      } else if id == 0x0A {
        r := Ok(CUnit);
      } else {
        r := Err(InvalidBsonType(id));
      }
    }

    /** `deserialize_bytes` on a byte array or a document. */
    method DeserializeBytes(ghost v: Value, ghost rest: seq<byte>) returns (r: Content)
      requires next == Some(Id(v)) && buf == EncVal(v) + rest && |EncVal(v)| < TWO_31
      requires v.Binary? || v.Doc?
      modifies this
      ensures r == CBytes(match v case Binary(_, data) => data case _ => EncVal(v))
      ensures buf == rest && next == None
    {
      var id := next.value;
      next := None;
      if id == 0x05 {
        PrefixedLayout(v, rest);
        var bytes := buf[5..5 + ReadI32(buf)];
        buf := buf[5 + |bytes|..];
        r := CBytes(bytes);
      } else {
        FrameLength(v.entries, rest);
        var bytes := buf[..ReadI32(buf)];
        buf := buf[|bytes|..];
        r := CBytes(bytes);
      }
    }

    /** `deserialize_ignored_any`: it moves past the value, or past all but the last byte of a regular expression. */
    method DeserializeIgnoredAny(ghost v: Value, ghost rest: seq<byte>)
      requires next == Some(Id(v)) && buf == EncVal(v) + rest && |EncVal(v)| < TWO_31
      modifies this
      ensures buf == Stray(v) + rest && next == None && |buf| <= |old(buf)|
    {
      var id := next.value;
      next := None;
      var n := GetValueSize(id, buf, v, rest);
      SkipLeaves(v, rest);
      buf := buf[n..];
    }

    /** `next_key_seed`: the next entry's key, or the end of the map. */
    method NextKey(ghost es: seq<Entry>, ghost rest: seq<byte>) returns (r: Option<NulFree>)
      requires buf == Tail(es, rest)
      modifies this
      ensures r == if es == [] then None else Some(es[0].key)
      ensures |buf| <= |old(buf)|
      ensures es == [] ==> buf == rest
      ensures es != [] ==> next == Some(Id(es[0].val)) && buf == EncVal(es[0].val) + Tail(es[1..], rest)
    {
      FirstByte(es, rest);
      if buf[0] == 0 {
        buf := buf[1..];
        return None;
      }
      FirstEntry(es, rest);
      ghost var more := EncVal(es[0].val) + Tail(es[1..], rest);
      next := Some(buf[0]);
      buf := buf[1..];
      assert buf == es[0].key + [0] + more;
      assert buf[|es[0].key|] == 0;
      var key := ReadStrNt(buf);
      assert buf == key + [0] + buf[|key| + 1..];
      CStringInjective(es[0].key, key, more, buf[|key| + 1..]);
      buf := buf[|key| + 1..];
      r := Some(key);
    }

    /** `next_element_seed` before it hands over the value: type and key are passed over. */
    method NextElement(ghost es: seq<Entry>, ghost rest: seq<byte>) returns (more: bool)
      requires buf == Tail(es, rest)
      modifies this
      ensures more <==> es != []
      ensures |buf| <= |old(buf)|
      ensures es == [] ==> buf == rest
      ensures es != [] ==> next == Some(Id(es[0].val)) && buf == EncVal(es[0].val) + Tail(es[1..], rest)
    {
      FirstByte(es, rest);
      if buf[0] == 0 {
        buf := buf[1..];
        return false;
      }
      FirstEntry(es, rest);
      next := Some(buf[0]);
      ghost var was, head := buf, Head(buf[0], es[0].key);
      ghost var n := 0;
      while buf[0] != 0
        invariant n < |head| && buf == was[n..] && |buf| > 0 && next == Some(was[0])
        decreases |head| - n
      {
        assert was[n] == head[n];
        buf := buf[1..];
        n := n + 1;
      }
      assert was[n] == head[n];
      assert was == head + (EncVal(es[0].val) + Tail(es[1..], rest)) && n == |head| - 1;
      buf := buf[1..];
      assert buf == was[|head|..];
      more := true;
    }

    /** A visitor's `visit_map`: it reads the keys, takes the values it wants and ignores the others. */
    method VisitMap(vis: Visitor, ghost stack: Stack, ghost rest: seq<byte>) returns (r: Result<seq<Field>, Error>)
      requires stack != [] && buf == Remains(stack, rest) && |buf| - |rest| < TWO_31
      modifies this
      ensures r.Ok? <==> MapVisit(vis, stack).0.Some?
      ensures r.Err? ==> r.error == MapFails(vis, stack)
      ensures r.Ok? ==> r.value == MapVisit(vis, stack).0.value && buf == Remains(MapVisit(vis, stack).1, rest)
      ensures r.Ok? ==> |buf| <= |old(buf)|
      decreases StackWeight(stack), 1
    {
      hide EncEntries, EncVal, View, Remains, MapVisit, ValueVisit, StackWeight, Popped, After, Stray,
          SameMapFailure, MapFails, ValueFails;
      var fields: seq<Field> := [];
      ghost var cur := stack;
      AfterNothing(MapVisit(vis, stack));
      SameFailures(vis, stack);
      while true
        invariant cur != [] && buf == Remains(cur, rest) && |buf| <= |old(buf)|
        invariant StackWeight(cur) <= StackWeight(stack)
        invariant MapVisit(vis, stack) == After(fields, MapVisit(vis, cur)) && SameMapFailure(vis, stack, cur)
        decreases StackWeight(cur)
      {
        TopRemains(cur, rest);
        var key := NextKey(cur[0], Remains(cur[1..], rest));
        if key.None? {
          MapEnds(vis, cur, fields);
          return Ok(fields);
        }
        ghost var v, more := cur[0][0].val, Popped(cur);
        BehindFirst(cur, rest);
        if key.value in vis.ignored {
          Ignored(vis, cur, rest);
          IgnoredFails(vis, stack, cur);
          DeserializeIgnoredAny(v, Remains(more, rest));
          cur := if v.Regex? then [[]] + more else more;
        } else {
          FieldTaken(vis, cur, fields);
          FieldFails(vis, stack, cur);
          var c := DeserializeAny(Sub(vis, key.value), v, more, rest);
          if c.Err? { return Err(c.error); }
          fields := fields + [Field(key.value, c.value)];
          cur := ValueVisit(Sub(vis, key.value), v, more).1;
        }
      }
    }

    /** A visitor's `visit_seq`. */
    method VisitSeq(vis: Visitor, ghost stack: Stack, ghost rest: seq<byte>) returns (r: Result<seq<Content>, Error>)
      requires stack != [] && buf == Remains(stack, rest) && |buf| - |rest| < TWO_31
      modifies this
      ensures r.Ok? <==> SeqVisit(vis, stack).0.Some?
      ensures r.Err? ==> r.error == SeqFails(vis, stack)
      ensures r.Ok? ==> r.value == SeqVisit(vis, stack).0.value && buf == Remains(SeqVisit(vis, stack).1, rest)
      ensures r.Ok? ==> |buf| <= |old(buf)|
      decreases StackWeight(stack), 1
    {
      hide EncEntries, EncVal, View, Remains, SeqVisit, ValueVisit, StackWeight, Popped, After,
          SameSeqFailure, SeqFails, ValueFails;
      var elems: seq<Content> := [];
      ghost var cur := stack;
      AfterNothing(SeqVisit(vis, stack));
      SameFailures(vis, stack);
      while true
        invariant cur != [] && buf == Remains(cur, rest) && |buf| <= |old(buf)|
        invariant StackWeight(cur) <= StackWeight(stack)
        invariant SeqVisit(vis, stack) == After(elems, SeqVisit(vis, cur)) && SameSeqFailure(vis, stack, cur)
        decreases StackWeight(cur)
      {
        TopRemains(cur, rest);
        var another := NextElement(cur[0], Remains(cur[1..], rest));
        if !another {
          SeqEnds(vis, cur, elems);
          return Ok(elems);
        }
        ghost var v, more := cur[0][0].val, Popped(cur);
        BehindFirst(cur, rest);
        ElemTaken(vis, cur, elems);
        ElemFails(vis, stack, cur);
        var c := DeserializeAny(vis, v, more, rest);
        if c.Err? { return Err(c.error); }
        elems := elems + [c.value];
        cur := ValueVisit(vis, v, more).1;
      }
    }
  }

  lemma TopRemains(cur: Stack, rest: seq<byte>)
    requires cur != []
    ensures Remains(cur, rest) == Tail(cur[0], Remains(cur[1..], rest))
  {
  }

  lemma MapEnds(vis: Visitor, cur: Stack, fields: seq<Field>)
    requires cur != [] && cur[0] == []
    ensures After(fields, MapVisit(vis, cur)) == (Some(fields), cur[1..])
  {
    assert fields + [] == fields;
  }

  lemma SeqEnds(vis: Visitor, cur: Stack, elems: seq<Content>)
    requires cur != [] && cur[0] == []
    ensures After(elems, SeqVisit(vis, cur)) == (Some(elems), cur[1..])
  {
    assert elems + [] == elems;
  }

  /** After an ignored value: the NUL left of a regular expression reads like the end of a map. */
  lemma Ignored(vis: Visitor, cur: Stack, rest: seq<byte>)
    requires cur != [] && cur[0] != [] && cur[0][0].key in vis.ignored
    ensures var v, more := cur[0][0].val, Popped(cur);
            var left := if v.Regex? then [[]] + more else more;
            && left != [] && Stray(v) + Remains(more, rest) == Remains(left, rest)
            && StackWeight(left) < StackWeight(cur) && MapVisit(vis, left) == MapVisit(vis, cur)
  {
    var v, more := cur[0][0].val, Popped(cur);
    PoppedWeight(cur);
    PushedWeight([], more);
    assert ([[]] + more)[1..] == more;
    assert [] + Remains(more, rest) == Remains(more, rest);
  }

  /** The scalars as they stand in the buffer. */
  lemma ScalarLayout(v: Value, rest: seq<byte>)
    requires v.Bool? || v.I32? || v.I64? || v.F64? || v.Str? || v.F128? || v.Null?
    ensures v.Bool? ==> |EncVal(v) + rest| > 0 && (EncVal(v) + rest)[0] == (if v.b then 1 else 0)
    ensures v.Bool? ==> (EncVal(v) + rest)[1..] == rest
    ensures v.I32? ==> |EncVal(v) + rest| >= 4 && ReadI32(EncVal(v) + rest) == v.i && (EncVal(v) + rest)[4..] == rest
    ensures v.I64? ==> |EncVal(v) + rest| >= 8 && ReadI64(EncVal(v) + rest) == v.l && (EncVal(v) + rest)[8..] == rest
    ensures v.F64? ==> |EncVal(v) + rest| >= 8 && (EncVal(v) + rest)[..8] == v.bits && (EncVal(v) + rest)[8..] == rest
    ensures v.Null? ==> EncVal(v) + rest == rest
  {
    match v
    case I32(i) => Read32(i, rest);
    case I64(l) => Read64(l, rest);
    case _ =>
  }

  /** The visitor's side of the types that show themselves as a map under a special key. The state counts down with
      every key and value handed over. */
  class SpecialDeserializer {
    const inner: Deserializer
    const id: byte
    var state: int

    constructor (inner: Deserializer, id: byte, state: int)
      ensures this.inner == inner && this.id == id && this.state == state
    {
      this.inner := inner;
      this.id := id;
      this.state := state;
    }

    /** `visit_map` over the states. Binary data panics where it borrows itself twice; regular expressions have no
        state for their inner map. */
    method Visit(ghost v: Value, ghost rest: seq<byte>) returns (r: Result<Content, Error>)
      requires v.ObjectId? || v.Datetime? || v.Timestamp? || v.Binary? || v.Regex?
      requires id == Id(v) && state == (if v.Binary? || v.Regex? then 6 else 2)
      requires inner.buf == EncVal(v) + rest
      modifies this, inner`buf
      ensures r.Ok? <==> View(v).Some?
      ensures r.Err? ==> r.error == Refusal(v)
      ensures (v.Binary? ==> r == Err(Panicked)) && (v.Regex? ==> r == Err(InvalidState))
      ensures r.Ok? ==> r.value == View(v).value && inner.buf == rest
    {
      var key := Key();
      var val := Val(v, rest);
      if val.Err? {
        return Err(val.error);
      }
      assert state == 0;
      r := Ok(CMap([Field(key, val.value)]));
    }

    method Key() returns (key: NulFree)
      requires id == 0x07 || id == 0x09 || id == 0x11 ==> state == 2
      requires id == 0x05 || id == 0x0B ==> state == 6
      modifies this
      ensures state == old(state) - 1
      ensures id == 0x07 ==> key == OID
      ensures id == 0x09 ==> key == DATE
      ensures id == 0x11 ==> key == TIMESTAMP
    {
      state := state - 1;
      key := if id == 0x05 then BINARY else if id == 0x07 then OID else if id == 0x09 then DATE
             else if id == 0x0B then REGEX else TIMESTAMP;
    }

    method Val(ghost v: Value, ghost rest: seq<byte>) returns (r: Result<Content, Error>)
      requires v.ObjectId? || v.Datetime? || v.Timestamp? || v.Binary? || v.Regex?
      requires id == Id(v) && state == (if v.Binary? || v.Regex? then 5 else 1)
      requires inner.buf == EncVal(v) + rest
      modifies this, inner`buf
      ensures r.Ok? <==> View(v).Some?
      ensures r.Err? ==> r.error == Refusal(v)
      ensures (v.Binary? ==> r == Err(Panicked)) && (v.Regex? ==> r == Err(InvalidState))
      ensures r.Ok? ==> state == 0 && inner.buf == rest
      ensures r.Ok? ==> View(v).value.CMap? && |View(v).value.fields| == 1 && r.value == View(v).value.fields[0].val
    {
      state := state - 1;
      if id == 0x05 {
        return Err(Panicked);
      } else if id == 0x0B {
        return Err(InvalidState);
      } else if id == 0x07 {
        r := Ok(CBytes(inner.buf[..12]));
        inner.buf := inner.buf[12..];
      } else {
        if v.Datetime? { Read64(v.millis, rest); } else { Read64(v.stamp, rest); }
        r := Ok(if id == 0x09 then CI64(ReadI64(inner.buf)) else CU64(ReadU64(inner.buf)));
        inner.buf := inner.buf[8..];
      }
    }
  }

  /** `Document::deserialize`, of a document followed by anything. */
  method DocumentDeserialize(vis: Visitor, doc: seq<byte>, ghost es: seq<Entry>, ghost stale: seq<byte>)
    returns (r: Result<Content, Error>)
    requires doc == EncDoc(es) + stale && |EncDoc(es)| < TWO_31
    ensures match ValueVisit(vis, Doc(es), []).0
            case Some(c) => r == Ok(c)
            case None => r == Err(ValueFails(vis, Doc(es), []))
    ensures Smooth(vis, Doc(es)) ==>
              match FirstRefused(vis, Doc(es))
              case Some(v) => r == Err(Refusal(v))
              case None => Wanted(vis, Doc(es)).Some? && r == Ok(Wanted(vis, Doc(es)).value)
    ensures vis == EVERYTHING ==> match View(Doc(es)) case Some(c) => r == Ok(c) case None => r.Err?
  {
    var d := new Deserializer(doc);
    r := d.DeserializeAny(vis, Doc(es), [], stale);
    if Smooth(vis, Doc(es)) {
      SmoothVisit(vis, Doc(es), []);
      FailsAtFirst(vis, Doc(es), []);
    }
    EverythingWanted(Doc(es));
  }
}
