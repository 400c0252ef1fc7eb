/** The wire protocol's framing: message headers, `send` and `recv`. */
module Wire {
  import opened Bytes
  import opened Wrappers
  import opened Bson
  import Scan

  datatype OpCode = Compressed | Msg

  type uint32 = n: int | 0 <= n < TWO_32

  datatype Header = Header(messageLength: uint32, requestId: int32, responseTo: int32, opCode: OpCode)

  datatype WireError = Io | InvalidOpCode | InvalidCompressor | OpCodeNotMsg | ResponseTo | PayloadType | Compression

  /** `Panicked` is an index out of bounds: a message too short for the fields that are looked at. */
  datatype Received = Document(doc: seq<byte>) | Failed(error: WireError) | Panicked

  function Code(o: OpCode): nat {
    match o case Compressed => 2012 case Msg => 2013
  }

  function CodeOf(n: nat): Option<OpCode> {
    if n == 2012 then Some(Compressed) else if n == 2013 then Some(Msg) else None
  }

  function EncHeader(h: Header): (s: seq<byte>)
    ensures |s| == 16
  {
    LE32(h.messageLength) + LE32(h.requestId) + LE32(h.responseTo) + LE32(Code(h.opCode))
  }

  /** `Header::copy_from_slice`. */
  function DecHeader(buf: seq<byte>): Result<Header, WireError>
    requires |buf| >= 16
  {
    UnLEBound(buf[..4]);
    UnLEBound(buf[4..][..4]);
    UnLEBound(buf[8..][..4]);
    match CodeOf(ReadU32(buf[12..]))
    case Some(o) => Ok(Header(ReadU32(buf), ReadI32(buf[4..]), ReadI32(buf[8..]), o))
    case None => Err(InvalidOpCode)
  }

  /** A header is read back from exactly the bytes it is written as. */
  lemma HeaderRoundTrip(h: Header, buf: seq<byte>)
    requires |buf| >= 16
    ensures DecHeader(buf) == Ok(h) <==> buf[..16] == EncHeader(h)
  {
    if buf[..16] == EncHeader(h) {
      HeaderRead(h, buf);
    }
    if DecHeader(buf) == Ok(h) {
      Word(buf);
      Word(buf[4..]);
      Word(buf[8..]);
      Word(buf[12..]);
      assert buf[..16] == buf[..4] + buf[4..][..4] + buf[8..][..4] + buf[12..][..4];
    }
  }

  lemma HeaderRead(h: Header, buf: seq<byte>)
    requires |buf| >= 16 && buf[..16] == EncHeader(h)
    ensures DecHeader(buf) == Ok(h)
  {
    var a, b, c, d := LE32(h.messageLength), LE32(h.requestId), LE32(h.responseTo), LE32(Code(h.opCode));
    var rest := buf[16..];
    assert buf == a + (b + (c + (d + rest))) by {
      assert buf == EncHeader(h) + rest;
      assert EncHeader(h) == a + b + c + d;
    }
    Read32(h.messageLength, b + (c + (d + rest)));
    Read32(h.requestId, c + (d + rest));
    Read32(h.responseTo, d + rest);
    Read32(Code(h.opCode), rest);
    assert buf[4..] == b + (c + (d + rest));
    assert buf[8..] == c + (d + rest);
    assert buf[12..] == d + rest;
  }

  // ----- receiving, as a function of what the stream still holds -----

  /** `Document::copy_from_slice`: as many bytes as the document says it has. */
  function CopyDocument(src: seq<byte>): Received {
    if |src| < 4 || ReadU32(src) > |src| then Panicked else Document(src[..ReadU32(src)])
  }

  function Judge(opCode: OpCode, responseTo: int32, buf: seq<byte>, requestId: int32): Received {
    if |buf| < 5 then Panicked
    else if opCode != Msg then Failed(OpCodeNotMsg)
    else if responseTo != requestId then Failed(ResponseTo)
    else if buf[4] != 0 then Failed(PayloadType)
    else CopyDocument(buf[5..])
  }

  /** `read_exact` into a buffer of `n` bytes, and what is made of them. */
  function Body(input: seq<byte>, n: nat, opCode: OpCode, responseTo: int32, requestId: int32): (Received, seq<byte>) {
    if |input| < n then (Failed(Io), []) else (Judge(opCode, responseTo, input[..n], requestId), input[n..])
  }

  /** The part of a compressed message after its header; only the compressor that does nothing is built in. */
  function RecvCompressed(input: seq<byte>, responseTo: int32, requestId: int32): (Received, seq<byte>) {
    if |input| < 16 then (Failed(Io), [])
    else match CodeOf(ReadU32(input))
      case None => (Failed(InvalidOpCode), input[16..])
      case Some(o) =>
        if input[8] > 3 then (Failed(InvalidCompressor), input[16..])
        else if input[8] != 0 then (Failed(Compression), input[16..])
        else Body(input[16..], ReadU32(input[4..]), o, responseTo, requestId)
  }

  /** `recv`: what is returned, and what is left to read. The length of the body wraps below zero. */
  function Recv(input: seq<byte>, requestId: int32): (Received, seq<byte>) {
    if |input| < 16 then (Failed(Io), [])
    else match DecHeader(input)
      case Err(e) => (Failed(e), input[16..])
      case Ok(h) =>
        if h.opCode == Compressed then RecvCompressed(input[16..], h.responseTo, requestId)
        else Body(input[16..], (h.messageLength - 16) % TWO_32, h.opCode, h.responseTo, requestId)
  }

  /** Whatever comes of an uncompressed message that is there in full, it consumes exactly its length. */
  lemma ConsumesItsLength(input: seq<byte>, h: Header, requestId: int32)
    requires |input| >= 16 && DecHeader(input) == Ok(h) && h.opCode == Msg && 16 <= h.messageLength <= |input|
    ensures Recv(input, requestId).1 == input[h.messageLength..]
  {
    assert input[16..][h.messageLength - 16..] == input[h.messageLength..];
  }

  /** What comes of any message that is there in full and not compressed, whoever wrote it: it panics exactly when it is
      too short for what is looked at, or its document for the length that declares. */
  lemma MessageJudged(input: seq<byte>, h: Header, requestId: int32)
    requires |input| >= 16 && DecHeader(input) == Ok(h) && h.opCode == Msg && 16 <= h.messageLength <= |input|
    ensures var (r, body) := (Recv(input, requestId).0, input[16..h.messageLength]);
            && (r == Panicked <==>
                  || |body| < 5
                  || (h.responseTo == requestId && body[4] == 0
                      && (|body| < 9 || ReadU32(body[5..]) > |body| - 5)))
            && (r == Failed(ResponseTo) <==> |body| >= 5 && h.responseTo != requestId)
            && (r == Failed(PayloadType) <==> |body| >= 5 && h.responseTo == requestId && body[4] != 0)
            && (r.Document? <==>
                  && |body| >= 9 && h.responseTo == requestId && body[4] == 0 && ReadU32(body[5..]) <= |body| - 5)
            && (r.Document? ==> r.doc == body[5..5 + ReadU32(body[5..])])
  {
    var body := input[16..h.messageLength];
    hide DecHeader, ReadU32;
    SliceOfSlice(input, 16, h.messageLength - 16);
    if |body| >= 9 && ReadU32(body[5..]) <= |body| - 5 { SliceOfSlice(body, 5, ReadU32(body[5..])); }
  }

  lemma SliceOfSlice(s: seq<byte>, from: nat, n: nat)
    requires from + n <= |s|
    ensures s[from..][..n] == s[from..from + n]
  {
  }

  /** A length below sixteen wraps to more than there ever is to read. */
  lemma WrappedLength(input: seq<byte>, h: Header, requestId: int32)
    requires 16 <= |input| < TWO_32 && DecHeader(input) == Ok(h) && h.opCode == Msg && h.messageLength < 16
    ensures Recv(input, requestId) == (Failed(Io), [])
  {
  }

  /** Sixteen bytes that end in no operation code are passed over. */
  lemma UnknownOpCode(input: seq<byte>, requestId: int32)
    requires |input| >= 16 && input[12..16] != LE32(2012) && input[12..16] != LE32(2013)
    ensures Recv(input, requestId) == (Failed(InvalidOpCode), input[16..])
  {
    Word(input[12..]);
    assert input[12..][..4] == input[12..16];
  }

  // ----- frames -----

  /** An uncompressed message: flag bits, the kind of its first section, a document, and whatever follows that. */
  datatype Frame = Frame(
    requestId: int32, responseTo: int32, flags: seq<byte>, payload: byte, doc: seq<Entry>, tail: seq<byte>)

  predicate Fits(f: Frame) {
    |f.flags| == 4 && 21 + |EncDoc(f.doc)| + |f.tail| < TWO_31
  }

  function HeaderOf(f: Frame): Header
    requires Fits(f)
  {
    Header(21 + |EncDoc(f.doc)| + |f.tail|, f.requestId, f.responseTo, Msg)
  }

  function BodyOf(f: Frame): seq<byte> {
    f.flags + [f.payload] + (EncDoc(f.doc) + f.tail)
  }

  function EncFrame(f: Frame): seq<byte>
    requires Fits(f)
  {
    EncHeader(HeaderOf(f)) + BodyOf(f)
  }

  function Expected(f: Frame, requestId: int32): Received {
    if f.responseTo != requestId then Failed(ResponseTo)
    else if f.payload != 0 then Failed(PayloadType)
    else Document(EncDoc(f.doc))
  }

  lemma JudgeFrame(f: Frame, requestId: int32)
    requires Fits(f)
    ensures Judge(Msg, f.responseTo, BodyOf(f), requestId) == Expected(f, requestId)
  {
    var src := EncDoc(f.doc) + f.tail;
    assert BodyOf(f)[4] == f.payload && BodyOf(f)[5..] == src;
    Scan.FrameLength(f.doc, f.tail);
    assert src[..|EncDoc(f.doc)|] == EncDoc(f.doc);
    UnLEBound(src[..4]);
    assert ReadU32(src) == |EncDoc(f.doc)|;
    hide EncDoc;
  }

  lemma Dispatched(input: seq<byte>, h: Header, requestId: int32)
    requires |input| >= 16 && DecHeader(input) == Ok(h) && h.opCode == Msg && h.messageLength >= 16
    ensures Recv(input, requestId) == Body(input[16..], h.messageLength - 16, Msg, h.responseTo, requestId)
  {
    hide DecHeader, Body;
    assert (h.messageLength - 16) % TWO_32 == h.messageLength - 16;
  }

  lemma BodyExact(body: seq<byte>, rest: seq<byte>, responseTo: int32, requestId: int32)
    ensures Body(body + rest, |body|, Msg, responseTo, requestId) == (Judge(Msg, responseTo, body, requestId), rest)
  {
    hide Judge;
    assert (body + rest)[..|body|] == body && (body + rest)[|body|..] == rest;
  }

  lemma RecvUncompressed(input: seq<byte>, h: Header, body: seq<byte>, rest: seq<byte>, requestId: int32)
    requires h.opCode == Msg && h.messageLength == 16 + |body| && input == EncHeader(h) + (body + rest)
    ensures Recv(input, requestId) == (Judge(Msg, h.responseTo, body, requestId), rest)
  {
    hide *;
    HeaderAt(h, input, body + rest);
    Dispatched(input, h, requestId);
    BodyExact(body, rest, h.responseTo, requestId);
  }

  /** A frame is received as what it says, and leaves exactly what follows it. */
  lemma RecvFrame(f: Frame, rest: seq<byte>, requestId: int32)
    requires Fits(f)
    ensures Recv(EncFrame(f) + rest, requestId) == (Expected(f, requestId), rest)
  {
    JudgeFrame(f, requestId);
    assert |BodyOf(f)| == HeaderOf(f).messageLength - 16;
    hide EncHeader, BodyOf, EncDoc, Judge, Expected, Recv;
    assert EncFrame(f) + rest == EncHeader(HeaderOf(f)) + (BodyOf(f) + rest);
    RecvUncompressed(EncFrame(f) + rest, HeaderOf(f), BodyOf(f), rest, requestId);
  }

  /** A frame that breaks off is an I/O error. */
  lemma ShortFrame(f: Frame, n: nat, requestId: int32)
    requires Fits(f) && n < |EncFrame(f)|
    ensures Recv(EncFrame(f)[..n], requestId) == (Failed(Io), [])
  {
    var h, input := HeaderOf(f), EncFrame(f)[..n];
    if n >= 16 {
      assert input[..16] == EncHeader(h);
      HeaderRoundTrip(h, input);
    }
    hide EncHeader, DecHeader, EncDoc;
  }

  function EncFrames(fs: seq<Frame>): seq<byte>
    requires forall f | f in fs :: Fits(f)
  {
    if fs == [] then [] else EncFrame(fs[0]) + EncFrames(fs[1..])
  }

  function RecvAll(input: seq<byte>, ids: seq<int32>): (seq<Received>, seq<byte>)
    decreases |ids|
  {
    if ids == [] then ([], input)
    else
      var (r, rest) := Recv(input, ids[0]);
      var (rs, end) := RecvAll(rest, ids[1..]);
      ([r] + rs, end)
  }

  /** Over any concatenation of frames, and whatever ids are asked for, the calls return the frames' documents in order,
      each one exactly when the ids match, and leave exactly what follows the last frame. */
  lemma {:induction false} Framing(fs: seq<Frame>, ids: seq<int32>, rest: seq<byte>)
    requires |ids| == |fs| && forall f | f in fs :: Fits(f)
    ensures var (rs, end) := RecvAll(EncFrames(fs) + rest, ids);
            end == rest && |rs| == |fs| && forall i | 0 <= i < |fs| :: rs[i] == Expected(fs[i], ids[i])
    decreases |fs|
  {
    if fs == [] {
      assert EncFrames(fs) + rest == rest;
    } else {
      var next := EncFrames(fs[1..]) + rest;
      assert EncFrames(fs) + rest == EncFrame(fs[0]) + next;
      RecvFrame(fs[0], next, ids[0]);
      Framing(fs[1..], ids[1..], rest);
      hide EncFrame, EncFrames, Recv, Expected, Fits;
    }
  }

  /** What `send` writes for a document. */
  function Sent(requestId: int32, doc: seq<byte>): seq<byte> {
    EncHeader(Header((21 + |doc|) % TWO_32, requestId, 0, Msg)) + Zeros(5) + doc
  }

  lemma SentIsFrame(requestId: int32, es: seq<Entry>)
    requires 21 + |EncDoc(es)| < TWO_31
    ensures Sent(requestId, EncDoc(es)) == EncFrame(Frame(requestId, 0, Zeros(4), 0, es, []))
  {
    var doc := EncDoc(es);
    hide EncDoc, EncHeader;
    assert Zeros(5) == Zeros(4) + [0];
    hide Zeros;
    assert doc + [] == doc;
    assert (21 + |doc|) % TWO_32 == 21 + |doc|;
  }

  /** What `send` writes is a frame, which the peer receives as the document that was sent. */
  lemma SentIsReceived(requestId: int32, es: seq<Entry>, rest: seq<byte>)
    requires 21 + |EncDoc(es)| < TWO_31
    ensures Recv(Sent(requestId, EncDoc(es)) + rest, 0) == (Document(EncDoc(es)), rest)
  {
    SentIsFrame(requestId, es);
    var f := Frame(requestId, 0, Zeros(4), 0, es, []);
    hide EncDoc, EncFrame, Sent, Recv, Zeros;
    RecvFrame(f, rest, 0);
  }

  // ----- compressed messages -----

  /** What `recv` takes for the data of a compressed message: sixteen bytes, of which it looks at nine. */
  function DataOf(opCode: OpCode, size: nat, compressor: byte, pad: seq<byte>): seq<byte> {
    LE32(Code(opCode)) + LE32(size) + [compressor] + pad
  }

  /** A message that the compressor that does nothing has put in sixteen bytes is received like an uncompressed one,
      whatever its header's length says; the other compressors and operation codes are errors. */
  lemma CompressedFrame(f: Frame, n: uint32, opCode: OpCode, compressor: byte, pad: seq<byte>, rest: seq<byte>,
      requestId: int32)
    requires Fits(f) && |pad| == 7
    ensures var header := EncHeader(Header(n, f.requestId, f.responseTo, Compressed));
            Recv(header + (DataOf(opCode, |BodyOf(f)|, compressor, pad) + (BodyOf(f) + rest)), requestId)
            == if compressor > 3 then (Failed(InvalidCompressor), BodyOf(f) + rest)
               else if compressor != 0 then (Failed(Compression), BodyOf(f) + rest)
               else if opCode != Msg then (Failed(OpCodeNotMsg), rest)
               else (Expected(f, requestId), rest)
  {
    var h, body := Header(n, f.requestId, f.responseTo, Compressed), BodyOf(f);
    var more := DataOf(opCode, |body|, compressor, pad) + (body + rest);
    var input := EncHeader(h) + more;
    assert input[..16] == EncHeader(h) && input[16..] == more;
    HeaderRoundTrip(h, input);
    JudgeFrame(f, requestId);
    assert |body| >= 5;
    hide EncHeader, DecHeader, BodyOf, Expected, EncDoc, DataOf;
    ReadData(opCode, |body|, compressor, pad, body + rest);
    assert (body + rest)[..|body|] == body && (body + rest)[|body|..] == rest;
    hide CodeOf, ReadU32;
  }

  lemma ReadData(opCode: OpCode, size: nat, compressor: byte, pad: seq<byte>, rest: seq<byte>)
    requires |pad| == 7 && size < TWO_32
    ensures var input := DataOf(opCode, size, compressor, pad) + rest;
            && |input| >= 16 && input[16..] == rest && input[8] == compressor
            && CodeOf(ReadU32(input)) == Some(opCode) && ReadU32(input[4..]) == size
  {
    var input, code, len := DataOf(opCode, size, compressor, pad) + rest, LE32(Code(opCode)), LE32(size);
    assert input == code + (len + ([compressor] + pad + rest));
    assert input[4..] == len + ([compressor] + pad + rest);
    Read32(Code(opCode), len + ([compressor] + pad + rest));
    Read32(size, [compressor] + pad + rest);
    hide LE32, ReadU32;
  }

  /** What `send` writes for a document with the compressor that does nothing. The data takes twelve bytes, four fewer
      than `recv` reads: the size of the structure in memory, not of the array it is read into. */
  function SentNoop(requestId: int32, doc: seq<byte>): seq<byte> {
    EncHeader(Header((33 + |doc|) % TWO_32, requestId, 0, Compressed))
    + (DataOf(Msg, 5 + |doc|, 0, Zeros(3)) + (Zeros(5) + doc))
  }

  /** No such message is received: unless others follow, `recv` waits for four bytes more than were sent. */
  lemma NoopNeverReceived(requestId: int32, doc: seq<byte>, rest: seq<byte>)
    requires 33 + |doc| < TWO_31 && |rest| < 4
    ensures Recv(SentNoop(requestId, doc) + rest, 0) == (Failed(Io), [])
  {
    var h := Header(33 + |doc|, requestId, 0, Compressed);
    var data := DataOf(Msg, 5 + |doc|, 0, Zeros(3) + Zeros(4));
    var input := SentNoop(requestId, doc) + rest;
    MisreadData(5 + |doc|, doc);
    hide *;
    NoopParts(requestId, doc, rest);
    HeaderAt(h, input, data + ([0] + doc + rest));
    ReadData(Msg, 5 + |doc|, 0, Zeros(3) + Zeros(4), [0] + doc + rest);
    NoopBreaksOff(input, h, data + ([0] + doc + rest), 5 + |doc|);
  }

  lemma HeaderAt(h: Header, input: seq<byte>, more: seq<byte>)
    requires input == EncHeader(h) + more
    ensures |input| >= 16 && DecHeader(input) == Ok(h) && input[16..] == more
  {
    assert input[..16] == EncHeader(h);
    HeaderRoundTrip(h, input);
  }

  /** `recv` takes the flag bits for the last of the data. */
  lemma MisreadData(size: nat, doc: seq<byte>)
    ensures DataOf(Msg, size, 0, Zeros(3)) + (Zeros(5) + doc) == DataOf(Msg, size, 0, Zeros(3) + Zeros(4)) + ([0] + doc)
    ensures |Zeros(3) + Zeros(4)| == 7
  {
    assert Zeros(5) == Zeros(4) + [0];
    hide Zeros, LE32;
  }

  lemma NoopParts(requestId: int32, doc: seq<byte>, rest: seq<byte>)
    requires 33 + |doc| < TWO_31
    requires DataOf(Msg, 5 + |doc|, 0, Zeros(3)) + (Zeros(5) + doc)
          == DataOf(Msg, 5 + |doc|, 0, Zeros(3) + Zeros(4)) + ([0] + doc)
    ensures SentNoop(requestId, doc) + rest
         == EncHeader(Header(33 + |doc|, requestId, 0, Compressed))
            + (DataOf(Msg, 5 + |doc|, 0, Zeros(3) + Zeros(4)) + ([0] + doc + rest))
  {
    hide EncHeader, DataOf, Zeros;
    assert (33 + |doc|) % TWO_32 == 33 + |doc|;
  }

  lemma NoopBreaksOff(input: seq<byte>, h: Header, more: seq<byte>, size: nat)
    requires |input| >= 16 && DecHeader(input) == Ok(h) && h.opCode == Compressed && input[16..] == more
    requires |more| >= 16 && more[8] == 0 && CodeOf(ReadU32(more)) == Some(Msg) && ReadU32(more[4..]) == size
    requires |more| < 16 + size
    ensures forall id :: Recv(input, id) == (Failed(Io), [])
  {
    hide DecHeader, CodeOf, ReadU32, Judge;
  }
}
