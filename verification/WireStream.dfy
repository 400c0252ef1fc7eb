/** The stream that a `Wire` reads from and writes to: `send` and `recv` as the loop-free methods they are. */
module WireStream {
  import opened Bytes
  import opened Wrappers
  import opened Vecs
  import opened Wire

  class Stream {
    /** What the peer has sent and nobody has read, until the end of the stream; and what has been sent to it. */
    var input: seq<byte>
    var output: seq<byte>

    constructor (input: seq<byte>)
      ensures this.input == input && output == []
    {
      this.input, output := input, [];
    }

    method ReadExact(n: nat) returns (r: Option<seq<byte>>)
      modifies this`input
      ensures if n <= |old(input)| then r == Some(old(input)[..n]) && input == old(input)[n..]
              else r == None && input == []
    {
      if n > |input| {
        input := [];
        return None;
      }
      r := Some(input[..n]);
      input := input[n..];
    }

    /** Where the bytes of the body come from, for a message that is not compressed or was not. */
    method RecvBody(n: nat, opCode: OpCode, responseTo: int32, requestId: int32) returns (r: Received)
      modifies this`input
      ensures (r, input) == Body(old(input), n, opCode, responseTo, requestId)
    {
      var buf := ReadExact(n);
      if buf.None? { return Failed(Io); }
      if |buf.value| < 5 { return Panicked; }
      if opCode != Msg { return Failed(OpCodeNotMsg); }
      if responseTo != requestId { return Failed(ResponseTo); }
      if buf.value[4] != 0 { return Failed(PayloadType); }
      return CopyDocument(buf.value[5..]);
    }

    method Recv(requestId: int32) returns (r: Received)
      modifies this`input
      ensures (r, input) == Wire.Recv(old(input), requestId)
    {
      hide DecHeader, Body;
      var buf := ReadExact(16);
      if buf.None? { return Failed(Io); }
      HeaderPrefix(old(input));
      var header := DecHeader(buf.value);
      if header.Err? { return Failed(header.error); }
      if header.value.opCode == Compressed {
        r := this.RecvCompressed(header.value.responseTo, requestId);
      } else {
        r := RecvBody((header.value.messageLength - 16) % TWO_32, header.value.opCode, header.value.responseTo,
            requestId);
      }
    }

    method RecvCompressed(responseTo: int32, requestId: int32) returns (r: Received)
      modifies this`input
      ensures (r, input) == Wire.RecvCompressed(old(input), responseTo, requestId)
    {
      var buf := ReadExact(16);
      if buf.None? { return Failed(Io); }
      var data := buf.value;
      assert data[..4] == old(input)[..4] && data[4..][..4] == old(input)[4..][..4];
      hide Body;
      var opCode := CodeOf(ReadU32(data));
      if opCode.None? { return Failed(InvalidOpCode); }
      if data[8] > 3 { return Failed(InvalidCompressor); }
      if data[8] != 0 { return Failed(Compression); }
      r := RecvBody(ReadU32(data[4..]), opCode.value, responseTo, requestId);
    }

    /** `send` without compression and without document sequences. */
    method Send(requestId: int32, doc: seq<byte>)
      modifies this`output
      ensures output == old(output) + Sent(requestId, doc)
    {
      var buf := new Vec(Zeros(16 + 5));
      buf.Extend(doc);
      CopyToSlice(Header(|buf.data| % TWO_32, requestId, 0, Msg), buf);
      output := output + buf.data;
      assert Zeros(21)[16..] == Zeros(5);
      hide EncHeader, Zeros;
    }

    /** `send` with the compressor that does nothing. */
    method SendNoop(requestId: int32, doc: seq<byte>)
      modifies this`output
      ensures output == old(output) + SentNoop(requestId, doc)
    {
      var buf := new Vec(Zeros(16 + 5));
      buf.Extend(doc);
      var body := buf.data[16..];
      assert body == Zeros(5) + doc;
      var buf0 := new Vec(Zeros(16 + 12));
      buf0.Extend(body);
      CopyToSlice(Header(|buf0.data| % TWO_32, requestId, 0, Compressed), buf0);
      ghost var header := EncHeader(Header((33 + |doc|) % TWO_32, requestId, 0, Compressed));
      assert (Zeros(28) + body)[16..] == Zeros(9) + Zeros(3) + body;
      assert buf0.data == header + (Zeros(9) + (Zeros(3) + body));
      hide EncHeader, Zeros;
      DataToSlice(|body|, 0, buf0, 16);
      SpliceHole(header, Zeros(9), Zeros(3) + body, LE32(Code(Msg)) + LE32(5 + |doc|) + [0]);
      assert DataOf(Msg, 5 + |doc|, 0, Zeros(3)) + body == LE32(Code(Msg)) + LE32(5 + |doc|) + [0] + (Zeros(3) + body);
      output := output + buf0.data;
    }
  }

  /** `CompressionData::copy_to_slice`, for a message that was none before; the last three bytes stay as they are. */
  method DataToSlice(size: nat, compressor: byte, slice: Vec, at: nat)
    requires at + 12 <= |slice.data|
    modifies slice
    ensures slice.data == Splice(old(slice.data), at, LE32(Code(Msg)) + LE32(size) + [compressor])
  {
    slice.CopyFromSlice(at, LE32(Code(Msg)));
    slice.CopyFromSlice(at + 4, LE32(size));
    SpliceTwice(old(slice.data), at, LE32(Code(Msg)), LE32(size));
    slice.Set(at + 8, compressor);
    SpliceTwice(old(slice.data), at, LE32(Code(Msg)) + LE32(size), [compressor]);
  }

  /** `Header::copy_to_slice`. */
  method CopyToSlice(h: Header, slice: Vec)
    requires |slice.data| >= 16
    modifies slice
    ensures slice.data == EncHeader(h) + old(slice.data)[16..]
  {
    slice.CopyFromSlice(0, LE32(h.messageLength));
    slice.CopyFromSlice(4, LE32(h.requestId));
    SpliceTwice(old(slice.data), 0, LE32(h.messageLength), LE32(h.requestId));
    slice.CopyFromSlice(8, LE32(h.responseTo));
    SpliceTwice(old(slice.data), 0, LE32(h.messageLength) + LE32(h.requestId), LE32(h.responseTo));
    slice.CopyFromSlice(12, LE32(Code(h.opCode)));
    SpliceTwice(old(slice.data), 0, LE32(h.messageLength) + LE32(h.requestId) + LE32(h.responseTo),
        LE32(Code(h.opCode)));
  }

  lemma SpliceHole(a: seq<byte>, hole: seq<byte>, b: seq<byte>, x: seq<byte>)
    requires |x| == |hole|
    ensures Splice(a + (hole + b), |a|, x) == a + (x + b)
  {
  }

  /** Only the first sixteen bytes matter to a header. */
  lemma HeaderPrefix(buf: seq<byte>)
    requires |buf| >= 16
    ensures DecHeader(buf[..16]) == DecHeader(buf)
  {
    assert buf[..16][..4] == buf[..4];
    assert buf[..16][4..][..4] == buf[4..][..4];
    assert buf[..16][8..][..4] == buf[8..][..4];
    assert buf[..16][12..][..4] == buf[12..][..4];
  }
}
