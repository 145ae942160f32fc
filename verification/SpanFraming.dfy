/** Framing a serialized span in place: the headers are written backwards from the end of an area reserved in front of
    it, and what stays unused of that area is skipped. */
module SpanFraming {
  import opened Fragments
  import opened Hex
  import opened WireFormat
  import opened CodedStreams
  import opened Serialization
  import opened HttpChunks
  import opened ChainedStreams
  import opened SpanStreams
  import opened Wrappers

  const REPORT_REQUEST_SPANS_FIELD: nat := 3
  const REPORT_REQUEST_SPANS_MAX_HEADER_SIZE: nat := 6
  const RESERVED: nat := 16

  // ---- What a framed span is ---------------------------------------------------------------------------------

  /** Header of the protobuf field as it is written: the length is cut to 32 bits. */
  function SpanHeader(bodySize: nat): seq<Byte> { Header(REPORT_REQUEST_SPANS_FIELD, bodySize % TWO_32) }

  /** The data of the chunk: one length-delimited field. */
  function ChunkData(body: seq<Byte>): seq<Byte> { SpanHeader(|body|) + body }

  /** A framed span: the size in eight digits, also cut to 32 bits, and the data. */
  function Framed(body: seq<Byte>): seq<Byte> {
    Chunk(LowerHex(|ChunkData(body)| % TWO_32, 8), ChunkData(body))
  }

  lemma HeaderFits(n: nat)
    requires n < TWO_32
    ensures 0 < |Header(REPORT_REQUEST_SPANS_FIELD, n)| <= REPORT_REQUEST_SPANS_MAX_HEADER_SIZE
    ensures |Header(REPORT_REQUEST_SPANS_FIELD, n)| == ComputeHeaderSerializationSize(REPORT_REQUEST_SPANS_FIELD, n)
  {
    SmallVarint(Key(3, 2));
    VarintLength(n);
    VarintBounds(n);
  }

  /** The frame is one chunk that announces its own size exactly when header and body together are shorter than
      2^32 bytes; then its data is one field 3 that holds exactly the body. */
  lemma FrameIsChunk(body: seq<Byte>)
    ensures Announces(LowerHex(|ChunkData(body)| % TWO_32, 8), |ChunkData(body)|) <==> |ChunkData(body)| < TWO_32
    ensures |ChunkData(body)| < TWO_32 ==>
              && ChunkData(body) == Encode(LengthField(3, body))
              && ParseAll(ChunkData(body)) == Some([LengthField(3, body)])
              && ChunkData(body) != []
  {
    hide LowerHex, Varint, Value, AllHex, ParseAll;
    var data, size := ChunkData(body), |ChunkData(body)| % TWO_32;
    EightDigits(size);
    if |data| < TWO_32 {
      HeaderAndBody(REPORT_REQUEST_SPANS_FIELD, body);
      var f := LengthField(3, body);
      ParseInvertsEncode([f]);
      assert [f][1..] == [];
      assert EncodeAll([f]) == Encode(f) + EncodeAll([]) == Encode(f);
      HeaderFits(|body|);
      assert |body| % TWO_32 == |body|;
    }
  }

  // ---- Writing the headers -----------------------------------------------------------------------------------

  /** Writes the field header into the last bytes in front of `size`. */
  method WriteReportRequestSpansHeader(data: array<Byte>, size: nat, bodySize: nat) returns (headerSize: nat)
    requires REPORT_REQUEST_SPANS_MAX_HEADER_SIZE <= size <= data.Length && bodySize < TWO_32
    modifies data
    ensures headerSize == |Header(REPORT_REQUEST_SPANS_FIELD, bodySize)| <= size
    ensures data[size - headerSize..size] == Header(REPORT_REQUEST_SPANS_FIELD, bodySize)
    ensures data[..size - headerSize] == old(data[..size - headerSize]) && data[size..] == old(data[size..])
  {
    hide Varint, VarintSize;
    HeaderFits(bodySize);
    headerSize := ComputeHeaderSerializationSize(REPORT_REQUEST_SPANS_FIELD, bodySize);
    var stream := new DirectCodedOutputStream(data, size - headerSize);
    ghost var front := data[..size - headerSize];
    WriteKeyLength(Direct(stream), REPORT_REQUEST_SPANS_FIELD, bodySize);
    assert stream.Sofar() == front + Header(REPORT_REQUEST_SPANS_FIELD, bodySize);
    assert stream.at == size;
    assert data[..size] == stream.Sofar();
    assert data[size - headerSize..size] == data[..size][size - headerSize..];
    assert data[..size - headerSize] == data[..size][..size - headerSize];
  }

  /** Field header and chunk header, right-aligned in the reserved area; the result is the size of both. */
  method WriteHeaders(data: array<Byte>, bodySize: nat) returns (used: nat)
    requires data.Length == RESERVED
    modifies data
    ensures 0 < used <= RESERVED
    ensures data[RESERVED - used..] ==
            LowerHex((|SpanHeader(bodySize)| + bodySize) % TWO_32, 8) + HttpChunks.END_OF_LINE + SpanHeader(bodySize)
  {
    hide LowerHex, Header;
    HeaderFits(bodySize % TWO_32);
    var protobufHeaderSize := WriteReportRequestSpansHeader(data, RESERVED, bodySize % TWO_32);
    var chunkBodySize := bodySize + protobufHeaderSize;
    ghost var header := SpanHeader(bodySize);
    var rest := RESERVED - protobufHeaderSize;
    assert data[rest..] == data[RESERVED - protobufHeaderSize..RESERVED] == header;
    var chunkHeaderSize := WriteHttpChunkHeader(data, rest, chunkBodySize % TWO_32);
    used := protobufHeaderSize + chunkHeaderSize;
    assert data[RESERVED - used..] == data[rest - chunkHeaderSize..rest] + data[rest..];
  }

  // ---- Framing a span ----------------------------------------------------------------------------------------

  /** Reserves an area at the start of an empty chain. */
  method ReserveHeaderSpace(stream: ChainedStream, maxHeaderSize: nat, memory: Block)
    requires stream.Open() && stream.Content() == [] && |memory.data| == 256
    requires maxHeaderSize == RESERVED || maxHeaderSize == REPORT_REQUEST_SPANS_MAX_HEADER_SIZE
    modifies stream
    ensures stream.Open() && |stream.Content()| == maxHeaderSize && stream.numBlocks == 1
  {
    var block, offset, size := stream.Next(memory);
    stream.BackUp(size - maxHeaderSize);
  }

  /** The reserved area, a body and the end of line that closes a chunk. */
  ghost predicate Serialized(content: seq<Byte>, body: seq<Byte>) {
    |content| == RESERVED + |body| + 2 && content[RESERVED..] == body + HttpChunks.END_OF_LINE
  }

  lemma AfterSeek(fs: seq<Fragment>, position: nat)
    requires fs != [] && position <= |fs[0]|
    ensures position <= |Flatten(fs)| && Flatten(SeekTo(fs, 0, position)) == Flatten(fs)[position..]
  {
    assert SeekTo(fs, 0, position)[1..] == fs[1..];
  }

  /** Frames a span. What can be read from it afterwards is exactly the frame around the body: no unused reserved
      byte shows, and there is a first byte to send. */
  method FrameSpan(span: ChainedStream, ghost body: seq<Byte>)
    requires span.Open() && Serialized(span.Content(), body)
    modifies span
    ensures span.Readable() && Flatten(span.Segment()) == Framed(body) && Startable(span.Segment())
    ensures span.next == old(span.next) && span.last == old(span.last)
  {
    hide LowerHex, Header, ChainedStream.Open, ChainedStream.Readable, ChainedStream.Segment, Chunk;
    var header := new Byte[RESERVED](i => 0);
    var bodySize := span.ByteCount() - 2 - RESERVED;
    BodySize(span, body);
    var used := WriteHeaders(header, bodySize);
    ghost var tail := body + HttpChunks.END_OF_LINE;
    StoreAndClose(span, header[..], tail);
    span.SegmentSeek(0, RESERVED - used);
    FrameIsRight(header[..], RESERVED - used, body);
  }

  /** The field header alone, right-aligned in its reserved area. */
  method WriteReportHeader(bodySize: nat) returns (header: seq<Byte>, used: nat)
    ensures |header| == REPORT_REQUEST_SPANS_MAX_HEADER_SIZE && used <= |header|
    ensures header[|header| - used..] == SpanHeader(bodySize)
  {
    hide Varint, VarintSize, Header;
    var reserved := REPORT_REQUEST_SPANS_MAX_HEADER_SIZE;
    var data := new Byte[reserved](i => 0);
    used := WriteReportRequestSpansHeader(data, reserved, bodySize % TWO_32);
    header := data[..];
    assert header[reserved - used..] == data[reserved - used..reserved];
  }

  /** A span that goes into a report gets the field header only. */
  method FrameReportSpan(span: ChainedStream, ghost body: seq<Byte>)
    requires span.Open() && |span.Content()| == REPORT_REQUEST_SPANS_MAX_HEADER_SIZE + |body|
    requires span.Content()[REPORT_REQUEST_SPANS_MAX_HEADER_SIZE..] == body
    modifies span
    ensures span.Readable() && Flatten(span.Segment()) == ChunkData(body)
    ensures |body| < TWO_32 ==> Flatten(span.Segment()) == Encode(LengthField(3, body))
    ensures span.next == old(span.next) && span.last == old(span.last)
  {
    hide ChainedStream.Open, ChainedStream.Readable, ChainedStream.Segment, Header, Encode;
    var bodySize := span.ByteCount() - REPORT_REQUEST_SPANS_MAX_HEADER_SIZE;
    var header, used := WriteReportHeader(bodySize);
    StoreAndClose(span, header, body);
    span.SegmentSeek(0, |header| - used);
    assert (header + body)[|header| - used..] == SpanHeader(|body|) + body;
    HeaderAndBody(REPORT_REQUEST_SPANS_FIELD, body);
  }

  lemma BodySize(span: ChainedStream, body: seq<Byte>)
    requires span.Open() && Serialized(span.Content(), body)
    ensures span.ByteCount() - 2 - RESERVED == |body|
  {
  }

  /** The reserved area gets its final contents and the chain is closed. */
  method StoreAndClose(span: ChainedStream, header: seq<Byte>, ghost tail: seq<Byte>)
    requires span.Open() && |header| <= RESERVED && |span.Content()| >= |header| > 0 && span.Content()[|header|..] == tail
    modifies span
    ensures span.Readable() && Flatten(span.Segment()) == header + tail
    ensures span.Segment() != [] && |header| <= |span.Segment()[0]|
    ensures span.next == old(span.next) && span.last == old(span.last)
    ensures forall position: nat :: position <= |header| ==>
              Flatten(SeekTo(span.Segment(), 0, position)) == (header + tail)[position..]
  {
    span.Store(0, 0, header);
    assert span.Content() == header + tail;
    span.CloseOutput();
    forall position: nat | position <= |header|
      ensures Flatten(SeekTo(span.Segment(), 0, position)) == (header + tail)[position..]
    {
      AfterSeek(span.Segment(), position);
    }
  }

  lemma FrameIsRight(header: seq<Byte>, unused: nat, body: seq<Byte>)
    requires unused <= |header|
    requires header[unused..] ==
             LowerHex((|SpanHeader(|body|)| + |body|) % TWO_32, 8) + HttpChunks.END_OF_LINE + SpanHeader(|body|)
    ensures (header + (body + HttpChunks.END_OF_LINE))[unused..] == Framed(body)
  {
    hide LowerHex, Header;
    assert (header + (body + HttpChunks.END_OF_LINE))[unused..] == header[unused..] + (body + HttpChunks.END_OF_LINE);
  }
}
