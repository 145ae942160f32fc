/** Writing fields whose sizes were computed beforehand, to either kind of stream. */
module Serialization {
  import opened Fragments
  import opened WireFormat
  import opened CodedStreams

  // ---- Sizes -------------------------------------------------------------------------------------------------

  function KeySize(number: nat, wireType: nat): nat { VarintSize(Key(number, wireType)) }

  function ComputeVarintSerializationSize(number: nat, x: nat): nat { KeySize(number, 0) + VarintSize(x) }

  function ComputeHeaderSerializationSize(number: nat, length: nat): nat { KeySize(number, 2) + VarintSize(length) }

  function ComputeLengthDelimitedSerializationSize(number: nat, length: nat): nat {
    KeySize(number, 2) + VarintSize(length) + length
  }

  /** The computed sizes are the numbers of bytes the fields take. */
  lemma SizesAreLengths(number: nat, x: nat, body: seq<Byte>)
    ensures ComputeVarintSerializationSize(number, x) == |Encode(VarintField(number, x))|
    ensures ComputeLengthDelimitedSerializationSize(number, |body|) == |Encode(LengthField(number, body))|
    ensures ComputeHeaderSerializationSize(number, |body|) == |Header(number, |body|)|
  {
    VarintLength(Key(number, 0));
    VarintLength(Key(number, 2));
    VarintLength(x);
    VarintLength(|body|);
  }

  /** What stands in front of the body of a length-delimited field. */
  function Header(number: nat, length: nat): seq<Byte> { Varint(Key(number, 2)) + Varint(length) }

  lemma HeaderAndBody(number: nat, body: seq<Byte>)
    ensures Encode(LengthField(number, body)) == Header(number, |body|) + body
  {
  }

  // ---- Fields ------------------------------------------------------------------------------------------------

  method WriteTag(s: Stream, number: nat, wireType: nat)
    requires Valid(s) && Key(number, wireType) < TWO_32 && Room(s, KeySize(number, wireType))
    modifies Frame(s)
    ensures Grew(s, Varint(Key(number, wireType)))
  {
    hide Varint, VarintSize, Snap;
    WriteVarint64(s, Key(number, wireType));
  }

  /** The length is cut to 32 bits. */
  method WriteKeyLength(s: Stream, number: nat, length: nat)
    requires Valid(s) && number <= 16 && Room(s, KeySize(number, 2) + VarintSize(length % TWO_32))
    modifies Frame(s)
    ensures Grew(s, Header(number, length % TWO_32)) && (length < TWO_32 ==> Grew(s, Header(number, length)))
  {
    hide Varint, VarintSize, Snap;
    VarintLength(Key(number, 2));
    ghost var x := Snap(s);
    WriteTag(s, number, 2);
    ghost var y := Snap(s);
    WriteVarint64(s, length % TWO_32);
    GrownTwice(x, y, Snap(s), Varint(Key(number, 2)), Varint(length % TWO_32));
  }

  method WriteVarint(s: Stream, number: nat, x: nat)
    requires Valid(s) && number <= 16 && x < TWO_64 && Room(s, ComputeVarintSerializationSize(number, x))
    modifies Frame(s)
    ensures Grew(s, Encode(VarintField(number, x)))
  {
    hide Varint, VarintSize, Snap;
    VarintLength(Key(number, 0));
    ghost var before := Snap(s);
    WriteTag(s, number, 0);
    ghost var between := Snap(s);
    WriteVarint64(s, x);
    GrownTwice(before, between, Snap(s), Varint(Key(number, 0)), Varint(x));
  }

  method WriteBigVarint(s: Stream, number: nat, x: nat)
    requires Valid(s) && number <= 16 && x < TWO_64 && Room(s, ComputeVarintSerializationSize(number, x))
    modifies Frame(s)
    ensures Grew(s, Encode(VarintField(number, x)))
  {
    hide Varint, VarintSize, Snap;
    VarintLength(Key(number, 0));
    ghost var before := Snap(s);
    WriteTag(s, number, 0);
    ghost var between := Snap(s);
    WriteBigVarint64(s, x);
    GrownTwice(before, between, Snap(s), Varint(Key(number, 0)), Varint(x));
  }

  method WriteFixed64(s: Stream, number: nat, word: seq<Byte>)
    requires Valid(s) && number <= 16 && |word| == 8 && Room(s, KeySize(number, 1) + 8)
    modifies Frame(s)
    ensures Grew(s, Encode(Fixed64Field(number, word)))
  {
    hide Varint, VarintSize, Snap;
    VarintLength(Key(number, 1));
    ghost var before := Snap(s);
    WriteTag(s, number, 1);
    ghost var between := Snap(s);
    WriteRaw(s, word);
    GrownTwice(before, between, Snap(s), Varint(Key(number, 1)), word);
  }

  // ---- Length-delimited fields -------------------------------------------------------------------------------

  /** Writing a field whose body is `size` bytes long has begun: its header is written, and the body goes to `inner`,
      which is the stream itself or a direct one over exactly the bytes that end its output. */
  ghost predicate Begun(s: Stream, inner: Stream, before: Snapshot, header: seq<Byte>, size: nat)
    requires Valid(s) && Valid(inner)
    reads Frame(s), Reads(s), Frame(inner), Reads(inner)
  {
    if inner == s then Grown(before, Snap(s), header)
    else
      && s.Coded? && inner.Direct? && s.c.direct == inner.d.buffer && s.c.out == before.written && before.rest == []
      && inner.d.buffer.Length == |header| + size && Snap(inner).written == header && |Snap(inner).rest| == size
  }

  /** The header goes into a buffer that was handed out for the whole field. */
  method BeginDirect(buffer: array<Byte>, number: nat, size: nat) returns (d: DirectCodedOutputStream)
    requires number <= 16 && size < TWO_32 && buffer.Length == ComputeLengthDelimitedSerializationSize(number, size)
    modifies buffer
    ensures fresh(d) && d.buffer == buffer && d.Valid() && buffer.Length == |Header(number, size)| + size
    ensures Snap(Direct(d)).written == Header(number, size) && |Snap(Direct(d)).rest| == size
  {
    hide Varint, VarintSize;
    VarintLength(Key(number, 2));
    VarintLength(size);
    d := new DirectCodedOutputStream(buffer, 0);
    FreshStream(d);
    WriteKeyLength(Direct(d), number, size);
    assert [] + Header(number, size) == Header(number, size);
  }

  /** The first half of writing such a field. */
  method BeginField(s: Stream, number: nat, size: nat) returns (inner: Stream)
    requires Valid(s) && number <= 16 && size < TWO_32 && Room(s, ComputeLengthDelimitedSerializationSize(number, size))
    modifies Frame(s)
    ensures Valid(s) && Valid(inner) && Begun(s, inner, old(Snap(s)), Header(number, size), size)
    ensures inner == s || (inner.Direct? && fresh(inner.d) && fresh(inner.d.buffer))
    ensures Room(inner, size)
  {
    hide Varint, VarintSize, Header, Grown;
    if s.Coded? {
      var totalSize := ComputeLengthDelimitedSerializationSize(number, size);
      var buffer := s.c.GetDirectBufferForNBytesAndAdvance(totalSize);
      if buffer != null {
        var directStream := BeginDirect(buffer, number, size);
        return Direct(directStream);
      }
    }
    inner := s;
    BeginInPlace(s, number, size);
  }

  method BeginInPlace(s: Stream, number: nat, size: nat)
    requires Valid(s) && number <= 16 && size < TWO_32 && Room(s, ComputeLengthDelimitedSerializationSize(number, size))
    modifies Frame(s)
    ensures Grew(s, Header(number, size)) && Room(s, size)
  {
    hide Varint, VarintSize, Snap;
    VarintLength(Key(number, 2));
    VarintLength(size);
    WriteKeyLength(s, number, size);
  }

  /** When exactly the announced number of bytes was written to it, the field is complete and a direct buffer is full. */
  lemma FieldComplete(s: Stream, inner: Stream, before: Snapshot, begun: Snapshot, number: nat, body: seq<Byte>)
    requires Valid(s) && Valid(inner)
    requires begun.written == (if inner == s then before.written else []) + Header(number, |body|)
    requires Grown(begun, Snap(inner), body)
    requires if inner == s then Grown(before, begun, Header(number, |body|))
             else && s.Coded? && inner.Direct? && s.c.direct == inner.d.buffer && s.c.out == before.written && before.rest == []
                  && inner.d.buffer.Length == |Header(number, |body|)| + |body|
    ensures Grown(before, Snap(s), Encode(LengthField(number, body)))
    ensures inner != s ==> inner.d.at == inner.d.buffer.Length
  {
    hide Varint, Header;
    HeaderAndBody(number, body);
    if inner == s {
      GrownTwice(before, begun, Snap(s), Header(number, |body|), body);
    } else {
      assert [] + Header(number, |body|) == Header(number, |body|);
      assert inner.d.buffer[..] == inner.d.buffer[..inner.d.at];
    }
  }

  method WriteString(s: Stream, number: nat, text: seq<Byte>)
    requires Valid(s) && number <= 16 && |text| < TWO_32 && Room(s, ComputeLengthDelimitedSerializationSize(number, |text|))
    modifies Frame(s)
    ensures Grew(s, Encode(LengthField(number, text)))
  {
    hide Varint, VarintSize, Encode, Snap, Header;
    ghost var before := Snap(s);
    var inner := BeginField(s, number, |text|);
    ghost var begun := Snap(inner);
    WriteRaw(inner, text);
    FieldComplete(s, inner, before, begun, number, text);
  }
}
