/** The parts of a span: context with baggage, references, timestamps and logs, each sized before it is written. */
module SpanSerialization {
  import opened Fragments
  import opened Wrappers
  import opened WireFormat
  import opened CodedStreams
  import opened Serialization
  import opened KeyValues

  type Text = seq<Byte>
  type Baggage = seq<(Text, Text)>

  // ---- Span context ------------------------------------------------------------------------------------------

  function EntryFields(item: (Text, Text)): seq<Field> { [LengthField(1, item.0), LengthField(2, item.1)] }

  function EntryBytes(item: (Text, Text)): seq<Byte> { EncodeAll(EntryFields(item)) }

  /** A map is sent as one entry per item. */
  function BaggageFields(baggage: Baggage): (fs: seq<Field>)
    ensures |fs| == |baggage|
  {
    seq(|baggage|, i requires 0 <= i < |baggage| => LengthField(3, EntryBytes(baggage[i])))
  }

  function ContextFields(traceId: nat, spanId: nat, baggage: Baggage): seq<Field> {
    [VarintField(1, traceId), VarintField(2, spanId)] + BaggageFields(baggage)
  }

  function ContextBytes(traceId: nat, spanId: nat, baggage: Baggage): seq<Byte> {
    EncodeAll(ContextFields(traceId, spanId, baggage))
  }

  predicate BaggageOk(baggage: Baggage) {
    forall i :: 0 <= i < |baggage| ==> |baggage[i].0| < TWO_32 && |baggage[i].1| < TWO_32 && |EntryBytes(baggage[i])| < TWO_32
  }

  /** Size of one entry, as both passes compute it. */
  method EntrySize(item: (Text, Text)) returns (size: nat)
    ensures size == |EntryBytes(item)|
  {
    hide Varint, VarintSize, Encode;
    size := ComputeLengthDelimitedSerializationSize(1, |item.0|) + ComputeLengthDelimitedSerializationSize(2, |item.1|);
    SizesAreLengths(1, 0, item.0);
    SizesAreLengths(2, 0, item.1);
    PairBytes(LengthField(1, item.0), LengthField(2, item.1));
  }

  lemma ContextStarts(traceId: nat, spanId: nat)
    ensures ContextBytes(traceId, spanId, []) == Encode(VarintField(1, traceId)) + Encode(VarintField(2, spanId))
  {
    hide Encode;
    assert ContextFields(traceId, spanId, []) == [VarintField(1, traceId), VarintField(2, spanId)];
    PairBytes(VarintField(1, traceId), VarintField(2, spanId));
  }

  lemma ContextGrows(traceId: nat, spanId: nat, baggage: Baggage, i: nat)
    requires i < |baggage|
    ensures ContextBytes(traceId, spanId, baggage[..i + 1]) ==
            ContextBytes(traceId, spanId, baggage[..i]) + Encode(LengthField(3, EntryBytes(baggage[i])))
  {
    hide Encode, EncodeAll, EntryBytes;
    EncodePush(ContextFields(traceId, spanId, baggage[..i]), LengthField(3, EntryBytes(baggage[i])));
    assert ContextFields(traceId, spanId, baggage[..i + 1]) ==
           ContextFields(traceId, spanId, baggage[..i]) + [LengthField(3, EntryBytes(baggage[i]))];
  }

  method ComputeSpanContextSerializationSize(traceId: nat, spanId: nat, baggage: Baggage) returns (result: nat)
    ensures result == |ContextBytes(traceId, spanId, baggage)|
  {
    hide Varint, VarintSize, Encode, ContextBytes, EntryBytes;
    result := ComputeVarintSerializationSize(1, traceId) + ComputeVarintSerializationSize(2, spanId);
    SizesAreLengths(1, traceId, []);
    SizesAreLengths(2, spanId, []);
    ContextStarts(traceId, spanId);
    assert baggage[..0] == [];
    for i := 0 to |baggage|
      invariant result == |ContextBytes(traceId, spanId, baggage[..i])|
    {
      var size := EntrySize(baggage[i]);
      result := result + ComputeLengthDelimitedSerializationSize(3, size);
      SizesAreLengths(3, 0, EntryBytes(baggage[i]));
      ContextGrows(traceId, spanId, baggage, i);
    }
    assert baggage[..|baggage|] == baggage;
  }

  method WriteKeyAndValue(s: Stream, item: (Text, Text))
    requires Valid(s) && |item.0| < TWO_32 && |item.1| < TWO_32 && Room(s, |EntryBytes(item)|)
    modifies Frame(s)
    ensures Grew(s, EntryBytes(item))
  {
    hide Varint, VarintSize, Encode, ComputeLengthDelimitedSerializationSize, Snap;
    SizesAreLengths(1, 0, item.0);
    SizesAreLengths(2, 0, item.1);
    PairBytes(LengthField(1, item.0), LengthField(2, item.1));
    ghost var before := Snap(s);
    WriteString(s, 1, item.0);
    ghost var between := Snap(s);
    WriteString(s, 2, item.1);
    GrownTwice(before, between, Snap(s), Encode(LengthField(1, item.0)), Encode(LengthField(2, item.1)));
  }

  method WriteSizedEntry(s: Stream, size: nat, item: (Text, Text))
    requires Valid(s) && |item.0| < TWO_32 && |item.1| < TWO_32 && size == |EntryBytes(item)| < TWO_32
    requires Room(s, |Encode(LengthField(3, EntryBytes(item)))|)
    modifies Frame(s)
    ensures Grew(s, Encode(LengthField(3, EntryBytes(item))))
  {
    hide Varint, VarintSize, Encode, EntryBytes, Snap;
    SizesAreLengths(3, 0, EntryBytes(item));
    HeaderAndBody(3, EntryBytes(item));
    ghost var before := Snap(s);
    WriteKeyLength(s, 3, size);
    ghost var between := Snap(s);
    WriteKeyAndValue(s, item);
    GrownTwice(before, between, Snap(s), Header(3, size), EntryBytes(item));
  }

  /** One baggage item: its header, its key, its value. */
  method WriteEntry(s: Stream, item: (Text, Text))
    requires Valid(s) && |item.0| < TWO_32 && |item.1| < TWO_32 && |EntryBytes(item)| < TWO_32
    requires Room(s, |Encode(LengthField(3, EntryBytes(item)))|)
    modifies Frame(s)
    ensures Grew(s, Encode(LengthField(3, EntryBytes(item))))
  {
    hide Encode, EntryBytes, Grown;
    var size := EntrySize(item);
    WriteSizedEntry(s, size, item);
  }

  lemma ContextRoom(traceId: nat, spanId: nat, baggage: Baggage, i: nat)
    requires i < |baggage|
    ensures |ContextBytes(traceId, spanId, baggage[..i + 1])| <= |ContextBytes(traceId, spanId, baggage)|
    decreases |baggage| - i
  {
    hide ContextBytes;
    if i + 1 == |baggage| {
      assert baggage[..i + 1] == baggage;
    } else {
      ContextGrows(traceId, spanId, baggage, i + 1);
      ContextRoom(traceId, spanId, baggage, i + 1);
    }
  }

  method WriteIds(s: Stream, traceId: nat, spanId: nat)
    requires Valid(s) && traceId < TWO_64 && spanId < TWO_64 && Room(s, |ContextBytes(traceId, spanId, [])|)
    modifies Frame(s)
    ensures Grew(s, ContextBytes(traceId, spanId, []))
  {
    hide Varint, VarintSize, Encode, ContextBytes, ComputeVarintSerializationSize, Snap;
    ContextStarts(traceId, spanId);
    SizesAreLengths(1, traceId, []);
    SizesAreLengths(2, spanId, []);
    ghost var before := Snap(s);
    WriteBigVarint(s, 1, traceId);
    ghost var between := Snap(s);
    WriteBigVarint(s, 2, spanId);
    GrownTwice(before, between, Snap(s), Encode(VarintField(1, traceId)), Encode(VarintField(2, spanId)));
  }

  method WriteSpanContextImpl(s: Stream, traceId: nat, spanId: nat, baggage: Baggage)
    requires Valid(s) && traceId < TWO_64 && spanId < TWO_64 && BaggageOk(baggage)
    requires Room(s, |ContextBytes(traceId, spanId, baggage)|)
    modifies Frame(s)
    ensures Grew(s, ContextBytes(traceId, spanId, baggage))
  {
    hide Varint, VarintSize, Encode, ContextBytes, EntryBytes, Snap;
    assert baggage[..0] == [];
    StartFits(traceId, spanId, baggage);
    ghost var before := Snap(s);
    WriteIds(s, traceId, spanId);
    for i := 0 to |baggage|
      invariant Valid(s) && Grown(before, Snap(s), ContextBytes(traceId, spanId, baggage[..i]))
    {
      ContextGrows(traceId, spanId, baggage, i);
      ContextRoom(traceId, spanId, baggage, i);
      ghost var between := Snap(s);
      WriteEntry(s, baggage[i]);
      GrownTwice(before, between, Snap(s), ContextBytes(traceId, spanId, baggage[..i]), Encode(LengthField(3, EntryBytes(baggage[i]))));
    }
    assert baggage[..|baggage|] == baggage;
  }

  lemma StartFits(traceId: nat, spanId: nat, baggage: Baggage)
    ensures |ContextBytes(traceId, spanId, [])| <= |ContextBytes(traceId, spanId, baggage)|
  {
    hide ContextBytes;
    if baggage != [] {
      ContextGrows(traceId, spanId, baggage, 0);
      ContextRoom(traceId, spanId, baggage, 0);
      assert baggage[..0] == [];
    }
  }

  /** As a field of its own, into a direct buffer when the stream hands one out. */
  method WriteSpanContext(s: Stream, number: nat, size: nat, traceId: nat, spanId: nat, baggage: Baggage)
    requires Valid(s) && number <= 16 && traceId < TWO_64 && spanId < TWO_64 && BaggageOk(baggage)
    requires size == |ContextBytes(traceId, spanId, baggage)| < TWO_32
    requires Room(s, ComputeLengthDelimitedSerializationSize(number, size))
    modifies Frame(s)
    ensures Grew(s, Encode(LengthField(number, ContextBytes(traceId, spanId, baggage))))
  {
    hide Varint, VarintSize, Encode, ContextBytes, BaggageOk, Snap, Header;
    ghost var before := Snap(s);
    var inner := BeginField(s, number, size);
    ghost var begun := Snap(inner);
    WriteSpanContextImpl(inner, traceId, spanId, baggage);
    FieldComplete(s, inner, before, begun, number, ContextBytes(traceId, spanId, baggage));
  }

  /** The context field of a span, sized and written. */
  method WriteContextOfSpan(s: Stream, traceId: nat, spanId: nat, baggage: Baggage)
    requires Valid(s) && s.Coded? && traceId < TWO_64 && spanId < TWO_64 && BaggageOk(baggage)
    requires |ContextBytes(traceId, spanId, baggage)| < TWO_32
    modifies Frame(s)
    ensures Grew(s, Encode(LengthField(1, ContextBytes(traceId, spanId, baggage))))
  {
    hide ContextBytes, BaggageOk, Encode, Grown;
    var size := ComputeSpanContextSerializationSize(traceId, spanId, baggage);
    WriteSpanContext(s, 1, size, traceId, spanId, baggage);
  }

  /** Reading a written context gives the ids and one entry per baggage item, and every entry its key and value. */
  lemma ContextParses(traceId: nat, spanId: nat, baggage: Baggage)
    ensures ParseAll(ContextBytes(traceId, spanId, baggage)) == Some(ContextFields(traceId, spanId, baggage))
    ensures ContextFields(traceId, spanId, baggage)[..2] == [VarintField(1, traceId), VarintField(2, spanId)]
    ensures forall i :: 0 <= i < |baggage| ==>
              && ContextFields(traceId, spanId, baggage)[i + 2] == LengthField(3, EntryBytes(baggage[i]))
              && ParseAll(EntryBytes(baggage[i])) == Some([LengthField(1, baggage[i].0), LengthField(2, baggage[i].1)])
  {
    hide ParseAll, EncodeAll;
    ParseInvertsEncode(ContextFields(traceId, spanId, baggage));
    forall i | 0 <= i < |baggage|
      ensures ParseAll(EntryBytes(baggage[i])) == Some([LengthField(1, baggage[i].0), LengthField(2, baggage[i].1)])
    {
      ParseInvertsEncode(EntryFields(baggage[i]));
    }
  }

  // ---- References --------------------------------------------------------------------------------------------

  datatype ReferenceType = ChildOf | FollowsFrom

  function Relationship(t: ReferenceType): nat { if t == ChildOf then 0 else 1 }

  function ReferenceFields(t: ReferenceType, traceId: nat, spanId: nat): seq<Field> {
    [VarintField(1, Relationship(t)), LengthField(2, ContextBytes(traceId, spanId, []))]
  }

  lemma ContextIsShort(traceId: nat, spanId: nat)
    requires traceId < TWO_64 && spanId < TWO_64
    ensures |ContextBytes(traceId, spanId, [])| <= 22
  {
    hide ContextBytes, Encode, VarintSize;
    ContextStarts(traceId, spanId);
    SizesAreLengths(1, traceId, []);
    SizesAreLengths(2, spanId, []);
    VarintBounds(traceId);
    VarintBounds(spanId);
    SmallVarint(Key(1, 0));
    SmallVarint(Key(2, 0));
  }

  method WriteReferenceBody(s: Stream, t: ReferenceType, contextSize: nat, traceId: nat, spanId: nat)
    requires Valid(s) && s.Coded? && traceId < TWO_64 && spanId < TWO_64
    requires contextSize == |ContextBytes(traceId, spanId, [])|
    modifies Frame(s)
    ensures Grew(s, EncodeAll(ReferenceFields(t, traceId, spanId)))
  {
    hide Varint, VarintSize, Encode, ContextBytes, Snap;
    PairBytes(VarintField(1, Relationship(t)), LengthField(2, ContextBytes(traceId, spanId, [])));
    ContextIsShort(traceId, spanId);
    ghost var before := Snap(s);
    WriteVarint(s, 1, Relationship(t));
    ghost var between := Snap(s);
    WriteSpanContext(s, 2, contextSize, traceId, spanId, []);
    GrownTwice(before, between, Snap(s), Encode(VarintField(1, Relationship(t))),
               Encode(LengthField(2, ContextBytes(traceId, spanId, []))));
  }

  method WriteSizedReference(s: Stream, t: ReferenceType, size: nat, contextSize: nat, traceId: nat, spanId: nat)
    requires Valid(s) && s.Coded? && traceId < TWO_64 && spanId < TWO_64
    requires contextSize == |ContextBytes(traceId, spanId, [])|
    requires size == |EncodeAll(ReferenceFields(t, traceId, spanId))| < TWO_32
    modifies Frame(s)
    ensures Grew(s, Encode(LengthField(3, EncodeAll(ReferenceFields(t, traceId, spanId)))))
  {
    hide Varint, VarintSize, Encode, ContextBytes, Snap, EncodeAll, Header;
    HeaderAndBody(3, EncodeAll(ReferenceFields(t, traceId, spanId)));
    ghost var before := Snap(s);
    WriteKeyLength(s, 3, size);
    ghost var between := Snap(s);
    WriteReferenceBody(s, t, contextSize, traceId, spanId);
    GrownTwice(before, between, Snap(s), Header(3, size), EncodeAll(ReferenceFields(t, traceId, spanId)));
  }

  method WriteSpanReference(s: Stream, t: ReferenceType, traceId: nat, spanId: nat)
    requires Valid(s) && s.Coded? && traceId < TWO_64 && spanId < TWO_64
    modifies Frame(s)
    ensures Grew(s, Encode(LengthField(3, EncodeAll(ReferenceFields(t, traceId, spanId)))))
  {
    hide Varint, VarintSize, Encode, ContextBytes, Grown;
    var contextSize := ComputeSpanContextSerializationSize(traceId, spanId, []);
    var size := ComputeVarintSerializationSize(1, Relationship(t)) + ComputeLengthDelimitedSerializationSize(2, contextSize);
    ReferenceSize(t, traceId, spanId);
    WriteSizedReference(s, t, size, contextSize, traceId, spanId);
  }

  lemma ReferenceSize(t: ReferenceType, traceId: nat, spanId: nat)
    requires traceId < TWO_64 && spanId < TWO_64
    ensures ComputeVarintSerializationSize(1, Relationship(t)) +
            ComputeLengthDelimitedSerializationSize(2, |ContextBytes(traceId, spanId, [])|) ==
            |EncodeAll(ReferenceFields(t, traceId, spanId))| < TWO_32
  {
    hide Varint, VarintSize, Encode, ContextBytes;
    SizesAreLengths(1, Relationship(t), []);
    SizesAreLengths(2, 0, ContextBytes(traceId, spanId, []));
    PairBytes(VarintField(1, Relationship(t)), LengthField(2, ContextBytes(traceId, spanId, [])));
    ContextIsShort(traceId, spanId);
    ReferenceIsShort(Relationship(t), |ContextBytes(traceId, spanId, [])|);
  }

  lemma ReferenceIsShort(relationship: nat, contextSize: nat)
    requires relationship < 2 && contextSize <= 22
    ensures ComputeVarintSerializationSize(1, relationship) + ComputeLengthDelimitedSerializationSize(2, contextSize) < TWO_32
  {
    SmallVarint(relationship);
    SmallVarint(contextSize);
    SmallVarint(Key(1, 0));
    SmallVarint(Key(2, 2));
  }

  /** Reading a written reference gives the number of its type and the context it refers to. */
  lemma ReferenceParses(t: ReferenceType, traceId: nat, spanId: nat) returns (context: seq<Byte>)
    ensures t == ChildOf ==>
              ParseAll(EncodeAll(ReferenceFields(t, traceId, spanId))) == Some([VarintField(1, 0), LengthField(2, context)])
    ensures t == FollowsFrom ==>
              ParseAll(EncodeAll(ReferenceFields(t, traceId, spanId))) == Some([VarintField(1, 1), LengthField(2, context)])
    ensures ParseAll(context) == Some([VarintField(1, traceId), VarintField(2, spanId)])
  {
    context := ContextBytes(traceId, spanId, []);
    assert ContextFields(traceId, spanId, []) == [VarintField(1, traceId), VarintField(2, spanId)];
    hide ParseAll, EncodeAll, ContextFields;
    ParseInvertsEncode(ReferenceFields(t, traceId, spanId));
    ParseInvertsEncode([VarintField(1, traceId), VarintField(2, spanId)]);
  }

  // ---- Timestamps, durations, names --------------------------------------------------------------------------

  function TimestampFields(seconds: nat, nanos: nat): seq<Field> { [VarintField(1, seconds), VarintField(2, nanos)] }

  /** Reading a written timestamp gives its seconds and nanoseconds. */
  lemma TimestampParses(seconds: nat, nanos: nat)
    ensures ParseAll(EncodeAll(TimestampFields(seconds, nanos))) == Some([VarintField(1, seconds), VarintField(2, nanos)])
  {
    hide ParseAll, EncodeAll;
    ParseInvertsEncode(TimestampFields(seconds, nanos));
  }

  function ComputeTimestampSerializationSize(seconds: nat, nanos: nat): nat {
    ComputeVarintSerializationSize(1, seconds) + ComputeVarintSerializationSize(2, nanos)
  }

  lemma TimestampSize(seconds: nat, nanos: nat)
    requires seconds < TWO_64 && nanos < TWO_32
    ensures ComputeTimestampSerializationSize(seconds, nanos) == |EncodeAll(TimestampFields(seconds, nanos))| < TWO_32
  {
    hide Varint, VarintSize, Encode;
    SizesAreLengths(1, seconds, []);
    SizesAreLengths(2, nanos, []);
    PairBytes(VarintField(1, seconds), VarintField(2, nanos));
    VarintBounds(seconds);
    VarintBounds(nanos);
    VarintBounds(Key(1, 0));
    VarintBounds(Key(2, 0));
  }

  method WriteTimestampImpl(s: Stream, seconds: nat, nanos: nat)
    requires Valid(s) && seconds < TWO_64 && nanos < TWO_32 && Room(s, ComputeTimestampSerializationSize(seconds, nanos))
    modifies Frame(s)
    ensures Grew(s, EncodeAll(TimestampFields(seconds, nanos)))
  {
    hide Varint, VarintSize, Encode, Snap;
    SizesAreLengths(1, seconds, []);
    PairBytes(VarintField(1, seconds), VarintField(2, nanos));
    ghost var before := Snap(s);
    WriteVarint(s, 1, seconds);
    ghost var between := Snap(s);
    WriteVarint(s, 2, nanos);
    GrownTwice(before, between, Snap(s), Encode(VarintField(1, seconds)), Encode(VarintField(2, nanos)));
  }

  method WriteTimestamp(s: Stream, number: nat, size: nat, seconds: nat, nanos: nat)
    requires Valid(s) && s.Coded? && number <= 16 && seconds < TWO_64 && nanos < TWO_32
    requires size == ComputeTimestampSerializationSize(seconds, nanos)
    modifies Frame(s)
    ensures Grew(s, Encode(LengthField(number, EncodeAll(TimestampFields(seconds, nanos)))))
  {
    hide Varint, VarintSize, Encode, ComputeTimestampSerializationSize, Snap, Header;
    ghost var before := Snap(s);
    TimestampSize(seconds, nanos);
    var inner := BeginField(s, number, size);
    ghost var begun := Snap(inner);
    WriteTimestampImpl(inner, seconds, nanos);
    FieldComplete(s, inner, before, begun, number, EncodeAll(TimestampFields(seconds, nanos)));
  }

  method WriteStartTimestamp(s: Stream, seconds: nat, nanos: nat)
    requires Valid(s) && s.Coded? && seconds < TWO_64 && nanos < TWO_32
    modifies Frame(s)
    ensures Grew(s, Encode(LengthField(4, EncodeAll(TimestampFields(seconds, nanos)))))
  {
    hide Encode, Snap;
    WriteTimestamp(s, 4, ComputeTimestampSerializationSize(seconds, nanos), seconds, nanos);
  }

  /** The duration field fills a buffer of its size. */
  method FillDuration(buffer: array<Byte>, elapse: nat)
    requires elapse < TWO_64 && buffer.Length == ComputeVarintSerializationSize(5, elapse)
    modifies buffer
    ensures buffer[..] == Encode(VarintField(5, elapse))
  {
    hide Varint, VarintSize, Encode, ComputeVarintSerializationSize;
    SizesAreLengths(5, elapse, []);
    var directStream := new DirectCodedOutputStream(buffer, 0);
    FreshStream(directStream);
    WriteVarint(Direct(directStream), 5, elapse);
    BufferFull(directStream, Encode(VarintField(5, elapse)));
  }

  lemma BufferFull(d: DirectCodedOutputStream, bytes: seq<Byte>)
    requires d.Valid() && Snap(Direct(d)).written == [] + bytes && |bytes| == d.buffer.Length
    ensures d.buffer[..] == bytes
  {
    assert d.buffer[..] == d.buffer[..d.at];
  }

  /** The elapsed microseconds as a varint, again into a direct buffer when there is one. */
  method WriteDuration(s: Stream, elapse: nat)
    requires Valid(s) && s.Coded? && elapse < TWO_64
    modifies Frame(s)
    ensures Grew(s, Encode(VarintField(5, elapse)))
  {
    hide Encode, ComputeVarintSerializationSize;
    var totalSize := ComputeVarintSerializationSize(5, elapse);
    var buffer := s.c.GetDirectBufferForNBytesAndAdvance(totalSize);
    if buffer != null {
      FillDuration(buffer, elapse);
    } else {
      WriteVarint(s, 5, elapse);
    }
  }

  method WriteOperationName(s: Stream, name: Text)
    requires Valid(s) && s.Coded? && |name| < TWO_32
    modifies Frame(s)
    ensures Grew(s, Encode(LengthField(2, name)))
  {
    hide Encode, Snap;
    WriteString(s, 2, name);
  }
}
