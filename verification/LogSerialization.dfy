/** Log records: a first pass sizes the fields and collects the JSON texts, a second one writes them. */
module LogSerialization {
  import opened Fragments
  import opened Wrappers
  import opened WireFormat
  import opened CodedStreams
  import opened Serialization
  import opened KeyValues
  import opened SpanSerialization

  type LogFields = seq<(Text, Value)>

  predicate FieldsOk(fields: LogFields) {
    forall i :: 0 <= i < |fields| ==>
      |fields[i].0| < TWO_32 && ValueOk(fields[i].1) && |KeyValueBytes(fields[i].0, fields[i].1)| < TWO_32
  }

  function FieldMessages(fields: LogFields): (fs: seq<Field>)
    requires FieldsOk(fields)
    ensures |fs| == |fields|
  {
    seq(|fields|, i requires 0 <= i < |fields| => LengthField(2, KeyValueBytes(fields[i].0, fields[i].1)))
  }

  /** A timestamp, then one key-value pair per field. */
  function RecordFields(seconds: nat, nanos: nat, fields: LogFields): seq<Field>
    requires FieldsOk(fields)
  {
    [LengthField(1, EncodeAll(TimestampFields(seconds, nanos)))] + FieldMessages(fields)
  }

  function RecordBytes(seconds: nat, nanos: nat, fields: LogFields): seq<Byte>
    requires FieldsOk(fields)
  {
    EncodeAll(RecordFields(seconds, nanos, fields))
  }

  lemma RecordStarts(seconds: nat, nanos: nat)
    ensures RecordBytes(seconds, nanos, []) == Encode(LengthField(1, EncodeAll(TimestampFields(seconds, nanos))))
  {
    hide Encode;
    var f := LengthField(1, EncodeAll(TimestampFields(seconds, nanos)));
    assert RecordFields(seconds, nanos, []) == [f];
    assert [f][1..] == [];
    assert EncodeAll([f]) == Encode(f) + EncodeAll([]);
  }

  lemma RecordGrows(seconds: nat, nanos: nat, fields: LogFields, i: nat)
    requires FieldsOk(fields) && i < |fields|
    ensures RecordBytes(seconds, nanos, fields[..i + 1]) ==
            RecordBytes(seconds, nanos, fields[..i]) + Encode(LengthField(2, KeyValueBytes(fields[i].0, fields[i].1)))
  {
    hide Encode, EncodeAll, KeyValueBytes;
    var f := LengthField(2, KeyValueBytes(fields[i].0, fields[i].1));
    EncodePush(RecordFields(seconds, nanos, fields[..i]), f);
    assert RecordFields(seconds, nanos, fields[..i + 1]) == RecordFields(seconds, nanos, fields[..i]) + [f];
  }

  // ---- JSON texts --------------------------------------------------------------------------------------------

  function JsonOf(v: Value): seq<Text> { if v.Structured? then [v.json] else [] }

  /** The texts of the fields that need one, in order. */
  function JsonTexts(fields: LogFields): seq<Text> {
    if fields == [] then [] else JsonTexts(fields[..|fields| - 1]) + JsonOf(fields[|fields| - 1].1)
  }

  lemma NoTexts()
    ensures JsonTexts([]) == []
  {
  }

  lemma JsonGrows(fields: LogFields, i: nat)
    requires i < |fields|
    ensures JsonTexts(fields[..i + 1]) == JsonTexts(fields[..i]) + JsonOf(fields[i].1)
  {
    assert fields[..i + 1][..i] == fields[..i];
  }

  /** The text a field refers to in the second pass is the one computed for it in the first. */
  lemma {:induction false} JsonPairs(fields: LogFields, i: nat, k: nat)
    requires i < k <= |fields| && fields[i].1.Structured?
    ensures |JsonTexts(fields[..i])| < |JsonTexts(fields[..k])|
    ensures JsonTexts(fields[..k])[|JsonTexts(fields[..i])|] == fields[i].1.json
  {
    JsonGrows(fields, k - 1);
    if i + 1 < k {
      JsonPairs(fields, i, k - 1);
    }
  }

  // ---- First pass --------------------------------------------------------------------------------------------

  /** Sizes of the fields, the texts in order, and the size of the whole record. */
  method SizeFields(fields: LogFields, seconds: nat, nanos: nat, sizes: array<nat>)
    returns (serializationSize: nat, jsonValues: seq<Text>)
    requires FieldsOk(fields) && sizes.Length == |fields| && seconds < TWO_64 && nanos < TWO_32
    modifies sizes
    ensures serializationSize == |RecordBytes(seconds, nanos, fields)| && jsonValues == JsonTexts(fields)
    ensures forall i :: 0 <= i < |fields| ==> sizes[i] == |KeyValueBytes(fields[i].0, fields[i].1)|
  {
    hide KeyValueBytes, RecordBytes, Encode, EncodeAll, JsonTexts, Varint, VarintSize, ComputeTimestampSerializationSize;
    assert JsonTexts([]) == [] by { NoTexts(); }
    var json: Text, jsonCounter: nat := [], 0;
    jsonValues := [];
    serializationSize := ComputeLengthDelimitedSerializationSize(1, ComputeTimestampSerializationSize(seconds, nanos));
    TimestampSize(seconds, nanos);
    SizesAreLengths(1, 0, EncodeAll(TimestampFields(seconds, nanos)));
    RecordStarts(seconds, nanos);
    assert fields[..0] == [];
    for i := 0 to |fields|
      invariant serializationSize == |RecordBytes(seconds, nanos, fields[..i])|
      invariant jsonValues == JsonTexts(fields[..i]) && jsonCounter == |jsonValues|
      invariant forall k :: 0 <= k < i ==> sizes[k] == |KeyValueBytes(fields[k].0, fields[k].1)|
    {
      var size;
      size, json, jsonCounter := ComputeKeyValueSerializationSize(fields[i].0, fields[i].1, json, jsonCounter);
      if jsonCounter > |jsonValues| {
        jsonValues := jsonValues + [json];
      }
      sizes[i] := size;
      serializationSize := serializationSize + ComputeLengthDelimitedSerializationSize(2, size);
      JsonGrows(fields, i);
      RecordGrows(seconds, nanos, fields, i);
      SizesAreLengths(2, 0, KeyValueBytes(fields[i].0, fields[i].1));
    }
    assert fields[..|fields|] == fields;
  }

  // ---- Second pass -------------------------------------------------------------------------------------------

  method WriteFields(s: Stream, fields: LogFields, ghost seconds: nat, ghost nanos: nat, sizes: array<nat>, jsonValues: seq<Text>,
                     ghost before: Snapshot)
    requires Valid(s) && s.Coded? && FieldsOk(fields) && sizes.Length == |fields| && jsonValues == JsonTexts(fields)
    requires forall i :: 0 <= i < |fields| ==> sizes[i] == |KeyValueBytes(fields[i].0, fields[i].1)|
    requires Grown(before, Snap(s), RecordBytes(seconds, nanos, []))
    modifies Frame(s)
    ensures Valid(s) && Grown(before, Snap(s), RecordBytes(seconds, nanos, fields))
  {
    hide KeyValueBytes, RecordBytes, Encode, Snap;
    var jsonCounter := 0;
    assert fields[..0] == [] && fields[..|fields|] == fields;
    for i := 0 to |fields|
      invariant Valid(s) && Grown(before, Snap(s), RecordBytes(seconds, nanos, fields[..i]))
      invariant jsonCounter == |JsonTexts(fields[..i])|
    {
      if fields[i].1.Structured? {
        JsonPairs(fields, i, |fields|);
      }
      ghost var between := Snap(s);
      jsonCounter := WriteSizedKeyValue(s, 2, sizes[i], fields[i].0, fields[i].1, jsonValues, jsonCounter);
      JsonGrows(fields, i);
      RecordGrows(seconds, nanos, fields, i);
      GrownTwice(before, between, Snap(s), RecordBytes(seconds, nanos, fields[..i]),
                 Encode(LengthField(2, KeyValueBytes(fields[i].0, fields[i].1))));
    }
  }

  method WriteSizedLog(s: Stream, serializationSize: nat, seconds: nat, nanos: nat, fields: LogFields, sizes: array<nat>,
                       jsonValues: seq<Text>)
    requires Valid(s) && s.Coded? && FieldsOk(fields) && seconds < TWO_64 && nanos < TWO_32
    requires serializationSize == |RecordBytes(seconds, nanos, fields)| < TWO_32 && jsonValues == JsonTexts(fields)
    requires sizes.Length == |fields| && sizes !in Frame(s)
    requires forall i :: 0 <= i < |fields| ==> sizes[i] == |KeyValueBytes(fields[i].0, fields[i].1)|
    modifies Frame(s)
    ensures Grew(s, Encode(LengthField(7, RecordBytes(seconds, nanos, fields))))
  {
    hide KeyValueBytes, RecordBytes, Encode, ComputeTimestampSerializationSize, Header, FieldsOk, Snap;
    ghost var before, body := Snap(s), RecordBytes(seconds, nanos, fields);
    HeaderAndBody(7, body);
    WriteKeyLength(s, 7, serializationSize);
    ghost var start := Snap(s);
    WriteTimestamp(s, 1, ComputeTimestampSerializationSize(seconds, nanos), seconds, nanos);
    RecordStarts(seconds, nanos);
    WriteFields(s, fields, seconds, nanos, sizes, jsonValues, start);
    GrownTwice(before, start, Snap(s), Header(7, |body|), body);
  }

  /** One log record as a field of the span: both passes. */
  method WriteLog(s: Stream, seconds: nat, nanos: nat, fields: LogFields)
    requires Valid(s) && s.Coded? && FieldsOk(fields) && seconds < TWO_64 && nanos < TWO_32
    requires |RecordBytes(seconds, nanos, fields)| < TWO_32
    modifies Frame(s)
    ensures Grew(s, Encode(LengthField(7, RecordBytes(seconds, nanos, fields))))
  {
    hide KeyValueBytes, RecordBytes, Encode, FieldsOk, Grown, JsonTexts;
    var sizes := new nat[|fields|];
    var serializationSize, jsonValues := SizeFields(fields, seconds, nanos, sizes);
    WriteSizedLog(s, serializationSize, seconds, nanos, fields, sizes, jsonValues);
  }

  /** Reading a written record gives the timestamp and, field by field, the key and what its value means. */
  lemma RecordParses(seconds: nat, nanos: nat, fields: LogFields) returns (timestamp: seq<Byte>, pairs: seq<seq<Byte>>)
    requires FieldsOk(fields)
    ensures |pairs| == |fields|
    ensures ParseAll(RecordBytes(seconds, nanos, fields)) ==
            Some([LengthField(1, timestamp)] + seq(|pairs|, i requires 0 <= i < |pairs| => LengthField(2, pairs[i])))
    ensures ParseAll(timestamp) == Some([VarintField(1, seconds), VarintField(2, nanos)])
    ensures forall i :: 0 <= i < |fields| ==>
              && ParseAll(pairs[i]) == Some([LengthField(1, fields[i].0), ValueField(fields[i].1)])
              && ValueOf(ValueField(fields[i].1)) == Some(Meaning(fields[i].1))
  {
    hide ParseAll, EncodeAll, KeyValueBytes, TimestampFields;
    timestamp := EncodeAll(TimestampFields(seconds, nanos));
    pairs := seq(|fields|, i requires 0 <= i < |fields| => KeyValueBytes(fields[i].0, fields[i].1));
    TimestampParses(seconds, nanos);
    ParseInvertsEncode(RecordFields(seconds, nanos, fields));
    assert RecordFields(seconds, nanos, fields) ==
           [LengthField(1, timestamp)] + seq(|pairs|, i requires 0 <= i < |pairs| => LengthField(2, pairs[i]));
    forall i | 0 <= i < |fields|
      ensures ParseAll(pairs[i]) == Some([LengthField(1, fields[i].0), ValueField(fields[i].1)])
      ensures ValueOf(ValueField(fields[i].1)) == Some(Meaning(fields[i].1))
    {
      KeyValueParses(fields[i].0, fields[i].1);
    }
  }
}
