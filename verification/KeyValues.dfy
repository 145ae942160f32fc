/** Key-value pairs: their size is computed first, together with the text of values that are written as JSON, and a
    second pass writes them. */
module KeyValues {
  import opened Wrappers
  import opened Fragments
  import opened WireFormat
  import opened CodedStreams
  import opened Serialization

  const TWO_63: nat := 0x8000_0000_0000_0000

  /** A tag or log value. Lists and dictionaries are known by the JSON text they convert to. */
  datatype Value =
    | Bool(b: bool)
    | Double(word: seq<Byte>)
    | Int(i: int)
    | Uint(u: nat)
    | Str(s: seq<Byte>)
    | Null
    | CStr(s: seq<Byte>)
    | Structured(json: seq<Byte>)

  predicate ValueOk(v: Value) {
    match v
    case Double(word) => |word| == 8
    case Int(i) => 0 - TWO_63 <= i < TWO_63
    case Uint(u) => u < TWO_64
    case Str(s) => |s| < TWO_32
    case CStr(s) => |s| < TWO_32
    case Structured(json) => |json| < TWO_32
    case _ => true
  }

  /** Two's complement in 64 bits. */
  function ToUint64(i: int): (x: nat)
    requires 0 - TWO_63 <= i < TWO_63
    ensures x < TWO_64
  {
    if i < 0 then i + TWO_64 else i
  }

  function ToInt64(u: nat): (i: int)
    requires u < TWO_64
    ensures 0 - TWO_63 <= i < TWO_63 && ToUint64(i) == u
  {
    if u < TWO_63 then u else u - TWO_64
  }

  /** The field a value is sent as: a null pointer is a false, an unsigned number a signed one of the same bits. */
  function ValueField(v: Value): Field
    requires ValueOk(v)
  {
    match v
    case Bool(b) => VarintField(5, if b then 1 else 0)
    case Double(word) => Fixed64Field(4, word)
    case Int(i) => VarintField(3, ToUint64(i))
    case Uint(u) => VarintField(3, u)
    case Str(s) => LengthField(2, s)
    case Null => VarintField(5, 0)
    case CStr(s) => LengthField(2, s)
    case Structured(json) => LengthField(6, json)
  }

  function KeyValueFields(key: seq<Byte>, v: Value): seq<Field>
    requires ValueOk(v)
  {
    [LengthField(1, key), ValueField(v)]
  }

  function KeyValueBytes(key: seq<Byte>, v: Value): seq<Byte>
    requires ValueOk(v)
  {
    EncodeAll(KeyValueFields(key, v))
  }

  lemma PairBytes(a: Field, b: Field)
    ensures EncodeAll([a, b]) == Encode(a) + Encode(b)
  {
    hide Encode;
    assert [a, b][1..] == [b] && [b][1..] == [];
    assert EncodeAll([b]) == Encode(b) + EncodeAll([]);
  }

  // ---- First pass --------------------------------------------------------------------------------------------

  /** The size visitor. */
  method ValueSize(v: Value, json: seq<Byte>, jsonCounter: nat) returns (size: nat, jsonOut: seq<Byte>, counterOut: nat)
    requires ValueOk(v)
    ensures size == |Encode(ValueField(v))|
    ensures jsonOut == (if v.Structured? then v.json else json)
    ensures counterOut == jsonCounter + if v.Structured? then 1 else 0
  {
    hide Varint, VarintSize;
    jsonOut, counterOut := json, jsonCounter;
    var field := ValueField(v);
    match v {
      case Bool(b) => size := ComputeVarintSerializationSize(5, if b then 1 else 0);
      case Double(_) => size := KeySize(4, 1) + 8;
      case Int(i) => size := ComputeVarintSerializationSize(3, ToUint64(i));
      case Uint(u) => size := ComputeVarintSerializationSize(3, ToUint64(ToInt64(u)));
      case Str(s) => size := ComputeLengthDelimitedSerializationSize(2, |s|);
      case Null => size := ComputeVarintSerializationSize(5, 0);
      case CStr(s) => size := ComputeLengthDelimitedSerializationSize(2, |s|);
      case Structured(text) =>
        jsonOut := text;
        counterOut := jsonCounter + 1;
        size := ComputeLengthDelimitedSerializationSize(6, |jsonOut|);
    }
    VarintLength(Key(4, 1));
    SizesAreLengths(field.number, if field.VarintField? then field.x else 0, if field.LengthField? then field.body else []);
  }

  method ComputeKeyValueSerializationSize(key: seq<Byte>, v: Value, json: seq<Byte>, jsonCounter: nat)
    returns (size: nat, jsonOut: seq<Byte>, counterOut: nat)
    requires ValueOk(v)
    ensures size == |KeyValueBytes(key, v)|
    ensures jsonOut == (if v.Structured? then v.json else json)
    ensures counterOut == jsonCounter + if v.Structured? then 1 else 0
  {
    hide Varint, VarintSize, Encode;
    size := ComputeLengthDelimitedSerializationSize(1, |key|);
    var valueSize;
    valueSize, jsonOut, counterOut := ValueSize(v, json, jsonCounter);
    size := size + valueSize;
    SizesAreLengths(1, 0, key);
    PairBytes(LengthField(1, key), ValueField(v));
  }

  // ---- Second pass -------------------------------------------------------------------------------------------

  /** The writing visitor; the text of the value, if it needs one, is the next one that was computed. */
  method WriteValue(s: Stream, v: Value, jsonValues: seq<seq<Byte>>, jsonCounter: nat) returns (counterOut: nat)
    requires Valid(s) && s.Coded? && ValueOk(v)
    requires v.Structured? ==> jsonCounter < |jsonValues| && jsonValues[jsonCounter] == v.json
    modifies Frame(s)
    ensures Grew(s, Encode(ValueField(v)))
    ensures counterOut == jsonCounter + if v.Structured? then 1 else 0
  {
    hide Varint, VarintSize, Encode, Snap;
    counterOut := jsonCounter;
    match v {
      case Bool(b) => WriteVarint(s, 5, if b then 1 else 0);
      case Double(word) => WriteFixed64(s, 4, word);
      case Int(i) => WriteVarint(s, 3, ToUint64(i));
      case Uint(u) => WriteVarint(s, 3, ToUint64(ToInt64(u)));
      case Str(text) => WriteString(s, 2, text);
      case Null => WriteVarint(s, 5, 0);
      case CStr(text) => WriteString(s, 2, text);
      case Structured(_) =>
        WriteString(s, 6, jsonValues[jsonCounter]);
        counterOut := jsonCounter + 1;
    }
  }

  method WriteKeyValueImpl(s: Stream, key: seq<Byte>, v: Value, jsonValues: seq<seq<Byte>>, jsonCounter: nat)
    returns (counterOut: nat)
    requires Valid(s) && s.Coded? && |key| < TWO_32 && ValueOk(v)
    requires v.Structured? ==> jsonCounter < |jsonValues| && jsonValues[jsonCounter] == v.json
    modifies Frame(s)
    ensures Grew(s, KeyValueBytes(key, v))
    ensures counterOut == jsonCounter + if v.Structured? then 1 else 0
  {
    hide Varint, VarintSize, Encode, Snap, ValueField;
    PairBytes(LengthField(1, key), ValueField(v));
    ghost var before := Snap(s);
    WriteString(s, 1, key);
    ghost var between := Snap(s);
    counterOut := WriteValue(s, v, jsonValues, jsonCounter);
    GrownTwice(before, between, Snap(s), Encode(LengthField(1, key)), Encode(ValueField(v)));
  }

  /** With its key and length, sized beforehand. */
  method WriteSizedKeyValue(s: Stream, number: nat, size: nat, key: seq<Byte>, v: Value, jsonValues: seq<seq<Byte>>, jsonCounter: nat)
    returns (counterOut: nat)
    requires Valid(s) && s.Coded? && number <= 16 && |key| < TWO_32 && ValueOk(v)
    requires size == |KeyValueBytes(key, v)| < TWO_32
    requires v.Structured? ==> jsonCounter < |jsonValues| && jsonValues[jsonCounter] == v.json
    modifies Frame(s)
    ensures Grew(s, Encode(LengthField(number, KeyValueBytes(key, v))))
    ensures counterOut == jsonCounter + if v.Structured? then 1 else 0
  {
    hide Varint, VarintSize, Encode, KeyValueBytes, Snap, Header;
    HeaderAndBody(number, KeyValueBytes(key, v));
    ghost var before := Snap(s);
    WriteKeyLength(s, number, size);
    ghost var between := Snap(s);
    counterOut := WriteKeyValueImpl(s, key, v, jsonValues, jsonCounter);
    GrownTwice(before, between, Snap(s), Header(number, size), KeyValueBytes(key, v));
  }

  /** Both passes for a single pair. */
  method WriteKeyValue(s: Stream, number: nat, key: seq<Byte>, v: Value)
    requires Valid(s) && s.Coded? && number <= 16 && |key| < TWO_32 && ValueOk(v) && |KeyValueBytes(key, v)| < TWO_32
    modifies Frame(s)
    ensures Grew(s, Encode(LengthField(number, KeyValueBytes(key, v))))
  {
    hide KeyValueBytes, Encode, Grown;
    var size, json, jsonCounter := ComputeKeyValueSerializationSize(key, v, [], 0);
    jsonCounter := WriteSizedKeyValue(s, number, size, key, v, [json], 0);
  }

  // ---- What the collector reads ------------------------------------------------------------------------------

  /** The value alternatives of the collector's key-value message. */
  datatype ReadValue = StringValue(s: seq<Byte>) | IntValue(i: int) | DoubleValue(word: seq<Byte>) | BoolValue(b: bool) |
                       JsonValue(json: seq<Byte>)

  /** The alternative a field stands for; a signed number of 64 bits is sent as the unsigned one of the same bits. */
  function ValueOf(f: Field): Option<ReadValue> {
    match f
    case LengthField(2, s) => Some(StringValue(s))
    case VarintField(3, x) => Some(IntValue(if x < 0x8000_0000_0000_0000 then x else x - 0x1_0000_0000_0000_0000))
    case Fixed64Field(4, word) => Some(DoubleValue(word))
    case VarintField(5, x) => Some(BoolValue(x != 0))
    case LengthField(6, json) => Some(JsonValue(json))
    case _ => None
  }

  /** What is read for a value: an unsigned number that needs all 64 bits comes out negative, a null pointer as false. */
  function Meaning(v: Value): ReadValue {
    match v
    case Bool(b) => BoolValue(b)
    case Double(word) => DoubleValue(word)
    case Int(i) => IntValue(i)
    case Uint(u) => IntValue(if u < TWO_63 then u else u - TWO_64)
    case Str(s) => StringValue(s)
    case Null => BoolValue(false)
    case CStr(s) => StringValue(s)
    case Structured(json) => JsonValue(json)
  }

  /** Reading a pair back gives its key and what its value means. */
  lemma KeyValueParses(key: seq<Byte>, v: Value)
    requires ValueOk(v)
    ensures ParseAll(KeyValueBytes(key, v)) == Some([LengthField(1, key), ValueField(v)])
    ensures ValueOf(ValueField(v)) == Some(Meaning(v))
  {
    hide ParseAll, EncodeAll;
    ParseInvertsEncode(KeyValueFields(key, v));
  }
}
