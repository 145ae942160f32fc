/** The Protocol Buffers wire format: base-128 varints, and fields made of a key and a value. */
module WireFormat {
  import opened Fragments
  import opened Wrappers

  // ---- Varints -----------------------------------------------------------------------------------------------

  /** Seven bits to a byte, least significant first; all bytes but the last have the top bit set. */
  function Varint(x: nat): (s: seq<Byte>)
    ensures s != []
  {
    if x < 128 then [x] else [128 + x % 128] + Varint(x / 128)
  }

  /** Number of bytes a varint takes. */
  function VarintSize(x: nat): (n: nat)
    ensures n > 0
  {
    if x < 128 then 1 else 1 + VarintSize(x / 128)
  }

  /** Reads one varint; the result is its value and what follows it. */
  function ReadVarint(s: seq<Byte>): (r: Option<(nat, seq<Byte>)>)
    ensures r.Some? ==> |r.value.1| < |s|
  {
    if s == [] then None
    else if s[0] < 128 then Some((s[0], s[1..]))
    else
      var rest := ReadVarint(s[1..]);
      if rest.None? then None else Some((s[0] - 128 + 128 * rest.value.0, rest.value.1))
  }

  lemma {:induction false} VarintLength(x: nat)
    ensures |Varint(x)| == VarintSize(x)
  {
    if x >= 128 {
      VarintLength(x / 128);
    }
  }

  lemma {:induction false} ReadInvertsVarint(x: nat, rest: seq<Byte>)
    ensures ReadVarint(Varint(x) + rest) == Some((x, rest))
  {
    var s := Varint(x) + rest;
    if x < 128 {
      assert s[1..] == rest;
    } else {
      ReadInvertsVarint(x / 128, rest);
      assert s[1..] == Varint(x / 128) + rest;
    }
  }

  function Pow128(k: nat): nat { if k == 0 then 1 else 128 * Pow128(k - 1) }

  lemma {:induction false} SizeBelow(x: nat, k: nat)
    requires 0 < k && x < Pow128(k)
    ensures VarintSize(x) <= k
  {
    if x >= 128 {
      assert Pow128(0) == 1;
      SizeBelow(x / 128, k - 1);
    }
  }

  /** Numbers of 32 and 64 bits take at most five and ten bytes. */
  lemma VarintBounds(x: nat)
    ensures x < TWO_32 ==> VarintSize(x) <= 5
    ensures x < TWO_64 ==> VarintSize(x) <= 10
  {
    assert Pow128(3) == 0x20_0000;
    assert Pow128(5) == 0x4000 * Pow128(3);
    assert Pow128(8) == 0x20_0000 * Pow128(5);
    assert Pow128(10) == 0x4000 * Pow128(8);
    if x < TWO_32 {
      SizeBelow(x, 5);
    }
    if x < TWO_64 {
      SizeBelow(x, 10);
    }
  }

  // ---- Fields ------------------------------------------------------------------------------------------------

  datatype Field =
    | VarintField(number: nat, x: nat)
    | Fixed64Field(number: nat, word: seq<Byte>)
    | LengthField(number: nat, body: seq<Byte>)

  /** Field number and wire type, combined into the key of a field. */
  function Key(number: nat, wireType: nat): nat { 8 * number + wireType }

  function Encode(f: Field): seq<Byte> {
    match f
    case VarintField(number, x) => Varint(Key(number, 0)) + Varint(x)
    case Fixed64Field(number, word) => Varint(Key(number, 1)) + word
    case LengthField(number, body) => Varint(Key(number, 2)) + Varint(|body|) + body
  }

  function EncodeAll(fs: seq<Field>): seq<Byte> {
    if fs == [] then [] else Encode(fs[0]) + EncodeAll(fs[1..])
  }

  predicate FieldOk(f: Field) { f.Fixed64Field? ==> |f.word| == 8 }

  /** Reads one field; the result is the field and what follows it. */
  function ParseField(s: seq<Byte>): (r: Option<(Field, seq<Byte>)>)
    ensures r.Some? ==> |r.value.1| < |s|
  {
    var key := ReadVarint(s);
    if key.None? then None
    else
      var number, rest := key.value.0 / 8, key.value.1;
      match key.value.0 % 8
      case 0 =>
        var x := ReadVarint(rest);
        if x.None? then None else Some((VarintField(number, x.value.0), x.value.1))
      case 1 => if |rest| < 8 then None else Some((Fixed64Field(number, rest[..8]), rest[8..]))
      case 2 =>
        var n := ReadVarint(rest);
        if n.None? || n.value.0 > |n.value.1| then None
        else Some((LengthField(number, n.value.1[..n.value.0]), n.value.1[n.value.0..]))
      case _ => None
  }

  /** Reads a whole message. */
  function ParseAll(s: seq<Byte>): Option<seq<Field>>
    decreases |s|
  {
    if s == [] then Some([])
    else
      var f := ParseField(s);
      if f.None? then None
      else
        var rest := ParseAll(f.value.1);
        if rest.None? then None else Some([f.value.0] + rest.value)
  }

  lemma FieldParses(f: Field, rest: seq<Byte>)
    requires FieldOk(f)
    ensures ParseField(Encode(f) + rest) == Some((f, rest))
  {
    hide Varint, ReadVarint;
    match f
    case VarintField(number, x) =>
      ReadInvertsVarint(Key(number, 0), Varint(x) + rest);
      ReadInvertsVarint(x, rest);
      Associative(Varint(Key(number, 0)), Varint(x), rest);
    case Fixed64Field(number, word) =>
      ReadInvertsVarint(Key(number, 1), word + rest);
      Associative(Varint(Key(number, 1)), word, rest);
    case LengthField(number, body) =>
      ReadInvertsVarint(Key(number, 2), Varint(|body|) + (body + rest));
      ReadInvertsVarint(|body|, body + rest);
      Associative(Varint(Key(number, 2)), Varint(|body|), body);
      Associative(Varint(Key(number, 2)), Varint(|body|) + body, rest);
      Associative(Varint(|body|), body, rest);
  }

  /** Reading a written message gives its fields back. */
  lemma {:induction false} ParseInvertsEncode(fs: seq<Field>)
    requires forall i :: 0 <= i < |fs| ==> FieldOk(fs[i])
    ensures ParseAll(EncodeAll(fs)) == Some(fs)
  {
    hide ParseField, Encode;
    if fs != [] {
      FieldParses(fs[0], EncodeAll(fs[1..]));
      ParseInvertsEncode(fs[1..]);
      assert fs == [fs[0]] + fs[1..];
      EncodeNotEmpty(fs[0]);
    }
  }

  lemma EncodeNotEmpty(f: Field)
    ensures Encode(f) != []
  {
  }

  lemma {:induction false} EncodeConcat(a: seq<Field>, b: seq<Field>)
    ensures EncodeAll(a + b) == EncodeAll(a) + EncodeAll(b)
  {
    hide Encode;
    if a == [] {
      assert a + b == b;
    } else {
      assert (a + b)[1..] == a[1..] + b;
      EncodeConcat(a[1..], b);
      Associative(Encode(a[0]), EncodeAll(a[1..]), EncodeAll(b));
    }
  }

  lemma EncodePush(fs: seq<Field>, f: Field)
    ensures EncodeAll(fs + [f]) == EncodeAll(fs) + Encode(f)
  {
    EncodeConcat(fs, [f]);
    assert [f][1..] == [];
  }

  /** A length is written as a number of 32 bits; what is read back is the length exactly when it fits. */
  lemma LengthRecovered(length: nat, rest: seq<Byte>)
    ensures ReadVarint(Varint(length % TWO_32) + rest) == Some((length % TWO_32, rest))
    ensures length % TWO_32 == length <==> length < TWO_32
  {
    ReadInvertsVarint(length % TWO_32, rest);
  }
}
