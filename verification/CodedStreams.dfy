/** The two kinds of stream the serializers write to: straight into a buffer of the right size, or appending. */
module CodedStreams {
  import opened Fragments
  import opened WireFormat

  class DirectCodedOutputStream {
    const buffer: array<Byte>
    /** Where the data pointer stands. */
    var at: nat

    constructor (buffer: array<Byte>, start: nat)
      ensures this.buffer == buffer && at == start
    {
      this.buffer, at := buffer, start;
    }

    ghost predicate Valid()
      reads this
    {
      at <= buffer.Length
    }

    /** Everything in front of the data pointer. */
    ghost function Sofar(): seq<Byte>
      requires Valid()
      reads this, buffer
    {
      buffer[..at]
    }

    /** The pointer moved past what was written; nothing behind it changed. */
    twostate predicate Wrote(bytes: seq<Byte>)
      requires old(Valid())
      reads this, buffer
    {
      && Valid() && Sofar() == old(Sofar()) + bytes && buffer[at..] == old(buffer[..])[at..]
    }

    method Put(b: Byte)
      requires Valid() && at < buffer.Length
      modifies this`at, buffer
      ensures Wrote([b])
    {
      buffer[at] := b;
      at := at + 1;
    }

    method WriteRaw(bytes: seq<Byte>)
      requires Valid() && at + |bytes| <= buffer.Length
      modifies this`at, buffer
      ensures Wrote(bytes)
    {
      forall i | 0 <= i < |bytes| {
        buffer[at + i] := bytes[i];
      }
      at := at + |bytes|;
    }

    /** Part of the varint of x was written; what is left to write is the varint of `rest`. */
    twostate predicate Advanced(x: nat, rest: nat)
      requires old(Valid())
      reads this, buffer
    {
      && Valid() && at + VarintSize(rest) <= buffer.Length
      && Sofar() + Varint(rest) == old(Sofar()) + Varint(x) && buffer[at..] == old(buffer[..])[at..]
    }

    /** One step: seven bits with the top bit set. */
    method DoIteration(x: nat) returns (rest: nat)
      requires Valid() && x >= 128 && at + VarintSize(x) <= buffer.Length
      modifies this`at, buffer
      ensures rest == x / 128 && at == old(at) + 1 && Advanced(x, rest)
    {
      Associative(Sofar(), [128 + x % 128], Varint(x / 128));
      Put(128 + x % 128);
      rest := x / 128;
    }

    method PutLast(x: nat)
      requires Valid() && x < 128 && at < buffer.Length
      modifies this`at, buffer
      ensures Wrote(Varint(x))
    {
      SmallVarint(x);
      Put(x);
    }

    method WriteVarint64(x: nat)
      requires Valid() && at + VarintSize(x) <= buffer.Length
      modifies this`at, buffer
      ensures Wrote(Varint(x))
    {
      hide Varint, VarintSize;
      var rest := x;
      while rest >= 128
        invariant 0 <= rest && Advanced(x, rest)
      {
        rest := DoIteration(rest);
      }
      PutLast(rest);
    }

    method DoTwoIterations(x: nat) returns (rest: nat)
      requires Valid() && x >= 0x4000 && at + VarintSize(x) <= buffer.Length
      modifies this`at, buffer
      ensures rest == x / 128 / 128 && at == old(at) + 2 && Advanced(x, rest)
    {
      hide Varint, VarintSize;
      rest := DoIteration(x);
      rest := DoIteration(rest);
    }

    method DoFourIterations(x: nat) returns (rest: nat)
      requires Valid() && x >= 0x1000_0000 && at + VarintSize(x) <= buffer.Length
      modifies this`at, buffer
      ensures rest == x / 128 / 128 / 128 / 128 && at == old(at) + 4 && Advanced(x, rest)
    {
      hide Varint, VarintSize;
      rest := DoTwoIterations(x);
      rest := DoTwoIterations(rest);
    }

    /** The optional ninth step and the last byte. */
    method Finish(x: nat)
      requires Valid() && x < 0x4000 && at + VarintSize(x) <= buffer.Length
      modifies this`at, buffer
      ensures Wrote(Varint(x))
    {
      var rest := x;
      if rest >= 0x80 {
        rest := DoIteration(rest);
      }
      PutLast(rest);
    }

    /** The unrolled form writes the same varint, for all numbers of 64 bits. */
    method WriteBigVarint64(x: nat)
      requires Valid() && x < TWO_64 && at + VarintSize(x) <= buffer.Length
      modifies this`at, buffer
      ensures Wrote(Varint(x))
    {
      hide Varint, VarintSize;
      if x < 0x100_0000_0000_0000 {
        WriteVarint64(x);
        return;
      }
      var rest := DoFourIterations(x);
      rest := DoFourIterations(rest);
      Finish(rest);
    }
  }

  lemma SmallVarint(x: nat)
    requires x < 128
    ensures Varint(x) == [x] && VarintSize(x) == 1
  {
  }

  class CodedOutputStream {
    var out: seq<Byte>
    /** Memory that was handed out last, which ends the output for the time being. */
    var direct: array?<Byte>

    constructor ()
      ensures Contents() == [] && direct == null
    {
      out, direct := [], null;
    }

    ghost function Contents(): seq<Byte>
      reads this, direct
    {
      if direct == null then out else out + direct[..]
    }

    method WriteRaw(bytes: seq<Byte>)
      modifies this
      ensures Contents() == old(Contents()) + bytes && direct == null
    {
      if direct != null {
        out := out + direct[..];
        direct := null;
      }
      out := out + bytes;
    }

    /** May hand out the next n bytes of the output for direct writing; they are part of the output from then on. */
    method GetDirectBufferForNBytesAndAdvance(n: nat) returns (buffer: array?<Byte>)
      modifies this
      ensures buffer == null ==> Contents() == old(Contents()) && direct == null
      ensures buffer != null ==> fresh(buffer) && buffer.Length == n && direct == buffer && out == old(Contents())
    {
      WriteRaw([]);
      var contiguous := *;
      if !contiguous {
        return null;
      }
      buffer := new Byte[n](i => 0);
      direct := buffer;
    }
  }

  // ---- Either kind of stream ---------------------------------------------------------------------------------

  datatype Stream = Direct(d: DirectCodedOutputStream) | Coded(c: CodedOutputStream)

  ghost function Frame(s: Stream): set<object> {
    match s
    case Direct(d) => {d, d.buffer}
    case Coded(c) => {c}
  }

  ghost function Reads(s: Stream): set<object>
    reads Frame(s)
  {
    match s
    case Direct(d) => {d, d.buffer}
    case Coded(c) => {c} + if c.direct == null then {} else {c.direct}
  }

  ghost predicate Valid(s: Stream)
    reads Frame(s)
  {
    s.Direct? ==> s.d.Valid()
  }

  /** What has been written, and for a direct stream the memory behind the data pointer. */
  datatype Snapshot = Snapshot(written: seq<Byte>, rest: seq<Byte>)

  ghost function Snap(s: Stream): Snapshot
    requires Valid(s)
    reads Frame(s), Reads(s)
  {
    match s
    case Direct(d) => Snapshot(d.buffer[..d.at], d.buffer[d.at..])
    case Coded(c) => Snapshot(c.Contents(), [])
  }

  /** A direct stream needs room for n more bytes. */
  ghost predicate Room(s: Stream, n: nat)
    requires Valid(s)
    reads Frame(s), Reads(s)
  {
    s.Direct? ==> n <= |Snap(s).rest|
  }

  /** These bytes were written behind what was there; of the memory behind, only what they cover changed. */
  ghost predicate Grown(before: Snapshot, after: Snapshot, bytes: seq<Byte>) {
    && after.written == before.written + bytes
    && after.rest == if |bytes| <= |before.rest| then before.rest[|bytes|..] else []
  }

  twostate predicate Grew(s: Stream, bytes: seq<Byte>)
    requires old(Valid(s))
    reads Frame(s), Reads(s)
  {
    Valid(s) && Grown(old(Snap(s)), Snap(s), bytes)
  }

  lemma GrownTwice(x: Snapshot, y: Snapshot, z: Snapshot, a: seq<Byte>, b: seq<Byte>)
    requires Grown(x, y, a) && Grown(y, z, b)
    ensures Grown(x, z, a + b)
  {
    Associative(x.written, a, b);
    if |a + b| <= |x.rest| {
      assert x.rest[|a|..][|b|..] == x.rest[|a + b|..];
    }
  }

  /** The stream over a buffer that was just handed out. */
  lemma FreshStream(d: DirectCodedOutputStream)
    requires d.at == 0
    ensures Snap(Direct(d)) == Snapshot([], d.buffer[..])
  {
  }

  method WriteRaw(s: Stream, bytes: seq<Byte>)
    requires Valid(s) && Room(s, |bytes|)
    modifies Frame(s)
    ensures Grew(s, bytes)
  {
    match s
    case Direct(d) =>
      ghost var x := Snap(s);
      assert x.written + x.rest == d.buffer[..];
      d.WriteRaw(bytes);
      DirectGrown(d, x, bytes);
    case Coded(c) => c.WriteRaw(bytes);
  }

  lemma DirectGrown(d: DirectCodedOutputStream, x: Snapshot, bytes: seq<Byte>)
    requires d.Valid() && |bytes| <= |x.rest| && |x.written| + |x.rest| == d.buffer.Length
    requires d.Sofar() == x.written + bytes && d.buffer[d.at..] == (x.written + x.rest)[d.at..]
    ensures Grown(x, Snap(Direct(d)), bytes)
  {
    assert (x.written + x.rest)[d.at..] == x.rest[|bytes|..];
  }

  method WriteVarint64(s: Stream, x: nat)
    requires Valid(s) && x < TWO_64 && Room(s, VarintSize(x))
    modifies Frame(s)
    ensures Grew(s, Varint(x))
  {
    hide Varint, VarintSize;
    match s
    case Direct(d) =>
      ghost var before := Snap(s);
      assert before.written + before.rest == d.buffer[..];
      VarintLength(x);
      d.WriteVarint64(x);
      DirectGrown(d, before, Varint(x));
    case Coded(c) => c.WriteRaw(Varint(x));
  }

  /** Only direct streams have a form of their own for big numbers. */
  method WriteBigVarint64(s: Stream, x: nat)
    requires Valid(s) && x < TWO_64 && Room(s, VarintSize(x))
    modifies Frame(s)
    ensures Grew(s, Varint(x))
  {
    hide Varint, VarintSize;
    match s
    case Direct(d) =>
      ghost var before := Snap(s);
      assert before.written + before.rest == d.buffer[..];
      VarintLength(x);
      d.WriteBigVarint64(x);
      DirectGrown(d, before, Varint(x));
    case Coded(c) => WriteVarint64(s, x);
  }
}
