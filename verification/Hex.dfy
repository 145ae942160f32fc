/** Hexadecimal text: what it denotes, printing it through a table of digit pairs, parsing it. */
module Hex {
  import opened Fragments
  import opened Wrappers

  type Text = seq<Byte>

  /** The lookup tables are only ever indexed with seven-bit characters. */
  predicate Ascii7(s: Text) { forall i :: 0 <= i < |s| ==> s[i] < 128 }

  const ZERO: Byte := 48
  const NIL: nat := 255

  /** The entry of the parsing table for a seven-bit character. */
  function HexTable(c: Byte): nat {
    if 48 <= c <= 57 then c - 48 else if 65 <= c <= 70 then c - 55 else if 97 <= c <= 102 then c - 87 else NIL
  }

  function LowerDigit(d: nat): Byte
    requires d < 16
  {
    if d < 10 then 48 + d else 87 + d
  }

  /** The two digits of every byte, one after the other. */
  const HEX_DIGIT_LOOKUP_TABLE: seq<Byte> :=
    seq(512, i requires 0 <= i < 512 => if i % 2 == 0 then LowerDigit(i / 32) else LowerDigit(i / 2 % 16))

  // ---- Meaning ---------------------------------------------------------------------------------------------

  predicate IsHexDigit(c: Byte) { HexTable(c) != NIL }

  predicate AllHex(s: Text) { forall i :: 0 <= i < |s| ==> IsHexDigit(s[i]) }

  /** The number a text of hexadecimal digits denotes. */
  function Value(s: Text): nat {
    if s == [] then 0 else 16 * Value(s[..|s| - 1]) + HexTable(s[|s| - 1])
  }

  function Pow16(n: nat): (p: nat)
    ensures p >= 1
  {
    if n == 0 then 1 else 16 * Pow16(n - 1)
  }

  lemma Powers()
    ensures Pow16(2) == 256 && Pow16(8) == 0x1_0000_0000 && Pow16(16) == TWO_64
  {
    assert Pow16(4) == 65536;
    assert Pow16(8) == 65536 * Pow16(4);
    assert Pow16(12) == 65536 * Pow16(8);
    assert Pow16(16) == 65536 * Pow16(12);
  }

  lemma {:induction false} PowGrows(m: nat, n: nat)
    requires m <= n
    ensures Pow16(m) <= Pow16(n)
  {
    if m < n {
      PowGrows(m, n - 1);
    }
  }

  lemma {:induction false} PowSum(m: nat, n: nat)
    ensures Pow16(m + n) == Pow16(m) * Pow16(n)
  {
    if n > 0 {
      PowSum(m, n - 1);
      assert Pow16(m) * (16 * Pow16(n - 1)) == 16 * (Pow16(m) * Pow16(n - 1));
    }
  }

  /** A text of n digits denotes a number below 16 to the n, and one without a leading zero uses all its digits. */
  lemma {:induction false} ValueBounds(s: Text)
    requires AllHex(s)
    ensures Value(s) < Pow16(|s|)
    ensures s != [] && s[0] != ZERO ==> Value(s) >= Pow16(|s| - 1)
  {
    if |s| > 0 {
      ValueBounds(s[..|s| - 1]);
    }
  }

  lemma {:induction false} ValueConcat(a: Text, b: Text)
    ensures Value(a + b) == Value(a) * Pow16(|b|) + Value(b)
  {
    if b == [] {
      assert a + b == a;
    } else {
      var front := b[..|b| - 1];
      assert (a + b)[..|a + b| - 1] == a + front;
      ValueConcat(a, front);
      Distribute(Value(a), Pow16(|front|), Value(front));
    }
  }

  lemma Distribute(x: nat, p: nat, y: nat)
    ensures 16 * (x * p + y) == x * (16 * p) + 16 * y
  {
  }

  // ---- Printing --------------------------------------------------------------------------------------------

  /** The last n hexadecimal digits of x, in lower case. */
  function LowerHex(x: nat, n: nat): (s: Text)
    ensures |s| == n
  {
    if n == 0 then [] else LowerHex(x / 16, n - 1) + [LowerDigit(x % 16)]
  }

  lemma {:induction false} LowerHexIsHex(x: nat, n: nat)
    ensures AllHex(LowerHex(x, n)) && Ascii7(LowerHex(x, n))
    ensures x < Pow16(n) ==> Value(LowerHex(x, n)) == x
  {
    if n > 0 {
      LowerHexIsHex(x / 16, n - 1);
      assert LowerHex(x, n)[..n - 1] == LowerHex(x / 16, n - 1);
    }
  }

  lemma TwoDigits(x: nat, n: nat)
    requires n >= 2
    ensures LowerHex(x, n) == LowerHex(x / 256, n - 2) + [LowerDigit(x % 256 / 16), LowerDigit(x % 16)]
  {
    assert x / 16 / 16 == x / 256 && x / 16 % 16 == x % 256 / 16;
    assert LowerHex(x, n) == LowerHex(x / 16 / 16, n - 2) + [LowerDigit(x / 16 % 16)] + [LowerDigit(x % 16)];
  }

  lemma TableEntry(i: nat)
    requires i < 512
    ensures HEX_DIGIT_LOOKUP_TABLE[i] == if i % 2 == 0 then LowerDigit(i / 32) else LowerDigit(i / 2 % 16)
  {
    hide LowerDigit;
  }

  lemma Halves(b: nat)
    ensures b * 2 % 2 == 0 && b * 2 / 32 == b / 16 && (b * 2 + 1) % 2 == 1 && (b * 2 + 1) / 2 == b
  {
  }

  lemma LowBits(x: nat)
    ensures x % 256 % 16 == x % 16
  {
  }

  lemma LookupPair(x: nat)
    ensures HEX_DIGIT_LOOKUP_TABLE[x % 256 * 2] == LowerDigit(x % 256 / 16)
    ensures HEX_DIGIT_LOOKUP_TABLE[x % 256 * 2 + 1] == LowerDigit(x % 16)
  {
    hide LowerDigit;
    var b := x % 256;
    Halves(b);
    LowBits(x);
    TableEntry(b * 2);
    TableEntry(b * 2 + 1);
  }

  /** Writes the two digits of the last byte of x. */
  method WriteByte(x: nat, output: array<Byte>, at: nat)
    requires at + 2 <= output.Length
    modifies output
    ensures output[at..at + 2] == [LowerDigit(x % 256 / 16), LowerDigit(x % 16)]
    ensures output[..at] == old(output[..at]) && output[at + 2..] == old(output[at + 2..])
  {
    var lookupIndex := x % 256 * 2;
    LookupPair(x);
    output[at] := HEX_DIGIT_LOOKUP_TABLE[lookupIndex];
    output[at + 1] := HEX_DIGIT_LOOKUP_TABLE[lookupIndex + 1];
  }

  /** Writes the digits of x, two at a time from the end, into the buffer from `at` on. */
  method UintToHex(x: nat, numBytes: nat, output: array<Byte>, at: nat)
    requires at + 2 * numBytes <= output.Length
    modifies output
    ensures output[at..at + 2 * numBytes] == LowerHex(x, 2 * numBytes)
    ensures output[..at] == old(output[..at]) && output[at + 2 * numBytes..] == old(output[at + 2 * numBytes..])
  {
    hide LowerHex;
    var i: nat, rest: nat := numBytes, x;
    ghost var end: nat, done: Text, before: Text := at + 2 * numBytes, [], output[..];
    while i > 0
      invariant i <= numBytes && |done| == 2 * (numBytes - i)
      invariant end <= |before| && output[..] == before[..at + 2 * i] + done + before[end..]
      invariant LowerHex(rest, 2 * i) + done == LowerHex(x, 2 * numBytes)
    {
      i := i - 1;
      ghost var pair := LastPair(rest);
      DigitsMove(rest, 2 * i, done);
      WriteByte(rest, output, at + i * 2);
      Joined(output[..], at + 2 * i, pair, before, done, end);
      rest := rest / 256;
      done := pair + done;
    }
    NoDigits(rest);
    assert [] + done == done;
    Spliced(output[..], before, at, done, end);
  }

  function LastPair(x: nat): Text { [LowerDigit(x % 256 / 16), LowerDigit(x % 16)] }

  lemma DigitsMove(x: nat, n: nat, done: Text)
    ensures LowerHex(x / 256, n) + (LastPair(x) + done) == LowerHex(x, n + 2) + done
  {
    TwoDigits(x, n + 2);
    hide LowerHex;
    Associative(LowerHex(x / 256, n), LastPair(x), done);
  }

  lemma Spliced(now: Text, before: Text, at: nat, done: Text, end: nat)
    requires at + |done| == end <= |before| && now == before[..at] + done + before[end..]
    ensures |now| == |before| && now[at..end] == done && now[..at] == before[..at] && now[end..] == before[end..]
  {
  }

  lemma NoDigits(x: nat)
    ensures LowerHex(x, 0) == []
  {
  }

  lemma Joined(now: Text, at: nat, pair: Text, before: Text, done: Text, end: nat)
    requires |pair| == 2 && at + 2 + |done| == end <= |before| == |now|
    requires now[..at] == before[..at] && now[at..at + 2] == pair
    requires now[at + 2..] == (before[..at + 2] + done + before[end..])[at + 2..]
    ensures now == before[..at] + (pair + done) + before[end..]
  {
    assert now == now[..at] + now[at..at + 2] + now[at + 2..];
    assert now[at + 2..] == done + before[end..];
  }

  method Uint64ToHex(x: nat, output: array<Byte>, at: nat)
    requires x < TWO_64 && at + 16 <= output.Length
    modifies output
    ensures output[at..at + 16] == LowerHex(x, 16)
    ensures output[..at] == old(output[..at]) && output[at + 16..] == old(output[at + 16..])
  {
    UintToHex(x, 8, output, at);
  }

  method Uint32ToHex(x: nat, output: array<Byte>, at: nat)
    requires x < 0x1_0000_0000 && at + 8 <= output.Length
    modifies output
    ensures output[at..at + 8] == LowerHex(x, 8)
    ensures output[..at] == old(output[..at]) && output[at + 8..] == old(output[at + 8..])
  {
    UintToHex(x, 4, output, at);
  }

  method Uint8ToHex(x: nat, output: array<Byte>, at: nat)
    requires x < 256 && at + 2 <= output.Length
    modifies output
    ensures output[at..at + 2] == LowerHex(x, 2)
    ensures output[..at] == old(output[..at]) && output[at + 2..] == old(output[at + 2..])
  {
    UintToHex(x, 1, output, at);
  }

  /** Sixteen digits, or thirty-two when the high half is not zero. */
  class HexSerializer {
    const buffer: array<Byte>

    constructor ()
      ensures fresh(buffer) && buffer.Length == 32
    {
      buffer := new Byte[32](i => 0);
    }

    method Uint128ToHex(high: nat, low: nat) returns (s: Text)
      requires buffer.Length == 32 && high < TWO_64 && low < TWO_64
      modifies buffer
      ensures AllHex(s) && Ascii7(s) && Value(s) == high * TWO_64 + low
      ensures |s| == if high == 0 then 16 else 32
    {
      hide LowerHex, Value, Pow16, AllHex, Ascii7;
      Powers();
      LowerHexIsHex(low, 16);
      if high == 0 {
        Uint64ToHex(low, buffer, 0);
        return buffer[0..16];
      }
      LowerHexIsHex(high, 16);
      Uint64ToHex(high, buffer, 0);
      ghost var first := buffer[..16];
      assert first == buffer[0..16];
      Uint64ToHex(low, buffer, 16);
      ValueConcat(first, LowerHex(low, 16));
      HexJoins(first, LowerHex(low, 16));
      AsciiJoins(first, LowerHex(low, 16));
      s := buffer[..];
      assert s == buffer[..16] + buffer[16..16 + 16];
    }
  }

  // ---- Parsing ---------------------------------------------------------------------------------------------

  lemma NextValue(s: Text, i: nat)
    requires i < |s|
    ensures Value(s[..i + 1]) == Value(s[..i]) * 16 + HexTable(s[i])
  {
    hide HexTable;
    assert s[..i + 1][..i] == s[..i];
  }

  lemma NextDigit(s: Text, i: nat, modulus: nat)
    requires i < |s| && AllHex(s[..i + 1]) && Pow16(|s|) <= modulus
    ensures (Value(s[..i]) * 16 + HexTable(s[i])) % modulus == Value(s[..i + 1])
  {
    hide Value, Pow16, HexTable, AllHex;
    NextValue(s, i);
    ValueBounds(s[..i + 1]);
    PowGrows(i + 1, |s|);
    SmallRemainder(Value(s[..i + 1]), modulus);
  }

  lemma SmallRemainder(x: nat, m: nat)
    requires x < m
    ensures x % m == x
  {
  }

  lemma DropLast(s: Text, i: nat, j: nat)
    requires i < j <= |s|
    ensures s[i..j][..j - i - 1] == s[i..j - 1]
  {
  }

  /** Accumulates the digits of s; the result wraps at the width of the target type. */
  method HexToUintImpl(s: Text, modulus: nat) returns (r: Result<nat>)
    requires Ascii7(s) && Pow16(|s|) <= modulus
    ensures r == if AllHex(s) then Ok(Value(s)) else Err(InvalidArgument)
  {
    var result := 0;
    var i := 0;
    while i < |s|
      invariant i <= |s| && AllHex(s[..i]) && result == Value(s[..i])
    {
      var value := HexTable(s[i]);
      if value == NIL {
        assert !IsHexDigit(s[i]);
        return Err(InvalidArgument);
      }
      NextDigit(s, i, modulus);
      result := (result * 16 + value) % modulus;
      i := i + 1;
    }
    assert s[..i] == s;
    return Ok(result);
  }

  predicate IsSpace(c: Byte) { c == 32 || 9 <= c <= 13 }

  /** The blank, and tab, line feed, vertical tab, form feed and carriage return. */
  lemma Spaces(c: Byte)
    ensures IsSpace(c) <==> c in [' ' as int, '\t' as int, '\n' as int, 11, 12, '\r' as int]
  {
  }

  function TrimFront(s: Text): Text {
    if s != [] && IsSpace(s[0]) then TrimFront(s[1..]) else s
  }

  function TrimBack(s: Text): Text {
    if s != [] && IsSpace(s[|s| - 1]) then TrimBack(s[..|s| - 1]) else s
  }

  /** The text without the white space around it. */
  function Trim(s: Text): Text { TrimBack(TrimFront(s)) }

  method RemoveSurroundingWhitespace(s: Text) returns (first: nat, last: nat)
    ensures first <= last <= |s| && s[first..last] == Trim(s)
  {
    first, last := 0, |s|;
    while first != last && IsSpace(s[first])
      invariant first <= last == |s| && TrimFront(s[first..]) == TrimFront(s)
    {
      assert s[first..][1..] == s[first + 1..];
      first := first + 1;
    }
    assert s[first..last] == s[first..] == TrimFront(s);
    while first != last && IsSpace(s[last - 1])
      invariant first <= last <= |s| && TrimBack(s[first..last]) == Trim(s)
    {
      DropLast(s, first, last);
      last := last - 1;
    }
  }

  function StripZeros(s: Text): Text {
    if s != [] && s[0] == ZERO then StripZeros(s[1..]) else s
  }

  lemma {:induction false} StripKeepsValue(s: Text)
    ensures Value(StripZeros(s)) == Value(s) && (AllHex(StripZeros(s)) <==> AllHex(s))
    ensures StripZeros(s) != [] ==> StripZeros(s)[0] != ZERO
    ensures |StripZeros(s)| <= |s|
  {
    if s != [] && s[0] == ZERO {
      assert s == [ZERO] + s[1..];
      ValueConcat([ZERO], s[1..]);
      StripKeepsValue(s[1..]);
      assert AllHex(s) <==> AllHex(s[1..]) by {
        assert IsHexDigit(s[0]);
        assert forall i :: 0 <= i < |s| - 1 ==> s[1..][i] == s[i + 1];
        assert forall i :: 1 <= i < |s| ==> s[i] == s[1..][i - 1];
      }
    }
  }

  method RemoveLeadingZeros(s: Text, first: nat, last: nat) returns (i: nat)
    requires first <= last <= |s|
    ensures first <= i <= last && s[i..last] == StripZeros(s[first..last])
  {
    i := first;
    while i != last && s[i] == ZERO
      invariant first <= i <= last && StripZeros(s[i..last]) == StripZeros(s[first..last])
    {
      assert s[i..last][1..] == s[i + 1..last];
      i := i + 1;
    }
  }

  /** What is left after trimming and stripping fits n digits exactly when the number fits. */
  lemma FitsDigits(t: Text, n: nat)
    requires AllHex(t)
    ensures |StripZeros(t)| <= n <==> Value(t) < Pow16(n)
  {
    StripKeepsValue(t);
    var z := StripZeros(t);
    ValueBounds(z);
    if |z| <= n {
      PowGrows(|z|, n);
    } else {
      PowGrows(n, |z| - 1);
    }
  }

  lemma EmptyText()
    ensures Value([]) == 0 && AllHex([]) && StripZeros([]) == [] && Trim([]) == []
  {
  }

  lemma SubAscii(s: Text, i: nat, j: nat)
    requires Ascii7(s) && i <= j <= |s|
    ensures Ascii7(s[i..j])
  {
  }

  /** The text is accepted iff, without the white space around it, it is not empty, has only hexadecimal digits and
      denotes a number of 64 bits; that number is the result. */
  method HexToUint64(s: Text) returns (r: Result<nat>)
    requires Ascii7(s)
    ensures r.Ok? <==> Trim(s) != [] && AllHex(Trim(s)) && Value(Trim(s)) < TWO_64
    ensures r.Ok? ==> r.value == Value(Trim(s))
    ensures r == Err(ValueTooLarge) <==> |StripZeros(Trim(s))| > 16
  {
    hide Value, AllHex, Pow16, StripZeros, Trim, Ascii7;
    var i, last := RemoveSurroundingWhitespace(s);
    var first := i;
    i := RemoveLeadingZeros(s, first, last);
    ghost var t := Trim(s);
    StripKeepsValue(t);
    Powers();
    if AllHex(t) {
      FitsDigits(t, 16);
    }
    var length := last - i;
    if length > 16 {
      return Err(ValueTooLarge);
    }
    if length == 0 {
      if first != i {
        EmptyText();
        return Ok(0);
      }
      return Err(InvalidArgument);
    }
    SubAscii(s, i, last);
    PowGrows(length, 16);
    r := HexToUintImpl(s[i..last], TWO_64);
  }

  /** As for 64 bits, with the number split over two halves. The outputs keep the caller's values where nothing was
      stored; the low half is stored only on success. */
  method HexToUint128(s: Text, high: nat, low: nat) returns (r: Result<()>, xHigh: nat, xLow: nat)
    requires Ascii7(s)
    ensures r.Ok? <==> Trim(s) != [] && AllHex(Trim(s)) && Value(Trim(s)) < TWO_64 * TWO_64
    ensures r.Ok? ==> xHigh * TWO_64 + xLow == Value(Trim(s)) && xHigh < TWO_64 && xLow < TWO_64
    ensures r == Err(ValueTooLarge) <==> |StripZeros(Trim(s))| > 32
    ensures r.Err? ==> xLow == low
  {
    hide Value, AllHex, Pow16, StripZeros, Trim, Ascii7;
    xHigh, xLow := high, low;
    var i, last := RemoveSurroundingWhitespace(s);
    var first := i;
    i := RemoveLeadingZeros(s, first, last);
    ghost var t := Trim(s);
    StripKeepsValue(t);
    Powers();
    PowSum(16, 16);
    if AllHex(t) {
      FitsDigits(t, 32);
    }
    var length := last - i;
    if length > 32 {
      return Err(ValueTooLarge), xHigh, xLow;
    }
    if length == 0 {
      if first != i {
        EmptyText();
        return Ok(()), 0, 0;
      }
      return Err(InvalidArgument), xHigh, xLow;
    }
    SubAscii(s, i, last);
    if length <= 16 {
      xHigh := 0;
      PowGrows(length, 16);
      var x := HexToUintImpl(s[i..last], TWO_64);
      if x.Err? {
        return Err(x.error), xHigh, xLow;
      }
      FitsDigits(t, 16);
      return Ok(()), xHigh, x.value;
    }
    var boundary := i + (length - 16);
    SubAscii(s, i, boundary);
    SubAscii(s, boundary, last);
    r, xHigh, xLow := TwoHalves(s[i..boundary], s[boundary..last], xHigh, xLow);
    assert s[i..last] == s[i..boundary] + s[boundary..last];
  }

  lemma HexJoins(a: Text, b: Text)
    ensures AllHex(a + b) <==> AllHex(a) && AllHex(b)
  {
    assert forall i :: 0 <= i < |a| ==> (a + b)[i] == a[i];
    assert forall i :: 0 <= i < |b| ==> (a + b)[i + |a|] == b[i];
  }

  lemma AsciiJoins(a: Text, b: Text)
    requires Ascii7(a) && Ascii7(b)
    ensures Ascii7(a + b)
  {
  }

  /** The high half of at most sixteen digits, then the low half of exactly sixteen. */
  method TwoHalves(a: Text, b: Text, high: nat, low: nat) returns (r: Result<()>, xHigh: nat, xLow: nat)
    requires Ascii7(a) && Ascii7(b) && |a| <= 16 && |b| == 16
    ensures r == if AllHex(a + b) then Ok(()) else Err(InvalidArgument)
    ensures r.Ok? ==> xHigh * TWO_64 + xLow == Value(a + b) && xHigh < TWO_64 && xLow < TWO_64
    ensures r.Err? ==> xLow == low
  {
    xHigh, xLow := high, low;
    Powers();
    PowGrows(|a|, 16);
    HexJoins(a, b);
    ValueConcat(a, b);
    var x := HexToUintImpl(a, TWO_64);
    if x.Err? {
      return Err(x.error), xHigh, xLow;
    }
    ValueBounds(a);
    xHigh := x.value;
    x := HexToUintImpl(b, TWO_64);
    if x.Err? {
      return Err(x.error), xHigh, xLow;
    }
    ValueBounds(b);
    return Ok(()), xHigh, x.value;
  }

  // The normalized forms have exactly the digits of their type.

  method NormalizedHexToUint8(s: Text) returns (r: Result<nat>)
    requires Ascii7(s) && |s| == 2
    ensures r == if AllHex(s) then Ok(Value(s)) else Err(InvalidArgument)
    ensures r.Ok? ==> r.value < 256
  {
    Powers();
    r := HexToUintImpl(s, 256);
    if r.Ok? {
      ValueBounds(s);
    }
  }

  method NormalizedHexToUint64(s: Text) returns (r: Result<nat>)
    requires Ascii7(s) && |s| == 16
    ensures r == if AllHex(s) then Ok(Value(s)) else Err(InvalidArgument)
    ensures r.Ok? ==> r.value < TWO_64
  {
    Powers();
    r := HexToUintImpl(s, TWO_64);
    if r.Ok? {
      ValueBounds(s);
    }
  }

  method NormalizedHexToUint128(s: Text, high: nat, low: nat) returns (r: Result<()>, xHigh: nat, xLow: nat)
    requires Ascii7(s) && |s| == 32
    ensures r == if AllHex(s) then Ok(()) else Err(InvalidArgument)
    ensures r.Ok? ==> xHigh == Value(s[..16]) < TWO_64 && xLow == Value(s[16..]) < TWO_64
    ensures r.Ok? ==> xHigh * TWO_64 + xLow == Value(s)
    ensures r.Err? ==> xLow == low
  {
    xHigh, xLow := high, low;
    assert s == s[..16] + s[16..];
    HexJoins(s[..16], s[16..]);
    ValueConcat(s[..16], s[16..]);
    Powers();
    var x := NormalizedHexToUint64(s[..16]);
    if x.Err? {
      return Err(x.error), xHigh, xLow;
    }
    xHigh := x.value;
    x := NormalizedHexToUint64(s[16..]);
    if x.Err? {
      return Err(x.error), xHigh, xLow;
    }
    return Ok(()), xHigh, x.value;
  }

  // ---- Round trips -----------------------------------------------------------------------------------------

  function ToLower(c: Byte): Byte { if 65 <= c <= 90 then c + 32 else c }

  function Lowered(s: Text): (r: Text)
    ensures |r| == |s|
  {
    seq(|s|, i requires 0 <= i < |s| => ToLower(s[i]))
  }

  /** Hexadecimal text has no white space to trim. */
  lemma HexIsTrimmed(s: Text)
    requires AllHex(s)
    ensures Trim(s) == s
  {
    if s != [] {
      assert IsHexDigit(s[0]) && IsHexDigit(s[|s| - 1]);
    }
  }

  /** What the printers write is text the parsers accept, and it denotes the number printed. */
  lemma PrintedIsParsed(x: nat, n: nat)
    requires 0 < n && x < Pow16(n)
    ensures var s := LowerHex(x, n);
            Ascii7(s) && Trim(s) == s && s != [] && AllHex(s) && Value(s) == x
  {
    LowerHexIsHex(x, n);
    HexIsTrimmed(LowerHex(x, n));
  }

  /** Printing what was parsed gives the same digits in lower case. */
  lemma {:induction false} ParseThenPrint(s: Text)
    requires AllHex(s)
    ensures LowerHex(Value(s), |s|) == Lowered(s)
  {
    if s != [] {
      var front, d := s[..|s| - 1], HexTable(s[|s| - 1]);
      assert IsHexDigit(s[|s| - 1]);
      ParseThenPrint(front);
      assert Value(s) / 16 == Value(front) && Value(s) % 16 == d;
      assert LowerDigit(d) == ToLower(s[|s| - 1]);
    }
  }
}
