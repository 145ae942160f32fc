/** The x-cloud-trace-context header: trace id in hexadecimal, span id in decimal, sampling option. */
module CloudTraces {
  import opened Fragments
  import opened Hex
  import opened TraceContexts
  import opened Wrappers

  const CLOUD_CONTEXT_LENGTH: nat := 58
  const NUM_64_BIT_DECIMAL_DIGITS: nat := 20
  const SLASH: Byte := 47
  /** The characters of ";o=". */
  const OPTION: Text := [59, 111, 61]

  // ---- Decimal numbers -------------------------------------------------------------------------------------

  predicate IsDigit(c: Byte) { 48 <= c <= 57 }

  predicate AllDigits(s: Text) { forall i :: 0 <= i < |s| ==> IsDigit(s[i]) }

  function Decimal(n: nat): (s: Text)
    ensures |s| > 0
  {
    if n < 10 then [48 + n] else Decimal(n / 10) + [48 + n % 10]
  }

  function DecimalValue(s: Text): nat
    requires AllDigits(s)
  {
    if s == [] then 0 else 10 * DecimalValue(s[..|s| - 1]) + (s[|s| - 1] - 48)
  }

  lemma {:induction false} DecimalIsValue(n: nat)
    ensures AllDigits(Decimal(n)) && DecimalValue(Decimal(n)) == n
  {
    if n >= 10 {
      DecimalIsValue(n / 10);
      assert Decimal(n)[..|Decimal(n)| - 1] == Decimal(n / 10);
    } else {
      assert [48 + n][..0] == [];
    }
  }

  function Pow10(k: nat): (p: nat)
    ensures p > 0
  {
    if k == 0 then 1 else 10 * Pow10(k - 1)
  }

  lemma {:induction false} DecimalLength(n: nat, k: nat)
    requires n < Pow10(k) && k > 0
    ensures |Decimal(n)| <= k
  {
    if n >= 10 {
      assert k > 1 by { assert Pow10(0) == 1; }
      DecimalLength(n / 10, k - 1);
    }
  }

  lemma WordLength(n: nat)
    requires n < TWO_64
    ensures |Decimal(n)| <= 20
  {
    assert Pow10(5) == 100000;
    assert Pow10(10) == 100000 * Pow10(5);
    assert Pow10(15) == 100000 * Pow10(10);
    assert Pow10(20) == 100000 * Pow10(15);
    DecimalLength(n, 20);
  }

  // ---- Flags -----------------------------------------------------------------------------------------------

  predicate Sampled(flags: nat) { flags % 2 == 1 }

  function SetSampled(flags: nat, value: bool): (r: nat)
    ensures Sampled(r) == value && r / 2 == flags / 2
  {
    if value then flags - flags % 2 + 1 else flags - flags % 2
  }

  // ---- Printing --------------------------------------------------------------------------------------------

  function TraceId(c: TraceContext): (s: Text)
    ensures |s| == 32
  {
    LowerHex(c.traceIdHigh, 16) + LowerHex(c.traceIdLow, 16)
  }

  function Suffix(c: TraceContext): Text {
    [SLASH] + Decimal(c.parentId) + OPTION + [if Sampled(c.traceFlags) then 49 else 48]
  }

  function CloudPrinted(c: TraceContext): Text { TraceId(c) + Suffix(c) }

  /** Bounded formatting: at most size - 1 characters and a terminating zero are stored; the full length is returned. */
  method Snprintf(s: array<Byte>, at: nat, size: nat, text: Text) returns (length: nat)
    requires 0 < size && at + size <= s.Length
    modifies s
    ensures length == |text| && s[..at] == old(s[..at]) && s[at + size..] == old(s[at + size..])
    ensures |text| < size ==> s[at..at + |text|] == text && s[at + |text|] == 0
  {
    var n := if |text| < size then |text| else size - 1;
    forall i | 0 <= i < n {
      s[at + i] := text[i];
    }
    s[at + n] := 0;
    length := |text|;
  }

  /** The text always fits the buffer of 58 characters, terminating zero included. */
  method SerializeCloudTrace(c: TraceContext, s: array<Byte>) returns (length: nat)
    requires InRange(c) && s.Length == CLOUD_CONTEXT_LENGTH
    modifies s
    ensures length < 58 && s[..length] == CloudPrinted(c) && s[length] == 0
  {
    hide LowerHex, Decimal;
    WordLength(c.parentId);
    Uint64ToHex(c.traceIdHigh, s, 0);
    assert s[..16] == s[0..0 + 16];
    Uint64ToHex(c.traceIdLow, s, 16);
    assert s[..32] == s[..16] + s[16..16 + 16];
    var offset := 32;
    var written := Snprintf(s, offset, CLOUD_CONTEXT_LENGTH - offset, Suffix(c));
    length := offset + written;
    assert s[..length] == s[..32] + s[32..32 + |Suffix(c)|];
  }

  // ---- Parsing ---------------------------------------------------------------------------------------------

  /** Number of digits from `at` on, at most `bound`. */
  function DigitRun(s: Text, at: nat, bound: nat): (n: nat)
    requires at <= |s|
    ensures n <= bound && at + n <= |s| && AllDigits(s[at..at + n])
    decreases bound
  {
    if bound == 0 || at == |s| || !IsDigit(s[at]) then 0
    else
      var rest := DigitRun(s, at + 1, bound - 1);
      assert s[at..at + 1 + rest] == [s[at]] + s[at + 1..at + 1 + rest];
      1 + rest
  }

  /** Where the span id ends. */
  function SpanEnd(s: Text): (e: nat)
    requires |s| >= 34
    ensures 33 <= e <= |s|
  {
    33 + DigitRun(s, 33, NUM_64_BIT_DECIMAL_DIGITS)
  }

  function SpanId(s: Text): nat
    requires |s| >= 34
  {
    DecimalValue(s[33..SpanEnd(s)])
  }

  predicate HasSpan(s: Text) { |s| >= 34 }

  /** At least four characters follow the span id. */
  predicate HasOption(s: Text) { HasSpan(s) && |s| - SpanEnd(s) >= 4 }

  predicate TooBig(s: Text) {
    |s| >= 34 && AllHex(s[..32]) && s[32] == SLASH && SpanId(s) >= TWO_64
  }

  predicate Accepted(s: Text) {
    && |s| >= 32 && AllHex(s[..32])
    && (HasSpan(s) ==> s[32] == SLASH && SpanId(s) < TWO_64)
    && (HasOption(s) ==> s[SpanEnd(s)..SpanEnd(s) + 3] == OPTION)
  }

  lemma RunGoesOn(s: Text, at: nat, bound: nat)
    requires at < |s| && bound > 0 && IsDigit(s[at])
    ensures DigitRun(s, at, bound) == 1 + DigitRun(s, at + 1, bound - 1)
  {
  }

  lemma RunEnds(s: Text, at: nat, bound: nat)
    requires at <= |s| && (bound == 0 || at == |s| || !IsDigit(s[at]))
    ensures DigitRun(s, at, bound) == 0
  {
  }

  /** Copies the digits of the span id. */
  method CopyDigits(s: Text) returns (digits: Text, offset: nat)
    requires |s| >= 34
    ensures offset == SpanEnd(s) && digits == s[33..offset]
  {
    hide DigitRun, AllDigits, IsDigit;
    digits, offset := [], 33;
    var i: nat := 0;
    while i < NUM_64_BIT_DECIMAL_DIGITS
      invariant i <= NUM_64_BIT_DECIMAL_DIGITS && offset == 33 + i <= |s| && digits == s[33..offset]
      invariant i + DigitRun(s, offset, NUM_64_BIT_DECIMAL_DIGITS - i) == DigitRun(s, 33, NUM_64_BIT_DECIMAL_DIGITS)
    {
      if offset == |s| || !IsDigit(s[offset]) {
        break;
      }
      RunGoesOn(s, offset, NUM_64_BIT_DECIMAL_DIGITS - i);
      digits := digits + [s[offset]];
      offset := offset + 1;
      i := i + 1;
    }
    RunEnds(s, offset, NUM_64_BIT_DECIMAL_DIGITS - i);
  }

  /** Decimal digits to a word; the flag reports a number out of range, which saturates. */
  method Strtoull(digits: Text) returns (x: nat, erange: bool)
    requires AllDigits(digits)
    ensures x == Min(DecimalValue(digits), TWO_64 - 1) && erange == (DecimalValue(digits) >= TWO_64)
  {
    var n, i: nat := 0, 0;
    while i < |digits|
      invariant 0 <= i <= |digits| && AllDigits(digits[..i]) && n == DecimalValue(digits[..i])
    {
      assert IsDigit(digits[i]) && digits[..i + 1][..i] == digits[..i];
      n := 10 * n + (digits[i] - 48);
      i := i + 1;
    }
    assert digits[..i] == digits;
    x, erange := Min(n, TWO_64 - 1), n >= TWO_64;
  }

  /** Accepts the short form, the form with a span id and the form with an option; anything but "0" there, and
      everything left out, means sampled. */
  method ParseCloudTrace(s: Text, before: TraceContext) returns (r: Result<()>, c: TraceContext)
    requires Ascii7(s)
    ensures r.Ok? <==> Accepted(s)
    ensures r == Err(OutOfRange) <==> TooBig(s)
    ensures r.Ok? ==>
              && c.traceIdHigh == Value(s[..16]) && c.traceIdLow == Value(s[16..32])
              && c.parentId == (if HasSpan(s) then SpanId(s) else before.parentId)
              && c.traceFlags == SetSampled(before.traceFlags, !(HasOption(s) && s[SpanEnd(s) + 3] == 48))
              && c.version == before.version
  {
    hide Value, AllHex, DigitRun, DecimalValue;
    c := before;
    if |s| < 32 {
      return Err(InvalidArgument), c;
    }
    var offset := 0;
    c := c.(traceFlags := SetSampled(c.traceFlags, true));
    var id := s[offset..offset + 32];
    assert id == s[..32] && id[..16] == s[..16] && id[16..] == s[16..32];
    SubAscii(s, 0, 32);
    var high, low;
    r, high, low := NormalizedHexToUint128(id, c.traceIdHigh, c.traceIdLow);
    c := c.(traceIdHigh := high, traceIdLow := low);
    if r.Err? {
      return;
    }
    offset := offset + 32;
    if |s| - offset < 2 {
      return Ok(()), c;
    }
    if s[offset] != SLASH {
      return Err(InvalidArgument), c;
    }
    var digits;
    digits, offset := CopyDigits(s);
    var parentId, erange := Strtoull(digits);
    c := c.(parentId := parentId);
    if erange {
      return Err(OutOfRange), c;
    }
    if |s| - offset < 4 {
      return Ok(()), c;
    }
    if s[offset..offset + 3] != OPTION {
      return Err(InvalidArgument), c;
    }
    offset := offset + 3;
    if s[offset] == 48 {
      c := c.(traceFlags := SetSampled(c.traceFlags, false));
    }
    return Ok(()), c;
  }

  // ---- Round trip ------------------------------------------------------------------------------------------

  lemma {:induction false} RunStops(s: Text, at: nat, n: nat, bound: nat)
    requires at + n < |s| && n <= bound && AllDigits(s[at..at + n]) && !IsDigit(s[at + n])
    ensures DigitRun(s, at, bound) == n
    decreases n
  {
    if n > 0 {
      assert s[at] == s[at..at + n][0];
      assert s[at + 1..at + n] == s[at..at + n][1..];
      RunStops(s, at + 1, n - 1, bound - 1);
    }
  }

  /** A printed context is accepted, whatever the context parsed into, and yields the same ids and sampled bit. */
  lemma ParseInvertsPrint(c: TraceContext)
    requires InRange(c)
    ensures var s := CloudPrinted(c);
            && Accepted(s) && !TooBig(s) && HasOption(s)
            && Value(s[..16]) == c.traceIdHigh && Value(s[16..32]) == c.traceIdLow && SpanId(s) == c.parentId
            && s[32] == '/' as int
            && s[SpanEnd(s)..] == [';' as int, 'o' as int, '=' as int, (if Sampled(c.traceFlags) then '1' else '0') as int]
  {
    hide Value, LowerHex, Decimal, DigitRun, AllHex, Pow16, DecimalValue;
    var s, d := CloudPrinted(c), Decimal(c.parentId);
    Powers();
    LowerHexIsHex(c.traceIdHigh, 16);
    LowerHexIsHex(c.traceIdLow, 16);
    HexJoins(LowerHex(c.traceIdHigh, 16), LowerHex(c.traceIdLow, 16));
    DecimalIsValue(c.parentId);
    WordLength(c.parentId);
    assert s[..32] == TraceId(c) && s[..16] == LowerHex(c.traceIdHigh, 16) && s[16..32] == LowerHex(c.traceIdLow, 16);
    assert s[33..33 + |d|] == d && s[33 + |d|] == OPTION[0];
    RunStops(s, 33, |d|, 20);
    assert s[33 + |d|..] == OPTION + [if Sampled(c.traceFlags) then 49 else 48];
  }
}
