/** The traceparent header: version, trace id, parent id and flags in fixed-width hexadecimal. */
module TraceContexts {
  import opened Fragments
  import opened Hex
  import opened Wrappers

  datatype TraceContext = TraceContext(traceIdHigh: nat, traceIdLow: nat, parentId: nat, traceFlags: nat, version: nat)

  const TRACE_CONTEXT_LENGTH: nat := 55
  const DASH: Byte := 45

  /** The widths of the fields. */
  predicate InRange(c: TraceContext) {
    c.traceIdHigh < TWO_64 && c.traceIdLow < TWO_64 && c.parentId < TWO_64 && c.traceFlags < 256 && c.version < 256
  }

  predicate WellFormed(s: Text) {
    && |s| >= 55 && s[2] == DASH && s[35] == DASH && s[52] == DASH
    && AllHex(s[0..2]) && AllHex(s[3..35]) && AllHex(s[36..52]) && AllHex(s[53..55])
  }

  function ContextOf(s: Text): TraceContext
    requires |s| >= 55
  {
    TraceContext(Value(s[3..19]), Value(s[19..35]), Value(s[36..52]), Value(s[53..55]), Value(s[0..2]))
  }

  function Printed(c: TraceContext): (s: Text)
    ensures |s| == 55
  {
    LowerHex(c.version, 2) + [DASH] + LowerHex(c.traceIdHigh, 16) + LowerHex(c.traceIdLow, 16) + [DASH] +
    LowerHex(c.parentId, 16) + [DASH] + LowerHex(c.traceFlags, 2)
  }

  /** Accepts exactly the texts whose first 55 characters have the right form, and reads off every field. Fields
      may have been stored when the text is refused; the flags come last. */
  method ParseTraceContext(s: Text, before: TraceContext) returns (r: Result<()>, c: TraceContext)
    requires Ascii7(s)
    ensures r == if WellFormed(s) then Ok(()) else Err(InvalidArgument)
    ensures r.Ok? ==> c == ContextOf(s) && InRange(c)
    ensures r.Err? ==> c.traceFlags == before.traceFlags
  {
    hide Value, AllHex, Pow16;
    c := before;
    if |s| < TRACE_CONTEXT_LENGTH {
      return Err(InvalidArgument), c;
    }
    SubAscii(s, 0, 2);
    SubAscii(s, 3, 35);
    SubAscii(s, 36, 52);
    SubAscii(s, 53, 55);
    var offset := 0;
    var byte := NormalizedHexToUint8(s[offset..offset + 2]);
    if byte.Err? {
      return Err(byte.error), c;
    }
    c := c.(version := byte.value);
    offset := offset + 2;
    if s[offset] != DASH {
      return Err(InvalidArgument), c;
    }
    offset := offset + 1;
    var id := s[offset..offset + 32];
    assert id[..16] == s[3..19] && id[16..] == s[19..35];
    var high, low;
    r, high, low := NormalizedHexToUint128(id, c.traceIdHigh, c.traceIdLow);
    c := c.(traceIdHigh := high, traceIdLow := low);
    if r.Err? {
      return;
    }
    offset := offset + 32;
    if s[offset] != DASH {
      return Err(InvalidArgument), c;
    }
    offset := offset + 1;
    var word := NormalizedHexToUint64(s[offset..offset + 16]);
    if word.Err? {
      return Err(word.error), c;
    }
    c := c.(parentId := word.value);
    offset := offset + 16;
    if s[offset] != DASH {
      return Err(InvalidArgument), c;
    }
    offset := offset + 1;
    byte := NormalizedHexToUint8(s[offset..offset + 2]);
    if byte.Err? {
      return Err(byte.error), c;
    }
    return Ok(()), c.(traceFlags := byte.value);
  }

  /** Stores one separator. */
  method PutDash(s: array<Byte>, at: nat)
    requires at < s.Length
    modifies s
    ensures s[..at + 1] == old(s[..at]) + [DASH] && s[at + 1..] == old(s[at + 1..])
  {
    s[at] := DASH;
  }

  method SerializeTraceContext(c: TraceContext, s: array<Byte>)
    requires InRange(c) && s.Length >= 55
    modifies s
    ensures s[..55] == Printed(c) && s[55..] == old(s[55..])
  {
    hide LowerHex;
    ghost var rest := s[55..];
    Uint8ToHex(c.version, s, 0);
    assert s[..2] == s[0..2] && s[55..] == s[2..][53..] == rest;
    PutDash(s, 2);
    assert s[55..] == s[3..][52..] == rest;
    Uint64ToHex(c.traceIdHigh, s, 3);
    assert s[..19] == s[..3] + s[3..3 + 16] && s[55..] == s[19..][36..] == rest;
    Uint64ToHex(c.traceIdLow, s, 19);
    assert s[..35] == s[..19] + s[19..19 + 16] && s[55..] == s[35..][20..] == rest;
    PutDash(s, 35);
    assert s[55..] == s[36..][19..] == rest;
    Uint64ToHex(c.parentId, s, 36);
    assert s[..52] == s[..36] + s[36..36 + 16] && s[55..] == s[52..][3..] == rest;
    PutDash(s, 52);
    assert s[55..] == s[53..][2..] == rest;
    Uint8ToHex(c.traceFlags, s, 53);
    assert s[..55] == s[..53] + s[53..53 + 2];
  }

  lemma PrintedParts(c: TraceContext)
    ensures var s := Printed(c);
            && s[0..2] == LowerHex(c.version, 2) && s[3..19] == LowerHex(c.traceIdHigh, 16)
            && s[19..35] == LowerHex(c.traceIdLow, 16) && s[36..52] == LowerHex(c.parentId, 16)
            && s[53..55] == LowerHex(c.traceFlags, 2) && s[2] == s[35] == s[52] == DASH
            && s[3..35] == s[3..19] + s[19..35]
  {
    hide LowerHex;
  }

  lemma PrintedIsAscii(c: TraceContext)
    ensures Ascii7(Printed(c))
  {
    LowerHexIsHex(c.version, 2);
    LowerHexIsHex(c.traceIdHigh, 16);
    LowerHexIsHex(c.traceIdLow, 16);
    LowerHexIsHex(c.parentId, 16);
    LowerHexIsHex(c.traceFlags, 2);
    var dash: Text := [DASH];
    assert Ascii7(dash);
    hide LowerHex, Ascii7, AllHex, Value, Pow16;
    var s := LowerHex(c.version, 2);
    s := WithAscii(s, dash);
    s := WithAscii(s, LowerHex(c.traceIdHigh, 16));
    s := WithAscii(s, LowerHex(c.traceIdLow, 16));
    s := WithAscii(s, dash);
    s := WithAscii(s, LowerHex(c.parentId, 16));
    s := WithAscii(s, dash);
    s := WithAscii(s, LowerHex(c.traceFlags, 2));
  }

  lemma WithAscii(a: Text, b: Text) returns (s: Text)
    requires Ascii7(a) && Ascii7(b)
    ensures s == a + b && Ascii7(s)
  {
    s := a + b;
  }

  /** Parsing a printed context gives it back. */
  lemma ParseInvertsPrint(c: TraceContext)
    requires InRange(c)
    ensures WellFormed(Printed(c)) && ContextOf(Printed(c)) == c && Ascii7(Printed(c))
    ensures Printed(c)[2] == Printed(c)[35] == Printed(c)[52] == '-' as int
  {
    hide LowerHex, Value, Pow16, AllHex, Ascii7;
    Powers();
    PrintedIsAscii(c);
    PrintedParts(c);
    LowerHexIsHex(c.version, 2);
    LowerHexIsHex(c.traceIdHigh, 16);
    LowerHexIsHex(c.traceIdLow, 16);
    LowerHexIsHex(c.parentId, 16);
    LowerHexIsHex(c.traceFlags, 2);
    HexJoins(LowerHex(c.traceIdHigh, 16), LowerHex(c.traceIdLow, 16));
    hide Printed;
  }

  /** Printing a parsed text gives its first 55 characters in lower case. */
  lemma PrintInvertsParse(s: Text)
    requires WellFormed(s)
    ensures Printed(ContextOf(s)) == Lowered(s[..55])
  {
    hide LowerHex, Value, AllHex;
    assert s[3..35] == s[3..19] + s[19..35];
    HexJoins(s[3..19], s[19..35]);
    ParseThenPrint(s[0..2]);
    ParseThenPrint(s[3..19]);
    ParseThenPrint(s[19..35]);
    ParseThenPrint(s[36..52]);
    ParseThenPrint(s[53..55]);
    var c, l := ContextOf(s), Lowered(s[..55]);
    PrintedParts(c);
    assert l[0..2] == Lowered(s[0..2]) && l[3..19] == Lowered(s[3..19]) && l[19..35] == Lowered(s[19..35]);
    assert l[36..52] == Lowered(s[36..52]) && l[53..55] == Lowered(s[53..55]);
    SameParts(Printed(c), l);
  }

  lemma SameParts(a: Text, b: Text)
    requires |a| == |b| == 55 && a[2] == b[2] && a[35] == b[35] && a[52] == b[52]
    requires a[0..2] == b[0..2] && a[3..19] == b[3..19] && a[19..35] == b[19..35] && a[36..52] == b[36..52] && a[53..55] == b[53..55]
    ensures a == b
  {
    forall i | 0 <= i < 55 ensures a[i] == b[i] {
      if i < 2 {
        assert a[0..2][i] == b[0..2][i];
      } else if 3 <= i < 19 {
        assert a[3..19][i - 3] == b[3..19][i - 3];
      } else if 19 <= i < 35 {
        assert a[19..35][i - 19] == b[19..35][i - 19];
      } else if 36 <= i < 52 {
        assert a[36..52][i - 36] == b[36..52][i - 36];
      } else if 53 <= i {
        assert a[53..55][i - 53] == b[53..55][i - 53];
      }
    }
  }
}
