/** Base64 (section 4 of RFC 4648), as the loops that carry unfinished bits from one byte to the next compute it. A
    bitwise "or" is written as a sum: its operands never have a bit in common. */
module Base64 {
  import opened Fragments
  import opened Hex
  import opened Wrappers

  const PAD: Byte := 61
  const INVALID: nat := 64

  function CharTable(d: nat): Byte
    requires d < 64
  {
    if d < 26 then 65 + d else if d < 52 then 71 + d else if d < 62 then d - 4 else if d == 62 then 43 else 47
  }

  /** Defined for seven-bit characters; those outside the alphabet map to INVALID. */
  function ReverseLookup(c: Byte): (d: nat)
    ensures d <= 64 && (d < 64 ==> CharTable(d) == c)
  {
    if 65 <= c <= 90 then c - 65
    else if 97 <= c <= 122 then c - 71
    else if 48 <= c <= 57 then c + 4
    else if c == 43 then 62
    else if c == 47 then 63
    else INVALID
  }

  lemma TableInverts(d: nat)
    requires d < 64
    ensures ReverseLookup(CharTable(d)) == d && CharTable(d) != PAD && CharTable(d) < 128
  {
  }

  const UPPER: string := "ABCDEFGHIJKLMNOPQRSTUVWXYZ"
  const LOWER: string := "abcdefghijklmnopqrstuvwxyz"
  const OTHER: string := "0123456789+/"

  /** The table is the alphabet of section 4 of RFC 4648. */
  lemma TableIsAlphabet(d: nat)
    requires d < 64
    ensures |UPPER + LOWER + OTHER| == 64 && CharTable(d) == (UPPER + LOWER + OTHER)[d] as int
    ensures PAD == '=' as int
  {
    if d < 26 {
      assert UPPER[d] as int == 65 + d;
    } else if d < 52 {
      assert LOWER[d - 26] as int == 71 + d;
    } else {
      assert OTHER[d - 52] as int == CharTable(d);
    }
  }

  // ---- The standard's definition -----------------------------------------------------------------------------

  function Group3(a: Byte, b: Byte, c: Byte): Text {
    [CharTable(a / 4), CharTable(a % 4 * 16 + b / 16), CharTable(b % 16 * 4 + c / 64), CharTable(c % 64)]
  }

  function Group2(a: Byte, b: Byte): Text {
    [CharTable(a / 4), CharTable(a % 4 * 16 + b / 16), CharTable(b % 16 * 4), PAD]
  }

  function Group1(a: Byte): Text {
    [CharTable(a / 4), CharTable(a % 4 * 16), PAD, PAD]
  }

  /** Three bytes become four characters; an unfinished group at the end is padded. */
  function Encoded(x: seq<Byte>): (s: Text)
    ensures |s| % 4 == 0 && (x != [] <==> s != [])
  {
    if x == [] then []
    else if |x| == 1 then Group1(x[0])
    else if |x| == 2 then Group2(x[0], x[1])
    else Group3(x[0], x[1], x[2]) + Encoded(x[3..])
  }

  /** Four characters of the alphabet in front. */
  predicate FullGroup(s: Text) {
    |s| >= 4 && forall i :: 0 <= i < 4 ==> ReverseLookup(s[i]) != INVALID
  }

  /** The three bytes of a full group. */
  function Joined(s: Text): (x: seq<Byte>)
    requires FullGroup(s)
    ensures |x| == 3
  {
    var a, b, c, d := ReverseLookup(s[0]), ReverseLookup(s[1]), ReverseLookup(s[2]), ReverseLookup(s[3]);
    [a * 4 + b / 16, b % 16 * 16 + c / 4, c % 4 * 64 + d]
  }

  /** The bytes of a padded group; the bits it leaves unused have to be zero. */
  function PaddedGroup(s: Text): Option<seq<Byte>>
    requires |s| == 4
  {
    var a, b, c := ReverseLookup(s[0]), ReverseLookup(s[1]), ReverseLookup(s[2]);
    if a == INVALID || b == INVALID || s[3] != PAD then None
    else if s[2] == PAD then if b % 16 == 0 then Some([a * 4 + b / 16]) else None
    else if c != INVALID && c % 4 == 0 then Some([a * 4 + b / 16, b % 16 * 16 + c / 4])
    else None
  }

  /** The bytes of any number of groups, of which only the last may be padded. */
  function DecodedGroups(s: Text): Option<seq<Byte>>
    requires |s| % 4 == 0
  {
    if s == [] then Some([])
    else if FullGroup(s) then Continued(Joined(s), DecodedGroups(s[4..]))
    else if |s| == 4 then PaddedGroup(s)
    else None
  }

  /** What has been decoded, continued with what the rest of the text decodes to. */
  function Continued(done: seq<Byte>, rest: Option<seq<Byte>>): Option<seq<Byte>> {
    if rest.None? then None else Some(done + rest.value)
  }

  /** A text that is not the encoding of anything decodes to nothing. */
  function Decoded(s: Text): seq<Byte> {
    if |s| % 4 != 0 || s == [] || DecodedGroups(s).None? then [] else DecodedGroups(s).value
  }

  // ---- A bijection onto canonical text -----------------------------------------------------------------------

  /** Splitting three bytes into groups of six bits and joining them again. */
  lemma Bits(a: Byte, b: Byte, c: Byte)
    ensures a / 4 * 4 + (a % 4 * 16 + b / 16) / 16 == a
    ensures (a % 4 * 16 + b / 16) % 16 * 16 + (b % 16 * 4 + c / 64) / 4 == b
    ensures (b % 16 * 4 + c / 64) % 4 * 64 + c % 64 == c
  {
  }

  lemma Alphabet(a: Byte, b: Byte, c: Byte)
    ensures ReverseLookup(CharTable(a / 4)) == a / 4
    ensures ReverseLookup(CharTable(a % 4 * 16 + b / 16)) == a % 4 * 16 + b / 16
    ensures ReverseLookup(CharTable(b % 16 * 4 + c / 64)) == b % 16 * 4 + c / 64
    ensures ReverseLookup(CharTable(c % 64)) == c % 64 && ReverseLookup(PAD) == INVALID
  {
    TableInverts(a / 4);
    TableInverts(a % 4 * 16 + b / 16);
    TableInverts(b % 16 * 4 + c / 64);
    TableInverts(c % 64);
  }

  lemma ShortDecodes(a: Byte, b: Byte)
    ensures PaddedGroup(Group1(a)) == Some([a]) && PaddedGroup(Group2(a, b)) == Some([a, b])
    ensures !FullGroup(Group1(a)) && !FullGroup(Group2(a, b))
  {
    hide ReverseLookup, CharTable;
    Alphabet(a, 0, 0);
    Alphabet(a, b, 0);
    Bits(a, 0, 0);
    Bits(a, b, 0);
    TableInverts(b % 16 * 4);
  }

  lemma GroupDecodes(a: Byte, b: Byte, c: Byte, s: Text)
    ensures var g := Group3(a, b, c) + s; FullGroup(g) && Joined(g) == [a, b, c] && g[4..] == s
  {
    hide ReverseLookup, CharTable;
    Alphabet(a, b, c);
    Bits(a, b, c);
  }

  lemma {:induction false} EncodedDecodes(x: seq<Byte>)
    ensures DecodedGroups(Encoded(x)) == Some(x)
  {
    hide ReverseLookup, CharTable, FullGroup, Joined, PaddedGroup, Group3;
    if x == [] {
    } else if |x| == 1 {
      ShortDecodes(x[0], 0);
      assert x == [x[0]];
    } else if |x| == 2 {
      ShortDecodes(x[0], x[1]);
      assert x == [x[0], x[1]];
    } else {
      EncodedDecodes(x[3..]);
      GroupDecodes(x[0], x[1], x[2], Encoded(x[3..]));
      assert x == [x[0], x[1], x[2]] + x[3..];
    }
  }

  /** Joining six-bit groups into bytes and splitting them again. */
  lemma Sextets(a: nat, b: nat, c: nat, d: nat)
    requires a < 64 && b < 64 && c < 64 && d < 64
    ensures var x, y, z := a * 4 + b / 16, b % 16 * 16 + c / 4, c % 4 * 64 + d;
            x / 4 == a && x % 4 * 16 + y / 16 == b && y % 16 * 4 + z / 64 == c && z % 64 == d
  {
  }

  lemma JoinedEncodes(s: Text)
    requires FullGroup(s)
    ensures var x := Joined(s); Group3(x[0], x[1], x[2]) == s[..4]
  {
    hide CharTable, ReverseLookup;
    Sextets(ReverseLookup(s[0]), ReverseLookup(s[1]), ReverseLookup(s[2]), ReverseLookup(s[3]));
  }

  lemma PaddedEncodes(s: Text)
    requires |s| == 4 && PaddedGroup(s).Some?
    ensures Encoded(PaddedGroup(s).value) == s
  {
    hide CharTable, ReverseLookup;
    Sextets(ReverseLookup(s[0]), ReverseLookup(s[1]), 0, 0);
    if s[2] != PAD {
      Sextets(ReverseLookup(s[0]), ReverseLookup(s[1]), ReverseLookup(s[2]), 0);
    }
  }

  lemma {:induction false} DecodedEncodes(s: Text)
    requires |s| % 4 == 0 && DecodedGroups(s).Some?
    ensures Encoded(DecodedGroups(s).value) == s
  {
    hide CharTable, ReverseLookup, FullGroup, Joined, PaddedGroup, Group1, Group2, Group3;
    if s == [] {
    } else if FullGroup(s) {
      DecodedEncodes(s[4..]);
      JoinedEncodes(s);
      var x, rest := Joined(s), DecodedGroups(s[4..]).value;
      assert (x + rest)[3..] == rest;
      assert s == s[..4] + s[4..];
    } else {
      PaddedEncodes(s);
    }
  }

  /** Decoding inverts encoding for every byte string. */
  lemma DecodeInvertsEncode(x: seq<Byte>)
    ensures Decoded(Encoded(x)) == x
  {
    EncodedDecodes(x);
  }

  /** The texts that decode to something are exactly the encodings, and encoding gives them back; so padding and
      unused bits are as the standard wants them. */
  lemma EncodeInvertsDecode(s: Text)
    ensures Decoded(s) != [] ==> Encoded(Decoded(s)) == s
    ensures Decoded(s) != [] <==> exists x :: x != [] && Encoded(x) == s
  {
    if Decoded(s) != [] {
      DecodedEncodes(s);
    } else if x :| x != [] && Encoded(x) == s {
      DecodeInvertsEncode(x);
    }
  }

  // ---- Encoding ----------------------------------------------------------------------------------------------

  lemma {:induction false} EncodedSplit(x: seq<Byte>, y: seq<Byte>)
    requires |x| % 3 == 0
    ensures Encoded(x + y) == Encoded(x) + Encoded(y)
  {
    hide CharTable;
    if x == [] {
      assert x + y == y;
    } else {
      assert (x + y)[3..] == x[3..] + y;
      EncodedSplit(x[3..], y);
    }
  }

  /** What was written after some bytes, and the bits carried over. */
  ghost predicate Progress(x: seq<Byte>, nextC: nat, ret: Text) {
    var n := |x|;
    if n % 3 == 0 then ret == Encoded(x) && nextC == 0
    else if n % 3 == 1 then ret == Encoded(x[..n - 1]) + [CharTable(x[n - 1] / 4)] && nextC == x[n - 1] % 4 * 16
    else
      && ret == Encoded(x[..n - 2]) + [CharTable(x[n - 2] / 4), CharTable(x[n - 2] % 4 * 16 + x[n - 1] / 16)]
      && nextC == x[n - 1] % 16 * 4
  }

  lemma ProgressFirst(x: seq<Byte>, c: Byte, ret: Text)
    requires |x| % 3 == 0 && ret == Encoded(x)
    ensures Progress(x + [c], c % 4 * 16, ret + [CharTable(c / 4)])
  {
    hide CharTable, Encoded;
    var y := x + [c];
    assert |y| % 3 == 1 && y[|y| - 1] == c && y[..|y| - 1] == x;
  }

  lemma ProgressSecond(x: seq<Byte>, c: Byte, carried: nat, ret: Text)
    requires |x| % 3 == 1 && Progress(x, carried, ret)
    ensures carried + c / 16 < 64 && Progress(x + [c], c % 16 * 4, ret + [CharTable(carried + c / 16)])
  {
    hide CharTable, Encoded;
    var y := x + [c];
    assert |y| % 3 == 2 && y[|y| - 1] == c && y[|y| - 2] == x[|x| - 1] && y[..|y| - 2] == x[..|x| - 1];
  }

  lemma ProgressThird(x: seq<Byte>, c: Byte, carried: nat, ret: Text)
    requires |x| % 3 == 2 && Progress(x, carried, ret)
    ensures carried + c / 64 < 64 && Progress(x + [c], 0, ret + [CharTable(carried + c / 64)] + [CharTable(c % 64)])
  {
    hide CharTable, Encoded;
    var front, last := x[..|x| - 2], [x[|x| - 2], x[|x| - 1], c];
    EncodedSplit(front, last);
    ShortEncodings(last[0], last[1], c);
    assert x + [c] == front + last;
  }

  method EncodeBase(curChar: Byte, pos: nat, carried: nat, sofar: Text, ghost x: seq<Byte>) returns (nextC: nat, ret: Text)
    requires pos == |x| && Progress(x, carried, sofar)
    ensures Progress(x + [curChar], nextC, ret)
  {
    hide CharTable, Encoded;
    match pos % 3
    case 0 =>
      ProgressFirst(x, curChar, sofar);
      ret := sofar + [CharTable(curChar / 4)];
      nextC := curChar % 4 * 16;
    case 1 =>
      ProgressSecond(x, curChar, carried, sofar);
      hide Progress;
      ret := sofar + [CharTable(carried + curChar / 16)];
      nextC := curChar % 16 * 4;
    case 2 =>
      ProgressThird(x, curChar, carried, sofar);
      hide Progress;
      ret := sofar + [CharTable(carried + curChar / 64)];
      ret := ret + [CharTable(curChar % 64)];
      nextC := 0;
  }

  lemma ShortEncodings(a: Byte, b: Byte, c: Byte)
    ensures Encoded([a]) == Group1(a) && Encoded([a, b]) == Group2(a, b) && Encoded([a, b, c]) == Group3(a, b, c)
  {
    hide CharTable;
    assert [a, b, c][3..] == [];
  }

  method EncodeLast(pos: nat, lastChar: nat, sofar: Text, ghost x: seq<Byte>) returns (ret: Text)
    requires pos == |x| && Progress(x, lastChar, sofar)
    ensures ret == Encoded(x)
  {
    hide CharTable, Encoded;
    ghost var n := |x|;
    match pos % 3
    case 0 => ret := sofar;
    case 1 =>
      EncodedSplit(x[..n - 1], [x[n - 1]]);
      ShortEncodings(x[n - 1], 0, 0);
      assert x == x[..n - 1] + [x[n - 1]];
      ret := sofar + [CharTable(lastChar)] + [PAD] + [PAD];
    case 2 =>
      EncodedSplit(x[..n - 2], [x[n - 2], x[n - 1]]);
      ShortEncodings(x[n - 2], x[n - 1], 0);
      assert x == x[..n - 2] + [x[n - 2], x[n - 1]];
      ret := sofar + [CharTable(lastChar)] + [PAD];
  }

  method Encode(input: seq<Byte>) returns (ret: Text)
    ensures ret == Encoded(input)
  {
    hide Encoded, CharTable;
    ret := [];
    var pos: nat, nextC: nat := 0, 0;
    assert Encoded([]) == [];
    for i := 0 to |input|
      invariant pos == i && Progress(input[..i], nextC, ret)
    {
      assert input[..i + 1] == input[..i] + [input[i]];
      nextC, ret := EncodeBase(input[i], pos, nextC, ret, input[..i]);
      pos := pos + 1;
    }
    assert input[..|input|] == input;
    ret := EncodeLast(pos, nextC, ret, input);
  }

  // ---- Decoding ----------------------------------------------------------------------------------------------

  lemma ContinuedByGroup(done: seq<Byte>, here: Text)
    requires FullGroup(here) && |here| >= 4 && |here| % 4 == 0
    ensures Continued(done, DecodedGroups(here)) == Continued(done + Joined(here), DecodedGroups(here[4..]))
  {
    hide FullGroup, Joined;
    var rest := DecodedGroups(here[4..]);
    if rest.Some? {
      Associative(done, Joined(here), rest.value);
    }
  }

  lemma NothingDone(rest: Option<seq<Byte>>)
    ensures Continued([], rest) == rest
  {
    if rest.Some? {
      assert [] + rest.value == rest.value;
    }
  }

  /** Where the one or two padding characters at the end begin. */
  function PaddingStart(s: Text): nat
    requires |s| >= 4
  {
    if s[|s| - 1] != PAD then |s| else if s[|s| - 2] != PAD then |s| - 1 else |s| - 2
  }

  method FindPadding(input: Text) returns (firstPaddingIndex: nat)
    requires |input| >= 4
    ensures firstPaddingIndex == PaddingStart(input)
  {
    var length := |input|;
    firstPaddingIndex := length;
    if input[length - 1] == PAD {
      firstPaddingIndex := length - 1;
      if input[length - 2] == PAD {
        firstPaddingIndex := length - 2;
      }
    }
  }

  /** What became of a group: the text is invalid, the group was padded, or there may be more. */
  datatype GroupKind = Bad | Last | More

  /** Decodes the four characters at `curRead` behind what was decoded before. */
  method DecodeGroup(input: Text, curRead: nat, firstPaddingIndex: nat, before: seq<Byte>)
    returns (result: seq<Byte>, kind: GroupKind)
    requires Ascii7(input) && curRead + 4 <= |input| && |input| % 4 == 0 && curRead % 4 == 0
    requires firstPaddingIndex == PaddingStart(input)
    ensures var here := input[curRead..];
            match kind
            case More => FullGroup(here) && result == before + Joined(here)
            case Last => |here| == 4 && !FullGroup(here) && Some(result) == Continued(before, PaddedGroup(here))
            case Bad => !FullGroup(here) && (|here| == 4 ==> PaddedGroup(here) == None)
  {
    hide CharTable;
    ghost var here := input[curRead..];
    assert here[0] == input[curRead] && here[1] == input[curRead + 1];
    assert here[2] == input[curRead + 2] && here[3] == input[curRead + 3];
    result, kind := before, Bad;
    var a, b := ReverseLookup(input[curRead]), ReverseLookup(input[curRead + 1]);
    if a == INVALID || b == INVALID {
      return;
    }
    result := result + [a * 4 + b / 16];
    var c := ReverseLookup(input[curRead + 2]);
    // an invalid character is fine where the padding begins, unless it leaves bits unused
    if c == INVALID {
      kind := if firstPaddingIndex != curRead + 2 || b % 16 != 0 then Bad else Last;
      return;
    }
    result := result + [b % 16 * 16 + c / 4];
    assert result == before + [a * 4 + b / 16, b % 16 * 16 + c / 4];
    var d := ReverseLookup(input[curRead + 3]);
    if d == INVALID {
      kind := if firstPaddingIndex != curRead + 3 || c % 4 != 0 then Bad else Last;
      return;
    }
    result := result + [c % 4 * 64 + d];
    kind := More;
  }

  method Decode(input: Text) returns (result: seq<Byte>)
    requires Ascii7(input)
    ensures result == Decoded(input)
  {
    hide ReverseLookup, FullGroup, Joined, PaddedGroup, PaddingStart;
    var length := |input|;
    if length % 4 != 0 || length == 0 {
      return [];
    }
    var firstPaddingIndex := FindPadding(input);
    result := [];
    var bytesLeft: nat, curRead: nat := length, 0;
    assert input[0..] == input;
    NothingDone(DecodedGroups(input));
    while bytesLeft > 0
      invariant curRead + bytesLeft == length && bytesLeft % 4 == 0
      invariant Continued(result, DecodedGroups(input[curRead..])) == DecodedGroups(input)
    {
      ghost var here := input[curRead..];
      ghost var before := result;
      var group;
      result, group := DecodeGroup(input, curRead, firstPaddingIndex, result);
      match group
      case Bad => return [];
      case Last => return;
      case More =>
        ContinuedByGroup(before, here);
        assert here[4..] == input[curRead + 4..];
        curRead := curRead + 4;
        bytesLeft := bytesLeft - 4;
    }
    assert input[curRead..] == [];
  }
}
