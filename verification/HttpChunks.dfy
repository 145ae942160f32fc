/** The chunked transfer coding (section 4.1 of RFC 7230): writing a chunk header in place, reading one from a stream
    of buffers, and decoding a whole body. */
module HttpChunks {
  import opened Fragments
  import opened Hex
  import opened Wrappers

  const CR: Byte := 13
  const LF: Byte := 10
  const END_OF_LINE: Text := [CR, LF]
  const CHUNKED_HTTP_MAX_HEADER_SIZE: nat := 10

  // ---- The coding --------------------------------------------------------------------------------------------

  /** A chunk whose size is written with these digits. */
  function Chunk(digits: Text, data: seq<Byte>): seq<Byte> { digits + END_OF_LINE + data + END_OF_LINE }

  predicate Announces(digits: Text, size: nat) { digits != [] && AllHex(digits) && Value(digits) == size }

  /** Number of characters in front of the first carriage return. */
  function LineLength(s: seq<Byte>): (n: nat)
    ensures n <= |s| && (n < |s| ==> s[n] == CR) && forall i :: 0 <= i < n ==> s[i] != CR
  {
    if s == [] || s[0] == CR then 0 else 1 + LineLength(s[1..])
  }

  /** Decodes a body: chunks, then one of size zero and an empty line. */
  function Dechunk(s: seq<Byte>): Option<seq<Byte>>
    decreases |s|
  {
    var n := LineLength(s);
    if n == 0 || n + 2 > |s| || s[n + 1] != LF || !AllHex(s[..n]) then None
    else DechunkData(Value(s[..n]), s[n + 2..])
  }

  /** What follows a size line. */
  function DechunkData(size: nat, s: seq<Byte>): Option<seq<Byte>>
    decreases |s|
  {
    if size == 0 then if s == END_OF_LINE then Some([]) else None
    else if size + 2 > |s| || s[size..size + 2] != END_OF_LINE then None
    else
      var more := Dechunk(s[size + 2..]);
      if more.None? then None else Some(s[..size] + more.value)
  }

  lemma {:induction false} LineEnds(digits: Text, rest: seq<Byte>)
    requires AllHex(digits)
    ensures LineLength(digits + END_OF_LINE + rest) == |digits|
  {
    var s := digits + END_OF_LINE + rest;
    if digits != [] {
      assert IsHexDigit(digits[0]);
      assert AllHex(digits[1..]) by {
        assert forall i :: 0 <= i < |digits| - 1 ==> digits[1..][i] == digits[i + 1];
      }
      assert s[1..] == digits[1..] + END_OF_LINE + rest;
      LineEnds(digits[1..], rest);
    }
  }

  /** Decoding a body that begins with a size line. */
  lemma SizeLineDecodes(digits: Text, size: nat, tail: seq<Byte>)
    requires Announces(digits, size)
    ensures Dechunk(digits + END_OF_LINE + tail) == DechunkData(size, tail)
  {
    hide AllHex, Value, LineLength, DechunkData;
    var s := digits + END_OF_LINE + tail;
    LineEnds(digits, tail);
    assert s[..|digits|] == digits && s[|digits| + 2..] == tail && s[|digits| + 1] == LF;
  }

  /** A chunk in front of a body decodes to its data, followed by what the body decodes to. */
  lemma ChunkDecodes(digits: Text, data: seq<Byte>, rest: seq<Byte>)
    requires Announces(digits, |data|) && data != []
    ensures Dechunk(Chunk(digits, data) + rest) ==
            if Dechunk(rest).None? then None else Some(data + Dechunk(rest).value)
  {
    hide Announces, Dechunk;
    var tail := data + END_OF_LINE + rest;
    SizeLineDecodes(digits, |data|, tail);
    assert Chunk(digits, data) + rest == digits + END_OF_LINE + tail;
    assert tail[|data|..|data| + 2] == END_OF_LINE && tail[|data| + 2..] == rest && tail[..|data|] == data;
  }

  // ---- Writing a chunk header --------------------------------------------------------------------------------

  /** Eight digits and an end of line, written into the last ten bytes in front of `size`. */
  method WriteHttpChunkHeader(data: array<Byte>, size: nat, chunkSize: nat) returns (written: nat)
    requires CHUNKED_HTTP_MAX_HEADER_SIZE <= size <= data.Length && chunkSize < TWO_32
    modifies data
    ensures written == CHUNKED_HTTP_MAX_HEADER_SIZE
    ensures data[size - written..size] == LowerHex(chunkSize, 8) + END_OF_LINE
    ensures data[..size - written] == old(data[..size - written]) && data[size..] == old(data[size..])
  {
    hide LowerHex;
    var start := size - CHUNKED_HTTP_MAX_HEADER_SIZE;
    ghost var rest := data[size..];
    Uint32ToHex(chunkSize, data, start);
    assert data[size..] == data[start + 8..][2..] == rest;
    ghost var front := data[..start];
    data[start + 8] := CR;
    data[start + 9] := LF;
    assert data[..start] == front;
    assert data[start..size] == data[start..start + 8] + END_OF_LINE;
    written := CHUNKED_HTTP_MAX_HEADER_SIZE;
  }

  lemma EightDigits(size: nat)
    requires size < TWO_32
    ensures Announces(LowerHex(size, 8), size)
  {
    Powers();
    LowerHexIsHex(size, 8);
  }

  // ---- Reading a chunk header --------------------------------------------------------------------------------

  /** An input stream that hands out its bytes buffer by buffer. */
  class BufferStream {
    var buffers: seq<seq<Byte>>
    /** Buffers handed out, and how much of the last of them counts as read. */
    var index: nat
    var position: nat

    /** The buffer handed out last was partly put back. */
    ghost predicate Unread()
      reads this
    {
      0 < index <= |buffers| && position < |buffers[index - 1]|
    }

    ghost predicate Valid()
      reads this
    {
      index <= |buffers| && (index > 0 ==> position <= |buffers[index - 1]|)
    }

    /** Everything not yet read. */
    ghost function Rest(): seq<Byte>
      requires Valid()
      reads this
    {
      (if index == 0 then [] else buffers[index - 1][position..]) + Flatten(buffers[index..])
    }

    constructor (buffers: seq<seq<Byte>>)
      ensures Valid() && Rest() == Flatten(buffers)
    {
      this.buffers, index, position := buffers, 0, 0;
    }

    /** These bytes are what Next handed out last. */
    ghost predicate JustRead(data: seq<Byte>)
      reads this
    {
      && Valid() && index > 0 && |data| <= position == |buffers[index - 1]|
      && data == buffers[index - 1][position - |data|..]
    }

    /** Hands out the unread part of the current buffer, or the next buffer. */
    method Next() returns (more: bool, data: seq<Byte>)
      requires Valid()
      modifies this`index, this`position
      ensures Valid() && (more ==> old(Rest()) == data + Rest() && JustRead(data))
      ensures !more ==> old(Rest()) == [] && Rest() == []
      ensures more ==> !Unread() && (index > old(index) || (index == old(index) && old(Unread()) && |data| > 0))
    {
      if index > 0 && position < |buffers[index - 1]| {
        data := buffers[index - 1][position..];
        position := |buffers[index - 1]|;
        return true, data;
      }
      if index == |buffers| {
        return false, [];
      }
      assert buffers[index..][1..] == buffers[index + 1..];
      data := buffers[index];
      index := index + 1;
      position := |data|;
      return true, data;
    }

    /** Puts back the end of what Next handed out. */
    method BackUp(count: nat, ghost data: seq<Byte>)
      requires JustRead(data) && count <= |data|
      modifies this`position
      ensures Valid() && Rest() == data[|data| - count..] + old(Rest())
    {
      position := position - count;
    }

    /** Skips bytes; false when the stream ends before. */
    method Skip(count: nat) returns (ok: bool)
      requires Valid()
      modifies this`index, this`position
      ensures Valid() && ok == (count <= |old(Rest())|)
      ensures ok ==> Rest() == old(Rest())[count..]
    {
      hide Rest;
      var left: nat := count;
      ghost var all := Rest();
      while left > 0
        invariant Valid() && left <= count && count - left <= |all| && Rest() == all[count - left..]
        decreases left, |buffers| - index
      {
        var more, data := Next();
        if !more {
          return false;
        }
        SkipPart(all, count - left, data, Rest(), left);
        if |data| >= left {
          BackUp(|data| - left, data);
          return true;
        }
        left := left - |data|;
      }
      return true;
    }
  }

  lemma SkipPart(all: seq<Byte>, done: nat, data: seq<Byte>, rest: seq<Byte>, left: nat)
    requires done <= |all| && all[done..] == data + rest
    ensures if |data| >= left then all[done + left..] == data[left..] + rest else all[done + |data|..] == rest
  {
    if |data| >= left {
      assert all[done + left..] == all[done..][left..];
    } else {
      assert all[done + |data|..] == all[done..][|data|..];
    }
  }

  /** The size line in front of some bytes, if it is complete, short enough and a number of 64 bits. */
  predicate HasChunkHeader(s: seq<Byte>) {
    var n := LineLength(s);
    n <= 16 && n + 2 <= |s| && Trim(s[..n]) != [] && AllHex(Trim(s[..n])) && Value(Trim(s[..n])) < TWO_64
  }

  /** Looks for the end of the line in one buffer, storing the digits in front of it. */
  method ScanDigits(data: seq<Byte>, before: Text) returns (found: bool, tooLong: bool, i: nat, digits: Text)
    requires |before| <= 16
    ensures i <= |data| && |digits| <= 16 && digits == before + data[..i] && LineLength(data) >= i
    ensures found ==> i < |data| && data[i] == CR
    ensures tooLong ==> !found && |digits| == 16 && i < |data| && data[i] != CR
    ensures !found && !tooLong ==> i == |data|
  {
    digits, found, tooLong, i := before, false, false, 0;
    while i < |data|
      invariant i <= |data| && digits == before + data[..i] && |digits| <= 16 && LineLength(data) >= i
    {
      if data[i] == CR {
        found := true;
        return;
      }
      if |digits| >= 16 {
        tooLong := true;
        return;
      }
      LineGoesOn(data, i);
      digits := digits + [data[i]];
      i := i + 1;
    }
  }

  lemma LineGoesOn(s: seq<Byte>, i: nat)
    requires i < |s| && s[i] != CR && LineLength(s) >= i
    ensures LineLength(s) > i
  {
  }

  lemma LineFound(s: seq<Byte>, n: nat)
    requires n < |s| && s[n] == CR && forall i :: 0 <= i < n ==> s[i] != CR
    ensures LineLength(s) == n
  {
    if LineLength(s) < n {
      assert s[LineLength(s)] == CR;
    }
  }

  /** The end of the line was found: the digits are converted and the line is skipped. */
  method FinishHeader(stream: BufferStream, data: seq<Byte>, i: nat, digits: Text, ghost all: seq<Byte>)
    returns (ok: bool, chunkSize: nat)
    requires stream.JustRead(data) && |digits| <= 16 && Ascii7(digits) && i < |data|
    requires all == digits + (data[i..] + stream.Rest()) && LineLength(all) == |digits|
    modifies stream
    ensures stream.Valid() && ok == HasChunkHeader(all)
    ensures ok ==> chunkSize == Value(Trim(all[..|digits|])) && stream.Rest() == all[|digits| + 2..]
  {
    hide Value, AllHex, Trim, Ascii7, LineLength, BufferStream.Rest;
    assert all[..|digits|] == digits && all[|digits|..] == data[i..] + stream.Rest();
    var size := HexToUint64(digits);
    if size.Err? {
      return false, 0;
    }
    stream.BackUp(|data| - i, data);
    ok := stream.Skip(2);
    chunkSize := size.value;
    assert ok ==> all[|digits|..][2..] == all[|digits| + 2..];
  }

  /** Nothing in front of the stream is a carriage return yet. */
  ghost predicate NoneYet(digits: Text) { |digits| <= 16 && forall i :: 0 <= i < |digits| ==> digits[i] != CR }

  /** What one buffer tells: the header is complete, there is none, or the next buffer has to be looked at. */
  method ReadBuffer(stream: BufferStream, data: seq<Byte>, before: Text, ghost all: seq<Byte>)
    returns (done: bool, ok: bool, chunkSize: nat, digits: Text)
    requires stream.JustRead(data) && NoneYet(before) && all == before + (data + stream.Rest())
    requires Ascii7(all[..LineLength(all)])
    modifies stream
    ensures stream.Valid() && (done ==> ok == HasChunkHeader(all))
    ensures done && ok ==> chunkSize == Value(Trim(all[..LineLength(all)])) && stream.Rest() == all[LineLength(all) + 2..]
    ensures !done ==> stream.index == old(stream.index) && stream.position == old(stream.position) && stream.buffers == old(stream.buffers)
    ensures !done ==> NoneYet(digits) && all == digits + stream.Rest()
  {
    hide HasChunkHeader, Value, AllHex, Trim, LineLength, BufferStream.Rest, Ascii7;
    done, ok, chunkSize := true, false, 0;
    ghost var after := stream.Rest();
    var found, tooLong, i;
    found, tooLong, i, digits := ScanDigits(data, before);
    Scanned(all, before, data, after, i);
    NoneScanned(before, data, i);
    if found {
      LineFound(all, |digits|);
      assert all[..|digits|] == digits;
      ok, chunkSize := FinishHeader(stream, data, i, digits, all);
    } else if tooLong {
      LineTooLong(all, |digits|);
    } else {
      done := false;
      assert data[i..] + after == after;
    }
  }

  lemma NoneScanned(before: Text, data: seq<Byte>, i: nat)
    requires NoneYet(before) && i <= LineLength(data) && |before| + i <= 16
    ensures NoneYet(before + data[..i])
  {
  }

  /** However the bytes are cut into buffers, a header is recognized exactly when they begin with one; then the
      size is the announced one and the stream stands behind the line. */
  method ReadChunkHeader(stream: BufferStream) returns (ok: bool, chunkSize: nat)
    requires stream.Valid() && Ascii7(stream.Rest()[..LineLength(stream.Rest())])
    modifies stream
    ensures stream.Valid() && ok == HasChunkHeader(old(stream.Rest()))
    ensures ok ==> var s := old(stream.Rest()); var n := LineLength(s);
                   chunkSize == Value(Trim(s[..n])) && stream.Rest() == s[n + 2..]
  {
    hide HasChunkHeader, Value, Trim, Ascii7, LineLength, BufferStream.Rest;
    ghost var all := stream.Rest();
    var digits: Text := [];
    assert all == digits + all;
    while true
      invariant stream.Valid() && NoneYet(digits) && all == digits + stream.Rest()
      decreases |stream.buffers| - stream.index, if stream.Unread() then 1 else 0
    {
      var more, data := stream.Next();
      if !more {
        assert all == digits;
        NoLine(all);
        return false, 0;
      }
      var done;
      done, ok, chunkSize, digits := ReadBuffer(stream, data, digits, all);
      if done {
        return;
      }
    }
  }

  lemma Scanned(all: seq<Byte>, before: Text, data: seq<Byte>, after: seq<Byte>, i: nat)
    requires all == before + (data + after) && i <= |data|
    ensures all == (before + data[..i]) + (data[i..] + after)
  {
    assert data == data[..i] + data[i..];
  }

  lemma LineTooLong(s: seq<Byte>, n: nat)
    requires n < |s| && n == 16 && forall i :: 0 <= i <= n ==> s[i] != CR
    ensures !HasChunkHeader(s)
  {
  }

  lemma NoLine(s: seq<Byte>)
    requires forall i :: 0 <= i < |s| ==> s[i] != CR
    ensures !HasChunkHeader(s)
  {
  }
}
