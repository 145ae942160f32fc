/** What the collector makes of a completed session: the body of its request, decoded and parsed. */
module SessionDecoding {
  import opened Fragments
  import opened Wrappers
  import opened Hex
  import opened HttpChunks
  import opened WireFormat
  import opened SpanStreams
  import opened ConnectionStreams
  import opened Sessions
  import Framing = SpanFraming

  // ---- The header of a session -------------------------------------------------------------------------------

  lemma {:induction false} UpperHexDenotes(n: nat)
    ensures Announces(UpperHex(n), n)
  {
    var digit: Byte := if n % 16 < 10 then 48 + n % 16 else 55 + n % 16;
    assert HexTable(digit) == n % 16;
    if n < 16 {
      assert [digit][..0] == [];
    } else {
      UpperHexDenotes(n / 16);
      assert UpperHex(n)[..|UpperHex(n)| - 1] == UpperHex(n / 16);
    }
  }

  /** The request line and header fields, up to the empty line. */
  function RequestHead(cfg: Config): seq<Byte> { RequestCommon() + cfg.host + END_OF_LINE }

  /** Splits off the first line. */
  function ReadLine(s: seq<Byte>): (r: Option<(seq<Byte>, seq<Byte>)>)
    ensures r.Some? ==> |r.value.1| < |s|
  {
    if |s| < 2 then None
    else if s[0] == CR && s[1] == LF then Some(([], s[2..]))
    else
      var r := ReadLine(s[1..]);
      if r.None? then None else Some(([s[0]] + r.value.0, r.value.1))
  }

  /** The lines of a request up to the empty one, and what follows it. */
  function ReadHead(s: seq<Byte>): Option<(seq<seq<Byte>>, seq<Byte>)>
    decreases |s|
  {
    var line := ReadLine(s);
    if line.None? then None
    else if line.value.0 == [] then Some(([], line.value.1))
    else
      var r := ReadHead(line.value.1);
      if r.None? then None else Some(([line.value.0] + r.value.0, r.value.1))
  }

  lemma {:induction false} LineReads(line: seq<Byte>, rest: seq<Byte>)
    requires CR !in line
    ensures ReadLine(line + (END_OF_LINE + rest)) == Some((line, rest))
  {
    var s := line + (END_OF_LINE + rest);
    if line == [] {
      assert s[2..] == rest;
    } else {
      assert s[1..] == line[1..] + (END_OF_LINE + rest);
      LineReads(line[1..], rest);
      assert [line[0]] + line[1..] == line;
    }
  }

  /** Lines, closed by an empty one. */
  function JoinLines(lines: seq<seq<Byte>>): seq<Byte> {
    if lines == [] then END_OF_LINE else lines[0] + END_OF_LINE + JoinLines(lines[1..])
  }

  lemma {:induction false} LinesRead(lines: seq<seq<Byte>>, rest: seq<Byte>)
    requires forall i :: 0 <= i < |lines| ==> lines[i] != [] && CR !in lines[i]
    ensures ReadHead(JoinLines(lines) + rest) == Some((lines, rest))
  {
    if lines == [] {
      LineReads([], rest);
      assert [] + (END_OF_LINE + rest) == END_OF_LINE + rest;
    } else {
      assert lines[0] != [] && CR !in lines[0];
      LinesRead(lines[1..], rest);
      hide ReadLine;
      var more := JoinLines(lines[1..]) + rest;
      LineReads(lines[0], more);
      assert JoinLines(lines) + rest == lines[0] + (END_OF_LINE + more);
      assert [lines[0]] + lines[1..] == lines;
    }
  }

  /** Every character can be seen. */
  predicate Printable(s: string) { forall c :: c in s ==> ' ' <= c <= '~' }

  lemma NoBreak(s: string)
    requires Printable(s)
    ensures CR !in Ascii(s)
  {
    forall i | 0 <= i < |s| ensures Ascii(s)[i] != CR {
      assert s[i] in s;
    }
  }

  const REQUEST_LINE: string := "POST /api/v2/reports HTTP/1.1"
  const CLOSE: string := "Connection:close"
  const OCTETS: string := "Content-Type:application/octet-stream"
  const CHUNKED: string := "Transfer-Encoding:chunked"

  lemma RequestPrintable()
    ensures Printable(REQUEST_LINE)
  {
  }

  lemma ClosePrintable()
    ensures Printable(CLOSE)
  {
  }

  lemma OctetsPrintable()
    ensures Printable(OCTETS)
  {
  }

  lemma ChunkedPrintable()
    ensures Printable(CHUNKED)
  {
  }

  /** The head of every session is read as a request line and header lines, one of which announces the chunked coding,
      and ends with the empty line; the host fragment is one line, too. */
  lemma HeadReads(cfg: Config, hostLine: seq<Byte>, body: seq<Byte>)
    requires cfg.host == hostLine + END_OF_LINE && hostLine != [] && CR !in hostLine
    ensures ReadHead(RequestHead(cfg) + body) ==
            Some(([Ascii(REQUEST_LINE), Ascii(CLOSE), Ascii(OCTETS), Ascii(CHUNKED), hostLine], body))
    ensures END_OF_LINE == ['\r' as int, '\n' as int]
  {
    RequestPrintable();
    ClosePrintable();
    OctetsPrintable();
    ChunkedPrintable();
    hide Printable;
    NoBreak(REQUEST_LINE);
    NoBreak(CLOSE);
    NoBreak(OCTETS);
    NoBreak(CHUNKED);
    var a, b, c, d := Ascii(REQUEST_LINE), Ascii(CLOSE), Ascii(OCTETS), Ascii(CHUNKED);
    assert a != [] && b != [] && c != [] && d != [];
    assert RequestHead(cfg) == a + END_OF_LINE + b + END_OF_LINE + c + END_OF_LINE + d + END_OF_LINE + cfg.host + END_OF_LINE;
    hide Ascii, RequestHead, ReadHead;
    FiveLines(a, b, c, d, hostLine);
    LinesRead([a, b, c, d, hostLine], body);
  }

  lemma FiveLines(a: seq<Byte>, b: seq<Byte>, c: seq<Byte>, d: seq<Byte>, e: seq<Byte>)
    ensures JoinLines([a, b, c, d, e]) ==
            a + END_OF_LINE + b + END_OF_LINE + c + END_OF_LINE + d + END_OF_LINE + (e + END_OF_LINE) + END_OF_LINE
  {
    var lines := [a, b, c, d, e];
    assert lines[1..] == [b, c, d, e] && lines[1..][1..] == [c, d, e] && lines[1..][1..][1..] == [d, e];
    assert [d, e][1..] == [e] && [e][1..] == [];
    assert JoinLines([e]) == e + END_OF_LINE + END_OF_LINE;
    assert JoinLines([d, e]) == d + END_OF_LINE + JoinLines([e]);
    assert JoinLines([c, d, e]) == c + END_OF_LINE + JoinLines([d, e]);
    assert JoinLines([b, c, d, e]) == b + END_OF_LINE + JoinLines([c, d, e]);
  }

  /** The message every session begins with, carrying a number of dropped spans. */
  function Message(cfg: Config, drops: nat): seq<Byte> { cfg.common + cfg.message(drops) }

  lemma HeaderIsChunk(cfg: Config, drops: nat)
    ensures Flatten(HeaderFragments(cfg.host, cfg.common, cfg.message(drops))) ==
            RequestHead(cfg) + Chunk(UpperHex(|Message(cfg, drops)|), Message(cfg, drops))
  {
    hide RequestCommon, UpperHex;
    var digits := UpperHex(|Message(cfg, drops)|);
    var a, b := [RequestCommon(), cfg.host, END_OF_LINE], [digits + END_OF_LINE, cfg.common, cfg.message(drops), END_OF_LINE];
    assert HeaderFragments(cfg.host, cfg.common, cfg.message(drops)) == a + b;
    FlattenConcat(a, b);
    FlattenThree(a);
    assert b == b[..3] + [END_OF_LINE];
    FlattenPush(b[..3], END_OF_LINE);
    FlattenThree(b[..3]);
  }

  lemma FlattenThree(fs: seq<Fragment>)
    requires |fs| == 3
    ensures Flatten(fs) == fs[0] + fs[1] + fs[2]
  {
    assert fs == [fs[0]] + [fs[1]] + [fs[2]];
    FlattenPush([fs[0]] + [fs[1]], fs[2]);
    FlattenPush([fs[0]], fs[1]);
    FlattenSingle(fs[0]);
  }

  function HeaderBytes(cfg: Config, drops: nat): seq<Byte> {
    Flatten(HeaderFragments(cfg.host, cfg.common, cfg.message(drops)))
  }

  /** The header of every connection carries the count its session took over. */
  ghost predicate HeadersOk(s: State, cfg: Config) {
    forall c :: 0 <= c < |s.conns| ==> s.conns[c].session.header == HeaderBytes(cfg, s.conns[c].view.embedded)
  }

  lemma FlushKeepsEmbedded(p: Pair, n: nat)
    requires p.spans.allotted <= |p.spans.buffer|
    ensures FlushSpec(p, n).conn.embedded == p.conn.embedded
  {
    hide ConsumeMembers;
    ConsumeMembersKeeps(p, Streams(p), n);
  }

  lemma HeadersKept(s: State, e: Event, cfg: Config)
    requires HeadersOk(s, cfg) && Enabled(s, e) && s.spans.allotted <= |s.spans.buffer|
    ensures HeadersOk(Apply(s, e, cfg), cfg)
  {
    hide FlushEffects.Taken, FlushSpec, HeaderFragments;
    if e.Flush? {
      FlushKeepsEmbedded(Ready(s, e.c, e.late), e.n);
    }
  }

  lemma {:induction false} RunKeepsHeaders(a: State, events: seq<Event>, b: State, cfg: Config)
    requires HeadersOk(a, cfg) && RunsTo(a, events, b, cfg)
    ensures HeadersOk(b, cfg)
    decreases |events|
  {
    hide Apply, HeadersOk, Enabled;
    if events != [] {
      HeadersKept(a, events[0], cfg);
      RunKeepsHeaders(Apply(a, events[0], cfg), events[1..], b, cfg);
    }
  }

  // ---- The spans of a session --------------------------------------------------------------------------------

  function SpanFields(bodies: seq<seq<Byte>>): (fs: seq<Field>)
    ensures |fs| == |bodies|
  {
    seq(|bodies|, i requires 0 <= i < |bodies| => LengthField(3, bodies[i]))
  }

  /** The spans are frames around these bodies, each short enough for its frame. */
  ghost predicate FramedAs(spans: seq<Chain>, bodies: seq<seq<Byte>>) {
    && |spans| == |bodies|
    && forall i :: 0 <= i < |spans| ==>
         Flatten(spans[i]) == Framing.Framed(bodies[i]) && |Framing.ChunkData(bodies[i])| < TWO_32
  }

  lemma {:induction false} SpansDechunk(spans: seq<Chain>, bodies: seq<seq<Byte>>, rest: seq<Byte>)
    requires FramedAs(spans, bodies) && Dechunk(rest).Some?
    ensures Dechunk(Bytes(spans) + rest) == Some(EncodeAll(SpanFields(bodies)) + Dechunk(rest).value)
  {
    hide Dechunk, Encode, LowerHex, Announces, Framing.ChunkData;
    if spans == [] {
      assert Bytes(spans) + rest == rest;
      assert EncodeAll(SpanFields(bodies)) + Dechunk(rest).value == Dechunk(rest).value;
    } else {
      var data := Framing.ChunkData(bodies[0]);
      SpansDechunk(spans[1..], bodies[1..], rest);
      Framing.FrameIsChunk(bodies[0]);
      Associative(Flatten(spans[0]), Bytes(spans[1..]), rest);
      ChunkDecodes(LowerHex(|data| % TWO_32, 8), data, Bytes(spans[1..]) + rest);
      assert SpanFields(bodies)[1..] == SpanFields(bodies[1..]);
      Associative(data, EncodeAll(SpanFields(bodies[1..])), Dechunk(rest).value);
    }
  }

  // ---- Every span on its way is a frame ----------------------------------------------------------------------

  /** A frame around a body that is short enough for it. */
  ghost predicate ShortFrame(span: Chain) {
    exists body :: Flatten(span) == Framing.Framed(body) && |Framing.ChunkData(body)| < TWO_32
  }

  ghost function BodyOf(span: Chain): (body: seq<Byte>)
    requires ShortFrame(span)
    ensures Flatten(span) == Framing.Framed(body) && |Framing.ChunkData(body)| < TWO_32
  {
    var body :| Flatten(span) == Framing.Framed(body) && |Framing.ChunkData(body)| < TWO_32;
    body
  }

  ghost predicate ShortFrames(spans: seq<Chain>) { forall i :: 0 <= i < |spans| ==> ShortFrame(spans[i]) }

  /** The producers offer frames only. */
  ghost predicate OffersFrames(e: Event) {
    match e
    case Offer(span, _) => ShortFrame(span)
    case Flush(_, late, _) => ShortFrames(late)
    case _ => true
  }

  lemma {:induction false} RunKeepsFrames(a: State, events: seq<Event>, b: State, cfg: Config)
    requires ShortFrames(a.added) && RunsTo(a, events, b, cfg) && forall i :: 0 <= i < |events| ==> OffersFrames(events[i])
    ensures ShortFrames(b.added)
    decreases |events|
  {
    hide ShortFrame, FlushSpec, FlushEffects.Taken, ReleaseSpec, InitializeSpec, Enabled;
    if events != [] {
      assert OffersFrames(events[0]);
      RunKeepsFrames(Apply(a, events[0], cfg), events[1..], b, cfg);
    }
  }

  lemma {:induction false} StartedAreAdded(log: seq<Start>, id: nat)
    requires forall k :: 0 <= k < |log| ==> ShortFrame(log[k].span)
    ensures ShortFrames(StartedBy(log, id))
  {
    hide ShortFrame;
    if log != [] {
      StartedAreAdded(log[..|log| - 1], id);
    }
  }

  lemma SessionHasFrames(s: State, c: nat)
    requires LogOk(s) && c < |s.conns| && ShortFrames(s.added)
    ensures ShortFrames(s.conns[c].session.started)
  {
    hide ShortFrame, StartedBy;
    forall k | 0 <= k < |s.log| ensures ShortFrame(s.log[k].span) {
      assert s.added[k] == s.log[k].span;
    }
    StartedAreAdded(s.log, s.conns[c].session.id);
  }

  lemma TerminatorDechunks()
    ensures Dechunk(TERMINATOR) == Some([])
    ensures TERMINATOR == ['0' as int, '\r' as int, '\n' as int, '\r' as int, '\n' as int]
  {
    assert TERMINATOR == [ZERO] + END_OF_LINE + END_OF_LINE;
    assert [ZERO][..0] == [];
    assert Announces([ZERO], 0);
    SizeLineDecodes([ZERO], 0, END_OF_LINE);
  }

  // ---- The whole session -------------------------------------------------------------------------------------

  lemma BodyDechunks(message: seq<Byte>, spans: seq<Chain>, bodies: seq<seq<Byte>>)
    requires message != [] && FramedAs(spans, bodies)
    ensures Dechunk(Chunk(UpperHex(|message|), message) + (Bytes(spans) + TERMINATOR)) ==
            Some(message + EncodeAll(SpanFields(bodies)))
  {
    hide Dechunk, EncodeAll, UpperHex, Announces, Chunk, Bytes;
    TerminatorDechunks();
    SpansDechunk(spans, bodies, TERMINATOR);
    UpperHexDenotes(|message|);
    ChunkDecodes(UpperHex(|message|), message, Bytes(spans) + TERMINATOR);
    assert EncodeAll(SpanFields(bodies)) + [] == EncodeAll(SpanFields(bodies));
  }

  /** A completed session is one well-formed request, in every run in which the producers offer frames: after the head its
      body decodes to the header message, with the drop count the session took over, followed by one field 3 for every
      span it started, in order; and when the header message consists of fields, the decoded body parses into those and
      the spans. */
  lemma CompletedSessionDecodes(events: seq<Event>, s: State, c: nat, cfg: Config)
    returns (body: seq<Byte>, bodies: seq<seq<Byte>>)
    requires RunsTo(INIT, events, s, cfg) && forall i :: 0 <= i < |events| ==> OffersFrames(events[i])
    requires c < |s.conns| && TerminatorSent(s.conns[c].view.terminal) && cfg.common != []
    ensures FramedAs(s.conns[c].session.started, bodies)
    ensures s.conns[c].session.out == RequestHead(cfg) + body
    ensures var message := Message(cfg, s.conns[c].view.embedded);
            && Dechunk(body) == Some(message + EncodeAll(SpanFields(bodies)))
            && forall fields :: message == EncodeAll(fields) && (forall i :: 0 <= i < |fields| ==> FieldOk(fields[i])) ==>
                 ParseAll(Dechunk(body).value) == Some(fields + SpanFields(bodies))
  {
    hide Dechunk, EncodeAll, ParseAll, Chunk, Bytes, HeaderFragments, RequestHead, RunsTo, ShortFrame, LogOk, UpperHex,
         Announces;
    var x := s.conns[c].session;
    assert Reachable(s, cfg);
    SessionsAreFramed(s, cfg);
    RunKeepsHeaders(INIT, events, s, cfg);
    RunKeepsFrames(INIT, events, s, cfg);
    ReachableInv(s, cfg);
    SessionHasFrames(s, c);
    bodies := seq(|x.started|, i requires 0 <= i < |x.started| && ShortFrame(x.started[i]) => BodyOf(x.started[i]));
    HeaderIsChunk(cfg, s.conns[c].view.embedded);
    var message := Message(cfg, s.conns[c].view.embedded);
    var chunk := Chunk(UpperHex(|message|), message);
    body := chunk + (Bytes(x.started) + TERMINATOR);
    Regroup(RequestHead(cfg), chunk, Bytes(x.started), TERMINATOR);
    BodyDechunks(message, x.started, bodies);
    forall fields | message == EncodeAll(fields) && (forall i :: 0 <= i < |fields| ==> FieldOk(fields[i]))
      ensures ParseAll(message + EncodeAll(SpanFields(bodies))) == Some(fields + SpanFields(bodies))
    {
      EncodeConcat(fields, SpanFields(bodies));
      ParseInvertsEncode(fields + SpanFields(bodies));
    }
  }

  lemma Regroup<T>(a: seq<T>, b: seq<T>, c: seq<T>, d: seq<T>)
    ensures a + b + c + d == a + (b + (c + d))
  {
  }
}
