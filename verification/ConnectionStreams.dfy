/** The data sent over one streaming connection: request header, spans, terminator. */
module ConnectionStreams {
  import opened Wrappers
  import opened Fragments
  import opened HttpChunks
  import opened SpanStreams

  // ---- The bytes of a session's header and terminator ------------------------------------------------

  /** The character codes of a literal. */
  function Ascii(s: string): seq<Byte> {
    seq(|s|, i requires 0 <= i < |s| => s[i] as int % 256)
  }

  const TERMINATOR: Fragment := [48, CR, LF, CR, LF]

  function RequestCommon(): Fragment {
    Ascii("POST /api/v2/reports HTTP/1.1") + END_OF_LINE +
    Ascii("Connection:close") + END_OF_LINE +
    Ascii("Content-Type:application/octet-stream") + END_OF_LINE +
    Ascii("Transfer-Encoding:chunked") + END_OF_LINE
  }

  /** Upper-case hexadecimal digits of a number, without leading zeros. */
  function UpperHex(n: nat): seq<Byte> {
    var digit: Byte := if n % 16 < 10 then 48 + n % 16 else 55 + n % 16;
    if n < 16 then [digit] else UpperHex(n / 16) + [digit]
  }

  function ChunkHeader(chunkSize: nat): Fragment { UpperHex(chunkSize) + END_OF_LINE }

  function HeaderFragments(host: Fragment, common: Fragment, metrics: Fragment): seq<Fragment> {
    [RequestCommon(), host, END_OF_LINE, ChunkHeader(|common| + |metrics|), common, metrics, END_OF_LINE]
  }

  // ---- Specification ---------------------------------------------------------------------------------

  datatype ConnView = ConnView(
    header: seq<Fragment>, remnant: Option<Chain>, terminal: seq<Fragment>, shuttingDown: bool, embedded: nat)

  datatype Pair = Pair(conn: ConnView, spans: SpanView)

  /** Nothing of the terminator is left to send. */
  predicate TerminatorSent(terminal: seq<Fragment>) { terminal == [] }

  /** The streams a flush passes to the writer. */
  datatype Member = Header | Remnant | Spans | Terminal

  function Allotted(v: SpanView): seq<Chain>
    requires v.allotted <= |v.buffer|
  {
    v.buffer[..v.allotted]
  }

  /** Fragments the writer sees of one stream. */
  function MemberFragments(p: Pair, m: Member): seq<Fragment>
    requires p.spans.allotted <= |p.spans.buffer|
  {
    match m
    case Header => p.conn.header
    case Remnant => if p.conn.remnant.Some? then p.conn.remnant.value else []
    case Spans => Flatten(Allotted(p.spans))
    case Terminal => p.conn.terminal
  }

  /** One stream after n of its bytes were consumed. */
  function ConsumeMember(p: Pair, m: Member, n: nat): Pair
    requires p.spans.allotted <= |p.spans.buffer|
  {
    match m
    case Header => p.(conn := p.conn.(header := After(p.conn.header, n)))
    case Remnant => if p.conn.remnant.Some? then p.(conn := p.conn.(remnant := Some(After(p.conn.remnant.value, n)))) else p
    case Spans => p.(spans := Consumed(p.spans, n))
    case Terminal => p.(conn := p.conn.(terminal := After(p.conn.terminal, n)))
  }

  /** The writer consumes n bytes of the streams in order. */
  function ConsumeMembers(p: Pair, ms: seq<Member>, n: nat): Pair
    requires p.spans.allotted <= |p.spans.buffer|
    decreases |ms|
  {
    if ms == [] then p
    else
      var size := |Flatten(MemberFragments(p, ms[0]))|;
      if n < size then ConsumeMember(p, ms[0], n)
      else ConsumeMembers(ConsumeMember(p, ms[0], size), ms[1..], n - size)
  }

  lemma {:induction false} ConsumeMembersKeeps(p: Pair, ms: seq<Member>, n: nat)
    requires p.spans.allotted <= |p.spans.buffer|
    ensures var q := ConsumeMembers(p, ms, n);
            && q.conn.shuttingDown == p.conn.shuttingDown && q.conn.embedded == p.conn.embedded
            && q.conn.remnant.Some? == p.conn.remnant.Some?
            && q.spans.metrics.dropped == p.spans.metrics.dropped
            && q.spans.metrics.observedDropped == p.spans.metrics.observedDropped
            && q.spans.allotted <= |q.spans.buffer|
    decreases |ms|
  {
    if ms != [] {
      var size := |Flatten(MemberFragments(p, ms[0]))|;
      if n >= size {
        ConsumeMembersKeeps(ConsumeMember(p, ms[0], size), ms[1..], n - size);
      }
    }
  }

  /** All bytes the writer is shown. */
  function Offered(p: Pair, ms: seq<Member>): seq<Byte>
    requires p.spans.allotted <= |p.spans.buffer|
  {
    if ms == [] then [] else Flatten(MemberFragments(p, ms[0])) + Offered(p, ms[1..])
  }

  /** Streams are listed once, the shared span stream last. */
  predicate Listed(ms: seq<Member>) {
    && (forall i, j :: 0 <= i < j < |ms| ==> ms[i] != ms[j])
    && (forall i :: 0 <= i < |ms| - 1 ==> ms[i] != Spans)
  }

  lemma MemberFrame(p: Pair, m: Member, n: nat, other: Member)
    requires p.spans.allotted <= |p.spans.buffer|
    ensures var q := ConsumeMember(p, m, n);
            q.spans.allotted <= |q.spans.buffer| && (other != m ==> MemberFragments(q, other) == MemberFragments(p, other))
  {
    hide Flatten, After;
  }

  /** Consuming one stream shows the writer nothing different of the others. */
  lemma {:induction false} OfferedFrame(p: Pair, m: Member, n: nat, rest: seq<Member>)
    requires p.spans.allotted <= |p.spans.buffer| && m !in rest
    ensures Offered(ConsumeMember(p, m, n), rest) == Offered(p, rest)
  {
    hide ConsumeMember, MemberFragments, Flatten;
    MemberFrame(p, m, n, if rest == [] then m else rest[0]);
    if rest != [] {
      OfferedFrame(p, m, n, rest[1..]);
    }
  }

  function Streams(p: Pair): seq<Member> {
    if p.conn.remnant.None? then [Header, if p.conn.shuttingDown then Terminal else Spans]
    else [Header, Remnant, if p.conn.shuttingDown then Terminal else Spans]
  }

  /** After the writer ran: a remnant that was used up counts as sent and makes room for the next one. */
  function Settle(p: Pair): Pair {
    var used := p.conn.remnant.Some? && p.conn.remnant.value == [];
    var q := if used then p.(conn := p.conn.(remnant := None),
                             spans := p.spans.(metrics := p.spans.metrics.(observedSent := p.spans.metrics.observedSent + 1)))
             else p;
    if q.conn.remnant.Some? || q.conn.shuttingDown then q
    else q.(conn := q.conn.(remnant := q.spans.remnant), spans := q.spans.(remnant := None))
  }

  /** A flush in which the writer takes n bytes, once the spans were allotted. */
  function FlushSpec(p: Pair, n: nat): Pair
    requires p.spans.allotted <= |p.spans.buffer|
  {
    Settle(ConsumeMembers(p, Streams(p), n))
  }

  function InitializeSpec(p: Pair, host: Fragment, common: Fragment, message: nat -> Fragment): Pair {
    var drops := p.spans.metrics.dropped;
    Pair(ConnView(HeaderFragments(host, common, message(drops)), p.conn.remnant, [TERMINATOR], false, drops),
         p.spans.(metrics := p.spans.metrics.(dropped := 0)))
  }

  /** Counts of a header that was not fully sent go back; an unfinished remnant is dropped. */
  function ReleaseSpec(p: Pair): Pair {
    var m := p.spans.metrics;
    var m1 := if p.conn.header == [] then m else m.(dropped := m.dropped + p.conn.embedded);
    var m2 := if p.conn.remnant.Some? && p.conn.remnant.value != []
              then m1.(dropped := m1.dropped + 1, observedDropped := m1.observedDropped + 1) else m1;
    Pair(p.conn.(remnant := None), p.spans.(metrics := m2))
  }

  // ---- The connection stream --------------------------------------------------------------------------

  class ConnectionStream {
    const hostHeaderFragment: Fragment
    const headerCommonFragment: Fragment
    /** Serialization of the metrics message for a number of dropped spans. */
    const metricsMessage: nat -> Fragment
    const spanStream: SpanStream
    var numEmbedded: nat
    var headerStream: seq<Fragment>
    var terminalStream: seq<Fragment>
    var spanRemnant: Option<Chain>
    var shuttingDown: bool

    ghost function View(): Pair
      reads this, spanStream, spanStream.metrics
    {
      Pair(ConnView(headerStream, spanRemnant, terminalStream, shuttingDown, numEmbedded), spanStream.View())
    }

    ghost predicate Valid()
      reads this, spanStream, spanStream.metrics
    {
      spanStream.Valid()
    }

    constructor (host: Fragment, common: Fragment, message: nat -> Fragment, spans: SpanStream)
      requires spans.Valid()
      modifies spans.metrics
      ensures Valid() && spanStream == spans
      ensures hostHeaderFragment == host && headerCommonFragment == common && metricsMessage == message
      ensures View() == InitializeSpec(Pair(ConnView([], None, [], false, 0), old(spans.View())), host, common, message)
    {
      hostHeaderFragment, headerCommonFragment, metricsMessage, spanStream := host, common, message, spans;
      numEmbedded, headerStream, terminalStream, spanRemnant, shuttingDown := 0, [], [], None, false;
      new;
      InitializeStream();
    }

    method InitializeStream()
      requires Valid()
      modifies this, spanStream.metrics
      ensures Valid() && View() == InitializeSpec(old(View()), hostHeaderFragment, headerCommonFragment, metricsMessage)
    {
      shuttingDown := false;
      terminalStream := [TERMINATOR];
      numEmbedded := spanStream.metrics.ConsumeDroppedSpans();
      var metricsFragment := metricsMessage(numEmbedded);
      var headerChunkSize := |headerCommonFragment| + |metricsFragment|;
      headerStream := [RequestCommon(), hostHeaderFragment, END_OF_LINE, ChunkHeader(headerChunkSize),
                       headerCommonFragment, metricsFragment, END_OF_LINE];
    }

    method Reset()
      requires Valid()
      modifies this, spanStream.metrics
      ensures Valid()
      ensures View() == InitializeSpec(ReleaseSpec(old(View())), hostHeaderFragment, headerCommonFragment, metricsMessage)
    {
      if headerStream != [] {
        spanStream.metrics.UnconsumeDroppedSpans(numEmbedded);
      }
      if spanRemnant.Some? && spanRemnant.value != [] {
        spanStream.metrics.OnSpansDropped(1);
      }
      spanRemnant := None;
      InitializeStream();
    }

    method Shutdown()
      requires Valid()
      modifies this
      ensures Valid() && View() == old(View()).(conn := old(View()).conn.(shuttingDown := true))
    {
      shuttingDown := true;
    }

    function Completed(): (completed: bool)
      reads this, spanStream, spanStream.metrics
      ensures completed <==> TerminatorSent(View().conn.terminal)
    {
      terminalStream == []
    }

    // ---- The writer ------------------------------------------------------------------------------------

    method Fragments(m: Member) returns (visited: seq<Fragment>)
      requires Valid()
      ensures visited == MemberFragments(View(), m)
    {
      match m
      case Header => visited := headerStream;
      case Remnant => visited := if spanRemnant.Some? then spanRemnant.value else [];
      case Spans => visited := spanStream.ForEachFragment();
      case Terminal => visited := terminalStream;
    }

    /** Repositions one stream; `n` is the number of bytes in front of the new position. */
    method SeekMember(m: Member, index: nat, position: nat, ghost n: nat)
      requires Valid() && var fs := MemberFragments(View(), m); index == StopIndex(fs, n) < |fs| && position == StopOffset(fs, n)
      modifies this, spanStream, spanStream.metrics
      ensures Valid() && View() == ConsumeMember(old(View()), m, n)
    {
      hide Consumed, Flatten, StopIndex, StopOffset, After;
      StopAccounts(MemberFragments(View(), m), n);
      match m
      case Header => headerStream := SeekTo(headerStream, index, position);
      case Remnant =>
        if spanRemnant.Some? {
          spanRemnant := Some(SeekTo(spanRemnant.value, index, position));
        }
      case Spans => spanStream.Seek(index, position);
      case Terminal => terminalStream := SeekTo(terminalStream, index, position);
    }

    method ClearMember(m: Member)
      requires Valid()
      modifies this, spanStream, spanStream.metrics
      ensures Valid() && View() == ConsumeMember(old(View()), m, |Flatten(MemberFragments(old(View()), m))|)
    {
      hide Consumed;
      StopAccounts(MemberFragments(View(), m), |Flatten(MemberFragments(View(), m))|);
      match m
      case Header => headerStream := [];
      case Remnant =>
        if spanRemnant.Some? {
          spanRemnant := Some([]);
        }
      case Spans =>
        BytesFlatten(spanStream.buffer[..spanStream.allotment]);
        spanStream.Clear();
      case Terminal => terminalStream := [];
    }

    /** The writer takes n bytes: the streams are consumed in order until n is used up. */
    method Write(ms: seq<Member>, n: nat) returns (all: bool)
      requires Valid() && Listed(ms)
      modifies this, spanStream, spanStream.metrics
      ensures Valid() && View() == ConsumeMembers(old(View()), ms, n)
      ensures all <==> n >= |Offered(old(View()), ms)|
    {
      hide Flatten, ConsumeMember, MemberFragments;
      var left: nat := n;
      var i := 0;
      while i < |ms|
        invariant i <= |ms| && Valid()
        invariant ConsumeMembers(View(), ms[i..], left) == ConsumeMembers(old(View()), ms, n)
        invariant n - left + |Offered(View(), ms[i..])| == |Offered(old(View()), ms)|
      {
        assert ms[i..][1..] == ms[i + 1..];
        var visited := Fragments(ms[i]);
        StopAccounts(visited, left);
        var index, rest := CountFitting(visited, left);
        if index < |visited| {
          SeekMember(ms[i], index, rest, left);
          return false;
        }
        assert visited[..index] == visited;
        OfferedFrame(View(), ms[i], |Flatten(visited)|, ms[i + 1..]);
        ClearMember(ms[i]);
        left := rest;
        i := i + 1;
      }
      assert ms[i..] == [];
      return true;
    }

    /** Spans added by producers between the allotment and the write are `late`. The writer takes n bytes. */
    method Flush(n: nat) returns (all: bool, ghost late: seq<Chain>)
      requires Valid()
      modifies this, spanStream, spanStream.metrics
      ensures Valid()
      ensures var p := old(View());
              var allotted := if p.conn.shuttingDown then p.spans
                              else p.spans.(allotted := |p.spans.buffer|, buffer := p.spans.buffer + late);
              var q := p.(spans := allotted);
              && allotted.allotted <= |allotted.buffer| && View() == FlushSpec(q, n)
              && (all <==> n >= |Offered(q, Streams(q))|)
      ensures old(shuttingDown) ==> late == []
    {
      hide ConsumeMembers, Offered;
      if shuttingDown {
        all := FlushShutdown(n);
        late := [];
        return;
      }
      spanStream.Allot();
      late := spanStream.ProducersRun();
      if spanRemnant.None? {
        ConsumeMembersKeeps(View(), [Header, Spans], n);
        all := Write([Header, Spans], n);
        spanRemnant := spanStream.ConsumeRemnant();
        return;
      }
      ConsumeMembersKeeps(View(), [Header, Remnant, Spans], n);
      all := Write([Header, Remnant, Spans], n);
      if spanRemnant == Some([]) {
        spanStream.metrics.OnSpansSent(1);
        spanRemnant := spanStream.ConsumeRemnant();
      }
    }

    method FlushShutdown(n: nat) returns (all: bool)
      requires Valid() && shuttingDown
      modifies this, spanStream, spanStream.metrics
      ensures Valid() && View() == FlushSpec(old(View()), n)
      ensures all <==> n >= |Offered(old(View()), Streams(old(View())))|
    {
      hide ConsumeMembers, Offered;
      if spanRemnant.None? {
        ConsumeMembersKeeps(View(), [Header, Terminal], n);
        all := Write([Header, Terminal], n);
        return;
      }
      ConsumeMembersKeeps(View(), [Header, Remnant, Terminal], n);
      all := Write([Header, Remnant, Terminal], n);
      if spanRemnant == Some([]) {
        spanStream.metrics.OnSpansSent(1);
        spanRemnant := None;
      }
    }
  }
}
