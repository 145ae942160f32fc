/** Every run of producers and of any number of connections that share one span stream. */
module Sessions {
  import opened Wrappers
  import opened Fragments
  import opened SpanStreams
  import opened ConnectionStreams
  import opened FlushEffects

  /** What never changes: the host header, the common header and the serialization of the metrics message. */
  datatype Config = Config(host: Fragment, common: Fragment, message: nat -> Fragment)

  /** History of one streaming session: its number, its header, the spans it started and the bytes the socket took. */
  datatype Session = Session(id: nat, header: seq<Byte>, started: seq<Chain>, out: seq<Byte>)

  datatype Conn = Conn(view: ConnView, session: Session)

  /** A span and the session that started it. */
  datatype Start = Start(session: nat, span: Chain)

  /** `spans`, and the `view` of each connection, are the program's state. The rest is history: spans accepted by
      the buffer, spans started in order and by which session, sessions that are over, spans refused by the buffer,
      remnants cut off by a reset, drops reported in a header that was fully sent. */
  datatype State = State(
    conns: seq<Conn>, spans: SpanView, added: seq<Chain>, log: seq<Start>, past: seq<Session>,
    rejected: nat, cut: nat, reported: nat)
  {
    function NextId(): nat { |conns| + |past| }
  }

  datatype Event =
    | Offer(span: Chain, accepted: bool)
    | Open
    | Flush(c: nat, late: seq<Chain>, n: nat)
    | Shutdown(c: nat)
    | Reset(c: nat)

  ghost predicate Enabled(s: State, e: Event) {
    match e
    case Offer(span, _) => Startable(span)
    case Open => true
    case Flush(c, late, _) =>
      && c < |s.conns| && (s.conns[c].view.shuttingDown ==> late == [])
      && forall i :: 0 <= i < |late| ==> Startable(late[i])
    case Shutdown(c) => c < |s.conns|
    case Reset(c) => c < |s.conns|
  }

  /** The pair a flush works on: unless shutting down everything buffered is allotted, then `late` spans arrive. */
  function Ready(s: State, c: nat, late: seq<Chain>): Pair
    requires c < |s.conns|
  {
    Pair(s.conns[c].view,
         if s.conns[c].view.shuttingDown then s.spans
         else s.spans.(allotted := |s.spans.buffer|, buffer := s.spans.buffer + late))
  }

  function NewSession(id: nat, view: ConnView): Session {
    Session(id, Flatten(view.header), [], [])
  }

  function Starts(session: nat, spans: seq<Chain>): seq<Start> {
    seq(|spans|, i requires 0 <= i < |spans| => Start(session, spans[i]))
  }

  function Apply(s: State, e: Event, cfg: Config): State
    requires Enabled(s, e) && s.spans.allotted <= |s.spans.buffer|
  {
    match e
    case Offer(span, accepted) =>
      if accepted then s.(spans := s.spans.(buffer := s.spans.buffer + [span]), added := s.added + [span])
      else
        var m := s.spans.metrics;
        s.(spans := s.spans.(metrics := m.(dropped := m.dropped + 1, observedDropped := m.observedDropped + 1)),
           rejected := s.rejected + 1)
    case Open =>
      var q := InitializeSpec(Pair(ConnView([], None, [], false, 0), s.spans), cfg.host, cfg.common, cfg.message);
      s.(conns := s.conns + [Conn(q.conn, NewSession(s.NextId(), q.conn))], spans := q.spans)
    case Flush(c, late, n) =>
      var p := Ready(s, c, late);
      var q := FlushSpec(p, n);
      var conn := s.conns[c];
      var popped := if |q.spans.buffer| <= |p.spans.buffer| then Popped(p.spans, q.spans) else [];
      s.(conns := s.conns[c := Conn(q.conn, conn.session.(started := conn.session.started + popped,
                                                          out := conn.session.out + Taken(p, n)))],
         spans := q.spans, added := s.added + late, log := s.log + Starts(conn.session.id, popped),
         reported := s.reported + if conn.view.header != [] && q.conn.header == [] then conn.view.embedded else 0)
    case Shutdown(c) =>
      s.(conns := s.conns[c := s.conns[c].(view := s.conns[c].view.(shuttingDown := true))])
    case Reset(c) =>
      var p := Pair(s.conns[c].view, s.spans);
      var q := InitializeSpec(ReleaseSpec(p), cfg.host, cfg.common, cfg.message);
      s.(conns := s.conns[c := Conn(q.conn, NewSession(s.NextId(), q.conn))], spans := q.spans,
         past := s.past + [s.conns[c].session],
         cut := s.cut + if p.conn.remnant.Some? && p.conn.remnant.value != [] then 1 else 0)
  }

  const INIT: State := State([], SpanView([], 0, None, Metrics(0, 0, 0)), [], [], [], 0, 0, 0)

  // ---- Invariant ---------------------------------------------------------------------------------------

  /** The bytes taken so far followed by what is left are the header, the started spans and, when shutting
      down, the terminator. */
  ghost predicate ConnOk(c: Conn) {
    && ConnShape(c.view)
    && (c.view.header != [] ==> c.session.started == [])
    && c.session.out + Flatten(c.view.header) + RemnantBytes(c.view.remnant) + Flatten(c.view.terminal) ==
         c.session.header + Bytes(c.session.started) + TERMINATOR
    && (c.view.remnant.Some? ==> c.session.started != [] &&
                                 RestOf(c.view.remnant.value, c.session.started[|c.session.started| - 1]))
  }

  ghost predicate SessionOk(s: Session) {
    s.out <= s.header + Bytes(s.started) + TERMINATOR
  }

  /** Spans started by one session, in order. */
  function StartedBy(log: seq<Start>, id: nat): seq<Chain> {
    if log == [] then []
    else
      var last := log[|log| - 1];
      StartedBy(log[..|log| - 1], id) + if last.session == id then [last.span] else []
  }

  function SpansOf(log: seq<Start>): seq<Chain> {
    seq(|log|, i requires 0 <= i < |log| => log[i].span)
  }

  /** Sessions, current or over, have distinct numbers below the next one. */
  ghost predicate IdsOk(s: State) {
    && (forall i :: 0 <= i < |s.conns| ==> s.conns[i].session.id < s.NextId())
    && (forall i :: 0 <= i < |s.past| ==> s.past[i].id < s.NextId())
    && (forall i, j :: 0 <= i < j < |s.conns| ==> s.conns[i].session.id != s.conns[j].session.id)
    && (forall i, j :: 0 <= i < |s.conns| && 0 <= j < |s.past| ==> s.conns[i].session.id != s.past[j].id)
    && (forall i, j :: 0 <= i < j < |s.past| ==> s.past[i].id != s.past[j].id)
  }

  /** Every session has started exactly what the log says. */
  ghost predicate StartsOk(s: State) {
    && (forall i :: 0 <= i < |s.conns| ==> s.conns[i].session.started == StartedBy(s.log, s.conns[i].session.id))
    && (forall i :: 0 <= i < |s.past| ==> s.past[i].started == StartedBy(s.log, s.past[i].id))
  }

  /** The log names sessions only. */
  ghost predicate NamesOk(s: State) { forall k :: 0 <= k < |s.log| ==> Known(s, s.log[k].session) }

  ghost predicate LogOk(s: State) {
    s.added == SpansOf(s.log) + s.spans.buffer && IdsOk(s) && StartsOk(s) && NamesOk(s)
  }

  /** There is, or was, a session of this number. */
  ghost predicate Known(s: State, id: nat) {
    (exists c :: 0 <= c < |s.conns| && s.conns[c].session.id == id) || (exists i :: 0 <= i < |s.past| && s.past[i].id == id)
  }

  /** Remnants held by connections. */
  function Remnants(conns: seq<Conn>): nat {
    if conns == [] then 0 else Remnants(conns[1..]) + Held(conns[0].view.remnant)
  }

  function CarriedBy(c: ConnView): nat { if c.header == [] then 0 else c.embedded }

  /** Drop counts in headers that are not fully sent. */
  function Carried(conns: seq<Conn>): nat {
    if conns == [] then 0 else Carried(conns[1..]) + CarriedBy(conns[0].view)
  }

  ghost predicate CountsOk(s: State) {
    var m := s.spans.metrics;
    && |s.added| == |s.spans.buffer| + Remnants(s.conns) + m.observedSent + s.cut
    && m.observedDropped == s.rejected + s.cut
    && m.observedDropped == m.dropped + Carried(s.conns) + s.reported
  }

  ghost predicate Inv(s: State) {
    && ViewOk(s.spans) && s.spans.remnant == None
    && (forall i :: 0 <= i < |s.conns| ==> ConnOk(s.conns[i]))
    && (forall i :: 0 <= i < |s.past| ==> SessionOk(s.past[i]))
    && LogOk(s) && CountsOk(s)
  }

  // ---- Counting over connections -------------------------------------------------------------------------

  lemma {:induction false} SumsUpdate(conns: seq<Conn>, c: nat, d: Conn)
    requires c < |conns|
    ensures Remnants(conns[c := d]) + Held(conns[c].view.remnant) == Remnants(conns) + Held(d.view.remnant)
    ensures Carried(conns[c := d]) + CarriedBy(conns[c].view) == Carried(conns) + CarriedBy(d.view)
  {
    if c > 0 {
      assert conns[c := d][1..] == conns[1..][c - 1 := d];
      SumsUpdate(conns[1..], c - 1, d);
    }
  }

  lemma {:induction false} SumsPush(conns: seq<Conn>, d: Conn)
    ensures Remnants(conns + [d]) == Remnants(conns) + Held(d.view.remnant)
    ensures Carried(conns + [d]) == Carried(conns) + CarriedBy(d.view)
  {
    if conns == [] {
      assert [d][1..] == [];
    } else {
      assert (conns + [d])[1..] == conns[1..] + [d];
      SumsPush(conns[1..], d);
    }
  }

  // ---- The log ---------------------------------------------------------------------------------------------

  lemma {:induction false} StartedByAppend(log: seq<Start>, id: nat, spans: seq<Chain>, other: nat)
    ensures StartedBy(log + Starts(id, spans), other) == StartedBy(log, other) + if id == other then spans else []
  {
    if spans == [] {
      assert log + Starts(id, spans) == log;
    } else {
      var front := spans[..|spans| - 1];
      var all := log + Starts(id, spans);
      assert all[..|all| - 1] == log + Starts(id, front);
      StartedByAppend(log, id, front, other);
    }
  }

  /** A session nobody has started a span for. */
  lemma {:induction false} NothingStarted(log: seq<Start>, id: nat)
    requires forall i :: 0 <= i < |log| ==> log[i].session < id
    ensures StartedBy(log, id) == []
  {
    if log != [] {
      NothingStarted(log[..|log| - 1], id);
    }
  }

  // ---- Preservation ----------------------------------------------------------------------------------------

  lemma FreshSession(view: ConnView, id: nat)
    requires view.remnant == None && view.terminal == [TERMINATOR] && !view.shuttingDown
    ensures ConnOk(Conn(view, NewSession(id, view)))
  {
    TerminatorShape();
    assert Bytes([]) == [];
  }

  lemma TerminatorShape()
    ensures Flatten([TERMINATOR]) == TERMINATOR
  {
    FlattenSingle(TERMINATOR);
  }

  lemma LogBelow(s: State)
    requires IdsOk(s) && NamesOk(s)
    ensures forall k :: 0 <= k < |s.log| ==> s.log[k].session < s.NextId()
  {
    forall k | 0 <= k < |s.log| ensures s.log[k].session < s.NextId() {
      assert Known(s, s.log[k].session);
    }
  }

  /** Events that neither open nor close a session leave the numbers alone. */
  lemma SameIds(s: State, t: State)
    requires IdsOk(s) && |t.conns| == |s.conns| && t.past == s.past
    requires forall i :: 0 <= i < |s.conns| ==> t.conns[i].session.id == s.conns[i].session.id
    ensures IdsOk(t) && forall id :: Known(s, id) ==> Known(t, id)
  {
    forall id | Known(s, id) ensures Known(t, id) {
      if c :| 0 <= c < |s.conns| && s.conns[c].session.id == id {
        assert t.conns[c].session.id == id;
      }
    }
  }

  lemma OpenLog(s: State, t: State, d: Conn)
    requires LogOk(s) && t == s.(conns := s.conns + [d], spans := t.spans) && t.spans.buffer == s.spans.buffer
    requires d.session.id == s.NextId() && d.session.started == []
    ensures LogOk(t)
  {
    hide StartedBy;
    LogBelow(s);
    NothingStarted(s.log, s.NextId());
    forall k | 0 <= k < |t.log| ensures Known(t, t.log[k].session) {
      assert Known(s, s.log[k].session);
      if c :| 0 <= c < |s.conns| && s.conns[c].session.id == s.log[k].session {
        assert t.conns[c].session.id == s.log[k].session;
      }
    }
  }

  lemma OpenPreserves(s: State, cfg: Config)
    requires Inv(s)
    ensures Inv(Apply(s, Open, cfg))
  {
    hide ConnOk, Startable, HeaderFragments, Carried, Remnants, LogOk;
    var t := Apply(s, Open, cfg);
    var d := t.conns[|s.conns|];
    FreshSession(d.view, s.NextId());
    OpenLog(s, t, d);
    SumsPush(s.conns, d);
    CarriedHeader(d.view, cfg);
  }

  lemma CarriedHeader(view: ConnView, cfg: Config)
    requires view.header == HeaderFragments(cfg.host, cfg.common, cfg.message(view.embedded))
    ensures CarriedBy(view) == view.embedded
  {
  }

  lemma OfferLog(s: State, t: State, span: Chain)
    requires LogOk(s)
    requires t.conns == s.conns && t.past == s.past && t.log == s.log
    requires t.added == s.added + [span] && t.spans.buffer == s.spans.buffer + [span]
    ensures LogOk(t)
  {
    hide StartedBy;
    SameIds(s, t);
    Associative(SpansOf(s.log), s.spans.buffer, [span]);
  }

  lemma OfferPreserves(s: State, span: Chain, accepted: bool, cfg: Config)
    requires Inv(s) && Startable(span)
    ensures Inv(Apply(s, Offer(span, accepted), cfg))
  {
    hide ConnOk, SessionOk, Carried, Remnants, IdsOk, StartsOk, NamesOk;
    if accepted {
      OfferLog(s, Apply(s, Offer(span, accepted), cfg), span);
    } else {
      SameLog(s, Apply(s, Offer(span, accepted), cfg));
    }
  }

  /** Events that start nothing and keep all sessions. */
  lemma SameLog(s: State, t: State)
    requires LogOk(s) && t.past == s.past && t.log == s.log && t.added == s.added && t.spans.buffer == s.spans.buffer
    requires |t.conns| == |s.conns| && forall i :: 0 <= i < |s.conns| ==> t.conns[i].session == s.conns[i].session
    ensures LogOk(t)
  {
    hide StartedBy;
    SameIds(s, t);
  }

  lemma ShutdownConn(s: State, c: nat)
    requires c < |s.conns| && ConnOk(s.conns[c])
    ensures ConnOk(s.conns[c].(view := s.conns[c].view.(shuttingDown := true)))
  {
    hide Bytes, Flatten, RestOf;
  }

  lemma ShutdownPreserves(s: State, c: nat, cfg: Config)
    requires Inv(s) && c < |s.conns|
    ensures Inv(Apply(s, Shutdown(c), cfg))
  {
    hide ConnOk, SessionOk, LogOk, Startable, Carried, Remnants;
    ShutdownConn(s, c);
    SameLog(s, Apply(s, Shutdown(c), cfg));
    SumsUpdate(s.conns, c, s.conns[c].(view := s.conns[c].view.(shuttingDown := true)));
    SameShare(s, c);
  }

  lemma SameShare(s: State, c: nat)
    requires c < |s.conns|
    ensures var d := s.conns[c].(view := s.conns[c].view.(shuttingDown := true));
            Held(d.view.remnant) == Held(s.conns[c].view.remnant) && CarriedBy(d.view) == CarriedBy(s.conns[c].view)
  {
  }

  lemma ResetLog(s: State, t: State, c: nat, d: Conn)
    requires LogOk(s) && c < |s.conns| && t.conns == s.conns[c := d] && t.past == s.past + [s.conns[c].session]
    requires t.log == s.log && t.added == s.added && t.spans.buffer == s.spans.buffer
    requires d.session.id == s.NextId() && d.session.started == []
    ensures LogOk(t)
  {
    hide StartedBy;
    LogBelow(s);
    NothingStarted(s.log, s.NextId());
    forall k | 0 <= k < |t.log| ensures Known(t, t.log[k].session) {
      assert Known(s, s.log[k].session);
      if i :| 0 <= i < |s.conns| && s.conns[i].session.id == s.log[k].session {
        assert if i == c then t.past[|s.past|].id == s.log[k].session else t.conns[i].session.id == s.log[k].session;
      } else {
        var i :| 0 <= i < |s.past| && s.past[i].id == s.log[k].session;
        assert t.past[i].id == s.log[k].session;
      }
    }
  }

  lemma ResetPreserves(s: State, c: nat, cfg: Config)
    requires Inv(s) && c < |s.conns|
    ensures Inv(Apply(s, Reset(c), cfg))
  {
    hide ConnOk, Startable, HeaderFragments, Carried, Remnants, SessionOk, LogOk;
    var t := Apply(s, Reset(c), cfg);
    var d := t.conns[c];
    FreshSession(d.view, s.NextId());
    ResetLog(s, t, c, d);
    SumsUpdate(s.conns, c, d);
    CarriedHeader(d.view, cfg);
    SessionPrefix(s.conns[c]);
  }

  /** Whatever a session has sent is a prefix of header, started spans and terminator. */
  lemma SessionPrefix(c: Conn)
    requires ConnOk(c)
    ensures SessionOk(c.session) && ConnShape(c.view)
  {
    Associative(c.session.out, Flatten(c.view.header), RemnantBytes(c.view.remnant));
    Associative(c.session.out, Flatten(c.view.header) + RemnantBytes(c.view.remnant), Flatten(c.view.terminal));
  }

  lemma SpliceBytes<T>(out: seq<T>, rest: seq<T>, t: seq<T>, sent: seq<T>, end: seq<T>,
                       taken: seq<T>, rest': seq<T>, t': seq<T>, popped: seq<T>)
    requires out + rest + t == sent + end
    requires taken + rest' + t' == rest + popped + t
    requires popped == [] || t == end
    ensures out + taken + rest' + t' == sent + popped + end
  {
    assert out + taken + rest' + t' == out + (taken + rest' + t');
    if popped == [] {
      assert out + (rest + popped + t) == out + rest + t;
    } else {
      assert out + rest == (out + rest + t)[..|out + rest|] == sent;
      assert out + (rest + popped + t) == (out + rest) + popped + t;
    }
  }

  lemma FlushConn(s: State, c: nat, late: seq<Chain>, n: nat, cfg: Config)
    requires Inv(s) && Enabled(s, Flush(c, late, n))
    ensures ConnOk(Apply(s, Flush(c, late, n), cfg).conns[c])
    ensures var p := Ready(s, c, late); FlushSummary(p, FlushSpec(p, n))
  {
    hide FlushSpec, Flatten, Bytes, RestOf, Taken, RemnantBytes, Startable, RemnantFollows;
    var p := Ready(s, c, late);
    ReadyOk(s, c, late);
    assert ConnOk(s.conns[c]);
    FlushCounts(p, n);
    FlushRemnant(p, n);
    FlushBytes(p, n);
    hide ConnOk;
    FlushedConn(s.conns[c], p, FlushSpec(p, n), Taken(p, n));
  }

  /** A connection after a flush that took these bytes. */
  lemma FlushedConn(conn: Conn, p: Pair, q: Pair, taken: seq<Byte>)
    requires ConnOk(conn) && p.conn == conn.view && p.spans.allotted <= |p.spans.buffer|
    requires FlushSummary(p, q) && RemnantFollows(p, q)
    requires taken + Flatten(q.conn.header) + RemnantBytes(q.conn.remnant) + Flatten(q.conn.terminal) ==
             Flatten(p.conn.header) + RemnantBytes(p.conn.remnant) + Bytes(Popped(p.spans, q.spans)) + Flatten(p.conn.terminal)
    ensures ConnOk(Conn(q.conn, conn.session.(started := conn.session.started + Popped(p.spans, q.spans),
                                              out := conn.session.out + taken)))
  {
    hide Flatten, Bytes, RestOf, RemnantBytes, Startable, ViewOk;
    var popped := Popped(p.spans, q.spans);
    BytesConcat(conn.session.started, popped);
    assert popped == [] ==> Bytes(popped) == [] by { NoSpans(); }
    assert conn.view.terminal == [TERMINATOR] ==> Flatten(conn.view.terminal) == TERMINATOR by { FlattenSingle(TERMINATOR); }
    JoinBytes(conn.session, conn.view, q.conn, taken, popped);
    RestIsLast(conn, popped, q.conn.remnant);
  }

  lemma ReadyOk(s: State, c: nat, late: seq<Chain>)
    requires Inv(s) && c < |s.conns| && forall i :: 0 <= i < |late| ==> Startable(late[i])
    ensures ViewOk(Ready(s, c, late).spans) && Ready(s, c, late).spans.remnant == None
  {
  }

  /** The remnant after a flush belongs to the span the session started last. */
  lemma RestIsLast(conn: Conn, popped: seq<Chain>, remnant: Option<Chain>)
    requires ConnOk(conn)
    requires remnant.Some? ==>
               if popped == [] then conn.view.remnant.Some? && RestOf(remnant.value, conn.view.remnant.value)
               else RestOf(remnant.value, popped[|popped| - 1])
    ensures var started := conn.session.started + popped;
            remnant.Some? ==> started != [] && RestOf(remnant.value, started[|started| - 1])
  {
    if remnant.Some? && popped == [] {
      assert conn.session.started + popped == conn.session.started;
      RestOfRest(remnant.value, conn.view.remnant.value, conn.session.started[|conn.session.started| - 1]);
    }
  }

  lemma JoinBytes(session: Session, before: ConnView, after: ConnView, taken: seq<Byte>, popped: seq<Chain>)
    requires session.out + Flatten(before.header) + RemnantBytes(before.remnant) + Flatten(before.terminal) ==
             session.header + Bytes(session.started) + TERMINATOR
    requires taken + Flatten(after.header) + RemnantBytes(after.remnant) + Flatten(after.terminal) ==
             Flatten(before.header) + RemnantBytes(before.remnant) + Bytes(popped) + Flatten(before.terminal)
    requires Bytes(popped) == [] || Flatten(before.terminal) == TERMINATOR
    ensures session.out + taken + Flatten(after.header) + RemnantBytes(after.remnant) + Flatten(after.terminal) ==
            session.header + (Bytes(session.started) + Bytes(popped)) + TERMINATOR
  {
    hide Flatten, Bytes, RemnantBytes;
    var rest, rest' := Flatten(before.header) + RemnantBytes(before.remnant), Flatten(after.header) + RemnantBytes(after.remnant);
    Associative(session.out, Flatten(before.header), RemnantBytes(before.remnant));
    Associative(taken, Flatten(after.header), RemnantBytes(after.remnant));
    SpliceBytes(session.out, rest, Flatten(before.terminal), session.header + Bytes(session.started), TERMINATOR,
                taken, rest', Flatten(after.terminal), Bytes(popped));
    Associative(session.header, Bytes(session.started), Bytes(popped));
    Associative(session.out + taken, Flatten(after.header), RemnantBytes(after.remnant));
  }

  /** Starting some spans in one session. */
  lemma StartLog(s: State, t: State, c: nat, popped: seq<Chain>)
    requires IdsOk(s) && StartsOk(s) && NamesOk(s) && c < |s.conns| == |t.conns| && t.past == s.past
    requires t.log == s.log + Starts(s.conns[c].session.id, popped)
    requires forall i :: 0 <= i < |s.conns| ==> t.conns[i].session.id == s.conns[i].session.id
    requires forall i :: 0 <= i < |s.conns| ==>
               t.conns[i].session.started == s.conns[i].session.started + if i == c then popped else []
    ensures IdsOk(t) && StartsOk(t) && NamesOk(t)
  {
    hide StartedBy;
    var id := s.conns[c].session.id;
    SameIds(s, t);
    forall other: nat ensures StartedBy(t.log, other) == StartedBy(s.log, other) + if id == other then popped else [] {
      StartedByAppend(s.log, id, popped, other);
    }
    forall k | 0 <= k < |t.log| ensures Known(t, t.log[k].session) {
      if k >= |s.log| {
        assert t.conns[c].session.id == t.log[k].session;
      }
    }
  }

  lemma FlushLog(s: State, c: nat, late: seq<Chain>, n: nat, cfg: Config)
    requires Inv(s) && Enabled(s, Flush(c, late, n))
    requires var p := Ready(s, c, late); FlushSummary(p, FlushSpec(p, n))
    ensures LogOk(Apply(s, Flush(c, late, n), cfg))
  {
    hide FlushSpec, IdsOk, StartsOk, NamesOk, ConnOk, SessionOk, CountsOk, Taken, ConnShape, Startable;
    var t := Apply(s, Flush(c, late, n), cfg);
    var p := Ready(s, c, late);
    var popped := Popped(p.spans, FlushSpec(p, n).spans);
    StartLog(s, t, c, popped);
    assert SpansOf(t.log) == SpansOf(s.log) + popped;
    Associative(SpansOf(s.log), s.spans.buffer, late);
    Associative(SpansOf(s.log), popped, t.spans.buffer);
  }

  lemma FlushCountsOk(s: State, c: nat, late: seq<Chain>, n: nat, cfg: Config)
    requires Inv(s) && Enabled(s, Flush(c, late, n))
    requires var p := Ready(s, c, late); FlushSummary(p, FlushSpec(p, n))
    ensures CountsOk(Apply(s, Flush(c, late, n), cfg))
  {
    hide FlushSpec, ConnOk, Taken, ConnShape, LogOk, Startable;
    var t := Apply(s, Flush(c, late, n), cfg);
    SumsUpdate(s.conns, c, t.conns[c]);
  }

  lemma FlushPreserves(s: State, c: nat, late: seq<Chain>, n: nat, cfg: Config)
    requires Inv(s) && Enabled(s, Flush(c, late, n))
    ensures Inv(Apply(s, Flush(c, late, n), cfg))
  {
    hide FlushSpec, ConnOk, LogOk, CountsOk, SessionOk, Startable, Taken, FlushSummary, ViewOk;
    FlushConn(s, c, late, n, cfg);
    FlushLog(s, c, late, n, cfg);
    FlushCountsOk(s, c, late, n, cfg);
    ReadyOk(s, c, late);
    SummaryBasics(Ready(s, c, late), n);
  }

  lemma SummaryBasics(p: Pair, n: nat)
    requires ViewOk(p.spans) && FlushSummary(p, FlushSpec(p, n))
    ensures ViewOk(FlushSpec(p, n).spans) && FlushSpec(p, n).spans.remnant == None
  {
  }

  lemma EventPreserves(s: State, e: Event, cfg: Config)
    requires Inv(s) && Enabled(s, e)
    ensures Inv(Apply(s, e, cfg))
  {
    match e
    case Offer(span, accepted) => OfferPreserves(s, span, accepted, cfg);
    case Open => OpenPreserves(s, cfg);
    case Flush(c, late, n) => FlushPreserves(s, c, late, n, cfg);
    case Shutdown(c) => ShutdownPreserves(s, c, cfg);
    case Reset(c) => ResetPreserves(s, c, cfg);
  }

  // ---- What holds of every run -----------------------------------------------------------------------------

  ghost predicate RunsTo(a: State, events: seq<Event>, b: State, cfg: Config)
    decreases |events|
  {
    if events == [] then a == b
    else
      && Enabled(a, events[0]) && a.spans.allotted <= |a.spans.buffer|
      && RunsTo(Apply(a, events[0], cfg), events[1..], b, cfg)
  }

  lemma {:induction false} RunPreserves(a: State, events: seq<Event>, b: State, cfg: Config)
    requires Inv(a) && RunsTo(a, events, b, cfg)
    ensures Inv(b)
    decreases |events|
  {
    hide Apply, Inv, Enabled;
    if events != [] {
      EventPreserves(a, events[0], cfg);
      RunPreserves(Apply(a, events[0], cfg), events[1..], b, cfg);
    }
  }

  ghost predicate Reachable(s: State, cfg: Config) {
    exists events :: RunsTo(INIT, events, s, cfg)
  }

  lemma InitInv()
    ensures Inv(INIT)
  {
    EmptyInv(INIT);
    hide Inv;
  }

  /** A state in which nothing has happened yet. */
  lemma EmptyInv(s: State)
    requires s.conns == [] && s.past == [] && s.log == [] && s.added == [] && s.spans == SpanView([], 0, None, Metrics(0, 0, 0))
    requires s.rejected == s.cut == s.reported == 0
    ensures Inv(s)
  {
    hide LogOk, ConnOk, SessionOk, CountsOk, Startable;
    EmptyLog(s);
    EmptyCounts(s);
  }

  lemma EmptyCounts(s: State)
    requires s.conns == [] && s.added == [] && s.spans == SpanView([], 0, None, Metrics(0, 0, 0))
    requires s.rejected == s.cut == s.reported == 0
    ensures CountsOk(s)
  {
    assert Remnants([]) == 0 && Carried([]) == 0;
  }

  lemma EmptyLog(s: State)
    requires s.conns == [] && s.past == [] && s.log == [] && s.added == [] && s.spans.buffer == []
    ensures LogOk(s)
  {
    hide StartedBy, Known;
    assert SpansOf(s.log) == [];
  }

  lemma ReachableInv(s: State, cfg: Config)
    requires Reachable(s, cfg)
    ensures Inv(s)
  {
    hide Inv, Apply, Enabled;
    InitInv();
    var events :| RunsTo(INIT, events, s, cfg);
    RunPreserves(INIT, events, s, cfg);
  }

  /** In every reachable state the bytes of every session, current or over, are a prefix of its header, the spans
      it started, each of them whole, and the terminator; a connection reports completion exactly when it is
      shutting down and all of that was sent. */
  lemma SessionsAreFramed(s: State, cfg: Config)
    requires Reachable(s, cfg)
    ensures forall i :: 0 <= i < |s.past| ==> SessionOk(s.past[i])
    ensures forall c :: 0 <= c < |s.conns| ==> SessionOk(s.conns[c].session)
    ensures forall c :: 0 <= c < |s.conns| ==>
              var x := s.conns[c].session;
              (TerminatorSent(s.conns[c].view.terminal) <==>
               s.conns[c].view.shuttingDown && x.out == x.header + Bytes(x.started) + TERMINATOR)
  {
    ReachableInv(s, cfg);
    forall c | 0 <= c < |s.conns|
      ensures SessionOk(s.conns[c].session)
      ensures var x := s.conns[c].session;
              (TerminatorSent(s.conns[c].view.terminal) <==>
               s.conns[c].view.shuttingDown && x.out == x.header + Bytes(x.started) + TERMINATOR)
    {
      SessionPrefix(s.conns[c]);
      CompletedMeansSent(s.conns[c]);
    }
  }

  lemma CompletedMeansSent(c: Conn)
    requires ConnOk(c)
    ensures TerminatorSent(c.view.terminal) <==>
            c.view.shuttingDown && c.session.out == c.session.header + Bytes(c.session.started) + TERMINATOR
  {
    TerminatorShape();
    var v, x := c.view, c.session;
    var whole := x.out + Flatten(v.header) + RemnantBytes(v.remnant) + Flatten(v.terminal);
    if v.terminal == [] {
      assert v.header == [] && v.remnant == None;
      assert whole == x.out;
    }
    if x.out == x.header + Bytes(x.started) + TERMINATOR {
      assert |whole| == |x.out| + |Flatten(v.header)| + |RemnantBytes(v.remnant)| + |Flatten(v.terminal)|;
      assert Flatten(v.terminal) == [];
    }
  }

  /** Every span the buffer accepted is either still buffered or was started, in the order of acceptance, by exactly one
      session: the log names one for each, sessions have distinct numbers, and each has started just what the log says.
      A remnant continues the span its own session started last. */
  lemma SpansStartOnce(s: State, cfg: Config)
    requires Reachable(s, cfg)
    ensures s.added == SpansOf(s.log) + s.spans.buffer
    ensures forall k :: 0 <= k < |s.log| ==> Known(s, s.log[k].session)
    ensures forall c :: 0 <= c < |s.conns| ==> s.conns[c].session.started == StartedBy(s.log, s.conns[c].session.id)
    ensures forall i :: 0 <= i < |s.past| ==> s.past[i].started == StartedBy(s.log, s.past[i].id)
    ensures forall c, d :: 0 <= c < d < |s.conns| ==> s.conns[c].session.id != s.conns[d].session.id
    ensures forall c, i :: 0 <= c < |s.conns| && 0 <= i < |s.past| ==> s.conns[c].session.id != s.past[i].id
    ensures forall i, j :: 0 <= i < j < |s.past| ==> s.past[i].id != s.past[j].id
    ensures forall c :: 0 <= c < |s.conns| && s.conns[c].view.remnant.Some? ==>
              var started := s.conns[c].session.started;
              started != [] && RestOf(s.conns[c].view.remnant.value, started[|started| - 1])
  {
    hide StartedBy;
    ReachableInv(s, cfg);
    forall c | 0 <= c < |s.conns| && s.conns[c].view.remnant.Some?
      ensures var started := s.conns[c].session.started;
              started != [] && RestOf(s.conns[c].view.remnant.value, started[|started| - 1])
    {
      assert ConnOk(s.conns[c]);
    }
  }

  /** Spans offered are buffered, held as remnants, counted as sent or counted as dropped; every drop is in the live
      counter, in exactly one header that is not fully sent, or was in a header that was. */
  lemma SpansAndDropsAccounted(s: State, cfg: Config)
    requires Reachable(s, cfg)
    ensures var m := s.spans.metrics;
            && |s.added| + s.rejected == |s.spans.buffer| + Remnants(s.conns) + m.observedSent + m.observedDropped
            && m.observedDropped == m.dropped + Carried(s.conns) + s.reported
  {
    ReachableInv(s, cfg);
  }

  lemma ClosingStep(s: State, e: Event, c: nat, cfg: Config)
    requires Inv(s) && Enabled(s, e) && c < |s.conns| && s.conns[c].view.shuttingDown && e != Reset(c)
    ensures var t := Apply(s, e, cfg);
            && c < |t.conns| && t.conns[c].view.shuttingDown
            && t.conns[c].session.started == s.conns[c].session.started
            && t.conns[c].session.id == s.conns[c].session.id
  {
    if e.Flush? && e.c == c {
      FlushConn(s, c, e.late, e.n, cfg);
    }
    hide FlushSpec, ReleaseSpec, InitializeSpec, Taken, Inv;
  }

  /** Once a connection is shutting down, its session starts no further span, whatever else happens, until it is reset. */
  lemma {:induction false} NoSpanAfterShutdown(a: State, events: seq<Event>, b: State, c: nat, cfg: Config)
    requires Inv(a) && RunsTo(a, events, b, cfg) && c < |a.conns| && a.conns[c].view.shuttingDown
    requires Reset(c) !in events
    ensures c < |b.conns| && b.conns[c].view.shuttingDown
    ensures b.conns[c].session.id == a.conns[c].session.id && b.conns[c].session.started == a.conns[c].session.started
    decreases |events|
  {
    hide Apply, Inv, Enabled;
    if events != [] {
      ClosingStep(a, events[0], c, cfg);
      EventPreserves(a, events[0], cfg);
      NoSpanAfterShutdown(Apply(a, events[0], cfg), events[1..], b, c, cfg);
    }
  }
}
