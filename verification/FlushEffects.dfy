/** What one flush does, in bytes and in counts. */
module FlushEffects {
  import opened Wrappers
  import opened Fragments
  import opened SpanStreams
  import opened ConnectionStreams

  function RemnantBytes(r: Option<Chain>): seq<Byte> {
    if r.Some? then Flatten(r.value) else []
  }

  // ---- Bytes -----------------------------------------------------------------------------------------

  /** Everything that is left to send behind a member; for the span stream also what is not allotted. */
  function MemberLeft(p: Pair, m: Member): seq<Byte> {
    match m
    case Header => Flatten(p.conn.header)
    case Remnant => RemnantBytes(p.conn.remnant)
    case Spans => RemnantBytes(p.spans.remnant) + Bytes(p.spans.buffer)
    case Terminal => Flatten(p.conn.terminal)
  }

  function Left(p: Pair, ms: seq<Member>): seq<Byte> {
    if ms == [] then [] else MemberLeft(p, ms[0]) + Left(p, ms[1..])
  }

  lemma {:induction false} LeftFrame(p: Pair, m: Member, n: nat, rest: seq<Member>)
    requires p.spans.allotted <= |p.spans.buffer| && m !in rest
    ensures Left(ConsumeMember(p, m, n), rest) == Left(p, rest)
  {
    if rest != [] {
      LeftFrame(p, m, n, rest[1..]);
    }
  }

  lemma LeftOfOther(p: Pair, m: Member, n: nat, other: Member)
    requires p.spans.allotted <= |p.spans.buffer| && other != m
    ensures MemberLeft(ConsumeMember(p, m, n), other) == MemberLeft(p, other)
  {
    hide Flatten, After, Bytes, Consumed;
  }

  lemma {:induction false} MembersFrame(p: Pair, ms: seq<Member>, n: nat, m: Member)
    requires p.spans.allotted <= |p.spans.buffer| && m !in ms
    ensures MemberLeft(ConsumeMembers(p, ms, n), m) == MemberLeft(p, m)
    decreases |ms|
  {
    hide ConsumeMember, MemberFragments, MemberLeft, Flatten;
    if ms != [] {
      var size := |Flatten(MemberFragments(p, ms[0]))|;
      LeftOfOther(p, ms[0], size, m);
      LeftOfOther(p, ms[0], n, m);
      MemberFrame(p, ms[0], size, m);
      if n >= size {
        MembersFrame(ConsumeMember(p, ms[0], size), ms[1..], n - size, m);
      }
    }
  }

  lemma ChainConserves(fs: seq<Fragment>, n: nat)
    requires n <= |Flatten(fs)|
    ensures Flatten(fs) == Flatten(fs)[..n] + Flatten(After(fs, n))
  {
    hide After, Flatten;
    AfterDropsBytes(fs, n);
  }

  lemma SpansConserve(v: SpanView, n: nat)
    requires ViewOk(v) && n <= |Flatten(Flatten(Allotted(v)))|
    ensures Bytes(v.buffer) == Flatten(Flatten(Allotted(v)))[..n] + (RemnantBytes(Consumed(v, n).remnant) + Bytes(Consumed(v, n).buffer))
  {
    hide Consumed, Bytes, Flatten;
    BytesFlatten(Allotted(v));
    ConsumedDropsBytes(v, n);
    BytesSplit(v.buffer, v.allotted);
    assert Bytes(v.buffer)[..n] == Bytes(Allotted(v))[..n];
  }

  lemma MemberConserves(p: Pair, m: Member, n: nat)
    requires ViewOk(p.spans) && (m == Spans ==> p.spans.remnant == None)
    requires n <= |Flatten(MemberFragments(p, m))|
    ensures MemberLeft(p, m) == Flatten(MemberFragments(p, m))[..n] + MemberLeft(ConsumeMember(p, m, n), m)
  {
    hide After, Consumed, Bytes, Flatten;
    match m
    case Header => ChainConserves(p.conn.header, n);
    case Remnant =>
      NoBytes([]);
      if p.conn.remnant.Some? {
        ChainConserves(p.conn.remnant.value, n);
      }
    case Spans =>
      SpansConserve(p.spans, n);
      assert MemberLeft(p, Spans) == Bytes(p.spans.buffer);
    case Terminal => ChainConserves(p.conn.terminal, n);
  }

  /** What the writer took followed by what is then left is what was left before. */
  lemma {:induction false} Conserves(p: Pair, ms: seq<Member>, n: nat)
    requires ViewOk(p.spans) && (Spans in ms ==> p.spans.remnant == None) && Listed(ms)
    ensures var offered := Offered(p, ms);
            Left(p, ms) == offered[..Min(n, |offered|)] + Left(ConsumeMembers(p, ms, n), ms)
    decreases |ms|
  {
    hide ConsumeMember, MemberFragments, Flatten, MemberLeft;
    if ms != [] {
      var m, rest := ms[0], ms[1..];
      assert m !in rest;
      var here := Flatten(MemberFragments(p, m));
      if n < |here| {
        MemberConserves(p, m, n);
        LeftFrame(p, m, n, rest);
        var q := ConsumeMember(p, m, n);
        assert Offered(p, ms)[..n] == here[..n];
        Associative(here[..n], MemberLeft(q, m), Left(q, rest));
      } else {
        MemberConserves(p, m, |here|);
        LeftFrame(p, m, |here|, rest);
        OfferedFrame(p, m, |here|, rest);
        var p1 := ConsumeMember(p, m, |here|);
        NextOk(p, m, |here|, rest);
        Conserves(p1, rest, n - |here|);
        MembersFrame(p1, rest, n - |here|, m);
        var q := ConsumeMembers(p1, rest, n - |here|);
        var k := Min(n - |here|, |Offered(p, rest)|);
        assert Offered(p, ms)[..Min(n, |Offered(p, ms)|)] == here + Offered(p, rest)[..k];
        UsedUp(p, m, rest);
        assert here[..|here|] == here;
        Rearrange(here, MemberLeft(p1, m), Offered(p, rest)[..k], Left(q, rest), rest == []);
      }
    }
  }

  lemma Rearrange<T>(a: seq<T>, b: seq<T>, c: seq<T>, d: seq<T>, last: bool)
    requires last ==> c == []
    requires !last ==> b == []
    ensures a + b + (c + d) == a + c + (b + d)
  {
  }

  /** A member in front of others is used up once all its bytes are consumed. */
  lemma UsedUp(p: Pair, m: Member, rest: seq<Member>)
    requires p.spans.allotted <= |p.spans.buffer| && (rest != [] ==> m != Spans)
    ensures rest != [] ==> MemberLeft(ConsumeMember(p, m, |Flatten(MemberFragments(p, m))|), m) == []
    ensures rest == [] ==> Offered(p, rest) == []
  {
    if rest != [] {
      StopAccounts(MemberFragments(p, m), |Flatten(MemberFragments(p, m))|);
    }
  }

  lemma NextOk(p: Pair, m: Member, n: nat, rest: seq<Member>)
    requires ViewOk(p.spans) && (Spans in [m] + rest ==> p.spans.remnant == None) && Listed([m] + rest)
    ensures ViewOk(ConsumeMember(p, m, n).spans) && Listed(rest)
    ensures Spans in rest ==> ConsumeMember(p, m, n).spans.remnant == None
  {
    assert forall i :: 0 <= i < |rest| ==> ([m] + rest)[i + 1] == rest[i];
    if Spans in rest {
      var j :| 0 <= j < |rest| && rest[j] == Spans;
      assert ([m] + rest)[j + 1] == Spans && ([m] + rest)[0] == m;
    }
  }

  // ---- The two shapes of a flush -----------------------------------------------------------------------

  function RemnantSize(p: Pair): nat { |RemnantBytes(p.conn.remnant)| }

  lemma ConsumeNothingLeft(fs: seq<Fragment>)
    ensures After(fs, |Flatten(fs)|) == []
  {
    StopAccounts(fs, |Flatten(fs)|);
  }

  lemma NoBytes(fs: seq<Fragment>)
    ensures fs == [] ==> Flatten(fs) == []
  {
  }

  lemma HeaderStep(p: Pair, rest: seq<Member>, n: nat)
    requires p.spans.allotted <= |p.spans.buffer|
    ensures var h := |Flatten(p.conn.header)|;
            ConsumeMembers(p, [Header] + rest, n) ==
            if n < h then p.(conn := p.conn.(header := After(p.conn.header, n)))
            else ConsumeMembers(p.(conn := p.conn.(header := [])), rest, n - h)
  {
    assert ([Header] + rest)[1..] == rest;
    ConsumeNothingLeft(p.conn.header);
  }

  lemma RemnantStep(p: Pair, rest: seq<Member>, n: nat)
    requires p.spans.allotted <= |p.spans.buffer| && p.conn.remnant.Some?
    ensures var r := p.conn.remnant.value;
            ConsumeMembers(p, [Remnant] + rest, n) ==
            if n < Size(r) then p.(conn := p.conn.(remnant := Some(After(r, n))))
            else ConsumeMembers(p.(conn := p.conn.(remnant := Some([]))), rest, n - Size(r))
  {
    assert ([Remnant] + rest)[1..] == rest;
    ConsumeNothingLeft(p.conn.remnant.value);
  }

  lemma LastStep(p: Pair, n: nat)
    requires p.spans.allotted <= |p.spans.buffer|
    ensures ConsumeMembers(p, [Spans], n) ==
            p.(spans := Consumed(p.spans, Min(n, |Flatten(Flatten(Allotted(p.spans)))|)))
    ensures ConsumeMembers(p, [Terminal], n) == p.(conn := p.conn.(terminal := After(p.conn.terminal, n)))
  {
    hide Consumed;
    assert [Spans][1..] == [] && [Terminal][1..] == [];
    ConsumeNothingLeft(p.conn.terminal);
    StopAccounts(p.conn.terminal, n);
  }

  /** The state after the writer took n bytes, stream by stream. */
  lemma WriteEffect(p: Pair, n: nat)
    requires p.spans.allotted <= |p.spans.buffer|
    ensures var w, h, r := ConsumeMembers(p, Streams(p), n), |Flatten(p.conn.header)|, RemnantSize(p);
            && (w.conn.header == [] <==> n >= h)
            && (n < h ==> w == p.(conn := p.conn.(header := After(p.conn.header, n))))
            && (h <= n < h + r ==>
                  w == p.(conn := p.conn.(header := [], remnant := Some(After(p.conn.remnant.value, n - h)))))
            && (n >= h + r ==>
                  w == Pair(p.conn.(header := [], remnant := if p.conn.remnant.Some? then Some([]) else None,
                                    terminal := if p.conn.shuttingDown then After(p.conn.terminal, n - h - r) else p.conn.terminal),
                            if p.conn.shuttingDown then p.spans
                            else Consumed(p.spans, Min(n - h - r, |Flatten(Flatten(Allotted(p.spans)))|))))
  {
    hide Consumed, After, Flatten, ConsumeMembers;
    var last := if p.conn.shuttingDown then Terminal else Spans;
    var p1 := p.(conn := p.conn.(header := []));
    var h := |Flatten(p.conn.header)|;
    StopAccounts(p.conn.header, n);
    if p.conn.remnant.None? {
      HeaderStep(p, [last], n);
      assert Streams(p) == [Header] + [last];
      LastStep(p1, if n < h then 0 else n - h);
    } else {
      HeaderStep(p, [Remnant, last], n);
      assert Streams(p) == [Header] + [Remnant, last] && [Remnant, last] == [Remnant] + [last];
      if n >= h {
        RemnantStep(p1, [last], n - h);
        if n - h >= RemnantSize(p) {
          LastStep(p1.(conn := p1.conn.(remnant := Some([]))), n - h - RemnantSize(p));
        }
      }
    }
  }

  // ---- Summary of a flush ------------------------------------------------------------------------------

  /** What holds of a connection between flushes. */
  predicate ConnShape(c: ConnView) {
    && (c.remnant.Some? ==> c.remnant.value != [])
    && (c.header != [] ==> c.remnant.None?)
    && (!c.shuttingDown || c.header != [] || c.remnant.Some? ==> c.terminal == [TERMINATOR])
    && (Flatten(c.terminal) == [] ==> c.terminal == [])
  }

  /** Spans taken out of the buffer. */
  function Popped(before: SpanView, after: SpanView): seq<Chain>
    requires |after.buffer| <= |before.buffer|
  {
    before.buffer[..|before.buffer| - |after.buffer|]
  }

  function Taken(p: Pair, n: nat): seq<Byte>
    requires p.spans.allotted <= |p.spans.buffer|
  {
    var offered := Offered(p, Streams(p));
    offered[..Min(n, |offered|)]
  }

  function Held(r: Option<Chain>): nat { if r.Some? then 1 else 0 }

  /** `rest` is what is left of `whole` after some of its bytes. */
  ghost predicate RestOf(rest: Chain, whole: Chain) {
    exists m: nat :: m < Size(whole) && rest == After(whole, m)
  }

  lemma RestOfRest(a: Chain, b: Chain, c: Chain)
    requires RestOf(a, b) && RestOf(b, c)
    ensures RestOf(a, c)
  {
    var i: nat :| i < Size(b) && a == After(b, i);
    var j: nat :| j < Size(c) && b == After(c, j);
    AfterComposes(c, j, i);
    AfterDropsBytes(c, j);
    assert j + i < Size(c);
  }

  /** The bookkeeping of a consumption: what left the buffer was either counted or is the remnant. */
  lemma ConsumedFacts(v: SpanView, n: nat)
    requires ViewOk(v)
    ensures var q := Consumed(v, n);
            && ViewOk(q) && |q.buffer| <= |v.buffer| && v.buffer == Popped(v, q) + q.buffer
            && q.metrics == v.metrics.(observedSent := q.metrics.observedSent)
            && q.metrics.observedSent + Held(q.remnant) == v.metrics.observedSent + |Popped(v, q)|
            && (q.remnant.Some? ==> Popped(v, q) != [] && q.remnant.value != [] &&
                                    RestOf(q.remnant.value, Popped(v, q)[|Popped(v, q)| - 1]))
  {
    hide Whole, Partial, Flatten, After, Startable, RestOf;
    var spans := v.buffer[..v.allotted];
    WholeAccounts(spans, n);
    var k, m := Whole(spans, n), Partial(spans, n);
    if k < |spans| {
      PartIsRest(spans[k], m);
    }
  }

  lemma PartIsRest(c: Chain, m: nat)
    requires m < Size(c)
    ensures After(c, m) != [] && RestOf(After(c, m), c)
  {
    StopAccounts(c, m);
  }

  ghost predicate FlushSummary(p: Pair, q: Pair)
    requires p.spans.allotted <= |p.spans.buffer|
  {
    && ViewOk(q.spans) && q.spans.remnant == None && ConnShape(q.conn)
    && q.conn.shuttingDown == p.conn.shuttingDown && q.conn.embedded == p.conn.embedded
    && |q.spans.buffer| <= |p.spans.buffer| && p.spans.buffer == Popped(p.spans, q.spans) + q.spans.buffer
    && (p.conn.shuttingDown || q.conn.header != [] ==> Popped(p.spans, q.spans) == [])
    && (p.conn.header == [] ==> q.conn.header == [])
    && q.spans.metrics == p.spans.metrics.(observedSent := q.spans.metrics.observedSent)
    && q.spans.metrics.observedSent + Held(q.conn.remnant) ==
         p.spans.metrics.observedSent + Held(p.conn.remnant) + |Popped(p.spans, q.spans)|
  }

  lemma FlushCounts(p: Pair, n: nat)
    requires ViewOk(p.spans) && p.spans.remnant == None && ConnShape(p.conn)
    ensures FlushSummary(p, FlushSpec(p, n))
  {
    hide FlushSummary, FlushSpec, ConnShape;
    var h, r := |Flatten(p.conn.header)|, RemnantSize(p);
    if n < h {
      CountsInHeader(p, n);
    } else if n < h + r {
      CountsInRemnant(p, n);
    } else if p.conn.shuttingDown {
      CountsInTerminal(p, n);
    } else {
      CountsInSpans(p, n);
    }
  }

  lemma CountsInHeader(p: Pair, n: nat)
    requires ViewOk(p.spans) && p.spans.remnant == None && ConnShape(p.conn) && n < |Flatten(p.conn.header)|
    ensures FlushSummary(p, FlushSpec(p, n))
  {
    hide Consumed, Flatten, After, ConsumeMembers, Startable;
    WriteEffect(p, n);
    NoBytes(p.conn.header);
    assert p.spans.buffer == Popped(p.spans, p.spans) + p.spans.buffer;
  }

  lemma CountsInRemnant(p: Pair, n: nat)
    requires ViewOk(p.spans) && p.spans.remnant == None && ConnShape(p.conn)
    requires |Flatten(p.conn.header)| <= n < |Flatten(p.conn.header)| + RemnantSize(p)
    ensures FlushSummary(p, FlushSpec(p, n))
  {
    hide Consumed, Flatten, After, ConsumeMembers, Startable;
    WriteEffect(p, n);
    StopAccounts(p.conn.remnant.value, n - |Flatten(p.conn.header)|);
    assert p.spans.buffer == Popped(p.spans, p.spans) + p.spans.buffer;
  }

  lemma CountsInTerminal(p: Pair, n: nat)
    requires ViewOk(p.spans) && p.spans.remnant == None && ConnShape(p.conn) && p.conn.shuttingDown
    requires |Flatten(p.conn.header)| + RemnantSize(p) <= n
    ensures FlushSummary(p, FlushSpec(p, n))
  {
    hide Consumed, Flatten, After, ConsumeMembers, Startable;
    WriteEffect(p, n);
    var m := n - |Flatten(p.conn.header)| - RemnantSize(p);
    AfterDropsBytes(p.conn.terminal, m);
    StopAccounts(p.conn.terminal, m);
    assert p.spans.buffer == Popped(p.spans, p.spans) + p.spans.buffer;
  }

  lemma CountsInSpans(p: Pair, n: nat)
    requires ViewOk(p.spans) && p.spans.remnant == None && ConnShape(p.conn) && !p.conn.shuttingDown
    requires |Flatten(p.conn.header)| + RemnantSize(p) <= n
    ensures FlushSummary(p, FlushSpec(p, n))
  {
    hide Consumed, Flatten, After, ConsumeMembers, Startable, RestOf;
    WriteEffect(p, n);
    ConsumedFacts(p.spans, Min(n - |Flatten(p.conn.header)| - RemnantSize(p), |Flatten(Flatten(Allotted(p.spans)))|));
  }

  /** The remnant of q continues the remnant of p, or the span popped last. */
  ghost predicate RemnantFollows(p: Pair, q: Pair)
    requires |q.spans.buffer| <= |p.spans.buffer|
  {
    q.conn.remnant.Some? ==>
      if Popped(p.spans, q.spans) == [] then p.conn.remnant.Some? && RestOf(q.conn.remnant.value, p.conn.remnant.value)
      else RestOf(q.conn.remnant.value, Popped(p.spans, q.spans)[|Popped(p.spans, q.spans)| - 1])
  }

  /** A remnant is what is left of the remnant before, or of the span popped last. */
  lemma FlushRemnant(p: Pair, n: nat)
    requires ViewOk(p.spans) && p.spans.remnant == None && ConnShape(p.conn) && FlushSummary(p, FlushSpec(p, n))
    ensures RemnantFollows(p, FlushSpec(p, n))
  {
    hide FlushSpec, RemnantFollows, ViewOk;
    var h, r := |Flatten(p.conn.header)|, RemnantSize(p);
    if n < h {
      NoBytes(p.conn.header);
      FollowsInHeader(p, n);
    } else if n < h + r {
      FollowsInRemnant(p, n);
    } else {
      FollowsInSpans(p, n);
    }
  }

  lemma FollowsInHeader(p: Pair, n: nat)
    requires ViewOk(p.spans) && p.spans.remnant == None && p.conn.remnant == None && n < |Flatten(p.conn.header)|
    ensures |FlushSpec(p, n).spans.buffer| <= |p.spans.buffer| && RemnantFollows(p, FlushSpec(p, n))
  {
    hide Consumed, Flatten, After, ConsumeMembers, RestOf, Startable;
    WriteEffect(p, n);
  }

  lemma FollowsInRemnant(p: Pair, n: nat)
    requires ViewOk(p.spans) && p.spans.remnant == None
    requires |Flatten(p.conn.header)| <= n < |Flatten(p.conn.header)| + RemnantSize(p)
    ensures |FlushSpec(p, n).spans.buffer| <= |p.spans.buffer| && RemnantFollows(p, FlushSpec(p, n))
  {
    hide Consumed, Flatten, After, ConsumeMembers, RestOf, Startable;
    WriteEffect(p, n);
    PartIsRest(p.conn.remnant.value, n - |Flatten(p.conn.header)|);
  }

  lemma FollowsInSpans(p: Pair, n: nat)
    requires ViewOk(p.spans) && p.spans.remnant == None && |Flatten(p.conn.header)| + RemnantSize(p) <= n
    ensures |FlushSpec(p, n).spans.buffer| <= |p.spans.buffer| && RemnantFollows(p, FlushSpec(p, n))
  {
    hide Consumed, Flatten, After, ConsumeMembers, RestOf, Startable;
    WriteEffect(p, n);
    if !p.conn.shuttingDown {
      ConsumedFacts(p.spans, Min(n - |Flatten(p.conn.header)| - RemnantSize(p), |Flatten(Flatten(Allotted(p.spans)))|));
    }
  }

  /** The streams of a flush, spelled out. */
  lemma LeftUnfolds(shape: Pair, p: Pair)
    ensures Left(p, Streams(shape)) ==
            Flatten(p.conn.header) + (if shape.conn.remnant.Some? then RemnantBytes(p.conn.remnant) else []) +
            MemberLeft(p, if shape.conn.shuttingDown then Terminal else Spans)
  {
    hide Flatten;
    var last := if shape.conn.shuttingDown then Terminal else Spans;
    assert [last][1..] == [] && [Header, last][1..] == [last];
    assert [Remnant, last][1..] == [last] && [Header, Remnant, last][1..] == [Remnant, last];
    assert Left(p, [last]) == MemberLeft(p, last);
    assert Left(p, [Remnant, last]) == RemnantBytes(p.conn.remnant) + MemberLeft(p, last);
  }

  lemma CancelRight<T>(a: seq<T>, b: seq<T>, c: seq<T>, d: seq<T>, end: seq<T>)
    requires a + (b + end) == c + (d + end)
    ensures a + b == c + d
  {
    Associative(a, b, end);
    Associative(c, d, end);
    assert |a + b| == |c + d|;
    assert a + b == ((a + b) + end)[..|a + b|];
    assert c + d == ((c + d) + end)[..|c + d|];
  }

  /** Before the connection settles: what the writer took and what is left add up. */
  lemma WriteBytes(p: Pair, n: nat)
    requires ViewOk(p.spans) && p.spans.remnant == None
    ensures var w := ConsumeMembers(p, Streams(p), n);
            Flatten(p.conn.header) + RemnantBytes(p.conn.remnant) + MemberLeft(p, if p.conn.shuttingDown then Terminal else Spans) ==
            Taken(p, n) + (Flatten(w.conn.header) + RemnantBytes(w.conn.remnant) +
                           MemberLeft(w, if p.conn.shuttingDown then Terminal else Spans))
  {
    hide Flatten, ConsumeMembers, Left, Offered, MemberLeft;
    var w := ConsumeMembers(p, Streams(p), n);
    Conserves(p, Streams(p), n);
    LeftUnfolds(p, p);
    LeftUnfolds(p, w);
    ConsumeMembersKeeps(p, Streams(p), n);
  }

  /** What the writer took, followed by what is left of the session, is what was left before together with the
      spans that were started. */
  lemma FlushBytes(p: Pair, n: nat)
    requires ViewOk(p.spans) && p.spans.remnant == None && ConnShape(p.conn)
    requires FlushSummary(p, FlushSpec(p, n))
    ensures var q := FlushSpec(p, n);
            Taken(p, n) + Flatten(q.conn.header) + RemnantBytes(q.conn.remnant) + Flatten(q.conn.terminal) ==
            Flatten(p.conn.header) + RemnantBytes(p.conn.remnant) + Bytes(Popped(p.spans, q.spans)) + Flatten(p.conn.terminal)
  {
    hide Flatten, Consumed, After, ConsumeMembers, Bytes, Taken, RemnantBytes, Startable, RestOf, Settle, ConnShape;
    var q, w := FlushSpec(p, n), ConsumeMembers(p, Streams(p), n);
    var popped := Popped(p.spans, q.spans);
    WriteBytes(p, n);
    BytesConcat(popped, q.spans.buffer);
    SettledBytes(p, w, n);
    var taken, front := Taken(p, n), Flatten(p.conn.header) + RemnantBytes(p.conn.remnant);
    var rest := Flatten(q.conn.header) + RemnantBytes(q.conn.remnant);
    if p.conn.shuttingDown {
      assert Bytes(popped) == [] by { NoSpans(); }
    } else {
      OpenRest(w, q);
      SpansLeft(p);
      CancelRight(front, Bytes(popped), taken, rest, Bytes(q.spans.buffer));
    }
    Associative(taken, Flatten(q.conn.header), RemnantBytes(q.conn.remnant));
    Associative(taken, rest, Flatten(q.conn.terminal));
  }

  lemma SpansLeft(p: Pair)
    requires p.spans.remnant == None
    ensures MemberLeft(p, Spans) == Bytes(p.spans.buffer)
  {
    hide Bytes;
  }

  lemma OpenRest(w: Pair, q: Pair)
    requires q.conn.header == w.conn.header && q.spans.buffer == w.spans.buffer
    requires RemnantBytes(q.conn.remnant) == RemnantBytes(w.conn.remnant) + RemnantBytes(w.spans.remnant)
    ensures Flatten(w.conn.header) + RemnantBytes(w.conn.remnant) + MemberLeft(w, Spans) ==
            Flatten(q.conn.header) + RemnantBytes(q.conn.remnant) + Bytes(q.spans.buffer)
  {
    hide Flatten, Bytes, RemnantBytes;
    Associative(Flatten(w.conn.header), RemnantBytes(w.conn.remnant), MemberLeft(w, Spans));
    Associative(RemnantBytes(w.conn.remnant), RemnantBytes(w.spans.remnant), Bytes(q.spans.buffer));
    Associative(Flatten(w.conn.header), RemnantBytes(q.conn.remnant), Bytes(q.spans.buffer));
  }

  lemma NoSpans()
    ensures Bytes([]) == []
  {
  }

  /** Settling moves the remnant of the span stream to the connection without changing the bytes. */
  lemma SettledBytes(p: Pair, w: Pair, n: nat)
    requires ViewOk(p.spans) && p.spans.remnant == None && ConnShape(p.conn) && w == ConsumeMembers(p, Streams(p), n)
    ensures var q := Settle(w);
            && q.conn.header == w.conn.header && q.conn.terminal == w.conn.terminal && q.spans.buffer == w.spans.buffer
            && w.conn.shuttingDown == p.conn.shuttingDown && (!p.conn.shuttingDown ==> q.conn.terminal == p.conn.terminal)
            && (p.conn.shuttingDown ==> RemnantBytes(q.conn.remnant) == RemnantBytes(w.conn.remnant))
            && (!p.conn.shuttingDown ==>
                  RemnantBytes(q.conn.remnant) == RemnantBytes(w.conn.remnant) + RemnantBytes(w.spans.remnant))
  {
    hide Consumed, After, ConsumeMembers, Bytes, Flatten;
    WriteEffect(p, n);
    NoBytes([]);
    NoBytes(p.conn.header);
    if p.conn.remnant.Some? && n >= |Flatten(p.conn.header)| && n - |Flatten(p.conn.header)| < RemnantSize(p) {
      StopAccounts(p.conn.remnant.value, n - |Flatten(p.conn.header)|);
    }
  }
}
