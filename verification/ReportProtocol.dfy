/** The protocol of a recorder that keeps one report pending and at most one in flight. The recorder with a writer
    thread and the one driven by its caller both follow it; a step is one critical section. */
module ReportProtocol {
  import opened Fragments

  /** A recorded span; what it says is of no concern here. */
  type Span = nat

  datatype Report = Report(preamble: bool, spans: seq<Span>, droppedCounts: seq<nat>)

  const EMPTY: Report := Report(false, [], [])

  /** Sequence numbers, drop counter and the two reports are the program's state; so is what the observer was told.
      The rest is history: spans accepted in order, number of spans refused, reports in the order in which they
      went in flight, and whether each finished one was delivered. */
  datatype State = State(
    pending: Report, resetNext: bool, inflight: Report, flushed: nat, encoding: nat, dropped: nat,
    observedSent: nat, observedDropped: nat,
    accepted: seq<Span>, refused: nat, reports: seq<Report>, outcomes: seq<bool>)
  {
    predicate InFlight() { encoding > 1 + flushed }
  }

  const INIT: State := State(EMPTY, true, EMPTY, 0, 1, 0, 0, 0, [], 0, [], [])

  datatype Step = Accept(span: Span) | Refuse | Begin | End(delivered: bool)

  predicate Enabled(s: State, step: Step) {
    match step
    case Accept(_) => true
    case Refuse => true
    case Begin => !s.InFlight() && s.pending.spans != []
    case End(_) => s.InFlight()
  }

  /** The first span after a swap starts over from the preamble. */
  function WithSpan(pending: Report, resetNext: bool, span: Span): Report {
    if resetNext then Report(true, [span], []) else pending.(spans := pending.spans + [span])
  }

  function WithCount(pending: Report, count: nat): Report {
    pending.(droppedCounts := pending.droppedCounts + [count])
  }

  function Carried(r: Report): nat { if r.droppedCounts == [] then 0 else r.droppedCounts[0] }

  function Apply(s: State, step: Step): State
    requires Enabled(s, step)
  {
    match step
    case Accept(span) => s.(pending := WithSpan(s.pending, s.resetNext, span), resetNext := false, accepted := s.accepted + [span])
    case Refuse => s.(dropped := s.dropped + 1, observedDropped := s.observedDropped + 1, refused := s.refused + 1)
    case Begin =>
      var r := WithCount(s.pending, s.dropped);
      s.(pending := s.inflight, resetNext := true, inflight := r, encoding := s.encoding + 1, dropped := 0,
         observedSent := s.observedSent + |r.spans|, reports := s.reports + [r])
    case End(delivered) =>
      var r := s.inflight;
      var t := s.(flushed := s.flushed + 1, inflight := EMPTY, outcomes := s.outcomes + [delivered]);
      if delivered then t
      else t.(observedDropped := s.observedDropped + |r.spans|, dropped := s.dropped + Carried(r) + |r.spans|)
  }

  /** How the transporter answers: an answer to a delivered report may carry commands, each of which disables the tracer
      or not. */
  datatype Reply = Failed | Succeeded(commands: seq<bool>) {
    predicate Disables() { Succeeded? && true in commands }
  }

  // ---- Sums over finished reports -----------------------------------------------------------------------

  function SpansOf(reports: seq<Report>): seq<Span> {
    if reports == [] then [] else SpansOf(reports[..|reports| - 1]) + reports[|reports| - 1].spans
  }

  /** Spans in reports that were delivered (or that were lost). */
  function SpanCount(reports: seq<Report>, outcomes: seq<bool>, delivered: bool): nat
    requires |outcomes| <= |reports|
    decreases |outcomes|
  {
    if outcomes == [] then 0
    else
      var k := |outcomes| - 1;
      SpanCount(reports, outcomes[..k], delivered) + if outcomes[k] == delivered then |reports[k].spans| else 0
  }

  /** Drop counts that reached the collector. */
  function DeliveredDrops(reports: seq<Report>, outcomes: seq<bool>): nat
    requires |outcomes| <= |reports|
    decreases |outcomes|
  {
    if outcomes == [] then 0
    else
      var k := |outcomes| - 1;
      DeliveredDrops(reports, outcomes[..k]) + if outcomes[k] then Carried(reports[k]) else 0
  }

  lemma {:induction false} SumsKeep(reports: seq<Report>, r: Report, outcomes: seq<bool>)
    requires |outcomes| <= |reports|
    ensures forall d :: SpanCount(reports + [r], outcomes, d) == SpanCount(reports, outcomes, d)
    ensures DeliveredDrops(reports + [r], outcomes) == DeliveredDrops(reports, outcomes)
    decreases |outcomes|
  {
    if outcomes != [] {
      SumsKeep(reports, r, outcomes[..|outcomes| - 1]);
    }
  }

  lemma {:induction false} SpansSplit(reports: seq<Report>, outcomes: seq<bool>)
    requires |outcomes| <= |reports|
    ensures |SpansOf(reports[..|outcomes|])| == SpanCount(reports, outcomes, true) + SpanCount(reports, outcomes, false)
    decreases |outcomes|
  {
    if outcomes != [] {
      var k := |outcomes| - 1;
      assert reports[..|outcomes|][..k] == reports[..k];
      SpansSplit(reports, outcomes[..k]);
    }
  }

  // ---- Invariant ---------------------------------------------------------------------------------------------

  /** A report in flight repeats the preamble, holds at least one span and exactly one drop count. */
  ghost predicate ReportOk(r: Report) { r.preamble && r.spans != [] && |r.droppedCounts| == 1 }

  ghost predicate Inv(s: State) {
    && s.encoding == 1 + |s.reports| && s.flushed == |s.outcomes|
    && s.flushed <= |s.reports| <= s.flushed + 1
    && s.inflight == (if s.InFlight() then s.reports[s.flushed] else EMPTY)
    && (forall i :: 0 <= i < |s.reports| ==> ReportOk(s.reports[i]))
    && (if s.resetNext then s.pending == EMPTY else s.pending.preamble && s.pending.spans != [] && s.pending.droppedCounts == [])
    && s.accepted == SpansOf(s.reports) + s.pending.spans
    && s.observedSent == |SpansOf(s.reports)|
    && s.observedDropped == s.refused + SpanCount(s.reports, s.outcomes, false)
    && s.observedDropped == s.dropped + Carried(s.inflight) + DeliveredDrops(s.reports, s.outcomes)
  }

  lemma InitInv()
    ensures Inv(INIT)
  {
    assert SpansOf([]) == [] && SpanCount([], [], false) == 0 && DeliveredDrops([], []) == 0;
    assert INIT.accepted == SpansOf(INIT.reports) + INIT.pending.spans;
  }

  lemma BeginPreserves(s: State)
    requires Inv(s) && Enabled(s, Begin)
    ensures Inv(Apply(s, Begin))
  {
    var r := WithCount(s.pending, s.dropped);
    SumsKeep(s.reports, r, s.outcomes);
    assert (s.reports + [r])[..|s.reports|] == s.reports;
  }

  lemma EndPreserves(s: State, delivered: bool)
    requires Inv(s) && Enabled(s, End(delivered))
    ensures Inv(Apply(s, End(delivered)))
  {
    assert (s.outcomes + [delivered])[..|s.outcomes|] == s.outcomes;
    assert ReportOk(s.reports[s.flushed]);
  }

  lemma StepPreserves(s: State, step: Step)
    requires Inv(s) && Enabled(s, step)
    ensures Inv(Apply(s, step))
  {
    match step
    case Accept(span) => Associative(SpansOf(s.reports), s.pending.spans, [span]);
    case Refuse =>
    case Begin => BeginPreserves(s);
    case End(delivered) => EndPreserves(s, delivered);
  }

  // ---- Runs ----------------------------------------------------------------------------------------------------

  ghost predicate RunsTo(a: State, steps: seq<Step>, b: State)
    decreases |steps|
  {
    if steps == [] then a == b
    else Enabled(a, steps[0]) && RunsTo(Apply(a, steps[0]), steps[1..], b)
  }

  ghost predicate Reachable(s: State) { exists steps :: RunsTo(INIT, steps, s) }

  /** Nothing recorded is forgotten and no report changes once it is in flight. */
  ghost predicate Extends(a: State, b: State) {
    a.accepted <= b.accepted && a.refused <= b.refused && a.reports <= b.reports && a.outcomes <= b.outcomes
  }

  lemma {:induction false} RunPreserves(a: State, steps: seq<Step>, b: State)
    requires Inv(a) && RunsTo(a, steps, b)
    ensures Inv(b) && Extends(a, b)
    decreases |steps|
  {
    hide Inv;
    if steps != [] {
      StepPreserves(a, steps[0]);
      RunPreserves(Apply(a, steps[0]), steps[1..], b);
    }
  }

  lemma ReachableInv(s: State)
    requires Reachable(s)
    ensures Inv(s)
  {
    hide Inv, Apply, Enabled;
    InitInv();
    var steps :| RunsTo(INIT, steps, s);
    RunPreserves(INIT, steps, s);
  }

  lemma {:induction false} RunsJoin(a: State, first: seq<Step>, b: State, second: seq<Step>, c: State)
    requires RunsTo(a, first, b) && RunsTo(b, second, c)
    ensures RunsTo(a, first + second, c)
    decreases |first|
  {
    if first == [] {
      assert first + second == second;
    } else {
      assert (first + second)[1..] == first[1..] + second;
      RunsJoin(Apply(a, first[0]), first[1..], b, second, c);
    }
  }

  /** b is reached from a by some run. */
  ghost predicate Leads(a: State, b: State) { exists steps :: RunsTo(a, steps, b) }

  lemma LeadsNowhere(a: State)
    ensures Leads(a, a)
  {
    assert RunsTo(a, [], a);
  }

  lemma LeadsOneStep(a: State, step: Step)
    requires Enabled(a, step)
    ensures Leads(a, Apply(a, step))
  {
    hide Apply, Enabled;
    RunExtends(a, [], a, step);
  }

  lemma LeadsOn(a: State, b: State, c: State)
    requires Leads(a, b) && Leads(b, c)
    ensures Leads(a, c)
  {
    var first :| RunsTo(a, first, b);
    var second :| RunsTo(b, second, c);
    RunsJoin(a, first, b, second, c);
  }

  // ---- What the other threads may do ---------------------------------------------------------------------

  /** Beside the writer other threads only record spans; only the writer sends reports. */
  predicate Records(step: Step) { step.Accept? || step.Refuse? }

  /** b is reached from a by steps of other threads; for the writer these are steps that record. */
  ghost predicate OthersRan(a: State, b: State, writer: bool) {
    exists steps :: RunsTo(a, steps, b) && (writer ==> forall i :: 0 <= i < |steps| ==> Records(steps[i]))
  }

  /** What such a run keeps. */
  ghost predicate Kept(a: State, b: State, writer: bool) {
    && Inv(b) && Extends(a, b)
    && (writer ==> b.reports == a.reports && b.outcomes == a.outcomes && b.inflight == a.inflight &&
                   b.encoding == a.encoding && b.flushed == a.flushed && b.observedSent == a.observedSent &&
                   b.dropped - a.dropped == b.refused - a.refused == b.observedDropped - a.observedDropped)
  }

  lemma {:induction false} OtherStepsKeep(a: State, steps: seq<Step>, b: State, writer: bool)
    requires Inv(a) && RunsTo(a, steps, b)
    requires writer ==> forall i :: 0 <= i < |steps| ==> Records(steps[i])
    ensures Kept(a, b, writer)
    decreases |steps|
  {
    hide Inv;
    if steps != [] {
      assert writer ==> Records(steps[0]);
      StepPreserves(a, steps[0]);
      OtherStepsKeep(Apply(a, steps[0]), steps[1..], b, writer);
    }
  }

  lemma Interference(a: State, b: State, writer: bool)
    requires Inv(a) && OthersRan(a, b, writer)
    ensures Kept(a, b, writer) && Leads(a, b)
  {
    hide Inv, Kept, RunsTo;
    var steps :| RunsTo(a, steps, b) && (writer ==> forall i :: 0 <= i < |steps| ==> Records(steps[i]));
    OtherStepsKeep(a, steps, b, writer);
  }

  lemma NobodyRan(a: State, writer: bool)
    ensures OthersRan(a, a, writer)
  {
    assert RunsTo(a, [], a);
  }

  lemma RunExtends(a: State, steps: seq<Step>, b: State, step: Step)
    requires RunsTo(a, steps, b) && Enabled(b, step)
    ensures RunsTo(a, steps + [step], Apply(b, step))
  {
    assert [step][1..] == [];
    RunsJoin(a, steps, b, [step], Apply(b, step));
  }

  // ---- What holds in every reachable state ------------------------------------------------------------------

  /** Every recorded span is pending, in flight, delivered or lost; every lost one is in the drop counter, in the
      count of the report in flight, or in the count of a delivered report, and never in two of them. */
  lemma SpansAndDropsAccounted(s: State)
    requires Reachable(s)
    ensures |s.outcomes| <= |s.reports|
    ensures var delivered, lost := SpanCount(s.reports, s.outcomes, true), s.refused + SpanCount(s.reports, s.outcomes, false);
            && |s.accepted| + s.refused == |s.pending.spans| + |s.inflight.spans| + delivered + lost
            && lost == s.dropped + Carried(s.inflight) + DeliveredDrops(s.reports, s.outcomes)
            && s.observedDropped == lost
  {
    ReachableInv(s);
    SpansSplit(s.reports, s.outcomes);
    if s.InFlight() {
      assert s.reports[..s.flushed] == s.reports[..|s.reports| - 1];
    } else {
      assert s.reports[..s.flushed] == s.reports;
    }
  }

  /** The sequence numbers differ by one, or by two exactly while a report is in flight. */
  lemma SequenceNumbers(s: State)
    requires Reachable(s)
    ensures s.encoding - s.flushed == if s.inflight == EMPTY then 1 else 2
    ensures s.inflight != EMPTY <==> s.InFlight()
  {
    ReachableInv(s);
  }

  /** Reports hold the accepted spans in order, each with the preamble and one drop count. */
  lemma ReportsInOrder(s: State)
    requires Reachable(s)
    ensures s.accepted == SpansOf(s.reports) + s.pending.spans
    ensures forall i :: 0 <= i < |s.reports| ==> ReportOk(s.reports[i])
  {
    ReachableInv(s);
  }

  // ---- Flushing ----------------------------------------------------------------------------------------------

  /** Sequence number a flush waits for. */
  function WaitSeq(s: State): int { s.encoding - if s.pending.spans != [] then 0 else 1 }

  /** All spans accepted so far are in reports whose attempt to send has finished. */
  ghost predicate AllFinished(accepted: nat, s: State)
    requires s.flushed <= |s.reports|
  {
    accepted <= |SpansOf(s.reports[..s.flushed])|
  }

  lemma {:induction false} SpansGrow(reports: seq<Report>, j: nat, k: nat)
    requires j <= k <= |reports| && forall i :: 0 <= i < |reports| ==> ReportOk(reports[i])
    ensures SpansOf(reports[..j]) <= SpansOf(reports[..k])
    ensures j < k ==> |SpansOf(reports[..j])| < |SpansOf(reports[..k])|
    decreases k - j
  {
    if j < k {
      SpansGrow(reports, j, k - 1);
      assert reports[..k][..k - 1] == reports[..k - 1];
      assert reports[..k][k - 1] == reports[k - 1];
    }
  }

  /** Waiting for that number is exactly waiting for every span accepted before the call, whatever ran in between. */
  lemma FlushIsExact(a: State, b: State)
    requires Inv(a) && Leads(a, b)
    ensures b.flushed <= |b.reports|
    ensures b.flushed >= WaitSeq(a) <==> AllFinished(|a.accepted|, b)
  {
    var steps :| RunsTo(a, steps, b);
    RunPreserves(a, steps, b);
    var n, f := |a.reports|, b.flushed;
    assert a.reports == b.reports[..n];
    if a.pending.spans == [] {
      if f >= n { SpansGrow(b.reports, n, f); } else { SpansGrow(b.reports, f, n); }
    } else if f > n {
      SpansGrow(b.reports, n + 1, f);
      NextReportHolds(a, steps, b);
    } else {
      SpansGrow(b.reports, f, n);
    }
  }

  lemma BeginTakesAll(s: State)
    requires Inv(s) && Enabled(s, Begin)
    ensures var t := Apply(s, Begin); t.accepted == SpansOf(t.reports) && |t.reports| == |s.reports| + 1
  {
    BeginPreserves(s);
  }

  /** Spans pending in `a` are in the report that goes in flight next. */
  lemma {:induction false} NextReportHolds(a: State, steps: seq<Step>, b: State)
    requires Inv(a) && RunsTo(a, steps, b) && |b.reports| > |a.reports|
    ensures |a.accepted| <= |SpansOf(b.reports[..|a.reports| + 1])|
    decreases |steps|
  {
    hide Inv, SpansOf;
    var t := Apply(a, steps[0]);
    StepPreserves(a, steps[0]);
    if steps[0].Begin? {
      BeginTakesAll(a);
      RunPreserves(t, steps[1..], b);
      assert b.reports[..|a.reports| + 1] == t.reports;
    } else {
      NextReportHolds(t, steps[1..], b);
    }
  }
}
