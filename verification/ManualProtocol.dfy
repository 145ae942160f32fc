/** The recorder with a ring of framed spans and any number of reports in flight; a step is one critical section or
    one atomic operation. */
module ManualProtocol {
  import opened Fragments
  import opened Wrappers

  /** A buffered span; what it says is of no concern here. */
  type Span = nat

  /** A draft has taken the drop counter but no spans yet; an empty one is discarded. */
  datatype Status = Draft | InFlight | Delivered | Lost | Discarded

  datatype Message = Message(drops: nat, spans: seq<Span>, status: Status)

  /** `buffer`, of at most `cap` spans, `dropped` and what the observer was told are the program's state. The rest is
      history: every report ever started, the order in which they took spans, spans accepted, spans taken from the
      buffer, spans refused, and how often the transporter was told that the buffer is full. */
  datatype State = State(
    cap: nat, buffer: seq<Span>, dropped: nat, observedSent: nat, observedDropped: nat,
    messages: seq<Message>, fills: seq<nat>, accepted: seq<Span>, taken: seq<Span>, refused: nat, notices: nat)

  function Initial(cap: nat): State { State(cap, [], 0, 0, 0, [], [], [], [], 0, 0) }

  /** A report takes the oldest n spans; one that has nothing to tell of is discarded. */
  datatype Step =
    | Accept(span: Span)
    | Refuse
    | Notify
    | StartReport
    | FillReport(m: nat, n: nat)
    | Discard(m: nat)
    | Succeed(m: nat)
    | Fail(m: nat)

  predicate Enabled(s: State, step: Step) {
    match step
    case Accept(_) => |s.buffer| < s.cap
    case Refuse => true
    case Notify => true
    case StartReport => true
    case FillReport(m, n) => m < |s.messages| && s.messages[m].status == Draft && n <= |s.buffer| &&
                             (n > 0 || s.messages[m].drops > 0)
    case Discard(m) => m < |s.messages| && s.messages[m].status == Draft && s.messages[m].drops == 0
    case Succeed(m) => m < |s.messages| && s.messages[m].status == InFlight
    case Fail(m) => m < |s.messages| && s.messages[m].status == InFlight
  }

  function Apply(s: State, step: Step): State
    requires Enabled(s, step)
  {
    match step
    case Accept(span) => s.(buffer := s.buffer + [span], accepted := s.accepted + [span])
    case Refuse => s.(dropped := s.dropped + 1, observedDropped := s.observedDropped + 1, refused := s.refused + 1)
    case Notify => s.(notices := s.notices + 1)
    case StartReport => s.(messages := s.messages + [Message(s.dropped, [], Draft)], dropped := 0)
    case FillReport(m, n) =>
      s.(messages := s.messages[m := s.messages[m].(spans := s.buffer[..n], status := InFlight)], fills := s.fills + [m],
         taken := s.taken + s.buffer[..n], buffer := s.buffer[n..])
    case Discard(m) => s.(messages := s.messages[m := s.messages[m].(status := Discarded)])
    case Succeed(m) =>
      s.(messages := s.messages[m := s.messages[m].(status := Delivered)], observedSent := s.observedSent + |s.messages[m].spans|)
    case Fail(m) =>
      var msg := s.messages[m];
      s.(messages := s.messages[m := msg.(status := Lost)],
         observedDropped := s.observedDropped + |msg.spans|, dropped := s.dropped + |msg.spans| + msg.drops)
  }

  // ---- Sums over reports --------------------------------------------------------------------------------

  function Sum(ms: seq<Message>, f: Message -> nat): nat {
    if ms == [] then 0 else f(ms[0]) + Sum(ms[1..], f)
  }

  function InFlightSpans(m: Message): nat { if m.status == InFlight then |m.spans| else 0 }
  function DeliveredSpans(m: Message): nat { if m.status == Delivered then |m.spans| else 0 }
  function LostSpans(m: Message): nat { if m.status == Lost then |m.spans| else 0 }
  function CarriedDrops(m: Message): nat { if m.status == Draft || m.status == InFlight then m.drops else 0 }
  function DeliveredDrops(m: Message): nat { if m.status == Delivered then m.drops else 0 }

  lemma {:induction false} SumUpdate(ms: seq<Message>, i: nat, m: Message, f: Message -> nat)
    requires i < |ms|
    ensures Sum(ms[i := m], f) + f(ms[i]) == Sum(ms, f) + f(m)
  {
    if i > 0 {
      assert ms[i := m][1..] == ms[1..][i - 1 := m];
      SumUpdate(ms[1..], i - 1, m, f);
    }
  }

  lemma {:induction false} SumPush(ms: seq<Message>, m: Message, f: Message -> nat)
    ensures Sum(ms + [m], f) == Sum(ms, f) + f(m)
  {
    if ms == [] {
      assert [m][1..] == [];
    } else {
      assert (ms + [m])[1..] == ms[1..] + [m];
      SumPush(ms[1..], m, f);
    }
  }

  /** Spans of the reports in the order in which they took them. */
  function TakenBy(ms: seq<Message>, fills: seq<nat>): seq<Span> {
    if fills == [] then []
    else
      var m := fills[|fills| - 1];
      TakenBy(ms, fills[..|fills| - 1]) + if m < |ms| then ms[m].spans else []
  }

  lemma {:induction false} TakenFrame(ms: seq<Message>, ns: seq<Message>, fills: seq<nat>)
    requires |ms| <= |ns|
    requires forall k :: 0 <= k < |fills| ==> fills[k] < |ms| && ns[fills[k]].spans == ms[fills[k]].spans
    ensures TakenBy(ns, fills) == TakenBy(ms, fills)
  {
    if fills != [] {
      var front := fills[..|fills| - 1];
      forall k | 0 <= k < |front| ensures front[k] < |ms| && ns[front[k]].spans == ms[front[k]].spans {
        assert front[k] == fills[k];
      }
      TakenFrame(ms, ns, front);
    }
  }

  // ---- Invariant -----------------------------------------------------------------------------------------

  predicate Filled(m: Message) { m.status != Draft && m.status != Discarded }

  /** A report that is sent has something to tell of, and one that is discarded has not. */
  ghost predicate MessageOk(m: Message) {
    && (Filled(m) ==> m.drops > 0 || m.spans != [])
    && (!Filled(m) ==> m.spans == []) && (m.status == Discarded ==> m.drops == 0)
  }

  /** Every report that took spans did so once. */
  ghost predicate FillsOk(s: State) {
    && (forall k :: 0 <= k < |s.fills| ==> s.fills[k] < |s.messages| && Filled(s.messages[s.fills[k]]))
    && (forall j, k :: 0 <= j < k < |s.fills| ==> s.fills[j] != s.fills[k])
    && (forall m :: 0 <= m < |s.messages| && Filled(s.messages[m]) ==> m in s.fills)
    && s.taken == TakenBy(s.messages, s.fills)
  }

  ghost predicate CountsOk(s: State) {
    && |s.taken| == Sum(s.messages, InFlightSpans) + Sum(s.messages, DeliveredSpans) + Sum(s.messages, LostSpans)
    && s.observedSent == Sum(s.messages, DeliveredSpans)
    && s.observedDropped == s.refused + Sum(s.messages, LostSpans)
    && s.observedDropped == s.dropped + Sum(s.messages, CarriedDrops) + Sum(s.messages, DeliveredDrops)
  }

  ghost predicate Inv(s: State) {
    && s.accepted == s.taken + s.buffer && |s.buffer| <= s.cap
    && (forall m :: 0 <= m < |s.messages| ==> MessageOk(s.messages[m]))
    && FillsOk(s) && CountsOk(s)
  }

  lemma InitInv(cap: nat)
    ensures Inv(Initial(cap))
  {
    NoMessages(InFlightSpans);
    NoMessages(DeliveredSpans);
    NoMessages(LostSpans);
    NoMessages(CarriedDrops);
    NoMessages(DeliveredDrops);
    hide Sum, MessageOk, Filled;
  }

  lemma NoMessages(f: Message -> nat)
    ensures Sum([], f) == 0
  {
  }

  lemma Updated(s: State, m: nat, msg: Message)
    requires m < |s.messages|
    ensures var ms := s.messages[m := msg];
            && Sum(ms, InFlightSpans) + InFlightSpans(s.messages[m]) == Sum(s.messages, InFlightSpans) + InFlightSpans(msg)
            && Sum(ms, DeliveredSpans) + DeliveredSpans(s.messages[m]) == Sum(s.messages, DeliveredSpans) + DeliveredSpans(msg)
            && Sum(ms, LostSpans) + LostSpans(s.messages[m]) == Sum(s.messages, LostSpans) + LostSpans(msg)
            && Sum(ms, CarriedDrops) + CarriedDrops(s.messages[m]) == Sum(s.messages, CarriedDrops) + CarriedDrops(msg)
            && Sum(ms, DeliveredDrops) + DeliveredDrops(s.messages[m]) == Sum(s.messages, DeliveredDrops) + DeliveredDrops(msg)
  {
    SumUpdate(s.messages, m, msg, InFlightSpans);
    SumUpdate(s.messages, m, msg, DeliveredSpans);
    SumUpdate(s.messages, m, msg, LostSpans);
    SumUpdate(s.messages, m, msg, CarriedDrops);
    SumUpdate(s.messages, m, msg, DeliveredDrops);
  }

  /** Reports that did not just take spans keep what they took. */
  lemma FillsKept(s: State, t: State)
    requires FillsOk(s) && t.fills == s.fills && t.taken == s.taken && |s.messages| <= |t.messages|
    requires forall m :: 0 <= m < |s.messages| ==>
               t.messages[m].spans == s.messages[m].spans && Filled(t.messages[m]) == Filled(s.messages[m])
    requires forall m :: |s.messages| <= m < |t.messages| ==> !Filled(t.messages[m])
    ensures FillsOk(t)
  {
    TakenFrame(s.messages, t.messages, s.fills);
  }

  lemma TakenGrows(ms: seq<Message>, ns: seq<Message>, fills: seq<nat>, m: nat)
    requires |ms| == |ns| && m < |ns|
    requires forall k :: 0 <= k < |fills| ==> fills[k] < |ms| && ns[fills[k]].spans == ms[fills[k]].spans
    ensures TakenBy(ns, fills + [m]) == TakenBy(ms, fills) + ns[m].spans
  {
    TakenFrame(ms, ns, fills);
    assert (fills + [m])[..|fills|] == fills;
  }

  lemma FillsGrow(s: State, m: nat, n: nat)
    requires Inv(s) && Enabled(s, FillReport(m, n))
    ensures FillsOk(Apply(s, FillReport(m, n)))
  {
    hide CountsOk, TakenBy;
    var t := Apply(s, FillReport(m, n));
    assert MessageOk(s.messages[m]);
    hide MessageOk;
    assert m !in s.fills;
    TakenGrows(s.messages, t.messages, s.fills, m);
    forall i | 0 <= i < |t.messages| && Filled(t.messages[i]) ensures i in t.fills {
      if i == m {
        assert t.fills[|s.fills|] == m;
      } else {
        assert i in s.fills;
      }
    }
  }

  lemma FillsPreserved(s: State, step: Step)
    requires Inv(s) && Enabled(s, step) && !step.Accept? && !step.Refuse? && !step.Notify?
    ensures FillsOk(Apply(s, step))
  {
    hide CountsOk, FillsOk, MessageOk;
    if step.FillReport? {
      FillsGrow(s, step.m, step.n);
    } else {
      FillsKept(s, Apply(s, step));
    }
  }

  lemma StartPreserves(s: State)
    requires Inv(s)
    ensures Inv(Apply(s, StartReport))
  {
    hide FillsOk;
    var msg := Message(s.dropped, [], Draft);
    FillsPreserved(s, StartReport);
    SumPush(s.messages, msg, InFlightSpans);
    SumPush(s.messages, msg, DeliveredSpans);
    SumPush(s.messages, msg, LostSpans);
    SumPush(s.messages, msg, CarriedDrops);
    SumPush(s.messages, msg, DeliveredDrops);
  }

  lemma UpdatePreserves(s: State, step: Step)
    requires Inv(s) && Enabled(s, step) && (step.FillReport? || step.Discard? || step.Succeed? || step.Fail?)
    ensures Inv(Apply(s, step))
  {
    hide FillsOk, Sum;
    if step.FillReport? {
      assert s.buffer == s.buffer[..step.n] + s.buffer[step.n..];
      Associative(s.taken, s.buffer[..step.n], s.buffer[step.n..]);
    }
    assert MessageOk(s.messages[step.m]);
    FillsPreserved(s, step);
    Updated(s, step.m, Apply(s, step).messages[step.m]);
  }

  lemma StepPreserves(s: State, step: Step)
    requires Inv(s) && Enabled(s, step)
    ensures Inv(Apply(s, step))
  {
    match step
    case Accept(span) => Associative(s.taken, s.buffer, [span]);
    case Refuse =>
    case Notify =>
    case StartReport => StartPreserves(s);
    case _ => UpdatePreserves(s, step);
  }

  // ---- Runs ----------------------------------------------------------------------------------------------

  ghost predicate RunsTo(a: State, steps: seq<Step>, b: State)
    decreases |steps|
  {
    if steps == [] then a == b
    else Enabled(a, steps[0]) && RunsTo(Apply(a, steps[0]), steps[1..], b)
  }

  ghost predicate Reachable(s: State) { exists steps :: RunsTo(Initial(s.cap), steps, s) }

  lemma {:induction false} RunPreserves(a: State, steps: seq<Step>, b: State)
    requires Inv(a) && RunsTo(a, steps, b)
    ensures Inv(b) && b.cap == a.cap && a.accepted <= b.accepted && a.taken <= b.taken && |a.messages| <= |b.messages|
    decreases |steps|
  {
    hide Inv;
    if steps != [] {
      StepPreserves(a, steps[0]);
      RunPreserves(Apply(a, steps[0]), steps[1..], b);
    }
  }

  // ---- What the other threads may do ---------------------------------------------------------------------

  /** What a thread that does not run holds on to: a report it is preparing, and the flush lock while it fills it. */
  datatype Claim = Nothing | Preparing(m: nat) | Filling(m: nat)

  /** Steps that this claim keeps others from. */
  predicate Excluded(step: Step, claim: Claim) {
    && !claim.Nothing?
    && (((step.FillReport? || step.Discard? || step.Succeed? || step.Fail?) && step.m == claim.m)
        || (claim.Filling? && step.FillReport?))
  }

  /** b is reached from a by steps of other threads and callbacks. */
  ghost predicate OthersRan(a: State, b: State, claim: Claim) {
    exists steps :: RunsTo(a, steps, b) && forall i :: 0 <= i < |steps| ==> !Excluded(steps[i], claim)
  }

  /** What such a run keeps. */
  ghost predicate Kept(a: State, b: State, claim: Claim) {
    && Inv(b) && b.cap == a.cap && a.accepted <= b.accepted && a.taken <= b.taken && |a.messages| <= |b.messages|
    && (!claim.Nothing? && claim.m < |a.messages| ==> b.messages[claim.m] == a.messages[claim.m])
    && (claim.Filling? ==> b.taken == a.taken && a.buffer <= b.buffer)
  }

  lemma {:induction false} OtherStepsKeep(a: State, steps: seq<Step>, b: State, claim: Claim)
    requires Inv(a) && RunsTo(a, steps, b) && forall i :: 0 <= i < |steps| ==> !Excluded(steps[i], claim)
    ensures Kept(a, b, claim)
    decreases |steps|
  {
    hide Inv;
    if steps != [] {
      assert !Excluded(steps[0], claim);
      StepPreserves(a, steps[0]);
      OtherStepsKeep(Apply(a, steps[0]), steps[1..], b, claim);
    }
  }

  lemma Interference(a: State, b: State, claim: Claim)
    requires Inv(a) && OthersRan(a, b, claim)
    ensures Kept(a, b, claim)
  {
    hide Inv, Kept, RunsTo;
    var steps :| RunsTo(a, steps, b) && forall i :: 0 <= i < |steps| ==> !Excluded(steps[i], claim);
    OtherStepsKeep(a, steps, b, claim);
  }

  lemma NobodyRan(a: State, claim: Claim)
    ensures OthersRan(a, a, claim)
  {
    assert RunsTo(a, [], a);
  }

  // ---- Offering a span to the buffer -------------------------------------------------------------------------

  /** The states in which the ring's counters were read, tail before head, in the pass that decided. */
  datatype Offer = Offer(tailRead: State, headRead: State) {
    /** There is room by what was read. */
    predicate Taken() { |headRead.accepted| - |tailRead.taken| < headRead.cap }
  }

  /** An offer that began in a, while others ran. */
  ghost predicate Makes(a: State, offer: Offer) {
    OthersRan(a, offer.tailRead, Nothing) && OthersRan(offer.tailRead, offer.headRead, Nothing)
  }

  /** A span that is taken finds room. One that is refused found that the spans buffered when it was offered together with
      those accepted since fill the buffer. When nothing was taken out between the two reads, exactly a full buffer
      refuses. */
  lemma OfferDecided(a: State, offer: Offer)
    requires Inv(a) && Makes(a, offer)
    ensures var t := offer.headRead;
            && Kept(a, t, Nothing)
            && (offer.Taken() ==> |t.buffer| < t.cap)
            && (!offer.Taken() ==> |a.buffer| + (|t.accepted| - |a.accepted|) >= t.cap)
            && (t.taken == offer.tailRead.taken ==> (offer.Taken() <==> |t.buffer| < t.cap))
  {
    Interference(a, offer.tailRead, Nothing);
    Interference(offer.tailRead, offer.headRead, Nothing);
    hide FillsOk, CountsOk, OthersRan;
  }

  // ---- What holds in every reachable state ------------------------------------------------------------------

  lemma ReachableInv(s: State)
    requires Reachable(s)
    ensures Inv(s)
  {
    hide Inv, Apply, Enabled;
    InitInv(s.cap);
    var steps :| RunsTo(Initial(s.cap), steps, s);
    RunPreserves(Initial(s.cap), steps, s);
  }

  /** Every recorded span is buffered, in flight, delivered or lost; every lost one is in the drop counter, in the
      count of a report that is being prepared or in flight, or in the count of a delivered report. */
  lemma SpansAndDropsAccounted(s: State)
    requires Reachable(s)
    ensures |s.buffer| <= s.cap
    ensures var lost := s.refused + Sum(s.messages, LostSpans);
            && |s.accepted| + s.refused == |s.buffer| + Sum(s.messages, InFlightSpans) + Sum(s.messages, DeliveredSpans) + lost
            && lost == s.dropped + Sum(s.messages, CarriedDrops) + Sum(s.messages, DeliveredDrops)
            && s.observedDropped == lost && s.observedSent == Sum(s.messages, DeliveredSpans)
  {
    ReachableInv(s);
  }

  /** Reports hold the accepted spans in order and without repetition, each report having taken its spans once; none is
      sent that has neither spans nor drops to tell of. */
  lemma ReportsInOrder(s: State)
    requires Reachable(s)
    ensures s.accepted == TakenBy(s.messages, s.fills) + s.buffer
    ensures forall j, k :: 0 <= j < k < |s.fills| ==> s.fills[j] != s.fills[k]
    ensures forall m :: 0 <= m < |s.messages| ==> (m in s.fills <==> Filled(s.messages[m]))
    ensures forall m :: 0 <= m < |s.messages| && Filled(s.messages[m]) ==> s.messages[m].drops > 0 || s.messages[m].spans != []
  {
    ReachableInv(s);
  }
}
