/** The recorder whose caller decides when to flush, over a transporter that calls back. The callback may come inside
    the call to Send or at any later time. */
module LegacyManualRecorders {
  import opened ReportBuilders
  import opened ReportProtocol
  import opened Wrappers

  /** A report goes in flight and, if the transporter calls back at once, is finished. */
  function Sent(s: State, reply: Option<bool>): (t: State)
    requires Enabled(s, Begin)
    requires !Apply(s, Begin).InFlight() ==> reply == None
  {
    var begun := Apply(s, Begin);
    if reply.None? then begun else Apply(begun, End(reply.value))
  }

  /** What the transporter's answer means for the report; None as long as it has not called back. */
  function Outcome(reply: Option<Reply>): Option<bool> {
    if reply.None? then None else Some(reply.value.Succeeded?)
  }

  /** A flush sends what is pending unless a report is in progress. */
  function Flushed(s: State, reply: Option<Reply>): State {
    if Enabled(s, Begin) && Apply(s, Begin).InFlight() then Sent(s, Outcome(reply)) else s
  }

  /** Does the answer reach a report and disable the recorder? */
  predicate Disabling(s: State, reply: Option<Reply>) {
    Enabled(s, Begin) && reply.Some? && reply.value.Disables()
  }

  function FlushedIfFull(s: State, max: nat, reply: Option<Reply>): State {
    if |s.pending.spans| >= max then Flushed(s, reply) else s
  }

  /** A flush is a run of the protocol, after which nothing is pending unless a report was in progress before. */
  lemma FlushedPreserves(s: State, reply: Option<Reply>)
    requires Inv(s)
    ensures var t := Flushed(s, reply);
            && Inv(t) && Leads(s, t) && t.accepted == s.accepted && t.refused == s.refused
            && (if s.InFlight() || s.pending.spans == [] then t == s
                else t.reports == s.reports + [WithCount(s.pending, s.dropped)] && t.pending.spans == [] &&
                     t.InFlight() == reply.None?)
  {
    if Enabled(s, Begin) {
      SentPreserves(s, Outcome(reply));
    } else {
      LeadsNowhere(s);
    }
  }

  lemma SentPreserves(s: State, reply: Option<bool>)
    requires Inv(s) && Enabled(s, Begin)
    ensures Apply(s, Begin).InFlight()
    ensures var t := Sent(s, reply);
            && Inv(t) && Leads(s, t) && t.reports == s.reports + [WithCount(s.pending, s.dropped)]
            && t.pending.spans == [] && t.accepted == s.accepted && t.refused == s.refused
            && t.InFlight() == reply.None?
  {
    StepPreserves(s, Begin);
    LeadsOneStep(s, Begin);
    if reply.Some? {
      var begun := Apply(s, Begin);
      StepPreserves(begun, End(reply.value));
      LeadsOneStep(begun, End(reply.value));
      LeadsOn(s, begun, Sent(s, reply));
    }
  }

  class LegacyManualRecorder {
    const builder: ReportBuilder
    var disabled: bool
    var activeRequest: Report
    var savedDroppedSpans: nat
    var savedPendingSpans: nat
    var flushedSeqno: nat
    var encodingSeqno: nat
    var droppedSpans: nat
    var observedSent: nat
    var observedDropped: nat

    ghost var protocol: State

    ghost predicate Valid()
      reads this, builder
    {
      && Inv(protocol)
      && protocol.pending == builder.pending && protocol.resetNext == builder.resetNext && protocol.inflight == activeRequest
      && protocol.flushed == flushedSeqno && protocol.encoding == encodingSeqno && protocol.dropped == droppedSpans
      && protocol.observedSent == observedSent && protocol.observedDropped == observedDropped
      && (protocol.InFlight() ==> savedPendingSpans == |activeRequest.spans| && savedDroppedSpans == Carried(activeRequest))
    }

    constructor ()
      ensures Valid() && fresh(builder) && protocol == INIT && !disabled
    {
      hide Inv;
      builder := new ReportBuilder();
      disabled, activeRequest, savedDroppedSpans, savedPendingSpans := false, EMPTY, 0, 0;
      flushedSeqno, encodingSeqno, droppedSpans, observedSent, observedDropped := 0, 1, 0, 0, 0;
      protocol := INIT;
      new;
      InitInv();
    }

    function IsReportInProgress(): bool
      reads this
    {
      encodingSeqno > 1 + flushedSeqno
    }

    // ---- Callbacks of the transporter, one per report -----------------------------------------------------

    method OnSuccess(commands: seq<bool>)
      requires Valid() && protocol.InFlight()
      modifies this
      ensures Valid() && protocol == Apply(old(protocol), End(true)) && disabled == (old(disabled) || true in commands)
    {
      StepPreserves(protocol, End(true));
      protocol := Apply(protocol, End(true));
      flushedSeqno := flushedSeqno + 1;
      activeRequest := EMPTY;
      ghost var finished := protocol;
      hide Inv;
      for i := 0 to |commands|
        invariant Valid() && protocol == finished && disabled == (old(disabled) || true in commands[..i])
      {
        if commands[i] {
          disabled := true;
        }
        assert commands[..i + 1] == commands[..i] + [commands[i]];
      }
    }

    method OnFailure()
      requires Valid() && protocol.InFlight()
      modifies this
      ensures Valid() && protocol == Apply(old(protocol), End(false)) && disabled == old(disabled)
    {
      StepPreserves(protocol, End(false));
      protocol := Apply(protocol, End(false));
      flushedSeqno := flushedSeqno + 1;
      activeRequest := EMPTY;
      observedDropped := observedDropped + savedPendingSpans;
      droppedSpans := droppedSpans + (savedDroppedSpans + savedPendingSpans);
    }

    /** The transporter may call back before it returns; `reply` says whether it does, and with which answer. */
    method Send(reply: Option<Reply>)
      requires Valid() && protocol.InFlight()
      modifies this
      ensures Valid() && protocol == if reply.None? then old(protocol) else Apply(old(protocol), End(reply.value.Succeeded?))
      ensures disabled == (old(disabled) || (reply.Some? && reply.value.Disables()))
    {
      match reply {
        case None =>
        case Some(Succeeded(commands)) => OnSuccess(commands);
        case Some(Failed) => OnFailure();
      }
    }

    // ---- Operations ------------------------------------------------------------------------------------------

    /** Sends what is pending unless a report is in progress. The answer is true exactly when afterwards every
        accepted span has been handed to the transporter. */
    method FlushOne(reply: Option<Reply>) returns (flushed: bool)
      requires Valid()
      modifies this, builder
      ensures Valid() && protocol == Flushed(old(protocol), reply)
      ensures disabled == (old(disabled) || Disabling(old(protocol), reply))
      ensures flushed <==> |old(protocol).accepted| <= |SpansOf(protocol.reports)|
    {
      hide Leads;
      AllHandedOver(protocol);
      if IsReportInProgress() {
        return builder.NumPendingSpans() == 0;
      }
      savedPendingSpans := builder.NumPendingSpans();
      if savedPendingSpans == 0 {
        return true;
      }
      SwapReports();
      Send(reply);
      FlushedPreserves(old(protocol), reply);
      AllHandedOver(protocol);
      flushed := true;
    }

    /** The accepted spans that were not handed over are the pending ones. */
    lemma AllHandedOver(s: State)
      requires Inv(s)
      ensures |s.accepted| == |SpansOf(s.reports)| + |s.pending.spans|
    {
    }

    method SwapReports()
      requires Valid() && Enabled(protocol, Begin) && savedPendingSpans == builder.NumPendingSpans()
      modifies this, builder
      ensures Valid() && protocol == Apply(old(protocol), Begin) && protocol.InFlight() && disabled == old(disabled)
    {
      StepPreserves(protocol, Begin);
      protocol := Apply(protocol, Begin);
      observedSent := observedSent + savedPendingSpans;
      savedDroppedSpans := droppedSpans;
      builder.SetPendingClientDroppedSpans(droppedSpans);
      droppedSpans := 0;
      activeRequest := builder.SwapPending(activeRequest);
      encodingSeqno := encodingSeqno + 1;
    }

    /** A span is kept unless the recorder is disabled, or is full while a report is in progress. A full buffer is
        flushed as soon as no report is in progress, before or after the span is added, so it never grows past its maximum.
        `first` and `second` are what the transporter answers to the report sent before and after that. */
    method RecordSpan(span: Span, maxBufferedSpans: nat, first: Option<Reply>, second: Option<Reply>) returns (kept: bool)
      requires Valid()
      modifies this, builder
      ensures Valid() && Leads(old(protocol), protocol)
      ensures kept == (!old(disabled) && (|old(protocol).pending.spans| < maxBufferedSpans || !old(protocol).InFlight()))
      ensures !kept ==> protocol == Apply(old(protocol), Refuse) && disabled == old(disabled)
      ensures kept ==> var added := Apply(FlushedIfFull(old(protocol), maxBufferedSpans, first), Accept(span));
                       && protocol == FlushedIfFull(added, maxBufferedSpans, second)
                       && disabled == ((|old(protocol).pending.spans| >= maxBufferedSpans && Disabling(old(protocol), first))
                                       || (|added.pending.spans| >= maxBufferedSpans && Disabling(added, second)))
                       && protocol.accepted == old(protocol).accepted + [span] && protocol.refused == old(protocol).refused
      ensures kept ==> |protocol.pending.spans| < maxBufferedSpans || protocol.InFlight() || protocol.pending.spans == []
      ensures kept && maxBufferedSpans > 0 ==> |protocol.pending.spans| <= maxBufferedSpans
    {
      hide Inv, Leads, SpansOf, Flushed;
      if disabled {
        DropSpan();
        return false;
      }
      ghost var p0 := protocol;
      LeadsNowhere(p0);
      if builder.NumPendingSpans() >= maxBufferedSpans {
        if !IsReportInProgress() {
          var _ := FlushOne(first);
          FlushedPreserves(p0, first);
        } else {
          DropSpan();
          return false;
        }
      }
      ghost var p1 := protocol;
      KeepSpan(span);
      LeadsOn(p0, p1, protocol);
      ghost var p2 := protocol;
      if builder.NumPendingSpans() >= maxBufferedSpans {
        var _ := FlushOne(second);
        FlushedPreserves(p2, second);
        LeadsOn(p0, p2, protocol);
      }
      return true;
    }

    method DropSpan()
      requires Valid()
      modifies this
      ensures Valid() && protocol == Apply(old(protocol), Refuse) && Leads(old(protocol), protocol)
      ensures disabled == old(disabled)
    {
      hide Inv;
      StepPreserves(protocol, Refuse);
      LeadsOneStep(protocol, Refuse);
      protocol := Apply(protocol, Refuse);
      droppedSpans := droppedSpans + 1;
      observedDropped := observedDropped + 1;
    }

    method KeepSpan(span: Span)
      requires Valid()
      modifies this, builder
      ensures Valid() && protocol == Apply(old(protocol), Accept(span)) && Leads(old(protocol), protocol)
      ensures disabled == old(disabled)
    {
      hide Inv;
      StepPreserves(protocol, Accept(span));
      LeadsOneStep(protocol, Accept(span));
      protocol := Apply(protocol, Accept(span));
      builder.AddSpan(span);
    }

    /** A disabled recorder does not flush and says so; any other sends what is pending unless a report is in progress. */
    method FlushWithTimeout(reply: Option<Reply>) returns (flushed: bool)
      requires Valid()
      modifies this, builder
      ensures Valid() && protocol == if old(disabled) then old(protocol) else Flushed(old(protocol), reply)
      ensures disabled == (old(disabled) || Disabling(old(protocol), reply))
      ensures flushed <==> !old(disabled) && |old(protocol).accepted| <= |SpansOf(protocol.reports)|
    {
      hide Inv, SpansOf;
      if disabled {
        return false;
      }
      flushed := FlushOne(reply);
    }
  }
}
