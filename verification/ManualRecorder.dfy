/** The recorder that sends a report for each flush over an asynchronous transporter. */
module ManualRecorders {
  import opened ManualProtocol
  import opened SpanStreams
  import opened Wrappers

  /** The transporter calls back inside the call to Send, or later. */
  function Replied(s: State, id: nat, reply: Option<bool>): State
    requires Enabled(s, Succeed(id))
  {
    match reply
    case None => s
    case Some(true) => Apply(s, Succeed(id))
    case Some(false) => Apply(s, Fail(id))
  }

  class ManualRecorder {
    const maxBufferedSpans: nat
    /** The ring of buffered spans, oldest first, and how many were taken out of it. */
    var spanBuffer: seq<Span>
    var consumed: nat
    const metrics: MetricsTracker

    ghost var protocol: State

    ghost predicate Valid()
      reads this, metrics
    {
      && Inv(protocol) && protocol.cap == maxBufferedSpans
      && protocol.buffer == spanBuffer && |protocol.taken| == consumed
      && metrics.View() == Metrics(protocol.dropped, protocol.observedDropped, protocol.observedSent)
    }

    constructor (maxBufferedSpans: nat)
      ensures Valid() && fresh(metrics) && protocol == Initial(maxBufferedSpans)
    {
      hide Inv;
      metrics := new MetricsTracker();
      this.maxBufferedSpans, spanBuffer, consumed := maxBufferedSpans, [], 0;
      protocol := Initial(maxBufferedSpans);
      new;
      InitInv(maxBufferedSpans);
    }

    /** Operations of other threads and callbacks of the transporter, any number of them. The body does nothing; callers
        only see the contract, which says that some such run took place, and lemma Interference of ManualProtocol what
        every one of them keeps. */
    method OthersRun(ghost claim: Claim)
      requires Valid()
      modifies this, metrics
      ensures Valid() && OthersRan(old(protocol), protocol, claim)
    {
      NobodyRan(protocol, claim);
    }

    // ---- Recording -----------------------------------------------------------------------------------------

    /** Offers a span to the ring, which compares the number of elements added with the number of those taken out before
        that. A span that is refused is left with the caller. */
    method Add(span: Span) returns (added: bool, ghost offer: Offer)
      requires Valid()
      modifies this, metrics
      ensures Valid() && Makes(old(protocol), offer) && (added <==> offer.Taken())
      ensures added ==> Enabled(offer.headRead, Accept(span))
      ensures protocol == if added then Apply(offer.headRead, Accept(span)) else offer.headRead
    {
      hide Inv, OthersRan;
      ghost var start := protocol;
      OthersRun(Nothing);
      ghost var tailRead := protocol;
      var tail := consumed;
      OthersRun(Nothing);
      offer := Offer(tailRead, protocol);
      OfferDecided(start, offer);
      CountersAgree(protocol);
      var head := consumed + |spanBuffer|;
      added := head - tail < maxBufferedSpans;
      if added {
        StepPreserves(protocol, Accept(span));
        protocol := Apply(protocol, Accept(span));
        spanBuffer := spanBuffer + [span];
      }
    }

    lemma CountersAgree(s: State)
      requires Inv(s)
      ensures |s.accepted| == |s.taken| + |s.buffer|
    {
    }

    /** Tells the transporter, which may flush. */
    method OnSpanBufferFull()
      requires Valid()
      modifies this`protocol
      ensures Valid() && protocol == Apply(old(protocol), Notify)
    {
      hide Inv;
      StepPreserves(protocol, Notify);
      protocol := Apply(protocol, Notify);
    }

    /** A span that the ring takes is kept, with nobody told. Otherwise the transporter is told, and after whatever that
        makes run the span is offered once more; only if it is refused again it counts as dropped. */
    method RecordSpan(span: Span) returns (kept: bool, ghost offers: seq<Offer>)
      requires Valid()
      modifies this, metrics
      ensures Valid() && 1 <= |offers| <= 2 && Makes(old(protocol), offers[0])
      ensures |offers| == 1 <==> offers[0].Taken()
      ensures |offers| == 2 ==> Makes(Apply(offers[0].headRead, Notify), offers[1])
      ensures var last := offers[|offers| - 1];
              && (kept <==> last.Taken()) && (kept ==> Enabled(last.headRead, Accept(span)))
              && protocol == Apply(last.headRead, if kept then Accept(span) else Refuse)
    {
      hide Inv, Makes;
      ghost var offer;
      kept, offer := Add(span);
      offers := [offer];
      if kept {
        return;
      }
      OnSpanBufferFull();
      kept, offer := Add(span);
      offers := offers + [offer];
      if !kept {
        StepPreserves(protocol, Refuse);
        protocol := Apply(protocol, Refuse);
        metrics.OnSpansDropped(1);
      }
    }

    // ---- Flushing ------------------------------------------------------------------------------------------

    /** The new report takes the drop counter. */
    method StartReport() returns (numDroppedSpans: nat, ghost id: nat)
      requires Valid()
      modifies metrics, this`protocol
      ensures Valid() && protocol == Apply(old(protocol), ManualProtocol.StartReport)
      ensures numDroppedSpans == old(metrics.numDroppedSpans)
      ensures id == |old(protocol).messages| && protocol.messages[id] == Message(numDroppedSpans, [], Draft)
    {
      hide Inv;
      StepPreserves(protocol, ManualProtocol.StartReport);
      id := |protocol.messages|;
      protocol := Apply(protocol, ManualProtocol.StartReport);
      numDroppedSpans := metrics.ConsumeDroppedSpans();
    }

    /** The report takes the oldest spans. */
    method Consume(numSpans: nat, ghost id: nat) returns (spans: seq<Span>)
      requires Valid() && Enabled(protocol, FillReport(id, numSpans))
      modifies this
      ensures Valid() && protocol == Apply(old(protocol), FillReport(id, numSpans))
      ensures spans == old(spanBuffer[..numSpans]) && spanBuffer == old(spanBuffer[numSpans..])
    {
      StepPreserves(protocol, FillReport(id, numSpans));
      protocol := Apply(protocol, FillReport(id, numSpans));
      spans := spanBuffer[..numSpans];
      spanBuffer, consumed := spanBuffer[numSpans..], consumed + numSpans;
    }

    /** Nothing to do. */
    ghost method GiveUp(id: nat)
      requires Valid() && Enabled(protocol, Discard(id))
      modifies this`protocol
      ensures Valid() && protocol == Apply(old(protocol), Discard(id))
    {
      hide Inv;
      StepPreserves(protocol, Discard(id));
      protocol := Apply(protocol, Discard(id));
    }

    /** Under the flush lock: the report takes as many spans as are buffered when their number is read, or is given up when
        it would be empty. Meanwhile spans may be added, and other reports started and finished, but none filled. */
    method TakeSpans(numDroppedSpans: nat, ghost id: nat) returns (spans: Option<seq<Span>>, ghost taking: State)
      requires Valid() && id < |protocol.messages| && protocol.messages[id] == Message(numDroppedSpans, [], Draft)
      modifies this, metrics
      ensures Valid() && old(protocol.accepted) <= protocol.taken
      ensures spans == if old(spanBuffer) == [] && numDroppedSpans == 0 then None else Some(old(spanBuffer))
      ensures spans.None? ==> protocol == Apply(old(protocol), Discard(id))
      ensures spans.Some? ==> OthersRan(old(protocol), taking, Filling(id)) &&
                              Enabled(taking, FillReport(id, |spans.value|)) &&
                              protocol == Apply(taking, FillReport(id, |spans.value|)) &&
                              protocol.messages[id] == Message(numDroppedSpans, spans.value, InFlight)
    {
      ghost var seen := protocol;
      Buffered(seen);
      hide Inv, OthersRan;
      taking := seen;
      var numSpans := |spanBuffer|;
      if numSpans == 0 && numDroppedSpans == 0 {
        GiveUp(id);
        return None, taking;
      }
      OthersRun(Filling(id));
      Interference(seen, protocol, Filling(id));
      taking := protocol;
      assert taking.buffer[..numSpans] == seen.buffer;
      var taken := Consume(numSpans, id);
      spans := Some(taken);
    }

    lemma Buffered(s: State)
      requires Inv(s)
      ensures s.accepted == s.taken + s.buffer
      ensures s.buffer == [] ==> s.accepted == s.taken
    {
    }

    /** Every span accepted before the call was taken by a report, and this call's report is sent exactly when it has spans
        or drops to tell of: those counted when the call began, and the spans buffered in state `seen`. Other threads run
        before the number of spans is read, and until they are taken. */
    method FlushWithTimeout(reply: Option<bool>)
      returns (flushed: bool, sent: Option<(nat, seq<Span>)>, ghost id: nat, ghost seen: State, ghost taking: State)
      requires Valid()
      modifies this, metrics
      ensures Valid() && flushed && old(protocol).accepted <= protocol.taken
      ensures id == |old(protocol).messages| < |protocol.messages|
      ensures OthersRan(Apply(old(protocol), ManualProtocol.StartReport), seen, Preparing(id))
      ensures var drops := old(metrics.numDroppedSpans);
              && sent == (if drops == 0 && seen.buffer == [] then None else Some((drops, seen.buffer)))
              && protocol.messages[id] ==
                 match sent
                 case None => Message(0, [], Discarded)
                 case Some(_) => Message(drops, seen.buffer, match reply
                                                             case None => InFlight
                                                             case Some(ok) => if ok then Delivered else Lost)
      ensures sent.None? ==> Enabled(seen, Discard(id)) && protocol == Apply(seen, Discard(id))
      ensures sent.Some? ==> OthersRan(seen, taking, Filling(id)) && Enabled(taking, FillReport(id, |seen.buffer|)) &&
                             var filled := Apply(taking, FillReport(id, |seen.buffer|));
                             Enabled(filled, Succeed(id)) && protocol == Replied(filled, id, reply)
    {
      hide Inv, OthersRan;
      var numDroppedSpans;
      numDroppedSpans, id := StartReport();
      ghost var started := protocol;
      OthersRun(Preparing(id));
      Interference(started, protocol, Preparing(id));
      seen := protocol;
      var spans;
      spans, taking := TakeSpans(numDroppedSpans, id);
      if spans.None? {
        return true, None, id, seen, taking;
      }
      Send(id, numDroppedSpans, spans.value, reply);
      return true, Some((numDroppedSpans, spans.value)), id, seen, taking;
    }

    /** The transporter may call back before Send returns; `reply` says whether it does, and with which answer. */
    method Send(ghost id: nat, numDroppedSpans: nat, spans: seq<Span>, reply: Option<bool>)
      requires Valid() && id < |protocol.messages| && protocol.messages[id] == Message(numDroppedSpans, spans, InFlight)
      modifies this`protocol, metrics
      ensures Valid() && protocol == Replied(old(protocol), id, reply)
    {
      hide Inv;
      if reply == Some(true) {
        OnSuccess(id, |spans|);
      } else if reply == Some(false) {
        OnFailure(id, |spans|, numDroppedSpans);
      }
    }

    // ---- Callbacks, one per report -------------------------------------------------------------------------

    method OnSuccess(ghost id: nat, numSpans: nat)
      requires Valid() && Enabled(protocol, Succeed(id)) && numSpans == |protocol.messages[id].spans|
      modifies this`protocol, metrics
      ensures Valid() && protocol == Apply(old(protocol), Succeed(id))
    {
      hide Inv;
      StepPreserves(protocol, Succeed(id));
      protocol := Apply(protocol, Succeed(id));
      metrics.OnSpansSent(numSpans);
    }

    /** The spans count as dropped and the drop count of the report goes back to the counter. */
    method OnFailure(ghost id: nat, numSpans: nat, numDroppedSpans: nat)
      requires Valid() && Enabled(protocol, Fail(id))
      requires numSpans == |protocol.messages[id].spans| && numDroppedSpans == protocol.messages[id].drops
      modifies this`protocol, metrics
      ensures Valid() && protocol == Apply(old(protocol), Fail(id))
    {
      hide Inv;
      StepPreserves(protocol, Fail(id));
      protocol := Apply(protocol, Fail(id));
      metrics.OnSpansDropped(numSpans);
      metrics.UnconsumeDroppedSpans(numDroppedSpans);
    }
  }
}
