/** The recorder that sends reports from a writer thread of its own. */
module AutoRecorders {
  import opened ReportBuilders
  import opened ReportProtocol

  class AutoRecorder {
    const builder: ReportBuilder
    var writeExit: bool
    var inflight: Report
    var maxBufferedSpans: nat
    var flushedSeqno: nat
    var encodingSeqno: nat
    var droppedSpans: nat
    var observedSent: nat
    var observedDropped: nat

    ghost var protocol: State

    ghost predicate Valid()
      reads this, builder
    {
      && Inv(protocol)
      && protocol.pending == builder.pending && protocol.resetNext == builder.resetNext && protocol.inflight == inflight
      && protocol.flushed == flushedSeqno && protocol.encoding == encodingSeqno && protocol.dropped == droppedSpans
      && protocol.observedSent == observedSent && protocol.observedDropped == observedDropped
    }

    constructor (maxBufferedSpans: nat)
      ensures Valid() && fresh(builder) && protocol == INIT && !writeExit
    {
      hide Inv;
      builder := new ReportBuilder();
      writeExit, inflight, this.maxBufferedSpans := false, EMPTY, maxBufferedSpans;
      flushedSeqno, encodingSeqno, droppedSpans, observedSent, observedDropped := 0, 1, 0, 0, 0;
      protocol := INIT;
      new;
      InitInv();
    }

    /** Critical sections of other threads, any number of them, one of which may order the writer to exit. The body does
        nothing; callers only see the contract, which says that some such run took place, and lemma Interference of
        ReportProtocol what every one of them keeps. Only the writer changes the maximum. */
    method OthersRun(ghost writer: bool) returns (ghost exited: bool)
      requires Valid()
      modifies this, builder
      ensures Valid() && OthersRan(old(protocol), protocol, writer) && writeExit == (old(writeExit) || exited)
      ensures writer ==> maxBufferedSpans == old(maxBufferedSpans)
    {
      NobodyRan(protocol, writer);
      exited := false;
    }

    // ---- Any thread ------------------------------------------------------------------------------------

    /** A span is kept iff there is room and the writer has not been told to exit; otherwise it counts as dropped. */
    method RecordSpan(span: Span) returns (kept: bool)
      requires Valid()
      modifies this, builder
      ensures Valid() && kept == (old(builder.NumPendingSpans()) < maxBufferedSpans && !old(writeExit))
      ensures protocol == Apply(old(protocol), if kept then Accept(span) else Refuse)
      ensures maxBufferedSpans == old(maxBufferedSpans) && writeExit == old(writeExit)
    {
      hide Inv;
      if builder.NumPendingSpans() >= maxBufferedSpans || writeExit {
        StepPreserves(protocol, Refuse);
        protocol := Apply(protocol, Refuse);
        droppedSpans := droppedSpans + 1;
        observedDropped := observedDropped + 1;
        return false;
      }
      StepPreserves(protocol, Accept(span));
      protocol := Apply(protocol, Accept(span));
      builder.AddSpan(span);
      return true;
    }

    /** Waits, whatever runs meanwhile and whether or not the wait times out. The answer is true exactly when
        every span accepted before the call is in a report whose attempt to send has finished. */
    method FlushWithTimeout() returns (flushed: bool)
      requires Valid()
      modifies this, builder
      ensures Valid() && Leads(old(protocol), protocol)
      ensures protocol.flushed <= |protocol.reports|
      ensures flushed <==> AllFinished(|old(protocol).accepted|, protocol)
    {
      hide AllFinished, OthersRan;
      var hasEncoded := builder.NumPendingSpans() != 0;
      if !hasEncoded && encodingSeqno == 1 + flushedSeqno {
        LeadsNowhere(protocol);
        FlushIsExact(protocol, protocol);
        return true;
      }
      var waitSeq := encodingSeqno - if hasEncoded then 0 else 1;
      ghost var _ := OthersRun(false);
      Interference(old(protocol), protocol, false);
      FlushIsExact(old(protocol), protocol);
      var result := writeExit || flushedSeqno >= waitSeq;
      if !result {
        return false;
      }
      return flushedSeqno >= waitSeq;
    }

    method MakeWriterExit()
      requires Valid()
      modifies this`writeExit
      ensures Valid() && writeExit
    {
      writeExit := true;
    }

    // ---- The writer thread -----------------------------------------------------------------------------

    /** First critical section of a flush: the pending report goes in flight together with the drop counter. */
    method SwapReports() returns (savedPending: nat, savedDropped: nat)
      requires Valid() && !protocol.InFlight() && builder.NumPendingSpans() != 0
      modifies this, builder
      ensures Valid() && protocol == Apply(old(protocol), Begin) && protocol.InFlight()
      ensures writeExit == old(writeExit) && maxBufferedSpans == old(maxBufferedSpans)
      ensures savedPending == |inflight.spans| == old(builder.NumPendingSpans())
      ensures savedDropped == Carried(inflight) == old(droppedSpans)
    {
      savedPending := builder.NumPendingSpans();
      StepPreserves(protocol, Begin);
      protocol := Apply(protocol, Begin);
      observedSent := observedSent + savedPending;
      savedDropped := droppedSpans;
      builder.SetPendingClientDroppedSpans(savedDropped);
      droppedSpans := 0;
      inflight := builder.SwapPending(inflight);
      encodingSeqno := encodingSeqno + 1;
    }

    /** Second critical section: on failure the spans and the drop count of the report are counted as dropped again. */
    method FinishReport(success: bool, savedPending: nat, savedDropped: nat)
      requires Valid() && protocol.InFlight()
      requires savedPending == |inflight.spans| && savedDropped == Carried(inflight)
      modifies this
      ensures Valid() && protocol == Apply(old(protocol), End(success))
      ensures writeExit == old(writeExit) && maxBufferedSpans == old(maxBufferedSpans)
    {
      hide Inv;
      StepPreserves(protocol, End(success));
      protocol := Apply(protocol, End(success));
      flushedSeqno := flushedSeqno + 1;
      inflight := EMPTY;
      if !success {
        observedDropped := observedDropped + savedPending;
        droppedSpans := droppedSpans + (savedDropped + savedPending);
      }
    }

    /** Sends the report while other threads record; `reply` is what the transporter answers. A command in the answer
        orders the writer to exit. */
    method WriteReport(report: Report, reply: Reply) returns (success: bool, ghost exited: bool)
      requires Valid()
      modifies this, builder
      ensures Valid() && OthersRan(old(protocol), protocol, true) && inflight == old(inflight)
      ensures success == reply.Succeeded? && writeExit == (old(writeExit) || exited || reply.Disables())
      ensures maxBufferedSpans == old(maxBufferedSpans)
    {
      hide Inv, OthersRan;
      exited := OthersRun(true);
      Interference(old(protocol), protocol, true);
      if reply.Failed? {
        return false, exited;
      }
      ghost var sent := protocol;
      for i := 0 to |reply.commands|
        invariant writeExit == (old(writeExit) || exited || true in reply.commands[..i])
        invariant Valid() && protocol == sent && inflight == old(inflight) && maxBufferedSpans == old(maxBufferedSpans)
      {
        if reply.commands[i] {
          MakeWriterExit();
        }
        assert reply.commands[..i + 1] == reply.commands[..i] + [reply.commands[i]];
      }
      success := true;
    }

    /** One round of the writer; `reply` is the answer to its report, `sending` the state when the transporter has answered
        and `exited` tells whether another thread ordered the exit meanwhile. The report holds the pending spans and the
        drop count of the beginning of the round. If it is delivered the drop counter holds what was refused since then; if
        not, the report's spans and its drop count are counted again. All spans accepted before the round are in finished
        reports after it. */
    method FlushOne(reply: Reply) returns (ghost sending: State, ghost exited: bool)
      requires Valid() && !protocol.InFlight()
      modifies this, builder
      ensures Valid() && !protocol.InFlight() && maxBufferedSpans == old(maxBufferedSpans)
      ensures old(builder.NumPendingSpans()) == 0 ==> protocol == old(protocol) && writeExit == old(writeExit)
      ensures old(builder.NumPendingSpans()) > 0 ==>
                && OthersRan(Apply(old(protocol), Begin), sending, true) && Enabled(sending, End(reply.Succeeded?))
                && protocol == Apply(sending, End(reply.Succeeded?))
                && protocol.outcomes == old(protocol).outcomes + [reply.Succeeded?]
                && protocol.reports == old(protocol).reports + [WithCount(old(builder.pending), old(droppedSpans))]
                && writeExit == (old(writeExit) || exited || reply.Disables())
      ensures old(builder.NumPendingSpans()) > 0 ==>
                var pending, refused := old(builder.NumPendingSpans()), protocol.refused - old(protocol.refused);
                && observedSent == old(observedSent) + pending
                && observedDropped == old(observedDropped) + refused + (if reply.Succeeded? then 0 else pending)
                && droppedSpans == refused + if reply.Succeeded? then 0 else pending + old(droppedSpans)
      ensures protocol.flushed <= |protocol.reports| && AllFinished(|old(protocol).accepted|, protocol)
    {
      hide Inv, AllFinished, OthersRan;
      sending, exited := protocol, false;
      if builder.NumPendingSpans() == 0 {
        LeadsNowhere(protocol);
        FlushIsExact(protocol, protocol);
        return;
      }
      ghost var p0 := protocol;
      var savedPending, savedDropped := SwapReports();
      LeadsOneStep(p0, Begin);
      ghost var p1 := protocol;
      var success;
      success, exited := WriteReport(inflight, reply);
      sending := protocol;
      Interference(p1, sending, true);
      LeadsOn(p0, p1, sending);
      FinishReport(success, savedPending, savedDropped);
      LeadsOneStep(sending, End(success));
      LeadsOn(p0, sending, protocol);
      FlushIsExact(p0, protocol);
    }
  }
}
