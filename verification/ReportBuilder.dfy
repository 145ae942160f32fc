/** The pending report: spans are added to it until it is swapped out, and the next span then starts over. */
module ReportBuilders {
  import opened ReportProtocol

  class ReportBuilder {
    var resetNext: bool
    var pending: Report

    constructor ()
      ensures resetNext && pending == EMPTY
    {
      resetNext, pending := true, EMPTY;
    }

    function NumPendingSpans(): nat
      reads this
    {
      |pending.spans|
    }

    method AddSpan(span: Span)
      modifies this
      ensures pending == WithSpan(old(pending), old(resetNext), span) && !resetNext
    {
      if resetNext {
        pending := Report(true, [], []);
        resetNext := false;
      }
      pending := pending.(spans := pending.spans + [span]);
    }

    method SetPendingClientDroppedSpans(count: nat)
      modifies this`pending
      ensures pending == WithCount(old(pending), count)
    {
      pending := pending.(droppedCounts := pending.droppedCounts + [count]);
    }

    /** Exchanges the pending report; what comes in is reset by the next span. */
    method SwapPending(other: Report) returns (taken: Report)
      modifies this
      ensures taken == old(pending) && pending == other && resetNext
    {
      resetNext := true;
      taken := pending;
      pending := other;
    }
  }
}
