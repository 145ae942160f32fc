/** The streaming recorder: spans are framed and put into the ring; callers that flush wait for the consumer. */
module StreamRecorders {
  import opened Fragments
  import opened Wrappers
  import opened ChainedStreams
  import opened CircularBuffers
  import opened SpanStreams
  import opened SpanFraming
  import Flush = StreamFlush
  import Ring = RingProtocol
  import opened RingProperties
  import opened RingCalls
  import opened RingProgress

  class StreamRecorder {
    const spanBuffer: CircularBuffer
    const metrics: MetricsTracker
    /** Spans the consumer has taken, as of the last poll. */
    var numSpansConsumed: nat
    var pendingFlushCounter: nat
    var exit: bool

    /** What a poll that is under way has read. */
    ghost var polled: Option<nat>

    ghost function View(): Flush.Flushing
      reads this, spanBuffer
    {
      Flush.Flushing(spanBuffer.protocol, numSpansConsumed, polled)
    }

    ghost predicate Valid()
      reads this, spanBuffer, spanBuffer.slots
    {
      spanBuffer.Valid() && Flush.Ordered(View())
    }

    constructor (maxBufferedSpans: nat, ghost threads: nat)
      ensures Valid() && fresh(spanBuffer) && fresh(spanBuffer.slots) && fresh(metrics)
      ensures Flush.Initial(View(), maxBufferedSpans, threads) && !exit
    {
      var buffer := new CircularBuffer(maxBufferedSpans, threads);
      spanBuffer := buffer;
      metrics := new MetricsTracker();
      numSpansConsumed, pendingFlushCounter, exit := 0, 0, false;
      polled := None;
    }

    /** Events of the threads other than `who`, any number of them. The body does nothing; callers only see the contract,
        which says that some such run took place, and lemma Interference of StreamFlush what every one of them keeps. */
    method OthersRun(ghost who: Flush.Thread)
      requires Valid()
      modifies this`numSpansConsumed, this`pendingFlushCounter, this`exit, this`polled, spanBuffer, spanBuffer.slots
      ensures spanBuffer.Valid() && Flush.OthersRan(old(View()), View(), who)
    {
      Flush.NobodyRan(View(), who);
    }

    /** A thread that flushes waits. */
    method Wait() returns (ghost events: seq<Flush.Event>)
      requires Valid()
      modifies this`numSpansConsumed, this`pendingFlushCounter, this`exit, this`polled, spanBuffer, spanBuffer.slots
      ensures Flush.Leads(old(View()), events, View()) && Flush.Kept(old(View()), View(), Flush.Flusher)
      ensures spanBuffer.Valid()
    {
      hide Ring.Inv, Flush.Leads;
      ghost var before := View();
      OthersRun(Flush.Flusher);
      Flush.Interference(before, View(), Flush.Flusher);
      events :| Flush.Leads(before, events, View()) && forall i :: 0 <= i < |events| ==> !Flush.Own(events[i], Flush.Flusher);
    }

    /** Frames a span and adds it; the ring may refuse it, and then it counts as dropped. The element that goes into the
        ring stands for the span. `added`, `exhausted` and `log` are as in Add, which ended in state `reached`. */
    method RecordSpan(span: ChainedStream, ghost body: seq<Byte>, ghost p: nat, element: Ring.Element, weak: seq<Weak>)
      returns (added: bool, exhausted: bool, ghost steps: seq<Ring.Step>, ghost log: seq<Pass>, ghost reached: Ring.State)
      requires Valid() && span.Open() && Serialized(span.Content(), body)
      requires p < |spanBuffer.protocol.producers| && spanBuffer.protocol.producers[p].pc == Ring.Idle
      modifies span, metrics, spanBuffer, spanBuffer.slots
      modifies this`numSpansConsumed, this`pendingFlushCounter, this`exit, this`polled
      ensures Valid() && p < |spanBuffer.protocol.producers|
      ensures span.Readable() && Flatten(span.Segment()) == Framed(body) && Startable(span.Segment())
      ensures Offered(old(spanBuffer.protocol), p, element, weak, added, exhausted, steps, log, reached)
      ensures reached.added <= spanBuffer.protocol.added
      ensures !exhausted ==> spanBuffer.protocol.producers[p].pc == Ring.Idle
      ensures metrics.View() == if added || exhausted then old(metrics.View()) else
                                Metrics(old(metrics.numDroppedSpans) + 1, old(metrics.observedDropped) + 1, old(metrics.observedSent))
    {
      hide Valid, Framed, Serialized, Startable, Flatten, ChainedStream.Open, ChainedStream.Readable, ChainedStream.Segment;
      hide Offered;
      FrameSpan(span, body);
      added, exhausted, steps, log, reached := AddToBuffer(p, element, weak);
      if !added && !exhausted {
        metrics.OnSpansDropped(1);
      }
    }

    /** The ring takes the element or not; polls may come in between. */
    method AddToBuffer(ghost p: nat, element: Ring.Element, weak: seq<Weak>)
      returns (added: bool, exhausted: bool, ghost steps: seq<Ring.Step>, ghost log: seq<Pass>, ghost reached: Ring.State)
      requires Valid() && p < |spanBuffer.protocol.producers| && spanBuffer.protocol.producers[p].pc == Ring.Idle
      modifies spanBuffer, spanBuffer.slots
      modifies this`numSpansConsumed, this`pendingFlushCounter, this`exit, this`polled
      ensures Valid() && p < |spanBuffer.protocol.producers|
      ensures Offered(old(spanBuffer.protocol), p, element, weak, added, exhausted, steps, log, reached)
      ensures reached.added <= spanBuffer.protocol.added
      ensures !exhausted ==> spanBuffer.protocol.producers[p].pc == Ring.Idle
    {
      hide Offered;
      var left;
      added, exhausted, left, steps, log := spanBuffer.Add(p, element, weak);
      reached := spanBuffer.protocol;
      assert Flush.Ordered(View());
      hide Ring.Inv;
      ghost var before := View();
      OthersRun(Flush.Recording(p));
      Flush.Interference(before, View(), Flush.Recording(p));
    }

    /** Waits until everything produced before the call was consumed or the time is over, whatever runs meanwhile
        (`events`). The answer is true exactly when by then callers see that much consumed: then everything added before
        the call has left the buffer, and a poll that comes after that makes it true. */
    method FlushWithTimeout() returns (flushed: bool, ghost events: seq<Flush.Event>)
      requires Valid()
      modifies this`numSpansConsumed, this`pendingFlushCounter, this`exit, this`polled, spanBuffer, spanBuffer.slots
      ensures Valid() && old(spanBuffer.protocol.added) <= spanBuffer.protocol.added
      ensures Flush.Leads(old(View()), events, View())
      ensures flushed <==> numSpansConsumed >= old(spanBuffer.head)
      ensures flushed ==> |old(spanBuffer.protocol.added)| <= spanBuffer.tail
      ensures old(numSpansConsumed >= spanBuffer.head) ==> flushed
      ensures Flush.PolledAfter(old(View()), events, old(spanBuffer.head)) ==> flushed
    {
      assert spanBuffer.head == |spanBuffer.protocol.added|;
      hide Ring.Inv, Flush.Leads, Flush.PolledAfter;
      ghost var first := View();
      var numSpansProduced := spanBuffer.head;
      events := Wait();
      if numSpansConsumed >= numSpansProduced {
        return true, events;
      }
      pendingFlushCounter := pendingFlushCounter + 1;
      ghost var second := View();
      ghost var more := Wait();
      Flush.LeadsJoin(first, events, second, more, View());
      events := events + more;
      if Flush.PolledAfter(first, events, numSpansProduced) {
        Flush.PollMakesFlushSucceed(first, events, View(), numSpansProduced);
      }
      return numSpansConsumed >= numSpansProduced, events;
    }

    /** Run by the consumer: what flushing callers see catches up with it, while producers run. */
    method Poll()
      requires Valid() && polled == None
      modifies this`numSpansConsumed, this`pendingFlushCounter, this`exit, this`polled, spanBuffer, spanBuffer.slots
      ensures Valid() && polled == None && numSpansConsumed == spanBuffer.tail == old(spanBuffer.tail)
    {
      hide Ring.Inv;
      var consumed := spanBuffer.tail;
      ghost var a := View();
      Flush.EventPreserves(a, Flush.PollRead);
      if consumed > numSpansConsumed {
        polled := Some(consumed);
        ghost var b := View();
        OthersRun(Flush.Poller);
        Flush.Interference(b, View(), Flush.Poller);
        Flush.EventPreserves(View(), Flush.PollStore);
        numSpansConsumed := consumed;
        polled := None;
      }
    }
  }
}
