/** Flushing the streaming recorder: callers wait until the consumer has passed everything produced before. */
module StreamFlush {
  import opened Wrappers
  import Ring = RingProtocol
  import opened RingProperties

  /** The ring, the number of spans consumed as flushing callers see it, and what the poller read but has not yet stored. */
  datatype Flushing = Flushing(ring: Ring.State, consumed: nat, polled: Option<nat>)

  datatype Event = RingStep(step: Ring.Step) | PollRead | PollStore

  ghost predicate Possible(s: Flushing, e: Event) {
    match e
    case RingStep(step) => Ring.Enabled(s.ring, step)
    case PollRead => s.polled.None?
    case PollStore => s.polled.Some?
  }

  ghost function After(s: Flushing, e: Event): Flushing
    requires Possible(s, e)
  {
    match e
    case RingStep(step) => s.(ring := Ring.Apply(s.ring, step))
    case PollRead => if s.ring.tail > s.consumed then s.(polled := Some(s.ring.tail)) else s
    case PollStore => s.(consumed := s.polled.value, polled := None)
  }

  /** What flushing callers see lags behind the consumer, which lags behind the producers. */
  ghost predicate Ordered(s: Flushing) {
    && Ring.Inv(s.ring) && s.consumed <= s.ring.tail <= s.ring.head
    && (s.polled.Some? ==> s.consumed < s.polled.value <= s.ring.tail)
  }

  ghost predicate Leads(a: Flushing, events: seq<Event>, b: Flushing)
    decreases |events|
  {
    if events == [] then a == b
    else Possible(a, events[0]) && Leads(After(a, events[0]), events[1..], b)
  }

  lemma EventPreserves(s: Flushing, e: Event)
    requires Ordered(s) && Possible(s, e)
    ensures var t := After(s, e);
            Ordered(t) && s.consumed <= t.consumed && s.ring.tail <= t.ring.tail && s.ring.added <= t.ring.added
  {
    hide Ring.Apply, Ring.Enabled;
    if e.RingStep? {
      Ring.StepPreserves(s.ring, e.step);
      StepGrows(s.ring, e.step);
    }
  }

  lemma {:induction false} RunKeepsOrder(a: Flushing, events: seq<Event>, b: Flushing)
    requires Ordered(a) && Leads(a, events, b)
    ensures Ordered(b) && a.consumed <= b.consumed && a.ring.tail <= b.ring.tail && a.ring.added <= b.ring.added
    decreases |events|
  {
    hide Ordered, After, Possible;
    if events != [] {
      EventPreserves(a, events[0]);
      RunKeepsOrder(After(a, events[0]), events[1..], b);
    }
  }

  // ---- What the other threads may do ---------------------------------------------------------------------

  /** A caller of flush takes no step of its own; the poller is also the consumer of the ring. */
  datatype Thread = Flusher | Poller | Recording(p: nat)

  predicate Own(e: Event, who: Thread) {
    match who
    case Flusher => false
    case Poller => !e.RingStep? || e.step.Peek? || e.step.AdvanceTail? || e.step.ResetSlot?
    case Recording(p) => e.RingStep? && Ring.ByProducer(e.step, p)
  }

  /** b is reached from a by events of threads other than `who`. */
  ghost predicate OthersRan(a: Flushing, b: Flushing, who: Thread) {
    exists events :: Leads(a, events, b) && forall i :: 0 <= i < |events| ==> !Own(events[i], who)
  }

  /** What such a run keeps. */
  ghost predicate Kept(a: Flushing, b: Flushing, who: Thread) {
    && Ordered(b) && a.consumed <= b.consumed
    && a.ring.cap == b.ring.cap && |a.ring.producers| == |b.ring.producers|
    && a.ring.head <= b.ring.head && a.ring.tail <= b.ring.tail
    && a.ring.added <= b.ring.added && a.ring.drained <= b.ring.drained
    && (who.Poller? ==> b.ring.tail == a.ring.tail && b.consumed == a.consumed && b.polled == a.polled)
    && (who.Recording? && who.p < |a.ring.producers| ==> b.ring.producers[who.p] == a.ring.producers[who.p])
  }

  lemma OtherEventKeeps(a: Flushing, e: Event, who: Thread)
    requires Ordered(a) && Possible(a, e) && !Own(e, who)
    ensures Kept(a, After(a, e), who)
  {
    EventPreserves(a, e);
    if e.RingStep? {
      StepGrows(a.ring, e.step);
      if who.Recording? && who.p < |a.ring.producers| {
        OtherStepKeepsLocals(a.ring, e.step, ProducerThread(who.p));
      } else if who.Poller? {
        OtherStepKeepsLocals(a.ring, e.step, ConsumerThread);
      }
    }
    hide Ring.Apply, Ring.Enabled, Ring.Inv;
  }

  lemma {:induction false} OtherEventsKeep(a: Flushing, events: seq<Event>, b: Flushing, who: Thread)
    requires Ordered(a) && Leads(a, events, b) && forall i :: 0 <= i < |events| ==> !Own(events[i], who)
    ensures Kept(a, b, who)
    decreases |events|
  {
    hide Ordered, After, Possible;
    if events != [] {
      assert !Own(events[0], who);
      OtherEventKeeps(a, events[0], who);
      OtherEventsKeep(After(a, events[0]), events[1..], b, who);
    }
  }

  lemma Interference(a: Flushing, b: Flushing, who: Thread)
    requires Ordered(a) && OthersRan(a, b, who)
    ensures Kept(a, b, who)
  {
    hide Kept, Leads, Ordered;
    var events :| Leads(a, events, b) && forall i :: 0 <= i < |events| ==> !Own(events[i], who);
    OtherEventsKeep(a, events, b, who);
  }

  lemma NobodyRan(a: Flushing, who: Thread)
    ensures OthersRan(a, a, who)
  {
    assert Leads(a, [], a);
  }

  // ---- Flushing ------------------------------------------------------------------------------------------

  ghost predicate Initial(s: Flushing, maxSize: nat, threads: nat) {
    Ring.Init(s.ring, maxSize, threads) && s.consumed == 0 && s.polled == None
  }

  /** A flush that read the production count in `a` and answers true in `b`: everything produced before the call has
      left the buffer, whatever ran in between. */
  lemma FlushIsSound(start: Flushing, first: seq<Event>, a: Flushing, second: seq<Event>, b: Flushing, maxSize: nat, threads: nat)
    requires Initial(start, maxSize, threads) && Leads(start, first, a) && Leads(a, second, b)
    ensures b.consumed <= b.ring.tail <= b.ring.head
    ensures b.consumed >= a.ring.head ==> |a.ring.added| <= b.ring.tail && a.ring.added <= b.ring.added
  {
    hide Ring.Apply, Ring.Enabled;
    Ring.InitInv(start.ring, maxSize, threads);
    RunKeepsOrder(start, first, a);
    RunKeepsOrder(a, second, b);
  }

  lemma {:induction false} StoreHappens(a: Flushing, events: seq<Event>, b: Flushing)
    requires Ordered(a) && a.polled.Some? && Leads(a, events, b) && PollStore in events
    ensures b.consumed >= a.polled.value
    decreases |events|
  {
    hide Ring.Apply, Ring.Enabled, Ring.Inv;
    var t := After(a, events[0]);
    EventPreserves(a, events[0]);
    if events[0] == PollStore {
      RunKeepsOrder(t, events[1..], b);
    } else {
      StoreHappens(t, events[1..], b);
    }
  }

  /** Once a poll that began after everything produced before the flush was consumed has ended, the flush succeeds. */
  lemma PollCatchesUp(a: Flushing, produced: nat, events: seq<Event>, b: Flushing)
    requires Ordered(a) && a.polled.None? && produced <= a.ring.tail
    requires Leads(After(a, PollRead), events, b)
    requires After(a, PollRead).polled.Some? ==> PollStore in events
    ensures b.consumed >= produced
  {
    hide Ring.Apply, Ring.Enabled, Ring.Inv;
    var t := After(a, PollRead);
    EventPreserves(a, PollRead);
    RunKeepsOrder(t, events, b);
    if t.polled.Some? {
      StoreHappens(t, events, b);
    }
  }

  /** In this run a poll begins when everything produced was consumed, and it ends. */
  ghost predicate PolledAfter(a: Flushing, events: seq<Event>, produced: nat)
    decreases |events|
  {
    && events != [] && Possible(a, events[0])
    && var t := After(a, events[0]);
       || (events[0] == PollRead && produced <= a.ring.tail && (t.polled.Some? ==> PollStore in events[1..]))
       || PolledAfter(t, events[1..], produced)
  }

  /** Wherever in the course of a flush such a poll comes, the flush succeeds. */
  lemma {:induction false} PollMakesFlushSucceed(a: Flushing, events: seq<Event>, b: Flushing, produced: nat)
    requires Ordered(a) && Leads(a, events, b) && PolledAfter(a, events, produced)
    ensures b.consumed >= produced
    decreases |events|
  {
    hide Ordered, After;
    var t := After(a, events[0]);
    if events[0] == PollRead && produced <= a.ring.tail && (t.polled.Some? ==> PollStore in events[1..]) {
      PollCatchesUp(a, produced, events[1..], b);
    } else {
      EventPreserves(a, events[0]);
      PollMakesFlushSucceed(t, events[1..], b, produced);
    }
  }

  lemma {:induction false} LeadsJoin(a: Flushing, first: seq<Event>, b: Flushing, second: seq<Event>, c: Flushing)
    requires Leads(a, first, b) && Leads(b, second, c)
    ensures Leads(a, first + second, c)
    decreases |first|
  {
    hide After, Possible;
    if first == [] {
      assert first + second == second;
    } else {
      assert (first + second)[1..] == first[1..] + second;
      LeadsJoin(After(a, first[0]), first[1..], b, second, c);
    }
  }
}
