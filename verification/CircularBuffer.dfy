/** The ring as it runs: real slots and counters, updated by one atomic operation at a time, while the
    other threads may run between any two of them. */
module CircularBuffers {
  import opened Wrappers
  import opened RingProtocol
  import opened RingProperties
  import opened RingCalls
  import opened RingProgress

  /** What the invariant says of the shape of a state, and of one producer. */
  lemma ProducerFacts(s: State, p: nat)
    requires Inv(s) && p < |s.producers|
    ensures ProducerOk(s, p) && s.cap > 0 && |s.slots| == |s.owner| == s.cap && s.head == |s.added|
    ensures s.producers[p].Parked() ==> s.producers[p].ptr == None
  {
  }

  class CircularBuffer {
    const capacity: nat
    const slots: array<Option<Element>>
    var head: nat
    var tail: nat

    /** The protocol state this buffer is in: the same slots and counters, plus every thread's locals. */
    ghost var protocol: State

    ghost predicate Valid()
      reads this, slots
    {
      && Inv(protocol) && protocol.cap == capacity == slots.Length && protocol.slots == slots[..]
      && head == protocol.head && tail == protocol.tail
    }

    constructor (maxSize: nat, ghost threads: nat)
      ensures Valid() && fresh(slots) && Init(protocol, maxSize, threads)
    {
      capacity := maxSize + 1;
      slots := new Option<Element>[maxSize + 1](i => None);
      head, tail := 0, 0;
      protocol := State(maxSize + 1, seq(maxSize + 1, i => None), 0, 0,
                        seq(threads, i => Producer(Idle, None, None, 0, 0)), Ready, [], [],
                        seq(maxSize + 1, i => Free));
      new;
      InitInv(protocol, maxSize, threads);
      assert slots[..] == protocol.slots;
    }

    /** What a thread may rely on after others ran. */
    ghost predicate Grew(before: State)
      reads this, slots
    {
      && Valid() && before.cap == protocol.cap && |before.producers| == |protocol.producers|
      && before.head <= head && before.tail <= tail && before.added <= protocol.added && before.drained <= protocol.drained
    }

    /** Producer p went on with its call by these steps, others included; its passes ended like this. */
    ghost predicate WentOn(before: State, steps: seq<Step>, p: nat, log: seq<Pass>)
      reads this, slots
    {
      && Grew(before) && Goes(before, steps, protocol, p, log)
      && p < |before.producers| == |protocol.producers| && protocol.producers[p].arg == before.producers[p].arg
    }

    /** Any number of steps of threads other than `who`. The body does nothing; callers only see the contract,
        and that every such run keeps it is lemma Interference. */
    method Interfere(ghost who: Thread)
      requires Valid() && (who.ProducerThread? ==> who.p < |protocol.producers|)
      modifies this, slots
      ensures OthersRan(old(protocol), protocol, who) && Grew(old(protocol))
      ensures who.ProducerThread? ==> protocol.producers[who.p] == old(protocol).producers[who.p]
      ensures who.ConsumerThread? ==> tail == old(tail) && protocol.consumer == old(protocol).consumer &&
                                      protocol.drained == old(protocol).drained
    {
      NobodyRan(protocol, who);
      Interference(protocol, protocol, who);
    }

    /** Other threads run while producer p is in the middle of a call. */
    method Pause(ghost p: nat) returns (ghost steps: seq<Step>)
      requires Valid() && p < |protocol.producers|
      modifies this, slots
      ensures WentOn(old(protocol), steps, p, []) && protocol.producers[p] == old(protocol).producers[p]
    {
      hide Inv, RunsTo, Passes;
      ghost var before := protocol;
      Interfere(ProducerThread(p));
      steps :| RunsTo(before, steps, protocol) && forall i :: 0 <= i < |steps| ==> !Mine(steps[i], ProducerThread(p));
      OthersEndNoPass(before, steps, protocol, p);
    }

    // ---- Atomic operations of a producer ------------------------------------------------------

    method LoadTail(ghost p: nat) returns (t: nat)
      requires Valid() && p < |protocol.producers| && protocol.producers[p].pc == RingProtocol.LoadTail
      modifies this
      ensures WentOn(old(protocol), [ReadTail(p)], p, []) && t == tail == old(tail)
      ensures protocol.producers[p] == old(protocol).producers[p].(pc := RingProtocol.LoadHead, tail := t)
    {
      ProducerFacts(protocol, p);
      hide Inv, RunsTo, Passes;
      OneStep(protocol, ReadTail(p), p);
      t := tail;
      StepPreserves(protocol, ReadTail(p));
      protocol := Apply(protocol, ReadTail(p));
    }

    method LoadHead(ghost p: nat) returns (h: nat)
      requires Valid() && p < |protocol.producers| && protocol.producers[p].pc == RingProtocol.LoadHead
      modifies this
      ensures WentOn(old(protocol), [ReadHead(p)], p, []) && h == head == old(head)
      ensures protocol.producers[p] == old(protocol).producers[p].(pc := TestFull, head := h)
    {
      ProducerFacts(protocol, p);
      hide Inv, RunsTo, Passes;
      OneStep(protocol, ReadHead(p), p);
      h := head;
      StepPreserves(protocol, ReadHead(p));
      protocol := Apply(protocol, ReadHead(p));
    }

    /** Weak compare-exchange of an empty slot with the caller's pointer; `weak` makes it fail spuriously. */
    method SwapIfNull(ghost p: nat, i: nat, owner: Option<Element>, weak: bool) returns (swapped: bool, left: Option<Element>)
      requires Valid() && p < |protocol.producers| && protocol.producers[p].pc == TrySlot
      requires i == SlotIndex(protocol.producers[p].head, capacity) && owner == protocol.producers[p].ptr
      modifies this, slots
      ensures swapped <==> old(slots[i]) == None && !weak
      ensures WentOn(old(protocol), [ExchangeSlot(p, weak)], p,
                     if swapped then [] else if weak then [SpuriousSlot] else [Occupied])
      ensures slots[i] == (if swapped then owner else old(slots[i])) && left == if swapped then None else owner
      ensures protocol.producers[p] ==
              old(protocol).producers[p].(pc := if swapped then TryHead else RingProtocol.LoadTail, ptr := left)
    {
      ProducerFacts(protocol, p);
      hide Inv, RunsTo, Passes;
      OneStep(protocol, ExchangeSlot(p, weak), p);
      StepPreserves(protocol, ExchangeSlot(p, weak));
      protocol := Apply(protocol, ExchangeSlot(p, weak));
      swapped, left := slots[i] == None && !weak, owner;
      if swapped {
        slots[i], left := owner, None;
      }
    }

    /** Weak compare-exchange of head; `weak` makes it fail spuriously. */
    method TryAdvanceHead(ghost p: nat, expected: nat, weak: bool) returns (advanced: bool)
      requires Valid() && p < |protocol.producers| && protocol.producers[p].pc == TryHead
      requires expected == protocol.producers[p].head
      modifies this
      ensures advanced <==> old(head) == expected && !weak
      ensures WentOn(old(protocol), [ExchangeHead(p, weak)], p,
                     [if advanced then Added(expected) else if weak then SpuriousHead else HeadMoved])
      ensures head == old(head) + if advanced then 1 else 0
      ensures protocol.producers[p] ==
              old(protocol).producers[p].(pc := if advanced then Done(true) else RingProtocol.SwapBack, ptr := None)
    {
      ProducerFacts(protocol, p);
      hide Inv, RunsTo, Passes;
      OneStep(protocol, ExchangeHead(p, weak), p);
      StepPreserves(protocol, ExchangeHead(p, weak));
      protocol := Apply(protocol, ExchangeHead(p, weak));
      advanced := head == expected && !weak;
      if advanced {
        head := head + 1;
      }
    }

    /** Unconditional exchange that takes the parked pointer back. */
    method Swap(ghost p: nat, i: nat, owner: Option<Element>) returns (taken: Option<Element>)
      requires Valid() && p < |protocol.producers| && protocol.producers[p].pc == RingProtocol.SwapBack
      requires i == SlotIndex(protocol.producers[p].head, capacity) && owner == protocol.producers[p].ptr
      modifies this, slots
      ensures WentOn(old(protocol), [UndoSwap(p)], p, []) && slots[i] == owner
      ensures protocol.producers[p] == old(protocol).producers[p].(pc := RingProtocol.LoadTail, ptr := taken)
      ensures taken == old(protocol).producers[p].arg
    {
      ProducerFacts(protocol, p);
      hide Inv, RunsTo, Passes;
      OneStep(protocol, UndoSwap(p), p);
      StepPreserves(protocol, UndoSwap(p));
      protocol := Apply(protocol, UndoSwap(p));
      taken := slots[i];
      slots[i] := owner;
    }

    /** The test for room, on what was read. */
    method TestRoom(ghost p: nat, t: nat, h: nat) returns (room: bool)
      requires Valid() && p < |protocol.producers| && protocol.producers[p].pc == TestFull
      requires t == protocol.producers[p].tail && h == protocol.producers[p].head
      modifies this
      ensures room <==> h - t < capacity - 1
      ensures WentOn(old(protocol), [Test(p)], p, if room then [] else [Refused])
      ensures protocol.producers[p] == old(protocol).producers[p].(pc := if room then TrySlot else Done(false))
    {
      ProducerFacts(protocol, p);
      hide Inv, RunsTo, Passes;
      room := h - t < capacity - 1;
      OneStep(protocol, Test(p), p);
      StepPreserves(protocol, Test(p));
      protocol := Apply(protocol, Test(p));
    }

    // ---- Add ----------------------------------------------------------------------------------

    /** The two stale reads and the test for room; tail is read before head. */
    method ReadCounters(ghost p: nat) returns (room: bool, h: nat, ghost steps: seq<Step>)
      requires Valid() && p < |protocol.producers| && protocol.producers[p].pc == RingProtocol.LoadTail
      modifies this, slots
      ensures WentOn(old(protocol), steps, p, if room then [] else [Refused])
      ensures protocol.producers[p].ptr == old(protocol).producers[p].ptr
      ensures protocol.producers[p].pc == if room then TrySlot else Done(false)
      ensures protocol.producers[p].head == h
      ensures !room ==> head - old(tail) >= capacity - 1
    {
      hide Inv, Goes;
      ghost var s0 := protocol;
      ghost var more;
      steps := Pause(p);
      ghost var s1 := protocol;
      var t := LoadTail(p);
      GoesOn(s0, steps, s1, [ReadTail(p)], protocol, p, [], []);
      ghost var s2 := protocol;
      more := Pause(p);
      GoesOn(s0, steps + [ReadTail(p)], s2, more, protocol, p, [], []);
      ghost var s3 := protocol;
      h := LoadHead(p);
      steps := steps + [ReadTail(p)] + more;
      GoesOn(s0, steps, s3, [ReadHead(p)], protocol, p, [], []);
      ghost var s4 := protocol;
      room := TestRoom(p, t, h);
      GoesOn(s0, steps + [ReadHead(p)], s4, [Test(p)], protocol, p, [], if room then [] else [Refused]);
      steps := steps + [ReadHead(p)] + [Test(p)];
    }

    /** Head exchange after the slot was taken, and the swap back when it fails. */
    method AdvanceOrUndo(ghost p: nat, h: nat, i: nat, weak: bool)
      returns (ok: bool, left: Option<Element>, ghost steps: seq<Step>, ghost pass: Pass)
      requires Valid() && p < |protocol.producers| && protocol.producers[p].pc == TryHead
      requires h == protocol.producers[p].head && i == SlotIndex(h, capacity)
      modifies this, slots
      ensures WentOn(old(protocol), steps, p, [pass]) && protocol.producers[p].ptr == left
      ensures pass == if ok then Added(h) else if weak then SpuriousHead else HeadMoved
      ensures ok ==> !weak
      ensures protocol.producers[p].pc == if ok then Done(true) else RingProtocol.LoadTail
      ensures left == if ok then None else protocol.producers[p].arg
    {
      hide Inv, Goes;
      ghost var s0 := protocol;
      steps := Pause(p);
      ghost var s1 := protocol;
      ok := TryAdvanceHead(p, h, weak);
      pass := if ok then Added(h) else if weak then SpuriousHead else HeadMoved;
      GoesOn(s0, steps, s1, [ExchangeHead(p, weak)], protocol, p, [], [pass]);
      steps := steps + [ExchangeHead(p, weak)];
      left := None;
      if !ok {
        ghost var s2 := protocol;
        ghost var more := Pause(p);
        GoesOn(s0, steps, s2, more, protocol, p, [pass], []);
        steps := steps + more;
        ghost var s3 := protocol;
        left := Swap(p, i, None);
        GoesOn(s0, steps, s3, [UndoSwap(p)], protocol, p, [pass], []);
        steps := steps + [UndoSwap(p)];
      }
    }

    /** The slot that belongs to a number. */
    method IndexOf(number: nat) returns (i: nat)
      requires Valid()
      ensures i == SlotIndex(number, capacity)
    {
      assert capacity > 0;
      hide Valid;
      IndexIsRemainder(number, capacity);
      i := number % capacity;
    }

    /** Slot exchange, and then the exchange of head. */
    method PlaceAndPublish(ghost p: nat, h: nat, ptr: Option<Element>, weak: Weak)
      returns (ok: bool, left: Option<Element>, ghost steps: seq<Step>, ghost pass: Pass)
      requires Valid() && p < |protocol.producers| && protocol.producers[p].pc == TrySlot
      requires h == protocol.producers[p].head && ptr == protocol.producers[p].ptr == protocol.producers[p].arg
      modifies this, slots
      ensures WentOn(old(protocol), steps, p, [pass]) && protocol.producers[p].ptr == left
      ensures Explains(weak, pass) && (if ok then pass == Added(h) else pass.Failed())
      ensures protocol.producers[p].pc == if ok then Done(true) else RingProtocol.LoadTail
      ensures left == if ok then None else ptr
    {
      hide Inv, Goes;
      ghost var s0 := protocol;
      var headIndex := IndexOf(h);
      steps := Pause(p);
      ghost var s1 := protocol;
      var swapped;
      swapped, left := SwapIfNull(p, headIndex, ptr, weak.slot);
      pass := if weak.slot then SpuriousSlot else Occupied;
      GoesOn(s0, steps, s1, [ExchangeSlot(p, weak.slot)], protocol, p, [], if swapped then [] else [pass]);
      steps := steps + [ExchangeSlot(p, weak.slot)];
      ok := false;
      if swapped {
        ghost var s2 := protocol;
        ghost var more;
        ok, left, more, pass := AdvanceOrUndo(p, h, headIndex, weak.head);
        GoesOn(s0, steps, s2, more, protocol, p, [], [pass]);
        steps := steps + more;
      }
    }

    /** One pass of the retry loop; `retry` tells that neither return statement was reached. */
    method TryAdd(ghost p: nat, ptr: Option<Element>, weak: Weak)
      returns (ok: bool, retry: bool, left: Option<Element>, ghost steps: seq<Step>, ghost pass: Pass)
      requires Valid() && p < |protocol.producers| && protocol.producers[p].pc == RingProtocol.LoadTail
      requires ptr == protocol.producers[p].ptr == protocol.producers[p].arg
      modifies this, slots
      ensures WentOn(old(protocol), steps, p, [pass]) && protocol.producers[p].ptr == left
      ensures Explains(weak, pass) && (ok <==> pass.Added?) && (retry <==> pass.Failed())
      ensures protocol.producers[p].pc == if retry then RingProtocol.LoadTail else Done(ok)
      ensures left == if ok then None else ptr
      ensures !ok && !retry ==> head - old(tail) >= capacity - 1
    {
      hide Inv, Goes;
      ghost var s0 := protocol;
      ok, retry, left, pass := false, false, ptr, Refused;
      var room, h;
      room, h, steps := ReadCounters(p);
      if !room {
        return;
      }
      ghost var s1 := protocol;
      ghost var more;
      ok, left, more, pass := PlaceAndPublish(p, h, ptr, weak);
      GoesOn(s0, steps, s1, more, protocol, p, [], [pass]);
      steps := steps + more;
      retry := !ok;
    }

    /** The retry loop. */
    method MakePasses(ghost p: nat, ptr: Option<Element>, weak: seq<Weak>)
      returns (ok: bool, exhausted: bool, left: Option<Element>, ghost steps: seq<Step>, ghost log: seq<Pass>)
      requires Valid() && p < |protocol.producers| && protocol.producers[p].pc == RingProtocol.LoadTail
      requires ptr == protocol.producers[p].ptr == protocol.producers[p].arg
      modifies this, slots
      ensures WentOn(old(protocol), steps, p, log) && Decided(log, weak, ok, exhausted)
      ensures protocol.producers[p].pc == if exhausted then RingProtocol.LoadTail else Done(ok)
      ensures protocol.producers[p].ptr == left && left == if ok then None else ptr
      ensures !ok && !exhausted ==> head - old(tail) >= capacity - 1
    {
      hide Inv, Goes;
      ghost var called := protocol;
      ok, exhausted, left, steps, log := false, true, ptr, [], [];
      GoesNowhere(called, p);
      var i := 0;
      while i < |weak| && exhausted
        invariant WentOn(called, steps, p, log) && |log| == i <= |weak| && Decided(log, weak[..i], ok, exhausted)
        invariant protocol.producers[p].pc == if exhausted then RingProtocol.LoadTail else Done(ok)
        invariant protocol.producers[p].ptr == left && left == if ok then None else ptr
        invariant !ok && !exhausted ==> head - old(tail) >= capacity - 1
      {
        ghost var before := protocol;
        ghost var more, pass;
        ok, exhausted, left, more, pass := TryAdd(p, left, weak[i]);
        GoesOn(called, steps, before, more, protocol, p, log, [pass]);
        OnePassMore(log, weak[..i], pass, weak[i], ok, exhausted);
        assert weak[..i + 1] == weak[..i] + [weak[i]];
        steps, log, i := steps + more, log + [pass], i + 1;
      }
    }

    /** The call begins. */
    ghost method Begin(p: nat, element: Element)
      requires Valid() && p < |protocol.producers| && protocol.producers[p].pc == Idle
      modifies this`protocol
      ensures Grew(old(protocol)) && Enabled(old(protocol), Call(p, element))
      ensures protocol == Apply(old(protocol), Call(p, element)) && protocol.tail == old(protocol).tail
      ensures p < |protocol.producers| &&
              protocol.producers[p] == Producer(RingProtocol.LoadTail, Some(element), Some(element), 0, 0)
    {
      ProducerFacts(protocol, p);
      hide Inv;
      StepPreserves(protocol, Call(p, element));
      protocol := Apply(protocol, Call(p, element));
    }

    /** The call returns. */
    ghost method End(p: nat, start: State, steps: seq<Step>, log: seq<Pass>)
      requires Valid() && p < |protocol.producers| && protocol.producers[p].pc.Done?
      requires Goes(start, steps, protocol, p, log)
      modifies this`protocol
      ensures Grew(old(protocol)) && p < |protocol.producers| && protocol.producers[p].pc == Idle
      ensures RunsTo(start, steps + [Return(p)], protocol) && Passes(start, steps + [Return(p)], p) == log
      ensures protocol.added == old(protocol).added
    {
      ProducerFacts(protocol, p);
      hide Inv, Goes;
      StepPreserves(protocol, Return(p));
      ReturnEnds(start, steps, protocol, p, log);
      protocol := Apply(protocol, Return(p));
    }

    /** Adds an element. The source retries for as long as it takes; here there is one pass for each entry of `weak`, which
        says what fails spuriously in it, and `exhausted` reports that all of them failed, the call still being under way.
        `steps` is everything that happened meanwhile and `log` how the passes of this call ended (Offered): each one that
        failed did so spuriously, at an occupied slot or because head had moved. A call that returns true published its
        element exactly once; one that returns false published nothing, leaves the element with the caller, and found that
        the elements buffered when it began together with those added since fill the ring. Afterwards the producer may call
        again. */
    method Add(ghost p: nat, element: Element, weak: seq<Weak>)
      returns (ok: bool, exhausted: bool, left: Option<Element>, ghost steps: seq<Step>, ghost log: seq<Pass>)
      requires Valid() && p < |protocol.producers| && protocol.producers[p].pc == Idle
      modifies this, slots
      ensures Grew(old(protocol)) && p < |protocol.producers|
      ensures Offered(old(protocol), p, element, weak, ok, exhausted, steps, log, protocol)
      ensures left == if ok then None else Some(element)
      ensures !exhausted ==> protocol.producers[p].pc == Idle
      ensures exhausted ==> protocol.producers[p].pc == RingProtocol.LoadTail && protocol.producers[p].ptr == left
    {
      hide Inv, Apply, Enabled, RunsTo, Passes, Goes, SlotFree, Alone, Decided;
      ghost var s0 := protocol;
      ProducerFacts(s0, p);
      Begin(p, element);
      ghost var called := protocol;
      ok, exhausted, left, steps, log := MakePasses(p, Some(element), weak);
      if ok {
        LastPass(log, weak, exhausted);
        CallPublishes(s0, element, steps, protocol, p, log);
      }
      CallGoes(s0, element, steps, protocol, p, log);
      if Alone([Call(p, element)] + steps, p) {
        AloneCall(s0, element, steps, protocol, p, log, weak, ok, exhausted);
      }
      steps := [Call(p, element)] + steps;
      if !exhausted {
        End(p, s0, steps, log);
        if Alone(steps + [Return(p)], p) {
          AlonePart(steps, [Return(p)], p);
        }
        steps := steps + [Return(p)];
      }
    }

    // ---- Consumer -----------------------------------------------------------------------------

    /** Resets one slot and hands its content to the consumer. */
    method Reset(i: nat) returns (content: Option<Element>)
      requires Valid() && Enabled(protocol, ResetSlot)
      requires i == protocol.consumer.range.At(protocol.consumer.next)
      modifies this, slots
      ensures protocol == Apply(old(protocol), ResetSlot) && Grew(old(protocol)) && tail == old(tail)
      ensures content == old(protocol).slots[i]
    {
      StepGrows(protocol, ResetSlot);
      StepPreserves(protocol, ResetSlot);
      content := slots[i];
      slots[i] := None;
      protocol := Apply(protocol, ResetSlot);
    }

    /** Resets the next slot of the range being drained. */
    method DrainOne(range: Range, j: nat) returns (content: Option<Element>)
      requires Valid() && range.Valid() && j < range.Size() && protocol.consumer == Draining(range, j)
      modifies this, slots
      ensures Grew(old(protocol)) && tail == old(tail)
      ensures protocol.consumer == if j + 1 == range.Size() then Ready else Draining(range, j + 1)
      ensures protocol.drained == old(protocol).drained + [content]
    {
      PauseConsumer();
      content := Reset(range.At(j));
    }

    /** Producers run between two operations of the consumer. */
    method PauseConsumer()
      requires Valid()
      modifies this, slots
      ensures Grew(old(protocol)) && tail == old(tail)
      ensures protocol.consumer == old(protocol).consumer && protocol.drained == old(protocol).drained
    {
      hide Inv, OthersRan;
      Interfere(ConsumerThread);
    }

    /** The two pieces that hold what is buffered now, of which n elements are going to be consumed. */
    method PeekNow(n: nat) returns (seen: Range)
      requires Valid() && protocol.consumer.Ready? && n <= head - tail
      modifies this`protocol
      ensures Grew(old(protocol)) && seen.Valid() && n <= seen.Size()
      ensures protocol.consumer == Peeked(n, seen) && protocol.drained == old(protocol).drained
    {
      PeekListsSlots(tail, head, capacity);
      hide Fifo, Owned, ProducerOk;
      StepPreserves(protocol, Peek(n));
      protocol := Apply(protocol, Peek(n));
      seen := PeekRange(tail, head, capacity);
    }

    /** Advances tail past the first n elements of what was seen. */
    method AdvancePast(n: nat, seen: Range) returns (range: Range)
      requires Valid() && protocol.consumer == Peeked(n, seen) && seen.Valid() && n <= seen.Size()
      modifies this
      ensures Grew(old(protocol)) && tail == old(tail) + n && range.Valid() && range.Size() == n
      ensures protocol.consumer == (if n == 0 then Ready else Draining(range, 0))
      ensures protocol.drained == old(protocol).drained
    {
      hide Fifo, Owned, ProducerOk;
      TakeIsPrefix(seen, n);
      StepPreserves(protocol, AdvanceTail);
      protocol := Apply(protocol, AdvanceTail);
      range := seen.Take(n);
      tail := tail + n;
    }

    /** Peek, then advance tail past the first n elements of what was seen. */
    method TakeRange(n: nat) returns (range: Range)
      requires Valid() && protocol.consumer.Ready? && n <= head - tail
      modifies this, slots
      ensures Grew(old(protocol)) && tail == old(tail) + n && range.Valid() && range.Size() == n
      ensures protocol.consumer == (if n == 0 then Ready else Draining(range, 0))
      ensures protocol.drained == old(protocol).drained
    {
      hide Inv;
      PauseConsumer();
      var seen := PeekNow(n);
      PauseConsumer();
      range := AdvancePast(n, seen);
    }

    /** Peek, advance tail, then reset every slot of the range, while producers keep running. The consumer gets the
        oldest n elements, in the order in which they were added. */
    method Consume(n: nat) returns (contents: seq<Option<Element>>)
      requires Valid() && protocol.consumer.Ready? && n <= head - tail
      modifies this, slots
      ensures Grew(old(protocol)) && protocol.consumer.Ready? && tail == old(tail) + n
      ensures contents == protocol.added[old(tail)..old(tail) + n]
      ensures protocol.drained == old(protocol).drained + contents
    {
      assert ConsumerOk(protocol);
      var range := TakeRange(n);
      ghost var before := protocol;
      contents := [];
      var j := 0;
      while j < n
        invariant Grew(before) && j <= n == range.Size() && range.Valid() && tail == before.tail
        invariant protocol.consumer == if j == n then Ready else Draining(range, j)
        invariant |contents| == j && protocol.drained == before.drained + contents
      {
        var content := DrainOne(range, j);
        contents := contents + [content];
        j := j + 1;
      }
      DrainedIsPrefix(protocol);
    }
  }
}
