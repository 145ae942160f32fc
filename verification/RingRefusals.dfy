/** When the ring refuses an element: tail is read before head, so a refusal does not mean that the ring was full. */
module RingRefusals {
  import opened Wrappers
  import opened RingProtocol
  import opened RingProperties

  predicate Full(s: State) { s.head - s.tail >= s.cap - 1 }

  /** What the test for room will say. */
  predicate Refuses(s: State, p: nat)
    requires p < |s.producers|
  {
    s.producers[p].head - s.producers[p].tail >= s.cap - 1
  }

  /** At the moment a producer reads head, a full ring is always refused, and when tail has not moved since the producer
      read it only a full one is. A ring with room is refused exactly when the elements behind the tail that was read
      would fill it: the difference is what the consumer took in between. */
  lemma RefusalAtHeadRead(s: State, p: nat)
    requires Inv(s) && Enabled(s, ReadHead(p))
    ensures var t := Apply(s, ReadHead(p));
            && (Full(t) ==> Refuses(t, p))
            && (t.producers[p].tail == t.tail ==> (Refuses(t, p) <==> Full(t)))
            && (Refuses(t, p) && !Full(t) <==> t.head - t.tail < t.cap - 1 <= t.head - s.producers[p].tail)
            && s.producers[p].tail <= t.tail
  {
    assert ProducerOk(s, p);
  }

  /** In every state of the run there is room. */
  ghost predicate RoomThroughout(a: State, steps: seq<Step>)
    decreases |steps|
  {
    !Full(a) && (steps != [] ==> Enabled(a, steps[0]) && RoomThroughout(Apply(a, steps[0]), steps[1..]))
  }

  /** A run from a to b during which there is always room. */
  ghost predicate RoomyRun(a: State, steps: seq<Step>, b: State) { RunsTo(a, steps, b) && RoomThroughout(a, steps) }

  lemma RoomyNil(a: State)
    requires !Full(a)
    ensures RoomyRun(a, [], a)
  {
  }

  lemma RoomyStep(a: State, step: Step, rest: seq<Step>, b: State)
    requires !Full(a) && Enabled(a, step) && RoomyRun(Apply(a, step), rest, b)
    ensures RoomyRun(a, [step] + rest, b)
  {
    assert ([step] + rest)[1..] == rest;
  }

  lemma {:induction false} RoomyJoin(a: State, first: seq<Step>, b: State, second: seq<Step>, c: State)
    requires RoomyRun(a, first, b) && RoomyRun(b, second, c)
    ensures RoomyRun(a, first + second, c)
    decreases |first|
  {
    hide Apply, Enabled, Full;
    if first == [] {
      assert first + second == second;
    } else {
      assert (first + second)[1..] == first[1..] + second;
      RoomyJoin(Apply(a, first[0]), first[1..], b, second, c);
    }
  }

  /** The state of a ring for two elements with two producers, as far as the run below looks at it. */
  ghost predicate Small(s: State) { s.cap == |s.slots| == |s.owner| == 3 && |s.producers| == 2 && s.tail <= s.head < 3 }

  /** Producer 1 up to the test for room, when there is room. */
  lemma ReadsCounters(s: State, e: Element) returns (steps: seq<Step>, t: State)
    requires Small(s) && s.head == s.tail && s.producers[1] == Producer(Idle, None, None, 0, 0)
    ensures RoomyRun(s, steps, t)
    ensures t == s.(producers := s.producers[1 := Producer(TrySlot, Some(e), Some(e), s.tail, s.head)])
  {
    hide RoomyRun;
    var s1 := Apply(s, Call(1, e));
    var s2 := Apply(s1, ReadTail(1));
    var s3 := Apply(s2, ReadHead(1));
    t := Apply(s3, Test(1));
    RoomyNil(t);
    hide Apply;
    RoomyStep(s3, Test(1), [], t);
    RoomyStep(s2, ReadHead(1), [Test(1)] + [], t);
    steps := [ReadHead(1)] + ([Test(1)] + []);
    RoomyStep(s1, ReadTail(1), steps, t);
    steps := [ReadTail(1)] + steps;
    RoomyStep(s, Call(1, e), steps, t);
    steps := [Call(1, e)] + steps;
  }

  /** From there on, when nobody is in its way. */
  lemma Publishes(s: State, e: Element) returns (steps: seq<Step>, t: State)
    requires Small(s) && s.head == s.tail && s.producers[1] == Producer(TrySlot, Some(e), Some(e), s.tail, s.head)
    requires s.slots[s.head] == None
    ensures RoomyRun(s, steps, t) && t.producers == s.producers[1 := Producer(Idle, None, None, 0, 0)]
    ensures t.consumer == s.consumer && t.cap == 3 && t.head == s.head + 1 && t.tail == s.tail
    ensures |t.slots| == |t.owner| == 3 && t.slots == s.slots[s.head := Some(e)]
  {
    hide RoomyRun;
    assert SlotIndex(s.head, 3) == s.head;
    var s1 := Apply(s, ExchangeSlot(1, false));
    var s2 := Apply(s1, ExchangeHead(1, false));
    t := Apply(s2, Return(1));
    RoomyNil(t);
    hide Apply;
    RoomyStep(s2, Return(1), [], t);
    RoomyStep(s1, ExchangeHead(1, false), [Return(1)] + [], t);
    steps := [ExchangeHead(1, false)] + ([Return(1)] + []);
    RoomyStep(s, ExchangeSlot(1, false), steps, t);
    steps := [ExchangeSlot(1, false)] + steps;
  }

  /** A whole successful call of producer 1. */
  lemma AddAlone(s: State, e: Element) returns (steps: seq<Step>, t: State)
    requires Small(s) && s.head == s.tail && s.producers[1] == Producer(Idle, None, None, 0, 0) && s.slots[s.head] == None
    ensures RoomyRun(s, steps, t) && t.producers == s.producers && t.consumer == s.consumer
    ensures t.cap == 3 && t.head == s.head + 1 && t.tail == s.tail
    ensures |t.slots| == |t.owner| == 3 && t.slots == s.slots[s.head := Some(e)]
  {
    hide RoomyRun;
    var first, u := ReadsCounters(s, e);
    var second;
    second, t := Publishes(u, e);
    RoomyJoin(s, first, u, second, t);
    steps := first + second;
  }

  lemma TakeStates(s: State)
    requires Small(s) && s.head == 1 && s.tail == 0 && s.consumer == Ready
    ensures var s1 := s.(consumer := Peeked(1, Range(0, 1, 0, 0)));
            var s2 := s.(tail := 1, consumer := Draining(Range(0, 1, 0, 0), 0));
            && Enabled(s, Peek(1)) && Apply(s, Peek(1)) == s1 && Enabled(s1, AdvanceTail) && Apply(s1, AdvanceTail) == s2
            && Enabled(s2, ResetSlot)
            && Apply(s2, ResetSlot) == SetSlot(s2, 0, None, Free).(drained := s.drained + [s.slots[0]], consumer := Ready)
  {
    assert SlotIndex(0, 3) == 0 && SlotIndex(1, 3) == 1;
  }

  /** The consumer takes the one buffered element. */
  lemma TakeOne(s: State) returns (steps: seq<Step>, t: State)
    requires Small(s) && s.head == 1 && s.tail == 0 && s.consumer == Ready
    ensures RoomyRun(s, steps, t) && t.producers == s.producers && t.consumer == Ready
    ensures t.cap == 3 && t.head == t.tail == 1 && |t.slots| == |t.owner| == 3 && t.slots == s.slots[0 := None]
  {
    hide RoomyRun, Enabled, Apply;
    TakeStates(s);
    var s1 := Apply(s, Peek(1));
    var s2 := Apply(s1, AdvanceTail);
    t := Apply(s2, ResetSlot);
    RoomyNil(t);
    RoomyStep(s2, ResetSlot, [], t);
    RoomyStep(s1, AdvanceTail, [ResetSlot] + [], t);
    steps := [AdvanceTail] + ([ResetSlot] + []);
    RoomyStep(s, Peek(1), steps, t);
    steps := [Peek(1)] + steps;
  }

  /** Without that condition an element can be refused although the ring was never full: while producer 0 holds the tail
      it read, an element is added, taken, and another one added, in a ring for two elements. */
  lemma RefusedThoughNeverFull() returns (a: State, steps: seq<Step>, b: State)
    ensures Init(a, 2, 2) && RoomyRun(a, steps, b) && b.producers != [] && b.producers[0].pc == Done(false)
  {
    hide RoomyRun;
    a := State(3, [None, None, None], 0, 0, [Producer(Idle, None, None, 0, 0), Producer(Idle, None, None, 0, 0)], Ready,
               [], [], [Free, Free, Free]);
    var called := Apply(a, Call(0, 6));
    var s := Apply(called, ReadTail(0));
    RoomyNil(s);
    RoomyStep(called, ReadTail(0), [], s);
    RoomyStep(a, Call(0, 6), [ReadTail(0)] + [], s);
    steps := [Call(0, 6)] + ([ReadTail(0)] + []);
    var more, t := AddAlone(s, 7);
    RoomyJoin(a, steps, s, more, t);
    steps := steps + more;
    var u;
    more, u := TakeOne(t);
    RoomyJoin(a, steps, t, more, u);
    steps := steps + more;
    var v;
    more, v := AddAlone(u, 8);
    RoomyJoin(a, steps, u, more, v);
    steps := steps + more;
    more, b := ReadsHeadLate(v);
    RoomyJoin(a, steps, v, more, b);
    steps := steps + more;
  }

  /** Producer 0 read tail when it was 0; now head is 2 and tail is 1. */
  lemma ReadsHeadLate(s: State) returns (steps: seq<Step>, t: State)
    requires s.cap == |s.slots| == |s.owner| == 3 && |s.producers| == 2 && s.head == 2 && s.tail == 1
    requires s.producers[0] == Producer(LoadHead, Some(6), Some(6), 0, 0)
    ensures RoomyRun(s, steps, t) && t.producers != [] && t.producers[0].pc == Done(false)
  {
    hide RoomyRun;
    var w := Apply(s, ReadHead(0));
    t := Apply(w, Test(0));
    RoomyNil(t);
    RoomyStep(w, Test(0), [], t);
    RoomyStep(s, ReadHead(0), [Test(0)] + [], t);
    steps := [ReadHead(0)] + ([Test(0)] + []);
  }
}
