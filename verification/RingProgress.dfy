/** What becomes of a call of Add when no other thread runs. */
module RingProgress {
  import opened Wrappers
  import opened RingProtocol
  import opened RingProperties
  import opened RingCalls

  predicate HasRoom(s: State) { s.head - s.tail < s.cap - 1 }

  /** The slot in front of head holds nothing, or p's own element. */
  predicate CanPlace(s: State, p: nat)
    requires p < |s.producers| && |s.slots| == s.cap > 0
  {
    s.producers[p].Parked() || s.slots[SlotIndex(s.head, s.cap)] == None
  }

  /** These are steps of p that belong to one call. */
  predicate Alone(steps: seq<Step>, p: nat) { forall i :: 0 <= i < |steps| ==> ByProducer(steps[i], p) }

  /** What p has read is how things are. */
  predicate Fresh(s: State, p: nat)
    requires p < |s.producers|
  {
    var q := s.producers[p];
    && (q.pc == LoadHead || q.KnowsHead() ==> q.tail == s.tail)
    && (q.KnowsHead() ==> q.head == s.head)
  }

  /** How a pass can end when nobody else runs. */
  predicate AlonePass(pass: Pass, room: bool, free: bool) {
    match pass
    case Refused => !room
    case SpuriousSlot => room
    case Occupied => room && !free
    case SpuriousHead => room && free
    case HeadMoved => false
    case Added(_) => room && free
  }

  lemma AloneStep(a: State, step: Step, p: nat)
    requires Inv(a) && p < |a.producers| && a.producers[p].pc != Idle && !a.producers[p].pc.Done? && Fresh(a, p)
    requires Enabled(a, step) && ByProducer(step, p)
    ensures var b := Apply(a, step);
            && p < |b.producers| && b.producers[p].pc != Idle && |b.slots| == b.cap > 0
            && (!b.producers[p].pc.Done? ==> Fresh(b, p) && HasRoom(b) == HasRoom(a) && CanPlace(b, p) == CanPlace(a, p))
    ensures forall pass <- PassEnd(a, step, p) :: AlonePass(pass, HasRoom(a), CanPlace(a, p))
  {
    assert ProducerOk(a, p);
  }

  lemma {:induction false} AlonePasses(a: State, steps: seq<Step>, b: State, p: nat)
    requires Inv(a) && p < |a.producers| && a.producers[p].pc != Idle && !a.producers[p].pc.Done? && Fresh(a, p)
    requires RunsTo(a, steps, b) && Alone(steps, p) && Return(p) !in steps
    ensures forall pass <- Passes(a, steps, p) :: AlonePass(pass, HasRoom(a), CanPlace(a, p))
    decreases |steps|
  {
    hide Inv, Apply, Enabled, PassEnd, Fresh, HasRoom, CanPlace, AlonePass;
    if steps != [] {
      var t := Apply(a, steps[0]);
      AloneStep(a, steps[0], p);
      StepPreserves(a, steps[0]);
      if t.producers[p].pc.Done? {
        PublishedOncePerCall(t, steps[1..], b, p);
      } else {
        AlonePasses(t, steps[1..], b, p);
      }
    }
  }

  predicate SlotFree(s: State)
    requires |s.slots| == s.cap > 0
  {
    s.slots[SlotIndex(s.head, s.cap)] == None
  }

  lemma AloneDecides(log: seq<Pass>, weak: seq<Weak>, ok: bool, exhausted: bool, room: bool, free: bool)
    requires Decided(log, weak, ok, exhausted) && forall pass <- log :: AlonePass(pass, room, free)
    ensures ok <==> room && free && STRONG in weak
    ensures exhausted <==> weak == [] || (room && (!free || STRONG !in weak))
  {
    if exhausted {
      forall i | 0 <= i < |weak| ensures room && (!free || weak[i] != STRONG) {
        assert log[i] in log && Explains(weak[i], log[i]);
      }
    } else {
      var last := |log| - 1;
      assert log[last] in log && Explains(weak[last], log[last]);
    }
  }

  lemma AlonePart(first: seq<Step>, second: seq<Step>, p: nat)
    requires Alone(first + second, p)
    ensures Alone(first, p) && Alone(second, p)
  {
    assert forall i :: 0 <= i < |first| ==> (first + second)[i] == first[i];
    assert forall i :: 0 <= i < |second| ==> (first + second)[|first| + i] == second[i];
  }

  /** A call during which no other thread runs is decided by what it finds: it returns true exactly if there is room, the
      slot in front of head is free and one pass meets no spurious failure; false exactly if there is no room. While that
      slot is occupied, no number of passes is enough. */
  lemma AloneCall(a: State, e: Element, steps: seq<Step>, b: State, p: nat, log: seq<Pass>,
                  weak: seq<Weak>, ok: bool, exhausted: bool)
    requires Inv(a) && p < |a.producers| && a.producers[p].pc == Idle && Enabled(a, Call(p, e))
    requires Goes(Apply(a, Call(p, e)), steps, b, p, log) && Decided(log, weak, ok, exhausted)
    requires Alone([Call(p, e)] + steps, p)
    ensures ok <==> HasRoom(a) && SlotFree(a) && STRONG in weak
    ensures exhausted <==> weak == [] || (HasRoom(a) && (!SlotFree(a) || STRONG !in weak))
  {
    var called := Apply(a, Call(p, e));
    assert Fresh(called, p) && HasRoom(called) == HasRoom(a) && CanPlace(called, p) == SlotFree(a);
    StepPreserves(a, Call(p, e));
    hide Inv, Apply, Enabled, Passes, RunsTo, Fresh, HasRoom, CanPlace, SlotFree, AlonePass;
    AlonePart([Call(p, e)], steps, p);
    AlonePasses(called, steps, b, p);
    AloneDecides(log, weak, ok, exhausted, HasRoom(called), CanPlace(called, p));
  }

  /** A call of Add by p that began in a and has got as far as b by these steps, its passes having ended as in `log`. When
      it returned true its element was published under the number in the last entry; when it returned false the elements
      buffered in a together with those added since fill the ring. When no other thread ran, what it found decides it. */
  ghost predicate Offered(a: State, p: nat, e: Element, weak: seq<Weak>, ok: bool, exhausted: bool,
                          steps: seq<Step>, log: seq<Pass>, b: State)
  {
    && RunsTo(a, steps, b) && Passes(a, steps, p) == log && Decided(log, weak, ok, exhausted)
    && (ok ==> var number := log[|log| - 1].number; a.head <= number < |b.added| && b.added[number] == Some(e))
    && (!ok && !exhausted ==> b.head - a.tail >= a.cap - 1)
    && |a.slots| == a.cap > 0
    && (Alone(steps, p) ==>
          && (ok <==> HasRoom(a) && SlotFree(a) && STRONG in weak)
          && (exhausted <==> weak == [] || (HasRoom(a) && (!SlotFree(a) || STRONG !in weak))))
  }

  /** With room, that slot is occupied only by the element of a producer between its two exchanges, or by the oldest
      element while the consumer has advanced tail past it and not yet reset its slot. */
  lemma OccupiedBy(s: State, i: nat)
    requires Inv(s) && HasRoom(s) && i == SlotIndex(s.head, s.cap)
    ensures |s.slots| == s.cap > 0
    ensures s.slots[i] != None ==>
              || (exists q: nat :: ParkedAt(s, q, i))
              || (s.consumer.Draining? && s.Floor() + s.cap == s.head)
  {
    assert OwnedAt(s, i);
    match s.owner[i]
    case Free =>
    case HeldBy(q) =>
      assert ParkedAt(s, q, i);
    case Published(k) =>
      if s.head - k < s.cap {
        IndexAdd(k, s.head - k, s.cap);
        assert false;
      }
      assert s.Floor() == k;
      assert ConsumerOk(s);
  }

  /** That can last: a reachable state of a ring for two elements, with room, in which a producer stopped between its two
      exchanges, so that (AloneCall) no call of the other producer returns however often it tries. */
  lemma StalledProducer() returns (a: State, steps: seq<Step>, b: State)
    ensures Init(a, 2, 2) && RunsTo(a, steps, b)
    ensures Inv(b) && |b.producers| == 2 && b.producers[1].pc == Idle && HasRoom(b) && !SlotFree(b)
  {
    var idle := Producer(Idle, None, None, 0, 0);
    a := State(3, [None, None, None], 0, 0, [idle, idle], Ready, [], [], [Free, Free, Free]);
    assert Init(a, 2, 2);
    InitInv(a, 2, 2);
    steps, b := StopsBetween(a, 7);
    hide *;
    RunPreserves(a, steps, b);
  }

  /** Producer 0 up to the moment before its second exchange. */
  lemma StopsBetween(a: State, e: Element) returns (steps: seq<Step>, b: State)
    requires a.cap == |a.slots| == |a.owner| == 3 && a.head == a.tail == 0 && a.slots[0] == None
    requires |a.producers| == 2 && a.producers[0].pc == Idle
    ensures RunsTo(a, steps, b) && b.cap == |b.slots| == 3 && b.head == b.tail == 0 && b.slots[0] == Some(e)
    ensures |b.producers| == 2 && b.producers[1] == a.producers[1]
  {
    var s1 := Apply(a, Call(0, e));
    var s2 := Apply(s1, ReadTail(0));
    var s3 := Apply(s2, ReadHead(0));
    var s4 := Apply(s3, Test(0));
    b := Apply(s4, ExchangeSlot(0, false));
    assert Enabled(s4, ExchangeSlot(0, false)) && Enabled(s3, Test(0)) && Enabled(s2, ReadHead(0));
    assert RunsTo(b, [], b);
    hide *;
    steps := StepFirst(s4, ExchangeSlot(0, false), [], b);
    steps := StepFirst(s3, Test(0), steps, b);
    steps := StepFirst(s2, ReadHead(0), steps, b);
    steps := StepFirst(s1, ReadTail(0), steps, b);
    steps := StepFirst(a, Call(0, e), steps, b);
  }

  lemma StepFirst(a: State, step: Step, rest: seq<Step>, b: State) returns (steps: seq<Step>)
    requires Enabled(a, step) && RunsTo(Apply(a, step), rest, b)
    ensures RunsTo(a, steps, b)
  {
    hide Apply, Enabled;
    steps := [step] + rest;
    assert steps[1..] == rest;
  }
}
