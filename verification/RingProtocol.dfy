/** The multi-producer, single-consumer ring, one step per atomic operation.
    A step that is a weak compare-exchange carries a flag: when it is set the exchange fails spuriously. */
module RingProtocol {
  import opened Wrappers

  /** What a slot's pointer refers to: an element is identified by its address. */
  type Element = nat

  // ---- The two-piece view of the occupied slots ----------------------------------------------

  /** Slot indices [first1, last1) followed by [first2, last2). */
  datatype Range = Range(first1: nat, last1: nat, first2: nat, last2: nat) {
    predicate Valid() { first1 <= last1 && first2 <= last2 }

    function Size(): nat requires Valid() { last1 - first1 + (last2 - first2) }

    /** Slot visited j-th by an iteration over both pieces. */
    function At(j: nat): nat
      requires Valid() && j < Size()
    {
      if j < last1 - first1 then first1 + j else first2 + (j - (last1 - first1))
    }

    function Take(n: nat): Range
      requires Valid() && n <= Size()
    {
      if n <= last1 - first1 then Range(first1, first1 + n, 0, 0)
      else Range(first1, last1, first2, first2 + (n - (last1 - first1)))
    }
  }

  function PeekRange(tail: nat, head: nat, cap: nat): Range
    requires cap > 0
  {
    var tailIndex, headIndex := SlotIndex(tail, cap), SlotIndex(head, cap);
    if headIndex == tailIndex then Range(0, 0, 0, 0)
    else if tailIndex < headIndex then Range(tailIndex, headIndex, 0, 0)
    else Range(tailIndex, cap, 0, headIndex)
  }

  /** Slot index of a number: the remainder modulo the capacity (see IndexIsRemainder), defined by repeated
      subtraction so that proofs need no nonlinear arithmetic. */
  function SlotIndex(number: nat, cap: nat): (i: nat)
    requires cap > 0
    ensures i < cap
  {
    if number < cap then number else SlotIndex(number - cap, cap)
  }

  lemma RemainderUnique(x: nat, q: int, r: nat, c: nat)
    requires x == q * c + r && r < c
    ensures x % c == r
  {
    var d := x / c - q;
    assert d * c == r - x % c by {
      assert x == (x / c) * c + x % c;
      assert (x / c) * c - q * c == d * c;
    }
    assert 0 - c < d * c < c;
  }

  lemma RemainderShift(x: nat, c: nat)
    requires c > 0
    ensures (x + c) % c == x % c
  {
    var q := x / c;
    assert x + c == q * c + c + x % c;
    assert (q + 1) * c == q * c + c;
    RemainderUnique(x + c, q + 1, x % c, c);
  }

  lemma {:induction false} IndexIsRemainder(number: nat, cap: nat)
    requires cap > 0
    ensures SlotIndex(number, cap) == number % cap
  {
    if number >= cap {
      IndexIsRemainder(number - cap, cap);
      RemainderShift(number - cap, cap);
    }
  }

  lemma {:induction false} IndexAdd(t: nat, j: nat, cap: nat)
    requires j <= cap && cap > 0
    ensures SlotIndex(t + j, cap) ==
            if SlotIndex(t, cap) + j < cap then SlotIndex(t, cap) + j else SlotIndex(t, cap) + j - cap
  {
    if t >= cap {
      IndexAdd(t - cap, j, cap);
    }
  }

  /** The range covers exactly the slots numbered tail .. head-1, in order and across the wrap. */
  lemma PeekListsSlots(tail: nat, head: nat, cap: nat)
    requires cap > 0 && tail <= head && head - tail < cap
    ensures var r := PeekRange(tail, head, cap);
            && r.Valid() && r.Size() == head - tail
            && forall j :: 0 <= j < r.Size() ==> r.At(j) == SlotIndex(tail + j, cap)
  {
    IndexAdd(tail, head - tail, cap);
    var r := PeekRange(tail, head, cap);
    forall j | 0 <= j < r.Size() ensures r.At(j) == SlotIndex(tail + j, cap) {
      IndexAdd(tail, j, cap);
    }
  }

  lemma TakeIsPrefix(r: Range, n: nat)
    requires r.Valid() && n <= r.Size()
    ensures r.Take(n).Valid() && r.Take(n).Size() == n
    ensures forall j :: 0 <= j < n ==> r.Take(n).At(j) == r.At(j)
  {
  }

  // ---- State ---------------------------------------------------------------------------------

  /** The atomic operation a producer is about to perform. */
  datatype Pc = Idle | LoadTail | LoadHead | TestFull | TrySlot | TryHead | SwapBack | Done(ok: bool)

  /** `ptr` is the caller's owning pointer, `arg` remembers what it pointed to when the call began. */
  datatype Producer = Producer(pc: Pc, ptr: Option<Element>, arg: Option<Element>, tail: nat, head: nat) {
    /** The producer's element sits in a slot that is not published. */
    predicate Parked() { pc == TryHead || pc == SwapBack }

    predicate Holding() { pc == LoadTail || pc == LoadHead || pc == TestFull || pc == TrySlot || pc == Done(false) }

    predicate KnowsHead() { pc == TestFull || pc == TrySlot || Parked() }
  }

  datatype Consumer = Ready | Peeked(n: nat, range: Range) | Draining(range: Range, next: nat)

  /** Who is responsible for a slot's content. */
  datatype Owner = Free | Published(number: nat) | HeldBy(producer: nat)

  /** `added`, `drained` and `owner` are history: elements in head-exchange order, slot contents taken
      by the consumer, and the owner of each slot. */
  datatype State = State(
    cap: nat, slots: seq<Option<Element>>, head: nat, tail: nat,
    producers: seq<Producer>, consumer: Consumer,
    added: seq<Option<Element>>, drained: seq<Option<Element>>, owner: seq<Owner>)
  {

    /** Number of the oldest slot not yet reset. */
    function Floor(): nat { |drained| }
  }

  datatype Step =
    | Call(p: nat, e: Element)
    | ReadTail(p: nat)
    | ReadHead(p: nat)
    | Test(p: nat)
    | ExchangeSlot(p: nat, weak: bool)
    | ExchangeHead(p: nat, weak: bool)
    | UndoSwap(p: nat)
    | Return(p: nat)
    | Peek(n: nat)
    | AdvanceTail
    | ResetSlot

  predicate ByProducer(step: Step, p: nat) {
    !step.Peek? && !step.AdvanceTail? && !step.ResetSlot? && step.p == p
  }

  predicate Enabled(s: State, step: Step) {
    && s.cap > 0 && |s.slots| == |s.owner| == s.cap
    && match step
       case Call(p, _) => p < |s.producers| && s.producers[p].pc == Idle
       case ReadTail(p) => p < |s.producers| && s.producers[p].pc == LoadTail
       case ReadHead(p) => p < |s.producers| && s.producers[p].pc == LoadHead
       case Test(p) => p < |s.producers| && s.producers[p].pc == TestFull
       case ExchangeSlot(p, _) => p < |s.producers| && s.producers[p].pc == TrySlot
       case ExchangeHead(p, _) => p < |s.producers| && s.producers[p].pc == TryHead
       case UndoSwap(p) => p < |s.producers| && s.producers[p].pc == SwapBack
       case Return(p) => p < |s.producers| && s.producers[p].pc.Done?
       // the source asserts that no more than head - tail elements are consumed
       case Peek(n) => s.consumer.Ready? && n <= s.head - s.tail
       case AdvanceTail => s.consumer.Peeked? && s.consumer.range.Valid() && s.consumer.n <= s.consumer.range.Size()
       case ResetSlot => s.consumer.Draining? && s.consumer.range.Valid() &&
                         s.consumer.next < s.consumer.range.Size() && s.consumer.range.At(s.consumer.next) < s.cap
  }

  function SetProducer(s: State, p: nat, q: Producer): State
    requires p < |s.producers|
  {
    s.(producers := s.producers[p := q])
  }

  /** Stores a slot's new content together with its new owner. */
  function SetSlot(s: State, i: nat, content: Option<Element>, owner: Owner): State
    requires i < |s.slots| == |s.owner|
  {
    s.(slots := s.slots[i := content], owner := s.owner[i := owner])
  }

  /** The state after a step. */
  function Apply(s: State, step: Step): State
    requires Enabled(s, step)
  {
    match step
    case Call(p, e) => SetProducer(s, p, Producer(LoadTail, Some(e), Some(e), 0, 0))
    case ReadTail(p) => SetProducer(s, p, s.producers[p].(pc := LoadHead, tail := s.tail))
    case ReadHead(p) => SetProducer(s, p, s.producers[p].(pc := TestFull, head := s.head))
    case Test(p) =>
      var q := s.producers[p];
      SetProducer(s, p, q.(pc := if q.head - q.tail >= s.cap - 1 then Done(false) else TrySlot))
    case ExchangeSlot(p, weak) =>
      var q := s.producers[p];
      var i := SlotIndex(q.head, s.cap);
      if weak || s.slots[i] != None then SetProducer(s, p, q.(pc := LoadTail))
      else SetSlot(SetProducer(s, p, q.(pc := TryHead, ptr := None)), i, q.ptr, HeldBy(p))
    case ExchangeHead(p, weak) =>
      var q := s.producers[p];
      var i := SlotIndex(q.head, s.cap);
      if weak || s.head != q.head then SetProducer(s, p, q.(pc := SwapBack))
      else SetSlot(SetProducer(s, p, q.(pc := Done(true), ptr := None)), i, s.slots[i], Published(s.head))
           .(head := s.head + 1, added := s.added + [s.slots[i]])
    case UndoSwap(p) =>
      var q := s.producers[p];
      var i := SlotIndex(q.head, s.cap);
      SetSlot(SetProducer(s, p, q.(pc := LoadTail, ptr := s.slots[i])), i, q.ptr, Free)
    case Return(p) => SetProducer(s, p, Producer(Idle, None, None, 0, 0))
    case Peek(n) => s.(consumer := Peeked(n, PeekRange(s.tail, s.head, s.cap)))
    case AdvanceTail =>
      var c := s.consumer;
      s.(tail := s.tail + c.n, consumer := if c.n == 0 then Ready else Draining(c.range.Take(c.n), 0))
    case ResetSlot =>
      var c := s.consumer;
      var i := c.range.At(c.next);
      SetSlot(s, i, None, Free).(
        drained := s.drained + [s.slots[i]],
        consumer := if c.next + 1 == c.range.Size() then Ready else Draining(c.range, c.next + 1))
  }

  // ---- Invariant -----------------------------------------------------------------------------

  ghost predicate Counters(s: State) {
    && s.cap > 0 && |s.slots| == |s.owner| == s.cap
    && s.Floor() <= s.tail <= s.head == |s.added|
    && s.head - s.tail <= s.cap - 1 && s.head - s.Floor() <= s.cap
  }

  /** Slots numbered Floor .. head-1 hold the added elements; everything before was drained in order. */
  ghost predicate Fifo(s: State)
    requires Counters(s)
  {
    && (forall k :: 0 <= k < |s.added| ==> s.added[k].Some?)
    && (forall k :: 0 <= k < |s.drained| ==> s.drained[k] == s.added[k])
    && (forall k :: s.Floor() <= k < s.head ==>
          s.slots[SlotIndex(k, s.cap)] == s.added[k] && s.owner[SlotIndex(k, s.cap)] == Published(k))
  }

  ghost predicate OwnedAt(s: State, i: nat)
    requires Counters(s) && i < s.cap
  {
    && (s.owner[i] == Free <==> s.slots[i] == None)
    && match s.owner[i]
       case Free => true
       case Published(k) => s.Floor() <= k < s.head && SlotIndex(k, s.cap) == i
       case HeldBy(p) => p < |s.producers| && s.producers[p].Parked() && SlotIndex(s.producers[p].head, s.cap) == i
  }

  ghost predicate Owned(s: State)
    requires Counters(s)
  {
    forall i :: 0 <= i < s.cap ==> OwnedAt(s, i)
  }

  ghost predicate ProducerOk(s: State, p: nat)
    requires Counters(s) && p < |s.producers|
  {
    var q := s.producers[p];
    && (q.pc == Idle ==> q.ptr == None)
    && (q.pc != Idle ==> q.arg.Some?)
    && (q.Holding() ==> q.ptr == q.arg)
    && (q.Parked() || q.pc == Done(true) ==> q.ptr == None)
    && (q.pc == LoadHead || q.KnowsHead() ==> q.tail <= s.tail)
    && (q.KnowsHead() ==> q.tail <= q.head <= s.head)
    && (q.pc == TrySlot || q.Parked() ==> q.head - q.tail < s.cap - 1)
    && (q.Parked() ==> s.slots[SlotIndex(q.head, s.cap)] == q.arg && s.owner[SlotIndex(q.head, s.cap)] == HeldBy(p))
  }

  ghost predicate ConsumerOk(s: State)
    requires Counters(s)
  {
    match s.consumer
    case Ready => s.Floor() == s.tail
    case Peeked(n, r) => s.Floor() == s.tail && r.Valid() && n <= r.Size() <= s.head - s.tail &&
                         forall j :: 0 <= j < r.Size() ==> r.At(j) == SlotIndex(s.tail + j, s.cap)
    case Draining(r, next) => r.Valid() && next < r.Size() && s.Floor() + (r.Size() - next) == s.tail &&
                              forall j :: next <= j < r.Size() ==> r.At(j) == SlotIndex(s.Floor() - next + j, s.cap)
  }

  ghost predicate Inv(s: State) {
    && Counters(s) && Fifo(s) && Owned(s) && ConsumerOk(s)
    && forall p :: 0 <= p < |s.producers| ==> ProducerOk(s, p)
  }

  ghost predicate Init(s: State, maxSize: nat, threads: nat) {
    s == State(maxSize + 1, seq(maxSize + 1, i => None), 0, 0, seq(threads, i => Producer(Idle, None, None, 0, 0)), Ready,
               [], [], seq(maxSize + 1, i => Free))
  }

  lemma InitInv(s: State, maxSize: nat, threads: nat)
    requires Init(s, maxSize, threads)
    ensures Inv(s)
  {
  }

  /** A producer that did not move keeps its invariant while the counters only grow, as long as nobody
      touched the slot it parked its element in. */
  lemma ProducerFrame(s: State, t: State, r: nat)
    requires Counters(s) && Counters(t) && s.cap == t.cap && s.tail <= t.tail && s.head <= t.head
    requires r < |s.producers| && r < |t.producers| && t.producers[r] == s.producers[r] && ProducerOk(s, r)
    requires var i := SlotIndex(s.producers[r].head, s.cap);
             s.producers[r].Parked() ==> t.slots[i] == s.slots[i] && t.owner[i] == s.owner[i]
    ensures ProducerOk(t, r)
  {
  }

  /** t differs from s in the slot (and owner) at i only. */
  ghost predicate OnlySlot(s: State, t: State, i: nat) {
    && |t.slots| == |t.owner| == t.cap == s.cap == |s.slots| == |s.owner| && i < s.cap
    && t.slots == s.slots[i := t.slots[i]] && t.owner == s.owner[i := t.owner[i]]
  }

  /** Producers other than `mover` keep their invariant when the touched slot was not theirs. */
  lemma OthersFrame(s: State, t: State, mover: int, i: nat)
    requires Inv(s) && Counters(t) && OnlySlot(s, t, i) && s.tail <= t.tail && s.head <= t.head
    requires |t.producers| == |s.producers|
    requires forall r :: 0 <= r < |s.producers| && r != mover ==> t.producers[r] == s.producers[r]
    requires s.owner[i].HeldBy? ==> s.owner[i].producer == mover
    ensures forall r :: 0 <= r < |t.producers| && r != mover ==> ProducerOk(t, r)
  {
    forall r | 0 <= r < |t.producers| && r != mover ensures ProducerOk(t, r) {
      assert ProducerOk(s, r);
      ProducerFrame(s, t, r);
    }
  }

  /** Slots other than the touched one keep their owner. */
  lemma OwnedFrame(s: State, t: State, mover: int, i: nat)
    requires Inv(s) && Counters(t) && OnlySlot(s, t, i) && s.head <= t.head && |t.producers| == |s.producers|
    requires t.Floor() == s.Floor() || (t.Floor() == s.Floor() + 1 && SlotIndex(s.Floor(), s.cap) == i)
    requires forall r :: 0 <= r < |s.producers| && r != mover ==> t.producers[r] == s.producers[r]
    requires 0 <= mover < |s.producers| && s.producers[mover].Parked() ==>
               SlotIndex(s.producers[mover].head, s.cap) == i
    requires OwnedAt(t, i)
    ensures Owned(t)
  {
    forall j | 0 <= j < t.cap ensures OwnedAt(t, j) {
      if j != i {
        assert OwnedAt(s, j);
      }
    }
  }

  /** The published slots survive a change to a slot that holds nothing published. */
  lemma FifoFrame(s: State, t: State, i: nat)
    requires Counters(s) && Counters(t) && Fifo(s) && OnlySlot(s, t, i) && !s.owner[i].Published?
    requires t.head == s.head && t.added == s.added && t.drained == s.drained
    ensures Fifo(t)
  {
    forall k | t.Floor() <= k < t.head
      ensures t.slots[SlotIndex(k, t.cap)] == t.added[k] && t.owner[SlotIndex(k, t.cap)] == Published(k)
    {
      assert s.owner[SlotIndex(k, s.cap)] == Published(k);
    }
  }

  lemma ConsumerFrame(s: State, t: State)
    requires Counters(s) && Counters(t) && ConsumerOk(s) && t.consumer == s.consumer && t.cap == s.cap
    requires t.tail == s.tail && t.Floor() == s.Floor() && s.head <= t.head
    ensures ConsumerOk(t)
  {
  }

  lemma Assemble(t: State, mover: int)
    requires Counters(t) && Fifo(t) && Owned(t) && ConsumerOk(t)
    requires forall r :: 0 <= r < |t.producers| && r != mover ==> ProducerOk(t, r)
    requires 0 <= mover < |t.producers| ==> ProducerOk(t, mover)
    ensures Inv(t)
  {
  }

  /** A step that changes producers only leaves slots, counters and consumer as they are. */
  lemma SameRing(s: State, t: State)
    requires Inv(s) && t == s.(producers := t.producers)
    ensures Counters(t) && Fifo(t) && ConsumerOk(t)
  {
    hide Owned, ProducerOk;
    ConsumerFrame(s, t);
  }

  /** A step that only changes one producer that has nothing parked. */
  lemma LocalFrame(s: State, p: nat, q: Producer)
    requires Inv(s) && p < |s.producers| && !s.producers[p].Parked() && !q.Parked()
    requires ProducerOk(SetProducer(s, p, q), p)
    ensures Inv(SetProducer(s, p, q))
  {
    var t := SetProducer(s, p, q);
    SameRing(s, t);
    hide Fifo, ConsumerOk;
    forall i | 0 <= i < t.cap ensures OwnedAt(t, i) {
      assert OwnedAt(s, i);
    }
    forall r | 0 <= r < |t.producers| && r != p ensures ProducerOk(t, r) {
      assert ProducerOk(s, r);
      ProducerFrame(s, t, r);
    }
  }

  /** A producer parks its element in a free slot, or takes it back. */
  lemma ParkFrame(s: State, t: State, p: nat, i: nat)
    requires Inv(s) && OnlySlot(s, t, i) && p < |s.producers|
    requires |t.producers| == |s.producers|
    requires t == s.(slots := t.slots, owner := t.owner, producers := s.producers[p := t.producers[p]])
    requires s.producers[p].Parked() != t.producers[p].Parked()
    requires i == SlotIndex(s.producers[p].head, s.cap) && t.producers[p].head == s.producers[p].head
    requires if t.producers[p].Parked() then s.owner[i] == Free && t.owner[i] == HeldBy(p) && t.slots[i].Some?
             else t.owner[i] == Free && t.slots[i] == None
    requires ProducerOk(t, p)
    ensures Inv(t)
  {
    assert ProducerOk(s, p) && OwnedAt(s, i);
    FifoFrame(s, t, i);
    OthersFrame(s, t, p, i);
    OwnedFrame(s, t, p, i);
    ConsumerFrame(s, t);
    Assemble(t, p);
  }

  lemma ParkPreserves(s: State, p: nat)
    requires Inv(s) && Enabled(s, ExchangeSlot(p, false)) && s.slots[SlotIndex(s.producers[p].head, s.cap)] == None
    ensures Inv(Apply(s, ExchangeSlot(p, false)))
  {
    assert ProducerOk(s, p) && OwnedAt(s, SlotIndex(s.producers[p].head, s.cap));
    ParkFrame(s, Apply(s, ExchangeSlot(p, false)), p, SlotIndex(s.producers[p].head, s.cap));
  }

  lemma UndoPreserves(s: State, p: nat)
    requires Inv(s) && Enabled(s, UndoSwap(p))
    ensures Inv(Apply(s, UndoSwap(p)))
  {
    assert ProducerOk(s, p);
    ParkFrame(s, Apply(s, UndoSwap(p)), p, SlotIndex(s.producers[p].head, s.cap));
  }

  /** Publishing never wraps onto a slot that is still occupied. */
  lemma RoomToPublish(s: State, p: nat)
    requires Inv(s) && p < |s.producers| && s.producers[p].Parked() && s.producers[p].head == s.head
    ensures s.head - s.Floor() < s.cap && s.head - s.tail < s.cap - 1
  {
    assert ProducerOk(s, p);
    if s.head - s.Floor() == s.cap {
      IndexAdd(s.Floor(), s.cap, s.cap);
      assert false;
    }
  }

  /** A head exchange that succeeds publishes the producer's own element, and never overfills the ring. */
  lemma PublishFrame(s: State, t: State, p: nat)
    requires Inv(s) && p < |s.producers| && s.producers[p].Parked() && s.producers[p].head == s.head
    requires OnlySlot(s, t, SlotIndex(s.head, s.cap)) && t.slots == s.slots
    requires t.owner[SlotIndex(s.head, s.cap)] == Published(s.head)
    requires t == s.(head := s.head + 1, added := s.added + [s.producers[p].arg], owner := t.owner,
                     producers := s.producers[p := s.producers[p].(pc := Done(true), ptr := None)])
    ensures Inv(t)
  {
    var i := SlotIndex(s.head, s.cap);
    assert ProducerOk(s, p);
    RoomToPublish(s, p);
    forall k | t.Floor() <= k < t.head
      ensures t.slots[SlotIndex(k, t.cap)] == t.added[k] && t.owner[SlotIndex(k, t.cap)] == Published(k)
    {
      if k < s.head {
        assert s.owner[SlotIndex(k, s.cap)] == Published(k);
      }
    }
    OthersFrame(s, t, p, i);
    OwnedFrame(s, t, p, i);
    ConsumerFrame(s, t);
    Assemble(t, p);
  }

  /** A producer whose head exchange failed still has its element parked. */
  lemma StillParked(s: State, t: State, p: nat)
    requires Inv(s) && p < |s.producers| && s.producers[p].pc == TryHead
    requires t == s.(producers := s.producers[p := s.producers[p].(pc := SwapBack)])
    ensures Inv(t)
  {
    var i := SlotIndex(s.producers[p].head, s.cap);
    assert ProducerOk(s, p);
    OthersFrame(s, t, p, i);
    OwnedFrame(s, t, p, i);
    ConsumerFrame(s, t);
    Assemble(t, p);
  }

  lemma HeadExchangePreserves(s: State, p: nat, weak: bool)
    requires Inv(s) && Enabled(s, ExchangeHead(p, weak))
    ensures Inv(Apply(s, ExchangeHead(p, weak)))
  {
    hide Fifo, Owned, ConsumerOk;
    var t := Apply(s, ExchangeHead(p, weak));
    assert ProducerOk(s, p);
    if !weak && s.head == s.producers[p].head {
      PublishFrame(s, t, p);
    } else {
      StillParked(s, t, p);
    }
  }

  lemma LocalStepPreserves(s: State, step: Step)
    requires Inv(s) && Enabled(s, step)
    requires step.Call? || step.ReadTail? || step.ReadHead? || step.Test? || step.Return?
    ensures Inv(Apply(s, step))
  {
    assert ProducerOk(s, step.p);
    LocalFrame(s, step.p, Apply(s, step).producers[step.p]);
  }

  /** The consumer's reset takes the oldest published element. */
  lemma ResetFrame(s: State, t: State)
    requires Inv(s) && s.Floor() < s.tail
    requires Counters(t) && OnlySlot(s, t, SlotIndex(s.Floor(), s.cap)) && ConsumerOk(t)
    requires t == s.(slots := t.slots, owner := t.owner, consumer := t.consumer, drained := s.drained + [s.added[s.Floor()]])
    requires var i := SlotIndex(s.Floor(), s.cap); t.owner[i] == Free && t.slots[i] == None
    ensures Inv(t)
  {
    forall k | t.Floor() <= k < t.head
      ensures t.slots[SlotIndex(k, t.cap)] == t.added[k] && t.owner[SlotIndex(k, t.cap)] == Published(k)
    {
      assert s.owner[SlotIndex(k, s.cap)] == Published(k);
    }
    OthersFrame(s, t, -1, SlotIndex(s.Floor(), s.cap));
    OwnedFrame(s, t, -1, SlotIndex(s.Floor(), s.cap));
  }

  lemma ResetPreserves(s: State)
    requires Inv(s) && Enabled(s, ResetSlot)
    ensures Inv(Apply(s, ResetSlot))
  {
    assert s.consumer.range.At(s.consumer.next) == SlotIndex(s.Floor(), s.cap);
    ResetFrame(s, Apply(s, ResetSlot));
  }

  /** A step that only looks at the ring. */
  lemma PeekPreserves(s: State, n: nat)
    requires Inv(s) && Enabled(s, Peek(n))
    ensures Inv(Apply(s, Peek(n)))
  {
    var t := Apply(s, Peek(n));
    PeekListsSlots(s.tail, s.head, s.cap);
    SlotsFrame(s, t);
  }

  lemma AdvancePreserves(s: State)
    requires Inv(s) && Enabled(s, AdvanceTail)
    ensures Inv(Apply(s, AdvanceTail))
  {
    var t := Apply(s, AdvanceTail);
    TakeIsPrefix(s.consumer.range, s.consumer.n);
    SlotsFrame(s, t);
  }

  /** Neither slots nor producers change, and tail only grows. */
  lemma SlotsFrame(s: State, t: State)
    requires Inv(s) && Counters(t) && ConsumerOk(t) && s.tail <= t.tail
    requires t == s.(tail := t.tail, consumer := t.consumer)
    ensures Inv(t)
  {
    hide ConsumerOk;
    forall i | 0 <= i < t.cap ensures OwnedAt(t, i) {
      assert OwnedAt(s, i);
    }
    forall r | 0 <= r < |t.producers| ensures ProducerOk(t, r) {
      assert ProducerOk(s, r);
      ProducerFrame(s, t, r);
    }
  }

  lemma StepPreserves(s: State, step: Step)
    requires Inv(s) && Enabled(s, step)
    ensures Inv(Apply(s, step))
  {
    match step
    case ExchangeSlot(p, weak) =>
      assert ProducerOk(s, p);
      if !weak && s.slots[SlotIndex(s.producers[p].head, s.cap)] == None {
        ParkPreserves(s, p);
      } else {
        LocalFrame(s, p, s.producers[p].(pc := LoadTail));
      }
    case ExchangeHead(p, weak) => HeadExchangePreserves(s, p, weak);
    case UndoSwap(p) => UndoPreserves(s, p);
    case ResetSlot => ResetPreserves(s);
    case Peek(n) => PeekPreserves(s, n);
    case AdvanceTail => AdvancePreserves(s);
    case _ => LocalStepPreserves(s, step);
  }
}
