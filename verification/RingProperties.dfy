/** What the ring guarantees over every run of any number of producers and one consumer. */
module RingProperties {
  import opened Wrappers
  import opened RingProtocol
  import Fragments

  /** Executing `steps` from `a` leads to `b`. */
  ghost predicate RunsTo(a: State, steps: seq<Step>, b: State)
    decreases |steps|
  {
    if steps == [] then a == b
    else Enabled(a, steps[0]) && RunsTo(Apply(a, steps[0]), steps[1..], b)
  }

  ghost predicate Reachable(s: State, maxSize: nat, threads: nat) {
    exists a, steps :: Init(a, maxSize, threads) && RunsTo(a, steps, s)
  }

  /** Arguments of the call that publishes its element in this step, if any. */
  function PublishedBy(a: State, step: Step): seq<Option<Element>>
    requires Enabled(a, step)
  {
    if step.ExchangeHead? && !step.weak && a.head == a.producers[step.p].head then [a.producers[step.p].arg] else []
  }

  lemma StepGrows(a: State, step: Step)
    requires Inv(a) && Enabled(a, step)
    ensures var b := Apply(a, step);
            && b.cap == a.cap && |b.producers| == |a.producers|
            && a.head <= b.head && a.tail <= b.tail && a.drained <= b.drained
            && b.added == a.added + PublishedBy(a, step)
  {
    if step.ExchangeHead? {
      assert ProducerOk(a, step.p);
    }
  }

  lemma {:induction false} RunPreserves(a: State, steps: seq<Step>, b: State)
    requires Inv(a) && RunsTo(a, steps, b)
    ensures Inv(b) && b.cap == a.cap && |b.producers| == |a.producers|
    ensures a.head <= b.head && a.tail <= b.tail && a.added <= b.added && a.drained <= b.drained
    decreases |steps|
  {
    if steps != [] {
      StepPreserves(a, steps[0]);
      StepGrows(a, steps[0]);
      RunPreserves(Apply(a, steps[0]), steps[1..], b);
    }
  }

  lemma ReachableInv(s: State, maxSize: nat, threads: nat)
    requires Reachable(s, maxSize, threads)
    ensures Inv(s) && s.cap == maxSize + 1 && |s.producers| == threads
  {
    var a, steps :| Init(a, maxSize, threads) && RunsTo(a, steps, s);
    InitInv(a, maxSize, threads);
    RunPreserves(a, steps, s);
  }

  // ---- FIFO ----------------------------------------------------------------------------------

  /** Contents of the slots numbered from the oldest unreset one up to head - 1. */
  function Buffered(s: State): seq<Option<Element>>
    requires s.cap > 0 && |s.slots| == s.cap && s.Floor() <= s.head
  {
    seq(s.head - s.Floor(), j requires 0 <= j < s.head - s.Floor() => s.slots[SlotIndex(s.Floor() + j, s.cap)])
  }

  /** Elements offered by the calls that published theirs, in the order of the head exchanges. */
  function Published(a: State, steps: seq<Step>): seq<Option<Element>>
    decreases |steps|
  {
    if steps == [] || !Enabled(a, steps[0]) then []
    else PublishedBy(a, steps[0]) + Published(Apply(a, steps[0]), steps[1..])
  }

  lemma {:induction false} AddedIsPublished(a: State, steps: seq<Step>, b: State)
    requires Inv(a) && RunsTo(a, steps, b)
    ensures b.added == a.added + Published(a, steps)
    decreases |steps|
  {
    if steps != [] {
      StepPreserves(a, steps[0]);
      StepGrows(a, steps[0]);
      var t := Apply(a, steps[0]);
      AddedIsPublished(t, steps[1..], b);
      Fragments.Associative(a.added, PublishedBy(a, steps[0]), Published(t, steps[1..]));
    }
  }

  lemma AllBuffered(s: State)
    requires Inv(s)
    ensures s.added == s.drained + Buffered(s)
    ensures forall k :: 0 <= k < |s.added| ==> s.added[k].Some?
  {
  }

  /** What the consumer took followed by what is buffered is exactly what the successful calls offered,
      in the order in which they advanced head; nothing is lost, duplicated or null. */
  lemma FirstInFirstOut(a: State, steps: seq<Step>, s: State, maxSize: nat, threads: nat)
    requires Init(a, maxSize, threads) && RunsTo(a, steps, s)
    ensures s.Floor() <= s.head && |s.slots| == s.cap > 0
    ensures s.drained + Buffered(s) == Published(a, steps)
    ensures forall k :: 0 <= k < |Published(a, steps)| ==> Published(a, steps)[k].Some?
  {
    InitInv(a, maxSize, threads);
    RunPreserves(a, steps, s);
    AddedIsPublished(a, steps, s);
    AllBuffered(s);
  }

  lemma DrainedIsPrefix(s: State)
    requires Inv(s)
    ensures |s.drained| <= |s.added| && s.drained == s.added[..|s.drained|]
  {
  }

  /** Between two calls of the consumer the buffered slots are those numbered tail .. head-1, and a peek
      lists their contents in order, none of them null. */
  lemma PeekListsBuffered(s: State, maxSize: nat, threads: nat, j: nat)
    requires Reachable(s, maxSize, threads) && s.consumer.Ready?
    ensures |s.slots| == s.cap > 0 && s.Floor() == s.tail <= s.head
    ensures var r := PeekRange(s.tail, s.head, s.cap);
            && r.Valid() && r.Size() == s.head - s.tail == |Buffered(s)|
            && (j < r.Size() ==> r.At(j) < s.cap && s.slots[r.At(j)] == Buffered(s)[j] && Buffered(s)[j].Some?)
  {
    ReachableInv(s, maxSize, threads);
    PeekListsSlots(s.tail, s.head, s.cap);
    if j < s.head - s.tail {
      assert s.slots[SlotIndex(s.Floor() + j, s.cap)] == s.added[s.Floor() + j];
    }
  }

  /** Stale reads of tail and head never let the ring hold more than its maximum size. */
  lemma SizeBounded(s: State, maxSize: nat, threads: nat)
    requires Reachable(s, maxSize, threads)
    ensures 0 <= s.head - s.tail <= maxSize
  {
    ReachableInv(s, maxSize, threads);
  }

  // ---- The ring as a queue -------------------------------------------------------------------

  /** The elements between tail and head, oldest first: what the consumer takes the buffer to be. */
  function Waiting(s: State): seq<Option<Element>>
    requires s.tail <= s.head == |s.added|
  {
    s.added[s.tail..]
  }

  /** Every step refines an operation of a plain queue: a successful head exchange adds its element at the end, an
      advance of tail takes elements from the front, and no other step changes the queue. */
  lemma StepRefinesQueue(a: State, step: Step)
    requires Inv(a) && Enabled(a, step)
    ensures var b := Apply(a, step);
            && a.tail <= a.head == |a.added| && b.tail <= b.head == |b.added|
            && (if step.AdvanceTail?
                then a.consumer.n <= |Waiting(a)| && Waiting(b) == Waiting(a)[a.consumer.n..]
                else Waiting(b) == Waiting(a) + PublishedBy(a, step))
  {
    hide Fifo, Owned, ProducerOk;
    StepPreserves(a, step);
    StepGrows(a, step);
  }

  // ---- Ownership -----------------------------------------------------------------------------

  ghost predicate Live(s: State, k: nat) { s.Floor() <= k < s.head }

  ghost predicate ParkedAt(s: State, p: nat, i: nat)
    requires s.cap > 0
  {
    p < |s.producers| && s.producers[p].Parked() && SlotIndex(s.producers[p].head, s.cap) == i
  }

  /** Exactly one owner per non-null slot: either one published number, or one producer that parked its own
      element there; the two never coincide. */
  lemma UniqueOwner(s: State, maxSize: nat, threads: nat, i: nat)
    requires Reachable(s, maxSize, threads) && i < |s.slots| == s.cap
    ensures s.slots[i] != None <==>
            (exists k: nat :: Live(s, k) && SlotIndex(k, s.cap) == i) || (exists p: nat :: ParkedAt(s, p, i))
    ensures forall k: nat, l: nat :: Live(s, k) && Live(s, l) && SlotIndex(k, s.cap) == i == SlotIndex(l, s.cap) ==> k == l
    ensures forall p: nat, q: nat :: ParkedAt(s, p, i) && ParkedAt(s, q, i) ==> p == q
    ensures forall k: nat, p: nat :: Live(s, k) && SlotIndex(k, s.cap) == i ==> !ParkedAt(s, p, i)
    ensures forall p: nat :: ParkedAt(s, p, i) ==> s.slots[i] == s.producers[p].arg && s.producers[p].ptr == None
  {
    ReachableInv(s, maxSize, threads);
    assert OwnedAt(s, i);
    forall p: nat | ParkedAt(s, p, i)
      ensures s.owner[i] == HeldBy(p) && s.slots[i] == s.producers[p].arg && s.slots[i].Some? && s.producers[p].ptr == None
    {
      assert ProducerOk(s, p);
    }
    forall k: nat | Live(s, k) && SlotIndex(k, s.cap) == i
      ensures s.owner[i] == Owner.Published(k) && s.slots[i] == s.added[k] != None
    {
    }
    if s.owner[i].Published? {
      assert Live(s, s.owner[i].number);
    } else if s.owner[i].HeldBy? {
      assert ParkedAt(s, s.owner[i].producer, i);
    }
  }

  /** A producer between the start of a call and its end has its element either in its own pointer or in
      the one slot it parked it in; a failed head exchange gives back that very element, however stale the
      head it read was; a call that returns false leaves the element with the caller. */
  lemma ProducerKeepsElement(s: State, maxSize: nat, threads: nat, p: nat)
    requires Reachable(s, maxSize, threads) && p < |s.producers|
    ensures s.producers[p].Holding() ==> s.producers[p].ptr == s.producers[p].arg != None
    ensures Enabled(s, UndoSwap(p)) ==>
            Apply(s, UndoSwap(p)).producers[p].ptr == s.producers[p].arg != None
    ensures s.producers[p].pc == Done(false) ==> s.producers[p].ptr == s.producers[p].arg
    ensures s.producers[p].pc == Done(true) ==> s.producers[p].ptr == None
  {
    ReachableInv(s, maxSize, threads);
    assert ProducerOk(s, p);
  }

  // ---- What other threads may do between two operations of one thread -------------------------

  datatype Thread = ProducerThread(p: nat) | ConsumerThread

  predicate Mine(step: Step, who: Thread) {
    match who
    case ProducerThread(p) => ByProducer(step, p)
    case ConsumerThread => step.Peek? || step.AdvanceTail? || step.ResetSlot?
  }

  /** b is reached from a by steps of threads other than `who`. */
  ghost predicate OthersRan(a: State, b: State, who: Thread) {
    exists steps: seq<Step> :: RunsTo(a, steps, b) && forall i :: 0 <= i < |steps| ==> !Mine(steps[i], who)
  }

  lemma NobodyRan(a: State, who: Thread)
    ensures OthersRan(a, a, who)
  {
    assert RunsTo(a, [], a);
  }

  lemma OtherStepKeepsLocals(a: State, step: Step, who: Thread)
    requires Inv(a) && Enabled(a, step) && !Mine(step, who)
    requires who.ProducerThread? ==> who.p < |a.producers|
    ensures var b := Apply(a, step);
            && |b.producers| == |a.producers|
            && (who.ProducerThread? ==> b.producers[who.p] == a.producers[who.p])
            && (who.ConsumerThread? ==> b.consumer == a.consumer && b.tail == a.tail && b.drained == a.drained)
  {
  }

  lemma {:induction false} OthersKeepLocals(a: State, steps: seq<Step>, b: State, who: Thread)
    requires Inv(a) && RunsTo(a, steps, b) && forall i :: 0 <= i < |steps| ==> !Mine(steps[i], who)
    requires who.ProducerThread? ==> who.p < |a.producers|
    ensures |b.producers| == |a.producers|
    ensures who.ProducerThread? ==> b.producers[who.p] == a.producers[who.p]
    ensures who.ConsumerThread? ==> b.consumer == a.consumer && b.tail == a.tail && b.drained == a.drained
    decreases |steps|
  {
    if steps != [] {
      assert !Mine(steps[0], who);
      StepPreserves(a, steps[0]);
      OtherStepKeepsLocals(a, steps[0], who);
      OthersKeepLocals(Apply(a, steps[0]), steps[1..], b, who);
    }
  }

  lemma Interference(a: State, b: State, who: Thread)
    requires Inv(a) && OthersRan(a, b, who)
    requires who.ProducerThread? ==> who.p < |a.producers|
    ensures Inv(b) && b.cap == a.cap && |b.producers| == |a.producers|
    ensures a.head <= b.head && a.tail <= b.tail && a.added <= b.added && a.drained <= b.drained
    ensures who.ProducerThread? ==> b.producers[who.p] == a.producers[who.p]
    ensures who.ConsumerThread? ==> b.consumer == a.consumer && b.tail == a.tail && b.drained == a.drained
  {
    var steps :| RunsTo(a, steps, b) && forall i :: 0 <= i < |steps| ==> !Mine(steps[i], who);
    RunPreserves(a, steps, b);
    OthersKeepLocals(a, steps, b, who);
  }
}
