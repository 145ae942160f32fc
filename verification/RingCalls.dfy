/** One call of a producer, from the moment it begins to its return, while all other threads run. */
module RingCalls {
  import opened Wrappers
  import opened RingProtocol
  import opened RingProperties

  /** How a pass of the retry loop ends: with a return, with an exchange that fails spuriously, at a slot that is
      occupied, or because head moved. */
  datatype Pass = Refused | SpuriousSlot | Occupied | SpuriousHead | HeadMoved | Added(number: nat) {
    predicate Failed() { !Refused? && !Added? }
  }

  /** The pass of producer p that this step ends, if any. */
  function PassEnd(a: State, step: Step, p: nat): seq<Pass>
    requires Enabled(a, step)
  {
    match step
    case Test(q) => if q == p && a.producers[p].head - a.producers[p].tail >= a.cap - 1 then [Refused] else []
    case ExchangeSlot(q, weak) =>
      if q != p then [] else if weak then [SpuriousSlot]
      else if a.slots[SlotIndex(a.producers[p].head, a.cap)] != None then [Occupied] else []
    case ExchangeHead(q, weak) =>
      if q != p then [] else if weak then [SpuriousHead]
      else if a.head != a.producers[p].head then [HeadMoved] else [Added(a.head)]
    case _ => []
  }

  /** The passes of producer p that end in a run. */
  function Passes(a: State, steps: seq<Step>, p: nat): seq<Pass>
    decreases |steps|
  {
    if steps == [] || !Enabled(a, steps[0]) then []
    else PassEnd(a, steps[0], p) + Passes(Apply(a, steps[0]), steps[1..], p)
  }

  /** One step while a call of p is under way. */
  lemma CallStep(a: State, step: Step, p: nat)
    requires Inv(a) && Enabled(a, step) && p < |a.producers| && a.producers[p].pc != Idle && step != Return(p)
    ensures var b := Apply(a, step);
            var log := PassEnd(a, step, p);
            && p < |b.producers| && b.producers[p].pc != Idle && b.producers[p].arg == a.producers[p].arg
            && (a.producers[p].pc.Done? ==> log == [] && b.producers[p].pc == a.producers[p].pc)
            && (!a.producers[p].pc.Done? ==> (b.producers[p].pc == Done(true) <==> log == [Added(a.head)])
                                             && (b.producers[p].pc == Done(false) <==> log == [Refused]))
            && |log| <= 1 && (forall pass <- log :: pass.Added? ==> pass == Added(a.head))
            && (log == [Added(a.head)] ==> a.head < |b.added| && b.added[a.head] == a.producers[p].arg)
  {
    assert ProducerOk(a, p);
  }

  /** Between call and return every pass of a producer but the last one fails. The last one publishes if the call is
      going to return true and is refused if it is going to return false; what is published, once, is the element that
      the producer was called with. */
  lemma {:induction false} PublishedOncePerCall(a: State, steps: seq<Step>, b: State, p: nat)
    requires Inv(a) && RunsTo(a, steps, b) && p < |a.producers| && a.producers[p].pc != Idle && Return(p) !in steps
    ensures p < |b.producers| && b.producers[p].pc != Idle && b.producers[p].arg == a.producers[p].arg
    ensures var log := Passes(a, steps, p);
            && (a.producers[p].pc.Done? ==> log == [] && b.producers[p].pc == a.producers[p].pc)
            && (forall i :: 0 <= i < |log| - 1 ==> log[i].Failed())
            && (!a.producers[p].pc.Done? ==>
                  && (b.producers[p].pc == Done(true) <==> log != [] && log[|log| - 1].Added?)
                  && (b.producers[p].pc == Done(false) <==> log != [] && log[|log| - 1].Refused?))
            && forall i :: 0 <= i < |log| && log[i].Added? ==>
                 a.head <= log[i].number < |b.added| && b.added[log[i].number] == a.producers[p].arg
    decreases |steps|
  {
    hide Inv, Apply, Enabled, PassEnd;
    if steps != [] {
      var t := Apply(a, steps[0]);
      CallStep(a, steps[0], p);
      StepPreserves(a, steps[0]);
      StepGrows(a, steps[0]);
      PublishedOncePerCall(t, steps[1..], b, p);
      RunPreserves(t, steps[1..], b);
    }
  }

  // ---- Joining runs ----------------------------------------------------------------------------

  /** These steps lead from a to b; p does not return from its call, and its passes end like this. */
  ghost predicate Goes(a: State, steps: seq<Step>, b: State, p: nat, log: seq<Pass>) {
    RunsTo(a, steps, b) && Return(p) !in steps && Passes(a, steps, p) == log
  }

  lemma {:induction false} RunsJoin(a: State, first: seq<Step>, b: State, second: seq<Step>, c: State, p: nat)
    requires RunsTo(a, first, b) && RunsTo(b, second, c)
    ensures RunsTo(a, first + second, c)
    ensures Passes(a, first + second, p) == Passes(a, first, p) + Passes(b, second, p)
    decreases |first|
  {
    hide Apply, Enabled, PassEnd;
    if first == [] {
      assert first + second == second;
    } else {
      assert (first + second)[1..] == first[1..] + second;
      RunsJoin(Apply(a, first[0]), first[1..], b, second, c, p);
    }
  }

  lemma GoesOn(a: State, first: seq<Step>, b: State, second: seq<Step>, c: State, p: nat, log: seq<Pass>, more: seq<Pass>)
    requires Goes(a, first, b, p, log) && Goes(b, second, c, p, more)
    ensures Goes(a, first + second, c, p, log + more)
    ensures log == [] ==> Goes(a, first + second, c, p, more)
    ensures more == [] ==> Goes(a, first + second, c, p, log)
  {
    hide RunsTo, Passes;
    RunsJoin(a, first, b, second, c, p);
    assert log + [] == log && [] + more == more;
  }

  lemma GoesNowhere(a: State, p: nat)
    ensures Goes(a, [], a, p, [])
  {
  }

  lemma OneStep(a: State, step: Step, p: nat)
    requires Enabled(a, step)
    ensures RunsTo(a, [step], Apply(a, step)) && Passes(a, [step], p) == PassEnd(a, step, p)
  {
    hide Apply, Enabled, PassEnd;
    assert [step][1..] == [];
    assert PassEnd(a, step, p) + [] == PassEnd(a, step, p);
  }

  /** Other threads end no pass of p. */
  lemma {:induction false} OthersEndNoPass(a: State, steps: seq<Step>, b: State, p: nat)
    requires RunsTo(a, steps, b) && forall i :: 0 <= i < |steps| ==> !Mine(steps[i], ProducerThread(p))
    ensures Goes(a, steps, b, p, [])
    decreases |steps|
  {
    hide Apply, Enabled;
    if steps != [] {
      assert !Mine(steps[0], ProducerThread(p));
      OthersEndNoPass(Apply(a, steps[0]), steps[1..], b, p);
    }
  }

  // ---- A whole call ----------------------------------------------------------------------------

  /** Which of the two exchanges of a pass fails spuriously. */
  datatype Weak = Weak(slot: bool, head: bool)

  const STRONG: Weak := Weak(false, false)

  /** A pass whose exchanges fail spuriously as `weak` says can end like this. */
  predicate Explains(weak: Weak, pass: Pass) {
    match pass
    case Refused => true
    case SpuriousSlot => weak.slot
    case Occupied => !weak.slot
    case SpuriousHead => !weak.slot && weak.head
    case HeadMoved => weak == STRONG
    case Added(_) => weak == STRONG
  }

  /** The passes of a call: each one fails for its own reason until one returns, or until as many as there are entries in
      `weak` have failed. */
  predicate Decided(log: seq<Pass>, weak: seq<Weak>, ok: bool, exhausted: bool) {
    && |log| <= |weak| && (forall i :: 0 <= i < |log| ==> Explains(weak[i], log[i]))
    && (forall i :: 0 <= i < |log| - 1 ==> log[i].Failed())
    && (exhausted ==> !ok && |log| == |weak| && (log == [] || log[|log| - 1].Failed()))
    && (!exhausted ==> log != [] && if ok then log[|log| - 1].Added? else log[|log| - 1].Refused?)
  }

  lemma OnePassMore(log: seq<Pass>, weak: seq<Weak>, pass: Pass, next: Weak, ok: bool, retry: bool)
    requires Decided(log, weak, false, true) && Explains(next, pass)
    requires (ok <==> pass.Added?) && (retry <==> pass.Failed())
    ensures Decided(log + [pass], weak + [next], ok, retry)
  {
  }

  lemma LastPass(log: seq<Pass>, weak: seq<Weak>, exhausted: bool)
    requires Decided(log, weak, true, exhausted)
    ensures log != [] && log[|log| - 1].Added? && !exhausted
  {
  }

  /** The call and its passes, as a run from before the call. */
  lemma CallGoes(a: State, e: Element, steps: seq<Step>, b: State, p: nat, log: seq<Pass>)
    requires Enabled(a, Call(p, e)) && Goes(Apply(a, Call(p, e)), steps, b, p, log)
    ensures Goes(a, [Call(p, e)] + steps, b, p, log)
    ensures RunsTo(a, [Call(p, e)] + steps, b) && Passes(a, [Call(p, e)] + steps, p) == log
  {
    hide RunsTo, Passes, Apply, Enabled;
    OneStep(a, Call(p, e), p);
    GoesOn(a, [Call(p, e)], Apply(a, Call(p, e)), steps, b, p, [], log);
    assert [] + log == log;
  }

  /** Returning ends no pass. */
  lemma ReturnEnds(a: State, steps: seq<Step>, b: State, p: nat, log: seq<Pass>)
    requires Goes(a, steps, b, p, log) && Enabled(b, Return(p))
    ensures RunsTo(a, steps + [Return(p)], Apply(b, Return(p))) && Passes(a, steps + [Return(p)], p) == log
  {
    hide RunsTo, Passes, Apply, Enabled;
    OneStep(b, Return(p), p);
    RunsJoin(a, steps, b, [Return(p)], Apply(b, Return(p)), p);
    assert log + [] == log;
  }

  /** What a call publishes, if anything, is its own element. */
  lemma CallPublishes(a: State, e: Element, steps: seq<Step>, b: State, p: nat, log: seq<Pass>)
    requires Inv(a) && p < |a.producers| && a.producers[p].pc == Idle && Enabled(a, Call(p, e))
    requires Goes(Apply(a, Call(p, e)), steps, b, p, log) && log != [] && log[|log| - 1].Added?
    ensures var number := log[|log| - 1].number; a.head <= number < |b.added| && b.added[number] == Some(e)
  {
    var called := Apply(a, Call(p, e));
    assert called.producers[p].arg == Some(e) && called.head == a.head;
    StepPreserves(a, Call(p, e));
    hide Apply, Enabled, Inv, RunsTo, Passes;
    PublishedOncePerCall(called, steps, b, p);
  }
}
