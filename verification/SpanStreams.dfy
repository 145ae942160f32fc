/** The stream of buffered spans: turning a number of consumed bytes into whole spans plus a remnant. */
module SpanStreams {
  import opened Wrappers
  import opened Fragments

  /** What is left to read of one serialized span. */
  type Chain = seq<Fragment>

  /** A framed span always has a byte to send next. */
  predicate Startable(c: Chain) { c != [] && c[0] != [] }

  function Size(c: Chain): nat { |Flatten(c)| }

  /** The bytes of several spans, one after the other. */
  function Bytes(spans: seq<Chain>): seq<Byte> {
    if spans == [] then [] else Flatten(spans[0]) + Bytes(spans[1..])
  }

  lemma {:induction false} BytesFlatten(spans: seq<Chain>)
    ensures Bytes(spans) == Flatten(Flatten(spans))
  {
    if spans != [] {
      BytesFlatten(spans[1..]);
      FlattenConcat(spans[0], Flatten(spans[1..]));
    }
  }

  lemma {:induction false} BytesConcat(a: seq<Chain>, b: seq<Chain>)
    ensures Bytes(a + b) == Bytes(a) + Bytes(b)
  {
    if a == [] {
      assert a + b == b;
    } else {
      assert (a + b)[1..] == a[1..] + b;
      BytesConcat(a[1..], b);
    }
  }

  // ---- Metrics ------------------------------------------------------------------------------------

  /** `dropped` is the counter that reports take from; the other two are what the observer was told in all. */
  datatype Metrics = Metrics(dropped: nat, observedDropped: nat, observedSent: nat)

  class MetricsTracker {
    var numDroppedSpans: nat
    var observedDropped: nat
    var observedSent: nat

    function View(): Metrics
      reads this
    {
      Metrics(numDroppedSpans, observedDropped, observedSent)
    }

    constructor ()
      ensures View() == Metrics(0, 0, 0)
    {
      numDroppedSpans, observedDropped, observedSent := 0, 0, 0;
    }

    method OnSpansDropped(count: nat)
      modifies this
      ensures View() == old(View()).(dropped := old(numDroppedSpans) + count, observedDropped := old(observedDropped) + count)
    {
      observedDropped := observedDropped + count;
      numDroppedSpans := numDroppedSpans + count;
    }

    method OnSpansSent(count: nat)
      modifies this
      ensures View() == old(View()).(observedSent := old(observedSent) + count)
    {
      observedSent := observedSent + count;
    }

    method ConsumeDroppedSpans() returns (count: nat)
      modifies this
      ensures count == old(numDroppedSpans) && View() == old(View()).(dropped := 0)
    {
      count := numDroppedSpans;
      numDroppedSpans := 0;
    }

    method UnconsumeDroppedSpans(count: nat)
      modifies this
      ensures View() == old(View()).(dropped := old(numDroppedSpans) + count)
    {
      numDroppedSpans := numDroppedSpans + count;
    }
  }

  // ---- Specification ------------------------------------------------------------------------------

  datatype SpanView = SpanView(buffer: seq<Chain>, allotted: nat, remnant: Option<Chain>, metrics: Metrics)

  ghost predicate ViewOk(v: SpanView) {
    v.allotted <= |v.buffer| && forall i :: 0 <= i < |v.buffer| ==> Startable(v.buffer[i])
  }

  /** Number of spans that lie wholly inside the first n bytes. */
  function Whole(spans: seq<Chain>, n: nat): (k: nat)
    ensures k <= |spans|
  {
    if spans == [] || n < Size(spans[0]) then 0 else 1 + Whole(spans[1..], n - Size(spans[0]))
  }

  /** Bytes of the span behind the whole ones that lie inside the first n bytes. */
  function Partial(spans: seq<Chain>, n: nat): nat {
    if spans == [] || n < Size(spans[0]) then n else Partial(spans[1..], n - Size(spans[0]))
  }

  /** Consuming n bytes of the allotment pops and counts the spans wholly inside them; a span that is only partly
      covered is popped too and becomes the remnant, uncounted; on a span boundary nothing more is popped. */
  function Consumed(v: SpanView, n: nat): SpanView
    requires v.allotted <= |v.buffer|
  {
    var spans := v.buffer[..v.allotted];
    var k, m := Whole(spans, n), Partial(spans, n);
    var sent := v.metrics.(observedSent := v.metrics.observedSent + k);
    if k == |spans| || m == 0 then SpanView(v.buffer[k..], 0, None, sent)
    else SpanView(v.buffer[k + 1..], 0, Some(After(spans[k], m)), sent)
  }

  lemma {:induction false} WholeAccounts(spans: seq<Chain>, n: nat)
    ensures var k, m := Whole(spans, n), Partial(spans, n);
            && n == |Bytes(spans[..k])| + m
            && (k < |spans| ==> m < Size(spans[k]))
            && (k == |spans| <==> n >= |Bytes(spans)|)
  {
    if spans != [] && n >= Size(spans[0]) {
      WholeAccounts(spans[1..], n - Size(spans[0]));
      var k := Whole(spans, n);
      assert spans[..k][1..] == spans[1..][..k - 1];
    }
  }

  /** The remnant followed by what is still buffered is what was buffered, from byte n on. */
  lemma ConsumedDropsBytes(v: SpanView, n: nat)
    requires ViewOk(v) && n <= |Bytes(v.buffer[..v.allotted])|
    ensures n <= |Bytes(v.buffer)|
    ensures var r := Consumed(v, n);
            (if r.remnant.Some? then Flatten(r.remnant.value) else []) + Bytes(r.buffer) == Bytes(v.buffer)[n..]
  {
    hide Whole, Partial, Flatten, After, Bytes;
    var spans := v.buffer[..v.allotted];
    var k, m := Whole(spans, n), Partial(spans, n);
    WholeAccounts(spans, n);
    BytesSplit(v.buffer, v.allotted);
    assert spans[..k] == v.buffer[..k];
    BytesSplit(v.buffer, k);
    if k < |spans| && m > 0 {
      AfterDropsBytes(spans[k], m);
      BytesPop(v.buffer, k);
      assert Bytes(v.buffer)[n..] == Bytes(v.buffer[k..])[m..];
    }
  }

  lemma BytesSplit(spans: seq<Chain>, k: nat)
    requires k <= |spans|
    ensures Bytes(spans) == Bytes(spans[..k]) + Bytes(spans[k..])
  {
    assert spans == spans[..k] + spans[k..];
    BytesConcat(spans[..k], spans[k..]);
  }

  lemma BytesPop(spans: seq<Chain>, k: nat)
    requires k < |spans|
    ensures Bytes(spans[k..]) == Flatten(spans[k]) + Bytes(spans[k + 1..])
  {
    assert spans[k..][1..] == spans[k + 1..];
  }

  /** A position inside a fragment is where consuming the bytes in front of it stops. */
  lemma {:induction false} StopUnique(fs: seq<Fragment>, i: nat, p: nat)
    requires i < |fs| && p < |fs[i]|
    ensures var n := |Flatten(fs[..i])| + p; StopIndex(fs, n) == i && StopOffset(fs, n) == p && After(fs, n) == SeekTo(fs, i, p)
  {
    if i > 0 {
      assert fs[..i][1..] == fs[1..][..i - 1];
      StopUnique(fs[1..], i - 1, p);
    }
  }

  // ---- The walk of Seek -----------------------------------------------------------------------------

  /** Span that holds fragment `index` of all spans. */
  function SpanOf(spans: seq<Chain>, index: nat): (k: nat)
    ensures k <= |spans|
  {
    if spans == [] || index < |spans[0]| then 0 else 1 + SpanOf(spans[1..], index - |spans[0]|)
  }

  /** Index of that fragment within its span. */
  function LocalIndex(spans: seq<Chain>, index: nat): nat {
    if spans == [] || index < |spans[0]| then index else LocalIndex(spans[1..], index - |spans[0]|)
  }

  /** The fragment walk finds the same span, and the same place in it, as counting bytes. */
  lemma {:induction false} WalkMeetsBytes(spans: seq<Chain>, index: nat, position: nat)
    requires index < |Flatten(spans)| && position < |Flatten(spans)[index]|
    ensures var k, j, n := SpanOf(spans, index), LocalIndex(spans, index), |Flatten(Flatten(spans)[..index])| + position;
            && k < |spans| && k == Whole(spans, n) && j < |spans[k]| && position < |spans[k][j]|
            && Partial(spans, n) == |Flatten(spans[k][..j])| + position
  {
    var first := spans[0];
    if index < |first| {
      assert Flatten(spans)[..index] == first[..index];
      StopUnique(first, index, position);
      StopAccounts(first, |Flatten(first[..index])| + position);
    } else {
      assert Flatten(spans)[..index] == first + Flatten(spans[1..])[..index - |first|];
      FlattenConcat(first, Flatten(spans[1..])[..index - |first|]);
      WalkMeetsBytes(spans[1..], index - |first|, position);
    }
  }

  lemma PrefixNotEmpty(c: Chain, j: nat)
    requires Startable(c) && j <= |c|
    ensures |Flatten(c[..j])| == 0 <==> j == 0
  {
    if j > 0 {
      assert c[..j][0] == c[0];
    }
  }

  /** Where the walk ends, in terms of the specification of consuming bytes. */
  lemma WalkIsConsumed(v: SpanView, index: nat, position: nat)
    requires ViewOk(v)
    requires var fs := Flatten(v.buffer[..v.allotted]); index < |fs| && position < |fs[index]|
    ensures var spans := v.buffer[..v.allotted];
            var k, j, n := SpanOf(spans, index), LocalIndex(spans, index), |Flatten(Flatten(spans)[..index])| + position;
            var boundary := j == 0 && position == 0;
            && k < |spans| && j < |spans[k]| && position <= |spans[k][j]|
            && Consumed(v, n) == SpanView(
                 v.buffer[if boundary then k else k + 1..], 0,
                 if boundary then None else Some(SeekTo(spans[k], j, position)),
                 v.metrics.(observedSent := v.metrics.observedSent + k))
  {
    hide Whole, Partial, Flatten, After, SpanOf, LocalIndex;
    var spans := v.buffer[..v.allotted];
    var k, j := SpanOf(spans, index), LocalIndex(spans, index);
    WalkMeetsBytes(spans, index, position);
    StopUnique(spans[k], j, position);
    PrefixNotEmpty(spans[k], j);
  }

  /** The walk ends in the last of these spans. */
  predicate SeekableLast(taken: seq<Chain>, index: nat, position: nat) {
    && SpanOf(taken, index) == |taken| - 1 && LocalIndex(taken, index) < |taken[|taken| - 1]|
    && position <= |taken[|taken| - 1][LocalIndex(taken, index)]|
  }

  lemma {:induction false} SpanOfPrefix(spans: seq<Chain>, index: nat, count: nat)
    requires SpanOf(spans, index) <= count <= SpanOf(spans, index) + 1 && count <= |spans|
    ensures SpanOf(spans[..count], index) == SpanOf(spans, index)
    ensures count > SpanOf(spans, index) ==> LocalIndex(spans[..count], index) == LocalIndex(spans, index)
  {
    if spans != [] && index >= |spans[0]| {
      assert spans[..count][1..] == spans[1..][..count - 1];
      SpanOfPrefix(spans[1..], index - |spans[0]|, count - 1);
    }
  }

  // ---- The stream -----------------------------------------------------------------------------------

  class SpanStream {
    /** The ring, as its consumer sees it: the buffered spans in the order in which they were added. */
    var buffer: seq<Chain>
    const metrics: MetricsTracker
    var allotment: nat
    var remnant: Option<Chain>

    ghost function View(): SpanView
      reads this, metrics
    {
      SpanView(buffer, allotment, remnant, metrics.View())
    }

    ghost predicate Valid()
      reads this, metrics
    {
      ViewOk(View())
    }

    constructor (metrics: MetricsTracker)
      ensures Valid() && this.metrics == metrics && View() == SpanView([], 0, None, metrics.View())
    {
      this.metrics := metrics;
      buffer, allotment, remnant := [], 0, None;
    }

    /** Producers add spans, any number of times between two operations of the consumer; that all they do to the buffer is
        to append is lemma StepRefinesQueue of RingProperties. */
    method ProducersRun() returns (ghost late: seq<Chain>)
      requires Valid()
      modifies this
      ensures Valid() && View() == old(View()).(buffer := old(buffer) + late)
    {
      late := [];
    }

    method Allot()
      requires Valid()
      modifies this
      ensures Valid() && View() == old(View()).(allotted := |buffer|)
    {
      allotment := |buffer|;
    }

    method ConsumeRemnant() returns (r: Option<Chain>)
      requires Valid()
      modifies this
      ensures Valid() && r == old(remnant) && View() == old(View()).(remnant := None)
    {
      r := remnant;
      remnant := None;
    }

    /** The fragments an iteration over the allotment visits. */
    method ForEachFragment() returns (visited: seq<Fragment>)
      requires Valid()
      ensures visited == Flatten(buffer[..allotment])
    {
      var range := buffer[..allotment];
      visited := [];
      var i := 0;
      while i < |range|
        invariant i <= |range| && visited + Flatten(range[i..]) == Flatten(range)
      {
        assert range[i..][1..] == range[i + 1..];
        visited := visited + range[i];
        i := i + 1;
      }
    }

    method Clear()
      requires Valid()
      modifies this, metrics
      ensures Valid() && View() == Consumed(old(View()), |Bytes(old(buffer)[..old(allotment)])|)
    {
      WholeAccounts(buffer[..allotment], |Bytes(buffer[..allotment])|);
      remnant := None;
      metrics.OnSpansSent(allotment);
      buffer := buffer[allotment..];
      allotment := 0;
    }

    /** Repositions to fragment `index` of the allotment, `position` bytes into it. */
    method Seek(index: nat, position: nat)
      requires Valid() && var fs := Flatten(buffer[..allotment]); index < |fs| && position < |fs[index]|
      modifies this, metrics
      ensures Valid()
      ensures View() == Consumed(old(View()), |Flatten(Flatten(old(buffer)[..old(allotment)])[..index])| + position)
    {
      hide Consumed, Flatten, SpanOf, LocalIndex, SeekTo, Startable;
      WalkIsConsumed(View(), index, position);
      ghost var range := buffer[..allotment];
      remnant := None;
      // first pass: how many spans are touched, and how many of them completely
      var fullSpanCount, spanCount := CountSpans(index, position);
      // second pass: take the touched spans out of the buffer
      var taken := buffer[..spanCount];
      assert taken == range[..spanCount];
      SpanOfPrefix(range, index, spanCount);
      assert spanCount > fullSpanCount ==> taken[|taken| - 1] == range[fullSpanCount];
      ghost var before := buffer;
      buffer := buffer[spanCount..];
      assert forall i :: 0 <= i < |buffer| ==> buffer[i] == before[i + spanCount];
      remnant := TakeSpans(taken, index, position);
      metrics.OnSpansSent(fullSpanCount);
      allotment := 0;
    }

    method CountSpans(index: nat, position: nat) returns (fullSpanCount: nat, spanCount: nat)
      requires Valid() && var fs := Flatten(buffer[..allotment]); index < |fs| && position < |fs[index]|
      ensures var range := buffer[..allotment];
              && fullSpanCount == SpanOf(range, index) < |range|
              && spanCount == fullSpanCount + if LocalIndex(range, index) == 0 && position == 0 then 0 else 1
    {
      var range := buffer[..allotment];
      WalkMeetsBytes(range, index, position);
      fullSpanCount, spanCount := 0, 0;
      var fragmentIndex := index;
      var i := 0;
      while i < |range|
        invariant i <= |range| && spanCount == i && fragmentIndex >= 0
        invariant i + SpanOf(range[i..], fragmentIndex) == SpanOf(range, index)
        invariant LocalIndex(range[i..], fragmentIndex) == LocalIndex(range, index)
      {
        assert range[i..][1..] == range[i + 1..];
        if |range[i]| <= fragmentIndex {
          fragmentIndex := fragmentIndex - |range[i]|;
          spanCount := spanCount + 1;
        } else {
          fullSpanCount := spanCount;
          if fragmentIndex == 0 && position == 0 {
            return;
          }
          spanCount := spanCount + 1;
          return;
        }
        i := i + 1;
      }
    }

    /** Drops the spans passed over; the one the position falls into is repositioned and kept. */
    method TakeSpans(taken: seq<Chain>, index: nat, position: nat) returns (kept: Option<Chain>)
      requires SpanOf(taken, index) == |taken| || SeekableLast(taken, index, position)
      ensures kept == if SpanOf(taken, index) == |taken| then None
                      else Some(SeekTo(taken[|taken| - 1], LocalIndex(taken, index), position))
    {
      kept := None;
      var fragmentIndex := index;
      var i := 0;
      while i < |taken|
        invariant i <= |taken| && fragmentIndex >= 0 && kept == None
        invariant i + SpanOf(taken[i..], fragmentIndex) == SpanOf(taken, index)
        invariant LocalIndex(taken[i..], fragmentIndex) == LocalIndex(taken, index)
      {
        assert taken[i..][1..] == taken[i + 1..];
        if |taken[i]| <= fragmentIndex {
          fragmentIndex := fragmentIndex - |taken[i]|;
        } else {
          // the span the position falls into is the last one taken
          kept := Some(SeekTo(taken[i], fragmentIndex, position));
          return;
        }
        i := i + 1;
      }
    }
  }
}
