/** A report built from a serialized header, an optional metrics message and the spans added to it. */
module ReportRequests {
  import opened Wrappers
  import opened Fragments
  import opened ChainedStreams
  import opened InputStreams

  /** The fragments of each node, one by one. */
  ghost predicate SegmentsAre(nodes: seq<ChainedStream>, fs: seq<seq<Fragment>>)
    reads nodes
  {
    |fs| == |nodes| && forall i :: 0 <= i < |nodes| ==> nodes[i].Readable() && nodes[i].Segment() == fs[i]
  }

  lemma {:induction false} SegmentsFlatten(nodes: seq<ChainedStream>, fs: seq<seq<Fragment>>, k: nat)
    requires SegmentsAre(nodes, fs) && k <= |nodes|
    ensures FragmentsFrom(nodes, k) == Flatten(fs[k..])
    decreases |nodes| - k
  {
    if k < |nodes| {
      SegmentsFlatten(nodes, fs, k + 1);
      assert fs[k..][1..] == fs[k + 1..];
    }
  }

  lemma {:induction false} Snapshot(nodes: seq<ChainedStream>, k: nat) returns (fs: seq<seq<Fragment>>)
    requires k <= |nodes| && forall i :: 0 <= i < |nodes| ==> nodes[i].Readable()
    ensures |fs| == k && forall i :: 0 <= i < k ==> nodes[i].Segment() == fs[i]
  {
    fs := [];
    if k > 0 {
      fs := Snapshot(nodes, k - 1);
      fs := fs + [nodes[k - 1].Segment()];
    }
  }

  /** Joining two lists concatenates their fragments. */
  method Join(head: ChainedStream, stream: ChainedStream, ghost nodes: seq<ChainedStream>, ghost more: seq<ChainedStream>)
    requires ListOk(nodes) && nodes[0] == head && ListOk(more) && more[0] == stream
    requires forall i, j :: 0 <= i < |nodes| && 0 <= j < |more| ==> nodes[i] != more[j]
    modifies (set c | c in nodes)`next, (set c | c in nodes)`last
    ensures ListOk(nodes + more)
    ensures ListFragments(nodes + more) == old(ListFragments(nodes)) + old(ListFragments(more))
  {
    hide Linked, ChainedStream.Segment, ChainedStream.Readable;
    ghost var fs := Snapshot(nodes, |nodes|);
    ghost var gs := Snapshot(more, |more|);
    SegmentsFlatten(nodes, fs, 0);
    SegmentsFlatten(more, gs, 0);
    FlattenConcat(fs, gs);
    head.Append(stream, nodes, more);
    assert SegmentsAre(nodes + more, fs + gs);
    SegmentsFlatten(nodes + more, fs + gs, 0);
  }

  class ReportRequest {
    const header: Fragment
    /** The metrics message, present only when there are dropped spans to report. */
    const metrics: Option<Fragment>
    const numDroppedSpans: nat
    var numBytes: int
    var numSpans: nat
    var numFragments: int
    var spans: ChainedStream?
    ghost var nodes: seq<ChainedStream>

    ghost predicate Valid()
      reads this, nodes
    {
      && (spans == null <==> nodes == []) && (spans != null ==> ListOk(nodes) && nodes[0] == spans)
      && numBytes == |Flatten(Contents())| && numFragments == |ListFragments(nodes)|
      && (metrics.None? <==> numDroppedSpans == 0)
    }

    /** Header, then metrics, then the spans in the order in which they were added. */
    ghost function Contents(): seq<Fragment>
      requires forall i :: 0 <= i < |nodes| ==> nodes[i].Readable()
      reads this, nodes
    {
      Front() + ListFragments(nodes)
    }

    function Front(): seq<Fragment> {
      [header] + if metrics.Some? then [metrics.value] else []
    }

    constructor (header: Fragment, numDroppedSpans: nat, metricsMessage: Fragment)
      ensures Valid() && numSpans == 0 && nodes == [] && this.numDroppedSpans == numDroppedSpans
      ensures Contents() == [header] + if numDroppedSpans == 0 then [] else [metricsMessage]
    {
      this.header, this.numDroppedSpans := header, numDroppedSpans;
      numSpans, numFragments, spans, nodes := 0, 0, null, [];
      var size := |header|;
      if numDroppedSpans == 0 {
        metrics := None;
      } else {
        metrics := Some(metricsMessage);
        size := size + |metricsMessage|;
      }
      numBytes := size;
      new;
      FlattenSingle(header);
      FlattenConcat([header], [metricsMessage]);
      FlattenSingle(metricsMessage);
    }

    /** Links a span behind those added before. */
    method Link(span: ChainedStream, ghost more: seq<ChainedStream>)
      requires (spans == null <==> nodes == []) && (spans != null ==> ListOk(nodes) && nodes[0] == spans)
      requires ListOk(more) && more[0] == span
      requires forall i, j :: 0 <= i < |nodes| && 0 <= j < |more| ==> nodes[i] != more[j]
      modifies this`spans, this`nodes, nodes
      ensures nodes == old(nodes) + more && spans != null && ListOk(nodes) && nodes[0] == spans
      ensures ListFragments(nodes) == old(ListFragments(nodes)) + old(ListFragments(more))
    {
      hide ListFragments, Linked, ChainedStream.Readable, ChainedStream.Segment;
      if spans == null {
        NoFragments(nodes);
        assert nodes + more == more && [] + ListFragments(more) == ListFragments(more);
        spans := span;
      } else {
        Join(spans, span, nodes, more);
      }
      nodes := nodes + more;
    }

    /** Adds a span, given with the list of chains it heads. */
    method AddSpan(span: ChainedStream, ghost more: seq<ChainedStream>)
      requires Valid() && ListOk(more) && more[0] == span
      requires forall i, j :: 0 <= i < |nodes| && 0 <= j < |more| ==> nodes[i] != more[j]
      modifies this, nodes
      ensures Valid() && nodes == old(nodes) + more
      ensures Contents() == old(Contents()) + old(ListFragments(more))
      ensures numSpans == old(numSpans) + 1
      ensures numBytes == old(numBytes) + |Flatten(old(ListFragments(more)))|
      ensures numFragments == old(numFragments) + |old(ListFragments(more))|
    {
      hide ListFragments, Linked, Flatten, ChainedStream.Readable, ChainedStream.Segment;
      ghost var added, front, before := ListFragments(more), Front(), ListFragments(nodes);
      FlattenConcat(front + before, added);
      Associative(front, before, added);
      numSpans := numSpans + 1;
      var count := ListNumFragments(span, more);
      numFragments := numFragments + count;
      var visited := ListForEachFragment(span, more);
      var length := TotalLength(visited);
      numBytes := numBytes + length;
      Link(span, more);
    }

    /** The fragments an iteration visits. */
    method ForEachFragment() returns (visited: seq<Fragment>)
      requires Valid()
      ensures visited == Contents()
    {
      visited := [header];
      if metrics.Some? {
        visited := visited + [metrics.value];
      }
      if spans == null {
        return;
      }
      var rest := ListForEachFragment(spans, nodes);
      visited := visited + rest;
    }

    /** Copies the report out. `ok` is false where the source terminates the process. */
    method CopyOut(data: array<Byte>) returns (ok: bool)
      requires Valid()
      modifies data
      ensures ok <==> data.Length >= numBytes
      ensures ok ==> data[..numBytes] == Flatten(Contents()) && data[numBytes..] == old(data[numBytes..])
      ensures ok && data.Length == numBytes ==> data[..] == Flatten(Contents())
      ensures !ok ==> data[..] == old(data[..])
    {
      if data.Length < numBytes {
        return false;
      }
      var visited := ForEachFragment();
      CopyFragments(data, visited);
      return true;
    }
  }

  /** Copies fragments one after the other to the front of the buffer. */
  method CopyFragments(data: array<Byte>, all: seq<Fragment>)
    requires |Flatten(all)| <= data.Length
    modifies data
    ensures data[..|Flatten(all)|] == Flatten(all) && data[|Flatten(all)|..] == old(data[|Flatten(all)|..])
  {
    ghost var total := |Flatten(all)|;
    var visited, out: nat := all, 0;
    while visited != []
      invariant out + |Flatten(visited)| == total
      invariant data[..out] + Flatten(visited) == Flatten(all)
      invariant data[total..] == old(data[total..])
    {
      ghost var copied, behind := data[..out], data[total..];
      CopyFragment(data, out, visited[0]);
      assert data[total..] == data[out + |visited[0]|..][total - out - |visited[0]|..] == behind;
      Associative(copied, visited[0], Flatten(visited[1..]));
      out := out + |visited[0]|;
      visited := visited[1..];
    }
  }

  method CopyFragment(data: array<Byte>, out: nat, fragment: Fragment)
    requires out + |fragment| <= data.Length
    modifies data
    ensures data[..out + |fragment|] == old(data[..out]) + fragment
    ensures data[out + |fragment|..] == old(data[out + |fragment|..])
  {
    forall j | 0 <= j < |fragment| {
      data[out + j] := fragment[j];
    }
  }

  lemma NoFragments(nodes: seq<ChainedStream>)
    requires nodes == []
    ensures ListFragments(nodes) == []
  {
  }

  method TotalLength(visited: seq<Fragment>) returns (length: nat)
    ensures length == |Flatten(visited)|
  {
    length := 0;
    var i := 0;
    while i < |visited|
      invariant i <= |visited| && length + |Flatten(visited[i..])| == |Flatten(visited)|
    {
      assert visited[i..][1..] == visited[i + 1..];
      length := length + |visited[i]|;
      i := i + 1;
    }
  }
}
