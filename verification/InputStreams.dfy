/** Streams over an array of fragments and over a list of chains. */
module InputStreams {
  import opened Fragments
  import opened ChainedStreams

  /** Repositioning what an earlier repositioning left. */
  lemma SeekTwice(fs: seq<Fragment>, index: nat, position: nat, more: nat, offset: nat)
    requires index < |fs| && position <= |fs[index]|
    requires more < |SeekTo(fs, index, position)| && offset <= |SeekTo(fs, index, position)[more]|
    ensures index + more < |fs| && (if more == 0 then position + offset else offset) <= |fs[index + more]|
    ensures SeekTo(SeekTo(fs, index, position), more, offset) ==
            SeekTo(fs, index + more, if more == 0 then position + offset else offset)
  {
  }

  // ---- A stream over an array of fragments --------------------------------------------------------

  class FragmentArrayInputStream {
    var fragments: seq<Fragment>
    var fragmentIndex: nat
    var position: nat

    ghost predicate Valid()
      reads this
    {
      fragmentIndex <= |fragments| && (fragmentIndex < |fragments| ==> position <= |fragments[fragmentIndex]|)
    }

    /** Fragments from the cursor to the end. */
    ghost function Remaining(): seq<Fragment>
      requires Valid()
      reads this
    {
      if fragmentIndex == |fragments| then [] else SeekTo(fragments, fragmentIndex, position)
    }

    constructor (fragments: seq<Fragment>)
      ensures Valid() && Remaining() == fragments
    {
      this.fragments, fragmentIndex, position := fragments, 0, 0;
    }

    method Assign(newFragments: seq<Fragment>)
      modifies this
      ensures Valid() && Remaining() == newFragments
    {
      fragments := newFragments;
      fragmentIndex := 0;
      position := 0;
    }

    method NumFragments() returns (count: nat)
      requires Valid()
      ensures count == |Remaining()|
    {
      count := |fragments| - fragmentIndex;
    }

    /** The fragments an iteration visits. */
    method ForEachFragment() returns (visited: seq<Fragment>)
      requires Valid()
      ensures visited == Remaining()
    {
      if fragmentIndex >= |fragments| {
        return [];
      }
      visited := [fragments[fragmentIndex][position..]];
      var i := fragmentIndex + 1;
      while i < |fragments|
        invariant fragmentIndex < i <= |fragments| && visited == Remaining()[..i - fragmentIndex]
      {
        visited := visited + [fragments[i]];
        i := i + 1;
      }
    }

    method Clear()
      requires Valid()
      modifies this
      ensures Valid() && Remaining() == []
    {
      fragmentIndex := 0;
      position := 0;
      fragments := [];
    }

    /** Moves the cursor forward, relative to where it is. */
    method Seek(index: nat, offset: nat)
      requires Valid() && index < |Remaining()| && offset < |Remaining()[index]|
      modifies this
      ensures Valid() && Remaining() == SeekTo(old(Remaining()), index, offset)
    {
      SeekTwice(fragments, fragmentIndex, position, index, offset);
      hide SeekTo;
      if index == 0 {
        position := position + offset;
      } else {
        fragmentIndex := fragmentIndex + index;
        position := offset;
      }
    }
  }

  // ---- A list of chains read as one stream --------------------------------------------------------

  ghost predicate ListOk(nodes: seq<ChainedStream>)
    reads nodes
  {
    nodes != [] && Linked(nodes) && forall i :: 0 <= i < |nodes| ==> nodes[i].Readable()
  }

  /** Fragments of the nodes from index k on. */
  ghost function FragmentsFrom(nodes: seq<ChainedStream>, k: nat): seq<Fragment>
    requires k <= |nodes| && forall i :: k <= i < |nodes| ==> nodes[i].Readable()
    reads nodes[k..]
    decreases |nodes| - k
  {
    if k == |nodes| then [] else nodes[k].Segment() + FragmentsFrom(nodes, k + 1)
  }

  ghost function ListFragments(nodes: seq<ChainedStream>): seq<Fragment>
    requires forall i :: 0 <= i < |nodes| ==> nodes[i].Readable()
    reads nodes
  {
    FragmentsFrom(nodes, 0)
  }

  /** Nodes without fragments in front do not show. */
  lemma {:induction false} SkipCleared(nodes: seq<ChainedStream>, j: nat, k: nat)
    requires j <= k <= |nodes| && forall i :: 0 <= i < |nodes| ==> nodes[i].Readable()
    requires forall i :: j <= i < k ==> nodes[i].Segment() == []
    ensures FragmentsFrom(nodes, j) == FragmentsFrom(nodes, k)
    decreases k - j
  {
    hide ChainedStream.Segment, ChainedStream.Readable;
    if j < k {
      SkipCleared(nodes, j + 1, k);
    }
  }

  lemma NextNode(nodes: seq<ChainedStream>, k: nat)
    requires Linked(nodes) && k < |nodes|
    ensures nodes[k].next == if k + 1 < |nodes| then nodes[k + 1] else null
  {
  }

  lemma SeekJoins(segment: seq<Fragment>, rest: seq<Fragment>, index: nat, position: nat)
    requires index < |segment| && position <= |segment[index]|
    ensures SeekTo(segment + rest, index, position) == SeekTo(segment, index, position) + rest
  {
  }

  lemma SeekSkips(front: seq<Fragment>, rest: seq<Fragment>, index: nat, position: nat)
    requires |front| <= index < |front + rest| && position <= |(front + rest)[index]|
    ensures position <= |rest[index - |front|]|
    ensures SeekTo(front + rest, index, position) == SeekTo(rest, index - |front|, position)
  {
  }

  method ListNumFragments(head: ChainedStream, ghost nodes: seq<ChainedStream>) returns (count: int)
    requires ListOk(nodes) && nodes[0] == head
    ensures count == |ListFragments(nodes)|
  {
    hide Linked, ChainedStream.Segment, ChainedStream.Readable;
    var stream: ChainedStream? := head;
    count := 0;
    ghost var k := 0;
    while stream != null
      invariant k <= |nodes| && stream == if k < |nodes| then nodes[k] else null
      invariant count + |FragmentsFrom(nodes, k)| == |ListFragments(nodes)|
      decreases |nodes| - k
    {
      NextNode(nodes, k);
      var segment := stream.SegmentNumFragments();
      count := count + segment;
      stream := stream.next;
      k := k + 1;
    }
  }

  method ListForEachFragment(head: ChainedStream, ghost nodes: seq<ChainedStream>) returns (visited: seq<Fragment>)
    requires ListOk(nodes) && nodes[0] == head
    ensures visited == ListFragments(nodes)
  {
    hide Linked, SeekTo, ChainedStream.Segment, ChainedStream.Readable;
    var stream: ChainedStream? := head;
    visited := [];
    ghost var k := 0;
    while stream != null
      invariant k <= |nodes| && stream == if k < |nodes| then nodes[k] else null
      invariant visited + FragmentsFrom(nodes, k) == ListFragments(nodes)
      decreases |nodes| - k
    {
      NextNode(nodes, k);
      var segment := stream.SegmentForEachFragment();
      Associative(visited, segment, FragmentsFrom(nodes, k + 1));
      visited := visited + segment;
      stream := stream.next;
      k := k + 1;
    }
  }

  /** Clears one node; the others keep their fragments. */
  method ClearNode(stream: ChainedStream, ghost nodes: seq<ChainedStream>, ghost k: nat)
    requires ListOk(nodes) && k < |nodes| && nodes[k] == stream
    requires forall i :: 0 <= i < k ==> nodes[i].Segment() == []
    modifies stream`numBlocks, stream`numBytesWritten, stream`fragmentIndex, stream`fragmentPosition, stream`currentBlock
    ensures ListOk(nodes) && forall i :: 0 <= i <= k ==> nodes[i].Segment() == []
    ensures FragmentsFrom(nodes, k + 1) == old(FragmentsFrom(nodes, k + 1))
  {
    hide ChainedStream.Segment, ChainedStream.Readable;
    stream.SegmentClear();
  }

  /** Moves the cursor of the node that holds the target fragment, the nodes in front being used up. */
  method SeekNode(stream: ChainedStream, index: nat, position: nat, ghost nodes: seq<ChainedStream>, ghost k: nat)
    requires ListOk(nodes) && k < |nodes| && nodes[k] == stream
    requires forall i :: 0 <= i < k ==> nodes[i].Segment() == []
    requires index < |stream.Segment()| && position <= |stream.Segment()[index]|
    modifies stream`fragmentIndex, stream`fragmentPosition, stream`currentBlock
    ensures ListOk(nodes)
    ensures ListFragments(nodes) == SeekTo(old(stream.Segment()), index, position) + old(FragmentsFrom(nodes, k + 1))
  {
    hide ChainedStream.Segment, ChainedStream.Readable;
    stream.SegmentSeek(index, position);
    SkipCleared(nodes, 0, k);
  }

  method ListClear(head: ChainedStream, ghost nodes: seq<ChainedStream>)
    requires ListOk(nodes) && nodes[0] == head
    modifies nodes
    ensures ListOk(nodes) && ListFragments(nodes) == []
  {
    var stream: ChainedStream? := head;
    ghost var k := 0;
    while stream != null
      invariant k <= |nodes| && stream == if k < |nodes| then nodes[k] else null
      invariant ListOk(nodes) && forall i :: 0 <= i < k ==> nodes[i].Segment() == []
      decreases |nodes| - k
    {
      ClearNode(stream, nodes, k);
      stream := stream.next;
      k := k + 1;
    }
    SkipCleared(nodes, 0, |nodes|);
  }

  lemma FromUnfolds(nodes: seq<ChainedStream>, k: nat)
    requires k < |nodes| && forall i :: 0 <= i < |nodes| ==> nodes[i].Readable()
    ensures FragmentsFrom(nodes, k) == nodes[k].Segment() + FragmentsFrom(nodes, k + 1)
  {
    hide ChainedStream.Segment, ChainedStream.Readable;
  }

  /** Clears the nodes in front of the target fragment and moves the cursor of the node that holds it. */
  method ListSeek(head: ChainedStream, index: nat, position: nat, ghost nodes: seq<ChainedStream>)
    requires ListOk(nodes) && nodes[0] == head
    requires index < |ListFragments(nodes)| && position <= |ListFragments(nodes)[index]|
    modifies nodes
    ensures ListOk(nodes) && ListFragments(nodes) == SeekTo(old(ListFragments(nodes)), index, position)
  {
    hide Linked, SeekTo, FragmentsFrom, ChainedStream.Segment, ChainedStream.Readable;
    ghost var target := SeekTo(ListFragments(nodes), index, position);
    var stream: ChainedStream? := head;
    var fragmentIndex: nat := index;
    ghost var k := 0;
    while stream != null
      invariant k < |nodes| && stream == nodes[k]
      invariant ListOk(nodes) && (forall i :: 0 <= i < k ==> nodes[i].Segment() == [])
      invariant fragmentIndex < |FragmentsFrom(nodes, k)| && position <= |FragmentsFrom(nodes, k)[fragmentIndex]|
      invariant SeekTo(FragmentsFrom(nodes, k), fragmentIndex, position) == target
      decreases |nodes| - k
    {
      NextNode(nodes, k);
      FromUnfolds(nodes, k);
      var count := stream.SegmentNumFragments();
      ghost var rest := FragmentsFrom(nodes, k + 1);
      if fragmentIndex < count {
        SeekJoins(stream.Segment(), rest, fragmentIndex, position);
        SeekNode(stream, fragmentIndex, position, nodes, k);
        return;
      }
      SeekSkips(stream.Segment(), rest, fragmentIndex, position);
      fragmentIndex := fragmentIndex - count;
      NotTheLast(nodes, k, fragmentIndex);
      ClearNode(stream, nodes, k);
      stream := stream.next;
      k := k + 1;
    }
  }

  lemma NotTheLast(nodes: seq<ChainedStream>, k: nat, index: nat)
    requires k < |nodes| && (forall i :: k < i < |nodes| ==> nodes[i].Readable()) && index < |FragmentsFrom(nodes, k + 1)|
    ensures k + 1 < |nodes|
  {
  }
}
