/** A chain of fixed-size blocks that is written once and then read through a cursor, and the intrusive list
    that strings such chains together. */
module ChainedStreams {
  import opened Fragments

  const BLOCK_SIZE: nat := 256

  /** `size` is meaningless until the block has been handed out. */
  datatype Block = Block(size: int, data: seq<Byte>)

  ghost predicate BlockOk(b: Block) { |b.data| == 256 && 0 <= b.size <= 256 }

  ghost predicate BlocksOk(bs: seq<Block>) { forall i :: 0 <= i < |bs| ==> BlockOk(bs[i]) }

  /** The used part of every block. */
  ghost function Pieces(bs: seq<Block>): (r: seq<Fragment>)
    requires BlocksOk(bs)
    ensures |r| == |bs|
  {
    seq(|bs|, i requires 0 <= i < |bs| => bs[i].data[..bs[i].size])
  }

  /** When all blocks but the last are full, the pieces concatenate to the addressed bytes in order. */
  lemma {:induction false} PiecesConcatenate(bs: seq<Block>, total: nat, bytes: seq<Byte>)
    requires BlocksOk(bs) && bs != [] && forall i :: 0 <= i < |bs| - 1 ==> bs[i].size == 256
    requires total == 256 * (|bs| - 1) + bs[|bs| - 1].size == |bytes|
    requires forall i :: 0 <= i < total ==> bytes[i] == bs[i / 256].data[i % 256]
    ensures Flatten(Pieces(bs)) == bytes
  {
    var p := Pieces(bs);
    if |bs| == 1 {
      FlattenSingle(p[0]);
      assert p == [p[0]];
    } else {
      assert p[1..] == Pieces(bs[1..]);
      forall i | 0 <= i < total - 256 ensures bytes[256..][i] == bs[1..][i / 256].data[i % 256] {
        assert bytes[i + 256] == bs[(i + 256) / 256].data[(i + 256) % 256];
      }
      PiecesConcatenate(bs[1..], total - 256, bytes[256..]);
      assert p[0] == bytes[..256];
    }
  }

  class ChainedStream {
    var outputClosed: bool
    var numBlocks: nat
    var numBytesWritten: int
    var currentBlockPosition: int
    /** Index of the block the cursor points at; -1 is the null pointer. */
    var currentBlock: int
    var fragmentIndex: int
    var fragmentPosition: int
    /** The head block and every block linked behind it. */
    var blocks: seq<Block>

    var next: ChainedStream?
    var last: ChainedStream?

    /** Bytes that may still be given back by BackUp. */
    ghost var window: nat

    /** The head block starts with whatever was in memory. */
    constructor (memory: Block)
      requires |memory.data| == 256
      ensures Open() && Content() == [] && window == 0
      ensures Linked([this]) && next == null && last == null
    {
      outputClosed, numBlocks, numBytesWritten, currentBlockPosition := false, 1, 0, 0;
      currentBlock, fragmentIndex, fragmentPosition := 0, 0, 0;
      blocks := [memory];
      next, last := null, null;
      window := 0;
    }

    // ---- Writing ------------------------------------------------------------------------------

    /** All blocks but the last are full, and the byte count is the sum of the block sizes. */
    ghost predicate Open()
      reads this
    {
      && !outputClosed && |blocks| == numBlocks > 0 && currentBlock == numBlocks - 1
      && fragmentIndex == 0 && fragmentPosition == 0 && 0 <= window <= currentBlockPosition <= 256
      && (forall i :: 0 <= i < |blocks| ==> |blocks[i].data| == 256)
      && (forall i :: 0 <= i < |blocks| - 1 ==> blocks[i].size == 256)
      && numBytesWritten == 256 * (numBlocks - 1) + currentBlockPosition
      && (numBytesWritten > 0 ==> blocks[numBlocks - 1].size == currentBlockPosition)
    }

    /** The bytes handed out and not given back, as they stand in memory. */
    ghost function Content(): (r: seq<Byte>)
      requires Open()
      reads this
      ensures |r| == numBytesWritten
    {
      seq(numBytesWritten, i requires 0 <= i < numBytesWritten && Open() reads this => blocks[i / 256].data[i % 256])
    }

    function ByteCount(): int
      reads this
    {
      numBytesWritten
    }

    /** Hands out all the space left in the last block, or a new block. */
    method Next(memory: Block) returns (block: nat, offset: nat, size: nat)
      requires Open() && |memory.data| == 256
      modifies this`numBytesWritten, this`currentBlockPosition, this`blocks, this`currentBlock, this`numBlocks, this`window
      ensures Open() && size > 0 && window == size && offset + size == 256 && block == currentBlock
      ensures 256 * block + offset == old(numBytesWritten) && ByteCount() == old(numBytesWritten) + size
      ensures Content()[..old(numBytesWritten)] == old(Content())
      ensures numBlocks == old(numBlocks) + if old(currentBlockPosition) < 256 then 0 else 1
    {
      if currentBlockPosition < BLOCK_SIZE {
        size := BLOCK_SIZE - currentBlockPosition;
        block, offset := currentBlock, currentBlockPosition;
        numBytesWritten := numBytesWritten + size;
        currentBlockPosition := BLOCK_SIZE;
        blocks := blocks[currentBlock := blocks[currentBlock].(size := BLOCK_SIZE)];
        window := size;
        return;
      }
      blocks := blocks + [memory.(size := BLOCK_SIZE)];
      currentBlock := currentBlock + 1;
      currentBlockPosition := BLOCK_SIZE;
      size := BLOCK_SIZE;
      numBytesWritten := numBytesWritten + size;
      block, offset := currentBlock, 0;
      numBlocks := numBlocks + 1;
      window := size;
    }

    /** Gives back the end of what Next handed out. */
    method BackUp(count: nat)
      requires Open() && count <= window
      modifies this`numBytesWritten, this`currentBlockPosition, this`blocks, this`window
      ensures Open() && window == 0 && numBytesWritten == old(numBytesWritten) - count
      ensures Content() == old(Content())[..old(numBytesWritten) - count]
      ensures currentBlockPosition == old(currentBlockPosition) - count
    {
      numBytesWritten := numBytesWritten - count;
      currentBlockPosition := currentBlockPosition - count;
      blocks := blocks[currentBlock := blocks[currentBlock].(size := blocks[currentBlock].size - count)];
      window := 0;
    }

    /** A store through a pointer that Next handed out. */
    method Store(block: nat, offset: nat, bytes: seq<Byte>)
      requires Open() && block < numBlocks && offset + |bytes| <= 256
      requires 256 * block + offset + |bytes| <= numBytesWritten
      modifies this`blocks
      ensures Open()
      ensures var at := 256 * block + offset;
              Content() == old(Content())[..at] + bytes + old(Content())[at + |bytes|..]
    {
      var data := blocks[block].data;
      blocks := blocks[block := blocks[block].(data := data[..offset] + bytes + data[offset + |bytes|..])];
    }

    /** Turns the chain around for reading. A chain that holds at least one byte then reads back exactly the
        bytes written, in as many pieces as it counted blocks. */
    method CloseOutput()
      requires Open()
      modifies this`outputClosed, this`currentBlock
      ensures outputClosed && blocks == old(blocks) && numBlocks == old(numBlocks)
      ensures old(numBytesWritten) > 0 ==>
                && Readable() && Segment() == Pieces(blocks) && |Segment()| == numBlocks
                && Flatten(Segment()) == old(Content())
      ensures old(numBytesWritten) == 0 && BlockOk(blocks[0]) ==> ClosedEmpty()
    {
      ghost var content := Content();
      outputClosed := true;
      currentBlock := 0;
      if numBytesWritten > 0 {
        PiecesConcatenate(blocks, numBytesWritten, content);
        assert Pieces(blocks) == [blocks[0].data[0..blocks[0].size]] + Pieces(blocks[1..]);
      }
    }

    // ---- Reading one segment ------------------------------------------------------------------

    ghost predicate Cleared()
      reads `outputClosed, `numBlocks, `numBytesWritten, `fragmentIndex, `fragmentPosition, `currentBlock, `blocks
    {
      numBlocks == 0 && numBytesWritten == 0 && fragmentIndex == 0 && fragmentPosition == 0 && currentBlock == -1
    }

    /** A closed chain that is either used up or holds at least one byte. */
    ghost predicate Readable()
      reads `outputClosed, `numBlocks, `numBytesWritten, `fragmentIndex, `fragmentPosition, `currentBlock, `blocks
    {
      && outputClosed
      && (Cleared() || (
            && |blocks| == numBlocks > 0 && numBytesWritten > 0 && BlocksOk(blocks)
            && 0 <= currentBlock == fragmentIndex < numBlocks
            && 0 <= fragmentPosition <= blocks[fragmentIndex].size))
    }

    /** Fragments from the cursor to the end of this chain. */
    ghost function Segment(): seq<Fragment>
      requires Readable()
      reads `outputClosed, `numBlocks, `numBytesWritten, `fragmentIndex, `fragmentPosition, `currentBlock, `blocks
    {
      if numBlocks == 0 then []
      else [blocks[fragmentIndex].data[fragmentPosition..blocks[fragmentIndex].size]] + Pieces(blocks[fragmentIndex + 1..])
    }

    /** A chain that was closed without a byte; its block has some size, though nothing was stored in it. */
    ghost predicate ClosedEmpty()
      reads this
    {
      && outputClosed && |blocks| == numBlocks == 1 && numBytesWritten == 0 && BlockOk(blocks[0])
      && currentBlock == 0 && fragmentIndex == 0 && fragmentPosition == 0
    }

    /** For a chain that was closed empty the count is zero although an iteration visits one fragment. */
    method SegmentNumFragments() returns (count: int)
      requires Readable() || ClosedEmpty()
      ensures Readable() ==> count == |Segment()|
      ensures ClosedEmpty() ==> count == 0
    {
      if numBytesWritten == 0 {
        return 0;
      }
      return numBlocks - fragmentIndex;
    }

    /** The fragments an iteration over this chain visits. */
    method SegmentForEachFragment() returns (visited: seq<Fragment>)
      requires Readable() || ClosedEmpty()
      ensures Readable() ==> visited == Segment()
      ensures ClosedEmpty() ==> visited == [blocks[0].data[..blocks[0].size]]
    {
      if numBlocks == 0 {
        return [];
      }
      var block := currentBlock;
      visited := [blocks[block].data[fragmentPosition..blocks[block].size]];
      block := block + 1;
      while block < |blocks|
        invariant fragmentIndex < block <= |blocks|
        invariant Readable() ==> visited == Segment()[..block - fragmentIndex]
        invariant ClosedEmpty() ==> visited == [blocks[0].data[..blocks[0].size]]
      {
        visited := visited + [blocks[block].data[..blocks[block].size]];
        block := block + 1;
      }
    }

    method SegmentClear()
      requires Readable()
      modifies this`numBlocks, this`numBytesWritten, this`fragmentIndex, this`fragmentPosition, this`currentBlock
      ensures Readable() && Segment() == []
    {
      numBlocks := 0;
      numBytesWritten := 0;
      fragmentIndex := 0;
      fragmentPosition := 0;
      currentBlock := -1;
    }

    /** Moves the cursor forward, relative to where it is. */
    method SegmentSeek(index: nat, position: nat)
      requires Readable() && index < |Segment()| && position <= |Segment()[index]|
      modifies this`fragmentIndex, this`fragmentPosition, this`currentBlock
      ensures Readable() && Segment() == SeekTo(old(Segment()), index, position)
    {
      ghost var before := Segment();
      if index == 0 {
        fragmentPosition := fragmentPosition + position;
        return;
      }
      assert before[index] == blocks[fragmentIndex + index].data[..blocks[fragmentIndex + index].size];
      assert before[index + 1..] == Pieces(blocks[fragmentIndex + index + 1..]);
      var i := 0;
      while i < index
        invariant 0 <= i <= index && currentBlock == fragmentIndex + i
        modifies this`currentBlock
      {
        currentBlock := currentBlock + 1;
        i := i + 1;
      }
      fragmentIndex := fragmentIndex + index;
      fragmentPosition := position;
    }

    // ---- The intrusive list --------------------------------------------------------------------

    /** Appends a list of streams to the list that starts here. */
    method Append(stream: ChainedStream, ghost nodes: seq<ChainedStream>, ghost more: seq<ChainedStream>)
      requires Linked(nodes) && nodes[0] == this && Linked(more) && more[0] == stream
      requires forall i, j :: 0 <= i < |nodes| && 0 <= j < |more| ==> nodes[i] != more[j]
      modifies (set c | c in nodes)`next, (set c | c in nodes)`last
      ensures Linked(nodes + more)
      decreases |nodes|, 1
    {
      assert |nodes| > 1 ==> nodes[0].next == nodes[1] && Later(nodes, 0, nodes[0].last);
      if next == null {
        assert nodes == [this];
        next := stream;
        last := stream;
        assert (nodes + more)[1] == stream;
        LinkedPrefix(nodes + more, more, 1);
        return;
      }
      var prevLast := last;
      ghost var j :| 0 < j < |nodes| && nodes[j] == prevLast;
      last := stream;
      AppendBehind(prevLast, stream, nodes, more, j);
    }

    /** The recursive call of Append, on a node further down the list. */
    method AppendBehind(prevLast: ChainedStream, stream: ChainedStream, ghost nodes: seq<ChainedStream>,
                        ghost more: seq<ChainedStream>, ghost j: nat)
      requires 0 < j < |nodes| && nodes[0] == this && nodes[j] == prevLast && Linked(more) && more[0] == stream
      requires forall i, k :: 0 <= i < k < |nodes| ==> nodes[i] != nodes[k]
      requires forall i, j :: 0 <= i < |nodes| && 0 <= j < |more| ==> nodes[i] != more[j]
      requires forall i :: 0 <= i < |nodes| - 1 ==> nodes[i].next == nodes[i + 1]
      requires forall i :: 0 < i < |nodes| - 1 ==> Later(nodes, i, nodes[i].last)
      requires nodes[|nodes| - 1].next == null && last == stream
      modifies (set c | c in nodes[j..])`next, (set c | c in nodes[j..])`last
      ensures Linked(nodes + more)
      decreases |nodes|, 0
    {
      hide Later;
      LinkedSuffix(nodes, j);
      FirstOfMore(nodes, more);
      hide Linked;
      forall i | 0 < i < j ensures Later(nodes + more, i, nodes[i].last) {
        LaterExtends(nodes, more, i, nodes[i].last);
      }
      assert forall i :: 0 <= i < |nodes[j..]| ==> nodes[j..][i] == nodes[j + i];
      assert |nodes[j..]| < |nodes|;
      prevLast.Append(stream, nodes[j..], more);
      Reassemble(nodes, more, j);
    }
  }

  lemma FirstOfMore(nodes: seq<ChainedStream>, more: seq<ChainedStream>)
    requires nodes != [] && more != []
    ensures Later(nodes + more, 0, more[0])
  {
    assert (nodes + more)[|nodes|] == more[0];
  }

  /** The front part of a list in front of a linked rest. */
  lemma Reassemble(nodes: seq<ChainedStream>, more: seq<ChainedStream>, j: nat)
    requires 0 < j < |nodes| && Linked(nodes[j..] + more)
    requires forall i, k :: 0 <= i < k < |nodes| ==> nodes[i] != nodes[k]
    requires forall i, k :: 0 <= i < |nodes| && 0 <= k < |more| ==> nodes[i] != more[k]
    requires forall i :: 0 <= i < j ==> nodes[i].next == nodes[i + 1] && Later(nodes + more, i, nodes[i].last)
    ensures Linked(nodes + more)
  {
    hide Later;
    var all, rest := nodes + more, nodes[j..] + more;
    assert all[j..] == rest;
    forall i, k | 0 <= i < k < |all| ensures all[i] != all[k] {
      if i >= |nodes| {
        assert all[i] == rest[i - j] && all[k] == rest[k - j];
      }
    }
    LinkedPrefix(all, rest, j);
  }

  lemma LaterExtends(nodes: seq<ChainedStream>, more: seq<ChainedStream>, i: nat, target: ChainedStream?)
    requires Later(nodes, i, target)
    ensures Later(nodes + more, i, target)
  {
    var k :| i < k < |nodes| && nodes[k] == target;
    assert (nodes + more)[k] == target;
  }

  /** `next` pointers lead through the nodes; a `last` pointer refers to some later node, not necessarily
      to the last one. */
  ghost predicate Linked(nodes: seq<ChainedStream>)
    reads (set c | c in nodes)`next, (set c | c in nodes)`last
  {
    && nodes != []
    && (forall i, j :: 0 <= i < j < |nodes| ==> nodes[i] != nodes[j])
    && (forall i :: 0 <= i < |nodes| - 1 ==> nodes[i].next == nodes[i + 1] && Later(nodes, i, nodes[i].last))
    && nodes[|nodes| - 1].next == null
  }

  /** `target` is one of the nodes behind index i. */
  ghost predicate Later(nodes: seq<ChainedStream>, i: nat, target: ChainedStream?) {
    exists k :: i < k < |nodes| && nodes[k] == target
  }

  lemma LinkedSuffix(nodes: seq<ChainedStream>, j: nat)
    requires j < |nodes| && forall i, k :: 0 <= i < k < |nodes| ==> nodes[i] != nodes[k]
    requires forall i :: j <= i < |nodes| - 1 ==> nodes[i].next == nodes[i + 1] && Later(nodes, i, nodes[i].last)
    requires nodes[|nodes| - 1].next == null
    ensures Linked(nodes[j..])
  {
    var s := nodes[j..];
    forall i | 0 <= i < |s| - 1 ensures s[i].next == s[i + 1] && Later(s, i, s[i].last) {
      assert Later(nodes, j + i, nodes[j + i].last);
      var k :| j + i < k < |nodes| && nodes[k] == nodes[j + i].last;
      assert s[k - j] == s[i].last;
    }
  }

  /** Nodes in front of a linked list whose own pointers are in order. */
  lemma LinkedPrefix(all: seq<ChainedStream>, rest: seq<ChainedStream>, j: nat)
    requires j < |all| && all[j..] == rest && Linked(rest)
    requires forall i, k :: 0 <= i < k < |all| ==> all[i] != all[k]
    requires forall i :: 0 <= i < j ==> all[i].next == all[i + 1] && Later(all, i, all[i].last)
    ensures Linked(all)
  {
    forall i | 0 <= i < |all| - 1 ensures all[i].next == all[i + 1] && Later(all, i, all[i].last) {
      if i >= j {
        assert rest[i - j] == all[i] && Later(rest, i - j, rest[i - j].last);
        var k :| i - j < k < |rest| && rest[k] == all[i].last;
        assert all[k + j] == all[i].last;
      }
    }
    assert all[|all| - 1] == rest[|rest| - 1];
  }
}
