/** The gather-write loop: fragments of several streams are handed to the socket in bounded batches. */
module VectorWrite {
  import opened Fragments
  import opened StreamLists

  /** What one gathering system call reports. */
  datatype Outcome = Accepted(count: nat) | WouldBlock | Failed

  datatype Attempt = Attempt(batch: seq<Fragment>, outcome: Outcome)

  ghost predicate Complete(a: Attempt) { a.outcome == Accepted(|Flatten(a.batch)|) }

  /** A socket that takes an arbitrary prefix of each batch; it logs every attempt. */
  class Socket {
    var sent: seq<Byte>
    ghost var attempts: seq<Attempt>

    constructor ()
      ensures sent == [] && attempts == []
    {
      sent, attempts := [], [];
    }

    method WriteV(batch: seq<Fragment>) returns (outcome: Outcome)
      modifies this
      ensures attempts == old(attempts) + [Attempt(batch, outcome)]
      ensures match outcome
              case Accepted(count) => count <= |Flatten(batch)| && sent == old(sent) + Flatten(batch)[..count]
              case _ => sent == old(sent)
    {
      var bytes, take: int, kind: int := Flatten(batch), *, *;
      outcome := if kind == 0 then WouldBlock else if kind == 1 then Failed
                 else Accepted(if 0 <= take <= |bytes| then take else |bytes|);
      if outcome.Accepted? {
        sent := sent + bytes[..outcome.count];
      }
      attempts := attempts + [Attempt(batch, outcome)];
    }
  }

  /** The locals of Write together with the two closures over them. */
  class Gatherer {
    const socket: Socket
    const fragments: array<Fragment>
    var fragmentCount: nat
    var numBytesWritten: nat
    var batchNumBytes: nat
    var error: bool
    var blocked: bool

    /** All fragments passed to DoFragment so far, and what the socket held before the first of them. */
    ghost var offered: seq<Fragment>
    ghost const sentBefore: seq<Byte>
    ghost const attemptsBefore: seq<Attempt>

    ghost function Batch(): seq<Fragment>
      requires fragmentCount <= fragments.Length
      reads this, fragments
    {
      fragments[..fragmentCount]
    }

    ghost predicate Valid()
      reads this, fragments, socket
    {
      && fragmentCount < fragments.Length && batchNumBytes == |Flatten(Batch())|
      && (error || blocked ==> fragmentCount == 0)
      && |Batch()| <= |offered| && Batch() == offered[|offered| - fragmentCount..]
      && numBytesWritten <= |Flatten(offered)|
      && (!error && !blocked ==> numBytesWritten + batchNumBytes == |Flatten(offered)|)
      && socket.sent == sentBefore + Flatten(offered)[..numBytesWritten]
      && AttemptsOk(attemptsBefore, socket.attempts, fragments.Length)
      && AllFull(attemptsBefore, socket.attempts, fragments.Length)
      && (!error && !blocked <==> NoneShort(attemptsBefore, socket.attempts))
      && (error <==> SomeFailed(attemptsBefore, socket.attempts))
    }

    constructor (s: Socket, maxBatchSize: nat)
      requires maxBatchSize > 0
      ensures Valid() && fresh(fragments) && fragments.Length == maxBatchSize && socket == s
      ensures offered == [] && sentBefore == s.sent && attemptsBefore == s.attempts && !error && !blocked
    {
      socket := s;
      fragments := new Fragment[maxBatchSize](i => []);
      fragmentCount, numBytesWritten, batchNumBytes, error, blocked := 0, 0, 0, false, false;
      offered, sentBefore, attemptsBefore := [], s.sent, s.attempts;
    }

    /** Hands the gathered batch to the socket. */
    method DoWrite()
      requires fragmentCount <= fragments.Length && !error && !blocked && batchNumBytes == |Flatten(Batch())|
      requires 0 < |Batch()| <= |offered| && Batch() == offered[|offered| - fragmentCount..]
      requires numBytesWritten + batchNumBytes == |Flatten(offered)|
      requires socket.sent == sentBefore + Flatten(offered)[..numBytesWritten]
      requires AttemptsOk(attemptsBefore, socket.attempts, fragments.Length)
      requires NoneShort(attemptsBefore, socket.attempts)
      requires AllFull(attemptsBefore, socket.attempts, fragments.Length)
      modifies this`numBytesWritten, this`error, this`blocked, socket
      ensures numBytesWritten <= |Flatten(offered)|
      ensures !error && !blocked ==> numBytesWritten == |Flatten(offered)|
      ensures socket.sent == sentBefore + Flatten(offered)[..numBytesWritten]
      ensures AttemptsOk(attemptsBefore, socket.attempts, fragments.Length)
      ensures fragmentCount == fragments.Length ==> AllFull(attemptsBefore, socket.attempts, fragments.Length)
      ensures !error && !blocked <==> NoneShort(attemptsBefore, socket.attempts)
      ensures error <==> SomeFailed(attemptsBefore, socket.attempts)
    {
      hide Flatten, AttemptsOk, NoneShort, SomeFailed, AllFull;
      ghost var front := offered[..|offered| - fragmentCount];
      assert offered == front + Batch();
      FlattenConcat(front, Batch());
      ghost var logged := socket.attempts;
      var outcome := socket.WriteV(fragments[..fragmentCount]);
      Logged(attemptsBefore, logged, Attempt(Batch(), outcome), fragments.Length);
      match outcome
      case WouldBlock => blocked := true;
      case Failed => error := true;
      case Accepted(count) =>
        numBytesWritten := numBytesWritten + count;
        if count < batchNumBytes {
          blocked := true;
        }
    }

    /** Gathers one fragment and writes when the batch is full; false stops the iteration. */
    method DoFragment(fragment: Fragment) returns (proceed: bool)
      requires Valid() && !error && !blocked
      modifies this, fragments, socket
      ensures Valid() && offered == old(offered) + [fragment] && proceed == !(error || blocked)
    {
      ghost var batch, all := Batch(), offered;
      fragments[fragmentCount] := fragment;
      fragmentCount := fragmentCount + 1;
      batchNumBytes := batchNumBytes + |fragment|;
      offered := offered + [fragment];
      assert Batch() == batch + [fragment];
      FlattenPush(batch, fragment);
      FlattenPush(all, fragment);
      assert Flatten(offered)[..numBytesWritten] == Flatten(all)[..numBytesWritten];
      if fragmentCount != fragments.Length {
        return true;
      }
      DoWrite();
      fragmentCount := 0;
      batchNumBytes := 0;
      return !(error || blocked);
    }
  }

  /** The write of the last, partly filled batch. */
  method Finish(g: Gatherer)
    requires g.Valid()
    modifies g, g.socket
    ensures g.numBytesWritten <= |Flatten(g.offered)| && g.offered == old(g.offered)
    ensures old(g.error || g.blocked) ==> g.error || g.blocked
    ensures g.socket.sent == g.sentBefore + Flatten(g.offered)[..g.numBytesWritten]
    ensures AttemptsOk(g.attemptsBefore, g.socket.attempts, g.fragments.Length)
    ensures g.error <==> SomeFailed(g.attemptsBefore, g.socket.attempts)
    ensures NoneShort(g.attemptsBefore, g.socket.attempts) <==> !g.error && !g.blocked
    ensures !g.error && !g.blocked ==> g.numBytesWritten == |Flatten(g.offered)|
  {
    if g.batchNumBytes > 0 {
      g.DoWrite();
    }
  }

  lemma FlattenPrefix(a: seq<Fragment>, b: seq<Fragment>)
    requires a <= b
    ensures Flatten(a) <= Flatten(b)
  {
    FlattenConcat(a, b[|a|..]);
    assert b == a + b[|a|..];
  }

  lemma {:induction false} NothingToConsume(left: seq<seq<Fragment>>)
    requires Flatten(left) == []
    ensures ConsumeAll(left, 0) == left
  {
    if left != [] {
      NothingToConsume(left[1..]);
    }
  }

  // ---- The log of attempts ------------------------------------------------------------------------

  /** New attempts are non-empty batches; all but the last are full and sent completely, and the last is within the bound. */
  ghost predicate AttemptsOk(before: seq<Attempt>, now: seq<Attempt>, bound: nat) {
    && before <= now
    && (forall i :: |before| <= i < |now| ==> 0 < |now[i].batch| <= bound)
    && (forall i :: |before| <= i < |now| - 1 ==> |now[i].batch| == bound && Complete(now[i]))
  }

  ghost predicate AllFull(before: seq<Attempt>, now: seq<Attempt>, bound: nat) {
    forall i :: |before| <= i < |now| ==> |now[i].batch| == bound
  }

  ghost predicate NoneShort(before: seq<Attempt>, now: seq<Attempt>) {
    forall i :: |before| <= i < |now| ==> Complete(now[i])
  }

  ghost predicate SomeFailed(before: seq<Attempt>, now: seq<Attempt>) {
    exists i :: |before| <= i < |now| && now[i].outcome.Failed?
  }

  lemma Logged(before: seq<Attempt>, now: seq<Attempt>, a: Attempt, bound: nat)
    requires AttemptsOk(before, now, bound) && NoneShort(before, now) && AllFull(before, now, bound) && 0 < |a.batch| <= bound
    ensures AttemptsOk(before, now + [a], bound)
    ensures |a.batch| == bound ==> AllFull(before, now + [a], bound)
    ensures Complete(a) <==> NoneShort(before, now + [a])
    ensures SomeFailed(before, now + [a]) <==> a.outcome.Failed?
  {
    assert (now + [a])[|now|] == a;
  }

  // ---- Write --------------------------------------------------------------------------------------

  /** `Thrown` is the exception the source raises after the written bytes were consumed. */
  datatype WriteResult = Done(all: bool) | Thrown

  method CountFragments(streams: seq<StreamRef>, ghost left: seq<seq<Fragment>>) returns (count: nat)
    requires |left| == |streams| && Holds(streams, left)
    ensures count == |Flatten(left)|
  {
    hide Holds;
    count := 0;
    var i := 0;
    while i < |streams|
      invariant Holds(streams, left)
      invariant i <= |streams| && count + |Flatten(left[i..])| == |Flatten(left)|
    {
      var c := NumFragmentsOf(streams, i, left);
      assert left[i..][1..] == left[i + 1..];
      count := count + c;
      i := i + 1;
    }
  }

  /** Passes the fragments of one stream to the closure until it says stop. */
  method OfferFragments(g: Gatherer, visited: seq<Fragment>, ghost rest: seq<Fragment>) returns (proceed: bool)
    requires g.Valid() && !g.error && !g.blocked
    modifies g, g.fragments, g.socket
    ensures g.Valid() && proceed == !(g.error || g.blocked)
    ensures g.offered <= old(g.offered) + (visited + rest)
    ensures proceed ==> g.offered == old(g.offered) + visited
  {
    hide Gatherer.Valid;
    proceed := true;
    var j := 0;
    while j < |visited|
      invariant j <= |visited| && g.Valid() && proceed && !g.error && !g.blocked
      invariant g.offered == old(g.offered) + visited[..j]
    {
      proceed := g.DoFragment(visited[j]);
      j := j + 1;
      if !proceed {
        return;
      }
    }
  }

  method OfferStreams(g: Gatherer, streams: seq<StreamRef>, ghost left: seq<seq<Fragment>>)
    requires |left| == |streams| && Holds(streams, left)
    requires {g, g.fragments, g.socket} !! Footprint(streams)
    requires g.Valid() && !g.error && !g.blocked && g.offered == []
    modifies g, g.fragments, g.socket
    ensures g.Valid() && Holds(streams, left) && g.offered <= Flatten(left)
    ensures !g.error && !g.blocked ==> g.offered == Flatten(left)
  {
    hide Gatherer.Valid, Holds;
    var i := 0;
    while i < |streams|
      invariant i <= |streams| && g.Valid() && Holds(streams, left) && !g.error && !g.blocked
      invariant g.offered + Flatten(left[i..]) == Flatten(left)
    {
      var visited := ForEachOf(streams, i, left);
      assert left[i..][1..] == left[i + 1..];
      Associative(g.offered, visited, Flatten(left[i + 1..]));
      var proceed := OfferFragments(g, visited, Flatten(left[i + 1..]));
      if !proceed {
        return;
      }
      i := i + 1;
    }
  }

  /** Writes the streams to the socket and consumes what was written. With k the number of bytes the socket took, it took
      exactly the first k bytes of all streams in order and the streams are left k bytes further on; every batch but the
      last fills the batch array, which is as long as the system allows and the fragments need, the last fits it, and none
      follows a short or failed one; unless the call throws the result tells whether
      nothing is left. */
  method Write(socket: Socket, streams: seq<StreamRef>, ioVecMax: nat, ghost left: seq<seq<Fragment>>)
    returns (result: WriteResult, ghost k: nat)
    requires ioVecMax > 0 && |left| == |streams| && Holds(streams, left) && socket !in Footprint(streams)
    modifies Footprint(streams), socket
    ensures var bytes := Flatten(Flatten(left)); k <= |bytes| && socket.sent == old(socket.sent) + bytes[..k]
    ensures Holds(streams, ConsumeAll(left, k))
    ensures var n := |Flatten(left)|;
            AttemptsOk(old(socket.attempts), socket.attempts, if ioVecMax < n then ioVecMax else n)
    ensures result == if SomeFailed(old(socket.attempts), socket.attempts) then Thrown else Done(k == Total(left))
    ensures NoneShort(old(socket.attempts), socket.attempts) ==> k == Total(left)
  {
    hide Holds, Gatherer.Valid, ConsumeAll, Complete;
    k := 0;
    TotalIsFlattened(left);
    var numFragments := CountFragments(streams, left);
    if numFragments == 0 {
      NothingToConsume(left);
      return Done(true), 0;
    }
    var g := new Gatherer(socket, if ioVecMax < numFragments then ioVecMax else numFragments);
    OfferStreams(g, streams, left);
    ghost var offered := g.offered;
    Finish(g);
    FlattenPrefix(offered, Flatten(left));
    var written := g.numBytesWritten;
    k := written;
    var all := Consume(streams, written, left);
    result := if g.error then Thrown else Done(all);
  }
}
