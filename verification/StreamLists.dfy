/** Dropping n bytes across a list of streams of either kind. */
module StreamLists {
  import opened Fragments
  import opened ChainedStreams
  import opened InputStreams

  /** A stream passed by pointer: over an array, or the head of a list of chains together with its nodes. */
  datatype StreamRef =
    | ArrayRef(stream: FragmentArrayInputStream)
    | ListRef(head: ChainedStream, nodes: seq<ChainedStream>)

  ghost function NodeSet(nodes: seq<ChainedStream>): set<object> {
    set c | c in nodes
  }

  ghost function Objects(s: StreamRef): set<object> {
    match s
    case ArrayRef(a) => {a}
    case ListRef(_, nodes) => NodeSet(nodes)
  }

  ghost predicate RefOk(s: StreamRef)
    reads Objects(s)
  {
    match s
    case ArrayRef(a) => a.Valid()
    case ListRef(head, nodes) => ListOk(nodes) && nodes[0] == head
  }

  ghost function Rem(s: StreamRef): seq<Fragment>
    requires RefOk(s)
    reads Objects(s)
  {
    match s
    case ArrayRef(a) => a.Remaining()
    case ListRef(_, nodes) => ListFragments(nodes)
  }

  ghost predicate Separate(ss: seq<StreamRef>) {
    forall i, j :: 0 <= i < j < |ss| ==> Objects(ss[i]) !! Objects(ss[j])
  }

  ghost function Footprint(ss: seq<StreamRef>): set<object> {
    set i, o | 0 <= i < |ss| && o in Objects(ss[i]) :: o
  }

  /** The streams are independent of each other and what is left of the i-th is fs[i]. */
  ghost predicate Holds(ss: seq<StreamRef>, fs: seq<seq<Fragment>>)
    reads Footprint(ss)
  {
    && Separate(ss) && |fs| == |ss|
    && forall i :: 0 <= i < |ss| ==> RefOk(ss[i]) && Rem(ss[i]) == fs[i]
  }

  method NumFragments(s: StreamRef) returns (count: int)
    requires RefOk(s)
    ensures count == |Rem(s)|
  {
    match s
    case ArrayRef(a) => count := a.NumFragments();
    case ListRef(head, nodes) => count := ListNumFragments(head, nodes);
  }

  method ForEachFragment(s: StreamRef) returns (visited: seq<Fragment>)
    requires RefOk(s)
    ensures visited == Rem(s)
  {
    match s
    case ArrayRef(a) => visited := a.ForEachFragment();
    case ListRef(head, nodes) => visited := ListForEachFragment(head, nodes);
  }

  method Clear(s: StreamRef)
    requires RefOk(s)
    modifies Objects(s)
    ensures RefOk(s) && Rem(s) == []
  {
    match s
    case ArrayRef(a) => a.Clear();
    case ListRef(head, nodes) => ListClear(head, nodes);
  }

  method Seek(s: StreamRef, index: nat, position: nat)
    requires RefOk(s) && index < |Rem(s)| && position < |Rem(s)[index]|
    modifies Objects(s)
    ensures RefOk(s) && Rem(s) == SeekTo(old(Rem(s)), index, position)
  {
    hide SeekTo, Linked, ChainedStream.Readable, ListFragments, FragmentArrayInputStream.Remaining;
    match s
    case ArrayRef(a) => a.Seek(index, position);
    case ListRef(head, nodes) => ListSeek(head, index, position, nodes);
  }

  /** Streams in front of k are used up, the k-th was consumed by what is left of n, the others are as before. */
  lemma StoppedAt(before: seq<seq<Fragment>>, after: seq<seq<Fragment>>, n: nat, k: nat)
    requires |after| == |before| && k <= |before| && TotalUpTo(before, k) <= n
    requires forall i :: 0 <= i < k ==> after[i] == []
    requires k < |before| ==> n - TotalUpTo(before, k) < |Flatten(before[k])| && after[k] == After(before[k], n - TotalUpTo(before, k))
    requires forall i :: k < i < |before| ==> after[i] == before[i]
    ensures after == ConsumeAll(before, n)
    ensures k == |before| <==> n >= Total(before)
  {
    hide ConsumeAll, TotalUpTo, After, Flatten;
    var r := ConsumeAll(before, n);
    if k < |before| {
      TotalStep(before, k);
      TotalGrows(before, k + 1, |before|);
    }
    forall i | 0 <= i < |before| ensures after[i] == r[i] {
      ConsumeAllStops(before, n, i);
      if i < k {
        TotalGrows(before, i + 1, k);
      } else if i > k {
        TotalGrows(before, k + 1, i);
      }
    }
  }

  lemma TotalStep(ss: seq<seq<Fragment>>, k: nat)
    requires k < |ss|
    ensures TotalUpTo(ss, k + 1) == TotalUpTo(ss, k) + |Flatten(ss[k])|
  {
  }

  /** Consumes n bytes from the streams in order; true iff nothing is left of any of them. */
  method Consume(streams: seq<StreamRef>, n: nat, ghost before: seq<seq<Fragment>>) returns (all: bool)
    requires |before| == |streams| && Holds(streams, before)
    modifies Footprint(streams)
    ensures Holds(streams, ConsumeAll(before, n))
    ensures all <==> n >= Total(before)
  {
    hide Holds, ConsumeAll, Flatten, SeekTo;
    ghost var now := before;
    var left: nat := n;
    var i := 0;
    while i < |streams|
      invariant i <= |streams| == |now| == |before| && Holds(streams, now)
      invariant forall j :: 0 <= j < i ==> now[j] == []
      invariant forall j :: i <= j < |now| ==> now[j] == before[j]
      invariant n == left + TotalUpTo(before, i)
    {
      var visited := ForEachOf(streams, i, now);
      StopAccounts(visited, left);
      var index, rest := CountFitting(visited, left);
      if index < |visited| {
        SeekOne(streams, i, index, rest, now);
        StoppedAt(before, now[i := SeekTo(now[i], index, rest)], n, i);
        return false;
      }
      assert visited[..index] == visited;
      left := rest;
      ClearOne(streams, i, now);
      now := now[i := []];
      i := i + 1;
    }
    StoppedAt(before, now, n, i);
    return true;
  }

  method NumFragmentsOf(streams: seq<StreamRef>, i: nat, ghost now: seq<seq<Fragment>>) returns (count: nat)
    requires Holds(streams, now) && i < |streams|
    ensures Holds(streams, now) && i < |now| && count == |now[i]|
  {
    hide ListFragments, ListOk, FragmentsFrom, FragmentArrayInputStream.Valid, FragmentArrayInputStream.Remaining;
    count := NumFragments(streams[i]);
  }

  method ForEachOf(streams: seq<StreamRef>, i: nat, ghost now: seq<seq<Fragment>>) returns (visited: seq<Fragment>)
    requires Holds(streams, now) && i < |streams|
    ensures i < |now| && visited == now[i]
  {
    hide ListFragments, ListOk, FragmentsFrom, FragmentArrayInputStream.Valid, FragmentArrayInputStream.Remaining;
    visited := ForEachFragment(streams[i]);
  }

  /** A change to one stream of the list leaves the others alone. */
  method SeekOne(streams: seq<StreamRef>, i: nat, index: nat, position: nat, ghost now: seq<seq<Fragment>>)
    requires Holds(streams, now) && i < |streams| == |now| && index < |now[i]| && position < |now[i][index]|
    modifies Footprint(streams)
    ensures Holds(streams, now[i := SeekTo(now[i], index, position)])
  {
    hide RefOk, Rem, SeekTo;
    Seek(streams[i], index, position);
  }

  method ClearOne(streams: seq<StreamRef>, i: nat, ghost now: seq<seq<Fragment>>)
    requires Holds(streams, now) && i < |streams| == |now|
    modifies Footprint(streams)
    ensures Holds(streams, now[i := []])
  {
    hide RefOk, Rem;
    Clear(streams[i]);
    forall j | 0 <= j < |streams| && j != i ensures RefOk(streams[j]) && Rem(streams[j]) == now[j] {
      assert Objects(streams[i]) !! Objects(streams[j]);
    }
  }
}
