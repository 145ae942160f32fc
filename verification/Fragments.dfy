/** Bytes, fragments and what it means to consume the first n bytes of a list of fragments. */
module Fragments {
  type Byte = x: int | 0 <= x < 256

  const TWO_32: nat := 0x1_0000_0000
  const TWO_64: nat := 0x1_0000_0000_0000_0000

  function Min(a: nat, b: nat): nat { if a < b then a else b }

  /** A contiguous piece of memory handed to a stream's callback. */
  type Fragment = seq<Byte>

  function Flatten<T>(fs: seq<seq<T>>): seq<T> {
    if fs == [] then [] else fs[0] + Flatten(fs[1..])
  }

  lemma {:induction false} FlattenConcat<T>(a: seq<seq<T>>, b: seq<seq<T>>)
    ensures Flatten(a + b) == Flatten(a) + Flatten(b)
  {
    if a == [] {
      assert a + b == b;
    } else {
      assert (a + b)[1..] == a[1..] + b;
      FlattenConcat(a[1..], b);
    }
  }

  lemma Associative<T>(a: seq<T>, b: seq<T>, c: seq<T>)
    ensures a + (b + c) == a + b + c
  {
  }

  lemma FlattenSingle<T>(f: seq<T>)
    ensures Flatten([f]) == f
  {
    assert [f][1..] == [];
  }

  lemma FlattenPush<T>(fs: seq<seq<T>>, f: seq<T>)
    ensures Flatten(fs + [f]) == Flatten(fs) + f
  {
    FlattenConcat(fs, [f]);
    FlattenSingle(f);
  }

  /** Fragment list left when iteration stops `position` bytes into fragment `index`. */
  function SeekTo(fs: seq<Fragment>, index: nat, position: nat): seq<Fragment>
    requires index < |fs| && position <= |fs[index]|
  {
    [fs[index][position..]] + fs[index + 1..]
  }

  /** Consuming n bytes walks over every fragment that fits in n and stops inside the first that does not. */
  function After(fs: seq<Fragment>, n: nat): seq<Fragment> {
    if fs == [] then []
    else if n < |fs[0]| then [fs[0][n..]] + fs[1..]
    else After(fs[1..], n - |fs[0]|)
  }

  /** Index of the fragment at which the walk stops; |fs| when it does not stop. */
  function StopIndex(fs: seq<Fragment>, n: nat): (i: nat)
    ensures i <= |fs|
  {
    if fs == [] || n < |fs[0]| then 0 else 1 + StopIndex(fs[1..], n - |fs[0]|)
  }

  /** Bytes of n left over when the walk stops (or has passed every fragment). */
  function StopOffset(fs: seq<Fragment>, n: nat): nat {
    if fs == [] || n < |fs[0]| then n else StopOffset(fs[1..], n - |fs[0]|)
  }

  /** The callback of Consume applied to the fragments of one stream: counts those that fit. */
  method CountFitting(visited: seq<Fragment>, n: nat) returns (index: nat, left: nat)
    ensures index == StopIndex(visited, n) && left == StopOffset(visited, n)
  {
    index, left := 0, n;
    while index < |visited|
      invariant index <= |visited|
      invariant index + StopIndex(visited[index..], left) == StopIndex(visited, n)
      invariant StopOffset(visited[index..], left) == StopOffset(visited, n)
    {
      if left < |visited[index]| {
        return;
      }
      assert visited[index..][1..] == visited[index + 1..];
      left := left - |visited[index]|;
      index := index + 1;
    }
  }

  lemma {:induction false} StopAccounts(fs: seq<Fragment>, n: nat)
    ensures var i, p := StopIndex(fs, n), StopOffset(fs, n);
            && n == |Flatten(fs[..i])| + p
            && (i < |fs| ==> p < |fs[i]| && After(fs, n) == SeekTo(fs, i, p))
            && (i == |fs| <==> n >= |Flatten(fs)|)
            && (i == |fs| <==> After(fs, n) == [])
  {
    if fs == [] {
    } else if n < |fs[0]| {
    } else {
      StopAccounts(fs[1..], n - |fs[0]|);
      var i := StopIndex(fs, n);
      assert fs[..i][1..] == fs[1..][..i - 1];
    }
  }

  /** What remains after n bytes is the byte string with its first n bytes removed. */
  lemma {:induction false} AfterDropsBytes(fs: seq<Fragment>, n: nat)
    ensures Flatten(After(fs, n)) == if n >= |Flatten(fs)| then [] else Flatten(fs)[n..]
  {
    if fs == [] {
    } else if n < |fs[0]| {
      assert ([fs[0][n..]] + fs[1..])[1..] == fs[1..];
      assert Flatten(fs)[n..] == fs[0][n..] + Flatten(fs[1..]);
    } else {
      AfterDropsBytes(fs[1..], n - |fs[0]|);
    }
  }

  /** Successive consumptions compose. */
  lemma {:induction false} AfterComposes(fs: seq<Fragment>, a: nat, b: nat)
    ensures After(After(fs, a), b) == After(fs, a + b)
  {
    if fs == [] {
    } else if a < |fs[0]| {
      var g := [fs[0][a..]] + fs[1..];
      assert g[1..] == fs[1..];
      if b < |g[0]| {
        assert fs[0][a..][b..] == fs[0][a + b..];
      }
    } else {
      AfterComposes(fs[1..], a - |fs[0]|, b);
    }
  }

  /** Byte count of the first k streams of a list. */
  function TotalUpTo(ss: seq<seq<Fragment>>, k: nat): nat
    requires k <= |ss|
  {
    if k == 0 then 0 else TotalUpTo(ss, k - 1) + |Flatten(ss[k - 1])|
  }

  function Total(ss: seq<seq<Fragment>>): nat {
    TotalUpTo(ss, |ss|)
  }

  lemma {:induction false} TotalFront(ss: seq<seq<Fragment>>, k: nat)
    requires k < |ss|
    ensures TotalUpTo(ss, k + 1) == |Flatten(ss[0])| + TotalUpTo(ss[1..], k)
  {
    if k > 0 {
      TotalFront(ss, k - 1);
    }
  }

  lemma {:induction false} TotalIsFlattened(ss: seq<seq<Fragment>>)
    ensures Total(ss) == |Flatten(Flatten(ss))|
  {
    if ss != [] {
      FlattenConcat(ss[0], Flatten(ss[1..]));
      TotalFront(ss, |ss| - 1);
      TotalIsFlattened(ss[1..]);
    }
  }

  lemma {:induction false} TotalGrows(ss: seq<seq<Fragment>>, j: nat, k: nat)
    requires j <= k <= |ss|
    ensures TotalUpTo(ss, j) <= TotalUpTo(ss, k)
  {
    if j < k {
      TotalGrows(ss, j, k - 1);
    }
  }

  /** Remaining fragments of each stream of a list after the list has been consumed by n bytes:
      streams before the stopping point are emptied, streams behind it are untouched. */
  function ConsumeAll(ss: seq<seq<Fragment>>, n: nat): (r: seq<seq<Fragment>>)
    ensures |r| == |ss|
  {
    if ss == [] then []
    else if n < |Flatten(ss[0])| then [After(ss[0], n)] + ss[1..]
    else [[]] + ConsumeAll(ss[1..], n - |Flatten(ss[0])|)
  }

  lemma {:induction false} ConsumeAllDropsBytes(ss: seq<seq<Fragment>>, n: nat)
    ensures var before, left := Flatten(Flatten(ss)), Flatten(Flatten(ConsumeAll(ss, n)));
            left == if n >= |before| then [] else before[n..]
  {
    if ss == [] {
    } else {
      FlattenConcat(ss[0], Flatten(ss[1..]));
      var r := ConsumeAll(ss, n);
      if n < |Flatten(ss[0])| {
        AfterDropsBytes(ss[0], n);
        assert r[1..] == ss[1..];
        FlattenConcat(r[0], Flatten(ss[1..]));
      } else {
        var m := n - |Flatten(ss[0])|;
        assert r[1..] == ConsumeAll(ss[1..], m);
        FlattenConcat(r[0], Flatten(r[1..]));
        ConsumeAllDropsBytes(ss[1..], m);
      }
    }
  }

  /** Streams behind the stopping point keep their fragments; those before it have none left. */
  lemma {:induction false} ConsumeAllStops(ss: seq<seq<Fragment>>, n: nat, k: nat)
    requires k < |ss|
    ensures var r := ConsumeAll(ss, n);
            && (n >= TotalUpTo(ss, k + 1) ==> r[k] == [])
            && (TotalUpTo(ss, k) <= n < TotalUpTo(ss, k + 1) ==> r[k] == After(ss[k], n - TotalUpTo(ss, k)))
            && (n < TotalUpTo(ss, k) ==> r[k] == ss[k])
  {
    TotalFront(ss, k);
    if k > 0 {
      TotalFront(ss, k - 1);
      if n >= |Flatten(ss[0])| {
        ConsumeAllStops(ss[1..], n - |Flatten(ss[0])|, k - 1);
      }
    }
  }
}
