/**
 Circular buffers: the part of an array that starts at head and wraps round.
 Used for the ready ring of the scheduler and the byte ring of a pipe.
 */
module Circular {
  /** Place k after head in an array of n. */
  function Slot(n: nat, head: nat, k: nat): (i: nat)
    requires head < n && k <= n
    ensures i < n
  {
    if head + k < n then head + k else head + k - n
  }

  /** The count elements from head on. */
  function Window<T>(q: seq<T>, head: nat, count: nat): (w: seq<T>)
    requires head < |q| && count <= |q|
    ensures |w| == count
    ensures forall k :: 0 <= k < count ==> w[k] == q[Slot(|q|, head, k)]
  {
    seq(count, k requires 0 <= k < count => q[Slot(|q|, head, k)])
  }

  lemma SlotInjective(n: nat, head: nat, j: nat, k: nat)
    requires head < n && j < n && k < n && Slot(n, head, j) == Slot(n, head, k)
    ensures j == k
  {
  }

  lemma SlotPlus(n: nat, head: nat, j: nat, k: nat)
    requires head < n && j + k <= n
    ensures Slot(n, Slot(n, head, j), k) == Slot(n, head, j + k)
  {
  }

  lemma Push<T>(q: seq<T>, head: nat, count: nat, x: T)
    requires head < |q| && count < |q|
    ensures Window(q[Slot(|q|, head, count) := x], head, count + 1) == Window(q, head, count) + [x]
  {
    var q' := q[Slot(|q|, head, count) := x];
    forall k | 0 <= k < count
      ensures q'[Slot(|q|, head, k)] == q[Slot(|q|, head, k)]
    {
      if Slot(|q|, head, k) == Slot(|q|, head, count) {
        SlotInjective(|q|, head, k, count);
      }
    }
  }

  lemma Drop<T>(q: seq<T>, head: nat, count: nat, n: nat)
    requires head < |q| && n <= count <= |q|
    ensures Window(q, Slot(|q|, head, n), count - n) == Window(q, head, count)[n..]
  {
    forall k | 0 <= k < count - n
      ensures Slot(|q|, Slot(|q|, head, n), k) == Slot(|q|, head, n + k)
    {
      SlotPlus(|q|, head, n, k);
    }
  }

  lemma Store<T>(q: seq<T>, head: nat, count: nat, j: nat, x: T)
    requires head < |q| && j < count <= |q|
    ensures Window(q[Slot(|q|, head, j) := x], head, count) == Window(q, head, count)[j := x]
  {
    var q' := q[Slot(|q|, head, j) := x];
    forall k | 0 <= k < count && k != j
      ensures q'[Slot(|q|, head, k)] == q[Slot(|q|, head, k)]
    {
      if Slot(|q|, head, k) == Slot(|q|, head, j) {
        SlotInjective(|q|, head, k, j);
      }
    }
  }

  lemma Shorter<T>(q: seq<T>, head: nat, count: nat, n: nat)
    requires head < |q| && n <= count <= |q|
    ensures Window(q, head, n) == Window(q, head, count)[..n]
  {
  }

  /** A chunk that does not wrap is a slice. */
  lemma Chunk<T>(q: seq<T>, head: nat, count: nat, n: nat)
    requires head + n <= |q| && n <= count <= |q| && head < |q|
    ensures Window(q, head, count)[..n] == q[head..head + n]
  {
  }

  /** Writing a chunk that does not wrap behind the contents appends it. */
  lemma PushChunk<T>(q: seq<T>, q': seq<T>, head: nat, count: nat, src: seq<T>)
    requires head < |q| && count + |src| <= |q| && count < |q|
    requires var tail := Slot(|q|, head, count);
             tail + |src| <= |q| && q' == q[..tail] + src + q[tail + |src|..]
    ensures Window(q', head, count + |src|) == Window(q, head, count) + src
  {
    var tail := Slot(|q|, head, count);
    assert |q'| == |q|;
    forall k | 0 <= k < count
      ensures q'[Slot(|q|, head, k)] == q[Slot(|q|, head, k)]
    {
      assert Slot(|q|, head, k) < tail || Slot(|q|, head, k) >= tail + |src|;
    }
    forall k | 0 <= k < |src|
      ensures q'[Slot(|q|, head, count + k)] == src[k]
    {
      assert Slot(|q|, head, count + k) == tail + k;
    }
  }
}
