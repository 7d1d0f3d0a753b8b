/**
 The descriptors of the block driver's virtqueue as lists (kernel/drivers/virtio_blk.c):
 free, in the chains of requests in flight, or lost, and the next flag of each.

 The driver allocates three at a time, fills them in and frees by following the flags,
 which on an error path (virtio_blk.c:226-229) are those of an earlier request. What
 follows says, over every run, that the walk stops inside the chain, when nothing is
 lost, and how much is.
 */
module Descriptors {
  // ----- lists of descriptors

  /** Consecutive elements are linked by next; what the last one's next says does not matter. */
  ghost predicate Linked(next: seq<nat>, c: seq<nat>) {
    && (forall i :: 0 <= i < |c| ==> c[i] < |next|)
    && (forall i :: 0 <= i < |c| - 1 ==> next[c[i]] == c[i + 1])
  }

  ghost function Bag(flight: seq<seq<nat>>): multiset<nat> {
    if flight == [] then multiset{} else multiset(flight[0]) + Bag(flight[1..])
  }

  /** Every descriptor is in exactly one place. */
  ghost predicate Partition(size: nat, free: seq<nat>, flight: seq<seq<nat>>, lost: seq<nat>) {
    forall d: nat :: multiset(free)[d] + Bag(flight)[d] + multiset(lost)[d] == if d < size then 1 else 0
  }

  ghost predicate AllLinked(next: seq<nat>, flight: seq<seq<nat>>) {
    forall k :: 0 <= k < |flight| ==> flight[k] != [] && Linked(next, flight[k])
  }

  function Without(flight: seq<seq<nat>>, k: nat): seq<seq<nat>>
    requires k < |flight|
  {
    flight[..k] + flight[k + 1..]
  }

  lemma ChainLinked(next: seq<nat>, flight: seq<seq<nat>>, k: nat)
    requires AllLinked(next, flight) && k < |flight|
    ensures Linked(next, flight[k])
  {
  }

  lemma LinkedThree(next: seq<nat>, flight: seq<seq<nat>>, k: nat)
    requires AllLinked(next, flight) && k < |flight| && |flight[k]| == 3
    ensures flight[k][0] < |next| && next[flight[k][0]] == flight[k][1]
    ensures flight[k][1] < |next| && next[flight[k][1]] == flight[k][2]
  {
    assert Linked(next, flight[k]);
  }

  lemma WithoutLess(flight: seq<seq<nat>>, k: nat)
    requires k < |flight|
    ensures |Without(flight, k)| == |flight| - 1
  {
  }

  lemma WithoutTail(flight: seq<seq<nat>>, k: nat)
    requires 0 < k < |flight|
    ensures Without(flight, k) != [] && Without(flight, k)[0] == flight[0]
    ensures Without(flight, k)[1..] == Without(flight[1..], k - 1)
  {
  }

  lemma {:induction false} BagWithout(flight: seq<seq<nat>>, k: nat)
    requires k < |flight|
    ensures Bag(flight) == Bag(Without(flight, k)) + multiset(flight[k])
  {
    if k == 0 {
      assert Without(flight, 0) == flight[1..];
    } else {
      BagWithout(flight[1..], k - 1);
      WithoutTail(flight, k);
      hide Without;
    }
  }

  lemma BagAdd(flight: seq<seq<nat>>, c: seq<nat>)
    ensures Bag(flight + [c]) == Bag(flight) + multiset(c)
  {
    BagWithout(flight + [c], |flight|);
    assert Without(flight + [c], |flight|) == flight;
  }

  lemma BagHolds(flight: seq<seq<nat>>, k: nat, x: nat)
    requires k < |flight| && x in flight[k]
    ensures Bag(flight)[x] > 0
  {
    BagWithout(flight, k);
    assert x in multiset(flight[k]);
  }

  lemma Placed(size: nat, free: seq<nat>, flight: seq<seq<nat>>, lost: seq<nat>, d: nat)
    requires Partition(size, free, flight, lost)
    ensures multiset(free)[d] + Bag(flight)[d] + multiset(lost)[d] == if d < size then 1 else 0
  {
  }

  /** A descriptor of one chain is in no other, and not free. */
  lemma Apart(size: nat, free: seq<nat>, flight: seq<seq<nat>>, lost: seq<nat>, k: nat, x: nat)
    requires Partition(size, free, flight, lost) && k < |flight| && x in flight[k]
    ensures x !in free && x !in lost && x < size
    ensures x !in Bag(Without(flight, k))
    ensures forall m :: 0 <= m < |flight| && m != k ==> x !in flight[m]
  {
    hide Partition, Bag;
    BagWithout(flight, k);
    assert x in multiset(flight[k]);
    Placed(size, free, flight, lost, x);
    assert x !in multiset(free) && x !in multiset(lost);
    var rest := Without(flight, k);
    forall m | 0 <= m < |flight| && m != k
      ensures x !in flight[m]
    {
      var n := if m < k then m else m - 1;
      assert rest[n] == flight[m];
      if x in rest[n] {
        BagHolds(rest, n, x);
      }
    }
  }

  /** A chain has no descriptor twice. */
  lemma ChainDistinct(size: nat, free: seq<nat>, flight: seq<seq<nat>>, lost: seq<nat>, k: nat, i: nat, j: nat)
    requires Partition(size, free, flight, lost) && k < |flight| && i < j < |flight[k]|
    ensures flight[k][i] != flight[k][j]
  {
    BagWithout(flight, k);
    var c := flight[k];
    Placed(size, free, flight, lost, c[j]);
    assert c == c[..j] + [c[j]] + c[j + 1..];
    assert c[i] in multiset(c[..j]) by { assert c[..j][i] == c[i]; }
    assert multiset(c) == multiset(c[..j]) + multiset{c[j]} + multiset(c[j + 1..]);
  }

  /** free + in flight + lost is the size of the queue. */
  lemma Counted(size: nat, free: seq<nat>, flight: seq<seq<nat>>, lost: seq<nat>)
    requires Partition(size, free, flight, lost)
    ensures |free| + |Bag(flight)| + |lost| == size
  {
    var all := multiset(free) + Bag(flight) + multiset(lost);
    forall d: nat
      ensures all[d] == if d < size then 1 else 0
    {
      Placed(size, free, flight, lost, d);
    }
    Count(all, size);
  }

  lemma {:induction false} Count(m: multiset<nat>, size: nat)
    requires forall d: nat :: m[d] == if d < size then 1 else 0
    ensures |m| == size
  {
    if size == 0 {
      assert m == multiset{};
    } else {
      Count(m - multiset{size - 1}, size - 1);
    }
  }

  /** Storing into the next field of x leaves a list without x, or with x last, linked. */
  lemma StoreLinked(next: seq<nat>, c: seq<nat>, x: nat, v: nat)
    requires Linked(next, c) && x < |next|
    requires forall i :: 0 <= i < |c| - 1 ==> c[i] != x
    ensures Linked(next[x := v], c)
  {
  }

  // ----- alloc and free, as list operations

  lemma TakePartition(size: nat, free: seq<nat>, flight: seq<seq<nat>>, lost: seq<nat>, n: nat)
    requires Partition(size, free, flight, lost) && n <= |free|
    ensures Partition(size, free[n..], flight + [free[..n]], lost)
  {
    assert free == free[..n] + free[n..];
    BagAdd(flight, free[..n]);
    hide Bag;
    assert multiset(free) == multiset(free[..n]) + multiset(free[n..]);
    forall d: nat
      ensures multiset(free[n..])[d] + Bag(flight + [free[..n]])[d] + multiset(lost)[d] == if d < size then 1 else 0
    {
      Placed(size, free, flight, lost, d);
    }
  }

  lemma TakeLinked(next: seq<nat>, free: seq<nat>, flight: seq<seq<nat>>, n: nat)
    requires Linked(next, free) && AllLinked(next, flight) && 0 < n <= |free|
    ensures Linked(next, free[n..]) && AllLinked(next, flight + [free[..n]])
  {
    assert Linked(next, free[..n]);
  }

  // ----- the walk along the flags

  predicate Clear(flag: seq<bool>, d: nat) { d < |flag| && !flag[d] }

  /** Where the walk stops: the first clear flag, the length when there is none. */
  function FirstClear(flag: seq<bool>, c: seq<nat>): (j: nat)
    ensures j <= |c| && (j < |c| ==> Clear(flag, c[j])) && forall i :: 0 <= i < j ==> !Clear(flag, c[i])
  {
    if c == [] || Clear(flag, c[0]) then 0 else 1 + FirstClear(flag, c[1..])
  }

  /** What filling leaves: the next flag on all but the last. */
  ghost predicate Whole(flag: seq<bool>, c: seq<nat>) { c != [] && FirstClear(flag, c) == |c| - 1 }

  lemma GivePartition(size: nat, free: seq<nat>, flight: seq<seq<nat>>, lost: seq<nat>, k: nat, n: nat)
    requires Partition(size, free, flight, lost) && k < |flight| && n <= |flight[k]|
    ensures Partition(size, flight[k][..n] + free, Without(flight, k), lost + flight[k][n..])
  {
    var c := flight[k];
    BagWithout(flight, k);
    hide Bag, Without;
    assert c == c[..n] + c[n..];
    assert multiset(c) == multiset(c[..n]) + multiset(c[n..]);
    forall d: nat
      ensures multiset(c[..n] + free)[d] + Bag(Without(flight, k))[d] + multiset(lost + c[n..])[d] ==
                if d < size then 1 else 0
    {
      Placed(size, free, flight, lost, d);
    }
  }

  lemma JoinLinked(next: seq<nat>, c: seq<nat>, free: seq<nat>)
    requires Linked(next, c) && Linked(next, free) && c != [] && (free != [] ==> next[c[|c| - 1]] == free[0])
    ensures Linked(next, c + free)
  {
  }

  lemma GiveLinked(size: nat, next: seq<nat>, head: nat, free: seq<nat>, flight: seq<seq<nat>>, lost: seq<nat>, k: nat,
                   j: nat)
    requires Partition(size, free, flight, lost) && Linked(next, free) && AllLinked(next, flight)
    requires k < |flight| && j < |flight[k]| && (free != [] ==> free[0] == head) && size == |next|
    ensures flight[k][j] < |next|
    ensures var next' := next[flight[k][j] := head];
            Linked(next', flight[k][..j + 1] + free) && AllLinked(next', Without(flight, k))
  {
    var c := flight[k];
    hide Partition, Bag, Linked;
    Apart(size, free, flight, lost, k, c[j]);
    forall i: nat | i < j
      ensures c[i] != c[j]
    {
      ChainDistinct(size, free, flight, lost, k, i, j);
    }
    GiveFront(next, head, free, c, j);
    GiveRest(next, head, flight, k, c[j]);
  }

  lemma GiveFront(next: seq<nat>, head: nat, free: seq<nat>, c: seq<nat>, j: nat)
    requires Linked(next, free) && Linked(next, c) && j < |c| && (free != [] ==> free[0] == head)
    requires c[j] !in free && forall i: nat :: i < j ==> c[i] != c[j]
    ensures c[j] < |next| && Linked(next[c[j] := head], c[..j + 1] + free)
  {
    assert Linked(next, c[..j + 1]) && c[j] < |next|;
    hide Linked;
    StoreLinked(next, free, c[j], head);
    StoreLinked(next, c[..j + 1], c[j], head);
    JoinLinked(next[c[j] := head], c[..j + 1], free);
  }

  lemma GiveRest(next: seq<nat>, head: nat, flight: seq<seq<nat>>, k: nat, x: nat)
    requires AllLinked(next, flight) && k < |flight| && x < |next|
    requires forall m :: 0 <= m < |flight| && m != k ==> x !in flight[m]
    ensures AllLinked(next[x := head], Without(flight, k))
  {
    hide Linked;
    forall m | 0 <= m < |Without(flight, k)|
      ensures Without(flight, k)[m] != [] && Linked(next[x := head], Without(flight, k)[m])
    {
      var n := if m < k then m else m + 1;
      assert Without(flight, k)[m] == flight[n];
      StoreLinked(next, flight[n], x, head);
    }
  }

  /** Ending a chain: the last one's next may be anything. */
  lemma EndLinked(size: nat, next: seq<nat>, free: seq<nat>, flight: seq<seq<nat>>, lost: seq<nat>, k: nat, v: nat)
    requires Partition(size, free, flight, lost) && Linked(next, free) && AllLinked(next, flight)
    requires k < |flight| && size == |next|
    ensures flight[k] != [] && flight[k][|flight[k]| - 1] < |next|
    ensures var next' := next[flight[k][|flight[k]| - 1] := v];
            Linked(next', free) && AllLinked(next', flight)
  {
    var c := flight[k];
    var x := c[|c| - 1];
    Apart(size, free, flight, lost, k, x);
    forall i | 0 <= i < |c| - 1
      ensures c[i] != x
    {
      ChainDistinct(size, free, flight, lost, k, i, |c| - 1);
    }
    hide Partition, Bag;
    StoreLinked(next, free, x, v);
    forall m | 0 <= m < |flight|
      ensures flight[m] != [] && Linked(next[x := v], flight[m])
    {
      StoreLinked(next, flight[m], x, v);
    }
  }

  // ----- the list of a new queue

  /** 0, 1, ... n - 1. */
  function InOrder(n: nat): (r: seq<nat>)
    ensures |r| == n && forall i :: 0 <= i < n ==> r[i] == i
  {
    seq(n, (i: nat) => i)
  }

  lemma {:induction false} OrderCount(n: nat, d: nat)
    ensures multiset(InOrder(n))[d] == if d < n then 1 else 0
  {
    if n > 0 {
      OrderCount(n - 1, d);
      assert InOrder(n) == InOrder(n - 1) + [n - 1];
    }
  }

  lemma OrderPartition(n: nat)
    ensures Partition(n, InOrder(n), [], [])
  {
    forall d: nat
      ensures multiset(InOrder(n))[d] == if d < n then 1 else 0
    {
      OrderCount(n, d);
    }
  }

  // ----- a pool of descriptors and its steps

  /** filled records, for each chain in flight, whether it was filled since it was taken. */
  datatype Pool = Pool(free: seq<nat>, flight: seq<seq<nat>>, filled: seq<bool>, lost: seq<nat>, flag: seq<bool>)

  datatype Op = Take | Fill(k: nat) | Give(k: nat)

  function New(size: nat): Pool {
    Pool(InOrder(size), [], [], [], seq(size, i => false))
  }

  function Set(flag: seq<bool>, d: nat, v: bool): (r: seq<bool>)
    ensures |r| == |flag| && forall e: nat :: Clear(r, e) <==> if e == d then e < |flag| && !v else Clear(flag, e)
  {
    if d < |flag| then flag[d := v] else flag
  }

  /** The flags after filling a chain of three. */
  function FillFlags(flag: seq<bool>, c: seq<nat>): seq<bool> {
    if |c| != 3 then flag else Set(Set(Set(flag, c[0], true), c[1], true), c[2], false)
  }

  /** How many descriptors of the chain the walk gives back. */
  function Returned(flag: seq<bool>, c: seq<nat>): (n: nat)
    ensures n <= |c|
  {
    var j := FirstClear(flag, c);
    if j < |c| then j + 1 else j
  }

  function Apply(p: Pool, op: Op): Pool {
    match op
    case Take =>
      if |p.free| < 3 then p
      else p.(free := p.free[3..], flight := p.flight + [p.free[..3]], filled := p.filled + [false])
    case Fill(k) =>
      if k >= |p.flight| || k >= |p.filled| then p
      else p.(flag := FillFlags(p.flag, p.flight[k]), filled := p.filled[k := true])
    case Give(k) =>
      if k >= |p.flight| || k >= |p.filled| then p
      else
        var c, n := p.flight[k], Returned(p.flag, p.flight[k]);
        p.(free := c[..n] + p.free, flight := Without(p.flight, k),
           filled := p.filled[..k] + p.filled[k + 1..], lost := p.lost + c[n..])
  }

  function After(p: Pool, ops: seq<Op>): Pool
    decreases |ops|
  {
    if ops == [] then p else After(Apply(p, ops[0]), ops[1..])
  }

  // ----- the walk always stops inside the chain

  /** There is a clear flag at place i of the list or at most two further on. */
  ghost predicate Near(flag: seq<bool>, c: seq<nat>, i: nat) {
    i < |c| && (Clear(flag, c[i]) || (i + 1 < |c| && Clear(flag, c[i + 1])) || (i + 2 < |c| && Clear(flag, c[i + 2])))
  }

  ghost predicate Spaced(flag: seq<bool>, c: seq<nat>) {
    forall i :: 0 <= i < |c| ==> Near(flag, c, i)
  }

  /** A chain of three in which the walk stops. */
  ghost predicate Stops(flag: seq<bool>, c: seq<nat>) {
    |c| == 3 && (Clear(flag, c[0]) || Clear(flag, c[1]) || Clear(flag, c[2]))
  }

  ghost predicate AllStop(flag: seq<bool>, flight: seq<seq<nat>>) {
    forall k :: 0 <= k < |flight| ==> Stops(flag, flight[k])
  }

  ghost predicate FilledWhole(p: Pool) {
    |p.filled| == |p.flight| && forall k :: 0 <= k < |p.flight| && p.filled[k] ==> Whole(p.flag, p.flight[k])
  }

  /** The invariant of a driver that takes three at a time. */
  ghost predicate Driven(size: nat, p: Pool) {
    && Partition(size, p.free, p.flight, p.lost) && |p.flag| == size
    && Spaced(p.flag, p.free) && AllStop(p.flag, p.flight) && FilledWhole(p)
  }

  /** Lists with the same flags. */
  ghost predicate SameFlags(flag: seq<bool>, flag': seq<bool>, c: seq<nat>) {
    forall i :: 0 <= i < |c| ==> (Clear(flag, c[i]) <==> Clear(flag', c[i]))
  }

  lemma {:induction false} SameWalk(flag: seq<bool>, flag': seq<bool>, c: seq<nat>)
    requires SameFlags(flag, flag', c)
    ensures FirstClear(flag, c) == FirstClear(flag', c)
  {
  }

  lemma SpacedSame(flag: seq<bool>, flag': seq<bool>, c: seq<nat>)
    requires SameFlags(flag, flag', c) && Spaced(flag, c)
    ensures Spaced(flag', c)
  {
    forall i | 0 <= i < |c|
      ensures Near(flag', c, i)
    {
      assert Near(flag, c, i);
    }
  }

  lemma NewDriven(size: nat)
    ensures Driven(size, New(size)) && New(size).lost == []
  {
    OrderPartition(size);
  }

  lemma SpacedTail(flag: seq<bool>, c: seq<nat>, n: nat)
    requires Spaced(flag, c) && n <= |c|
    ensures Spaced(flag, c[n..])
  {
    forall i | 0 <= i < |c[n..]|
      ensures Near(flag, c[n..], i)
    {
      assert Near(flag, c, n + i);
    }
  }

  lemma TakeDriven(size: nat, p: Pool)
    requires Driven(size, p)
    ensures Driven(size, Apply(p, Take))
  {
    hide Partition, Whole;
    if |p.free| >= 3 {
      TakePartition(size, p.free, p.flight, p.lost, 3);
      SpacedTail(p.flag, p.free, 3);
      var c := p.free[..3];
      assert c[0] == p.free[0] && c[1] == p.free[1] && c[2] == p.free[2];
      assert Near(p.flag, p.free, 0);
      assert Stops(p.flag, c);
    }
  }

  /** Filling leaves the flags of every other list alone. */
  lemma FillApart(size: nat, p: Pool, k: nat)
    requires Partition(size, p.free, p.flight, p.lost) && |p.flag| == size && k < |p.flight| && |p.flight[k]| == 3
    ensures SameFlags(p.flag, FillFlags(p.flag, p.flight[k]), p.free)
    ensures forall m :: 0 <= m < |p.flight| && m != k ==> SameFlags(p.flag, FillFlags(p.flag, p.flight[k]), p.flight[m])
  {
    hide Partition;
    var c := p.flight[k];
    Apart(size, p.free, p.flight, p.lost, k, c[0]);
    Apart(size, p.free, p.flight, p.lost, k, c[1]);
    Apart(size, p.free, p.flight, p.lost, k, c[2]);
  }

  lemma FillsWhole(size: nat, p: Pool, k: nat)
    requires Partition(size, p.free, p.flight, p.lost) && |p.flag| == size && k < |p.flight| && |p.flight[k]| == 3
    ensures Whole(FillFlags(p.flag, p.flight[k]), p.flight[k]) && Stops(FillFlags(p.flag, p.flight[k]), p.flight[k])
  {
    hide Partition;
    ChainDistinct(size, p.free, p.flight, p.lost, k, 0, 2);
    ChainDistinct(size, p.free, p.flight, p.lost, k, 1, 2);
    Apart(size, p.free, p.flight, p.lost, k, p.flight[k][2]);
  }

  lemma FillDriven(size: nat, p: Pool, k: nat)
    requires Driven(size, p)
    ensures Driven(size, Apply(p, Fill(k)))
  {
    if k < |p.flight| {
      var p' := Apply(p, Fill(k));
      FillApart(size, p, k);
      FillsWhole(size, p, k);
      hide Partition, FillFlags, FirstClear;
      SpacedSame(p.flag, p'.flag, p.free);
      forall m | 0 <= m < |p.flight|
        ensures Stops(p'.flag, p.flight[m]) && (p'.filled[m] ==> Whole(p'.flag, p.flight[m]))
      {
        if m != k {
          SameWalk(p.flag, p'.flag, p.flight[m]);
        }
      }
    }
  }

  lemma GiveDriven(size: nat, p: Pool, k: nat)
    requires Driven(size, p)
    ensures Driven(size, Apply(p, Give(k)))
  {
    if k < |p.flight| {
      GivePartition(size, p.free, p.flight, p.lost, k, Returned(p.flag, p.flight[k]));
      hide Partition;
      GiveSpaced(p.flag, p.flight[k], p.free);
    }
  }

  lemma GiveSpaced(flag: seq<bool>, c: seq<nat>, free: seq<nat>)
    requires Stops(flag, c) && Spaced(flag, free)
    ensures Spaced(flag, c[..Returned(flag, c)] + free)
  {
    var j := FirstClear(flag, c);
    var r := c[..j + 1] + free;
    assert r[j] == c[j];
    forall i | 0 <= i < |r|
      ensures Near(flag, r, i)
    {
      if i > j {
        assert Near(flag, free, i - j - 1);
      }
    }
  }

  lemma StepDriven(size: nat, p: Pool, op: Op)
    requires Driven(size, p)
    ensures Driven(size, Apply(p, op))
  {
    hide Driven, Apply;
    match op {
      case Take => TakeDriven(size, p);
      case Fill(k) => FillDriven(size, p, k);
      case Give(k) => GiveDriven(size, p, k);
    }
  }

  /** Over every run: every descriptor is in one place, and no walk leaves its chain. */
  lemma {:induction false} RunDriven(size: nat, p: Pool, ops: seq<Op>)
    requires Driven(size, p)
    ensures Driven(size, After(p, ops))
    decreases |ops|
  {
    hide Driven, Apply;
    if ops != [] {
      StepDriven(size, p, ops[0]);
      RunDriven(size, Apply(p, ops[0]), ops[1..]);
    }
  }

  // ----- when nothing is lost

  lemma {:induction false} BagSize(flight: seq<seq<nat>>)
    requires forall k :: 0 <= k < |flight| ==> |flight[k]| == 3
    ensures |Bag(flight)| == 3 * |flight|
  {
    if flight != [] {
      BagSize(flight[1..]);
    }
  }

  /** free + in flight + lost is the size of the queue, three to a chain. */
  lemma AddsUp(size: nat, p: Pool)
    requires Driven(size, p)
    ensures |p.free| + 3 * |p.flight| + |p.lost| == size
  {
    hide Partition, Spaced, FilledWhole;
    Counted(size, p.free, p.flight, p.lost);
    BagSize(p.flight);
  }

  /** The chain that a step gives back has the flags of a filled one. */
  ghost predicate GivesWhole(p: Pool, op: Op) {
    op.Give? && op.k < |p.flight| ==> Whole(p.flag, p.flight[op.k])
  }

  /** What one step loses: the part of a freed chain behind its first clear flag. */
  lemma StepLoses(size: nat, p: Pool, op: Op)
    requires Driven(size, p)
    ensures p.lost <= Apply(p, op).lost
    ensures |Apply(p, op).lost| ==
            |p.lost| + if op.Give? && op.k < |p.flight| then 2 - FirstClear(p.flag, p.flight[op.k]) else 0
    ensures Apply(p, op).lost == p.lost <==> GivesWhole(p, op)
  {
    hide Partition, Spaced;
    if op.Give? && op.k < |p.flight| {
      assert Stops(p.flag, p.flight[op.k]);
      assert |Apply(p, op).lost| == |p.lost| + 2 - FirstClear(p.flag, p.flight[op.k]);
    }
  }

  ghost predicate RunGivesWhole(p: Pool, ops: seq<Op>)
    decreases |ops|
  {
    ops == [] || (GivesWhole(p, ops[0]) && RunGivesWhole(Apply(p, ops[0]), ops[1..]))
  }

  /** A run loses nothing exactly when every chain it frees has the flags of a filled one at that point. */
  lemma {:induction false} RunLosesNothing(size: nat, p: Pool, ops: seq<Op>)
    requires Driven(size, p)
    ensures p.lost <= After(p, ops).lost
    ensures After(p, ops).lost == p.lost <==> RunGivesWhole(p, ops)
    decreases |ops|
  {
    hide Driven, Apply, GivesWhole;
    if ops != [] {
      StepDriven(size, p, ops[0]);
      StepLoses(size, p, ops[0]);
      RunLosesNothing(size, Apply(p, ops[0]), ops[1..]);
    }
  }

  /** Every free follows its fill. */
  ghost predicate Tidy(p: Pool, ops: seq<Op>)
    decreases |ops|
  {
    ops == [] ||
    ((ops[0].Give? && ops[0].k < |p.flight| && ops[0].k < |p.filled| ==> p.filled[ops[0].k]) &&
     Tidy(Apply(p, ops[0]), ops[1..]))
  }

  /** Then nothing is ever lost: free and in flight are the whole queue after every run. */
  lemma {:induction false} TidyLosesNothing(size: nat, p: Pool, ops: seq<Op>)
    requires Driven(size, p) && p.lost == [] && Tidy(p, ops)
    ensures After(p, ops).lost == []
    ensures |After(p, ops).free| + 3 * |After(p, ops).flight| == size
    decreases |ops|
  {
    hide Partition, Spaced, Apply;
    if ops == [] {
      AddsUp(size, p);
    } else {
      StepDriven(size, p, ops[0]);
      StepLoses(size, p, ops[0]);
      hide Driven;
      TidyLosesNothing(size, Apply(p, ops[0]), ops[1..]);
    }
  }

  // ----- the driver's own runs: one request at a time

  /** A request whose addresses translate is filled, submitted and freed; another is freed as it was taken. */
  datatype Request = Served | Untranslated

  /** virtio_blk_do_request; without three free descriptors it fails and changes nothing. */
  function Handle(p: Pool, r: Request): Pool {
    if |p.free| < 3 then p
    else
      var q := Apply(p, Take);
      Apply(if r == Served then Apply(q, Fill(0)) else q, Give(0))
  }

  function HandleAll(p: Pool, rs: seq<Request>): Pool
    decreases |rs|
  {
    if rs == [] then p else HandleAll(Handle(p, rs[0]), rs[1..])
  }

  /** How many requests failed to translate before the first that was served. */
  function Early(rs: seq<Request>): nat {
    if rs == [] || rs[0] == Served then 0 else 1 + Early(rs[1..])
  }

  /** Between requests, with nothing served yet: all flags clear. */
  ghost predicate Unused(size: nat, p: Pool) {
    Driven(size, p) && p.flight == [] && forall i :: 0 <= i < |p.flag| ==> !p.flag[i]
  }

  /** Between requests, with one served: the list starts with a chain that has the flags of a filled one. */
  ghost predicate Settled(size: nat, p: Pool) {
    Driven(size, p) && p.flight == [] && |p.free| >= 3 && Whole(p.flag, p.free[..3])
  }

  lemma HandleDriven(size: nat, p: Pool, r: Request)
    requires Driven(size, p)
    ensures Driven(size, Handle(p, r))
  {
    hide Driven, Apply;
    var q := Apply(p, Take);
    StepDriven(size, p, Take);
    StepDriven(size, q, Fill(0));
    StepDriven(size, q, Give(0));
    StepDriven(size, Apply(q, Fill(0)), Give(0));
  }

  /** What a request does to a pool without requests in flight. */
  lemma HandleIs(p: Pool, r: Request)
    requires p.flight == [] && p.filled == [] && |p.free| >= 3
    ensures var c, flag := p.free[..3], if r == Served then FillFlags(p.flag, p.free[..3]) else p.flag;
            var n := Returned(flag, c);
            Handle(p, r) == Pool(c[..n] + p.free[3..], [], [], p.lost + c[n..], flag)
  {
    hide Returned, FillFlags;
    assert Apply(p, Take) == p.(free := p.free[3..], flight := [p.free[..3]], filled := [false]);
  }

  /** A failed request on an unused queue gives one descriptor back and loses two. */
  lemma UnusedFails(size: nat, p: Pool)
    requires Unused(size, p) && |p.free| >= 3
    ensures Unused(size, Handle(p, Untranslated))
    ensures |Handle(p, Untranslated).free| == |p.free| - 2 && |Handle(p, Untranslated).lost| == |p.lost| + 2
  {
    HandleDriven(size, p, Untranslated);
    HandleIs(p, Untranslated);
    FreeInTable(size, p, 0);
    hide Partition, Spaced, Handle;
    assert Clear(p.flag, p.free[..3][0]);
  }

  lemma FreeInTable(size: nat, p: Pool, i: nat)
    requires Driven(size, p) && i < |p.free|
    ensures p.free[i] < size
  {
    Placed(size, p.free, p.flight, p.lost, p.free[i]);
    assert p.free[i] in multiset(p.free);
  }

  /** A served request gives all three back, with the flags of a filled chain. */
  lemma ServedSettles(size: nat, p: Pool)
    requires Driven(size, p) && p.flight == [] && |p.free| >= 3
    ensures Settled(size, Handle(p, Served))
    ensures Handle(p, Served).lost == p.lost && |Handle(p, Served).free| == |p.free|
  {
    HandleDriven(size, p, Served);
    HandleIs(p, Served);
    var q := Apply(p, Take);
    StepDriven(size, p, Take);
    assert q.flight == [p.free[..3]];
    FillsWhole(size, q, 0);
    hide Partition, Spaced, Handle, FillFlags, FirstClear;
    var c := p.free[..3];
    assert c[..3] + p.free[3..] == p.free && c[3..] == [] && p.lost + [] == p.lost;
  }

  /** From then on nothing is lost, whether requests are served or not. */
  lemma SettledKept(size: nat, p: Pool, r: Request)
    requires Settled(size, p)
    ensures Settled(size, Handle(p, r)) && Handle(p, r).lost == p.lost && |Handle(p, r).free| == |p.free|
  {
    if r == Served {
      ServedSettles(size, p);
    } else {
      HandleDriven(size, p, r);
      HandleIs(p, r);
      hide Partition, Spaced, Handle, FirstClear;
      var c := p.free[..3];
      assert c[..3] + p.free[3..] == p.free && c[3..] == [] && p.lost + [] == p.lost;
    }
  }

  lemma {:induction false} SettledRuns(size: nat, p: Pool, rs: seq<Request>)
    requires Settled(size, p)
    ensures Settled(size, HandleAll(p, rs)) && HandleAll(p, rs).lost == p.lost && |HandleAll(p, rs).free| == |p.free|
    decreases |rs|
  {
    hide Settled, Handle;
    if rs != [] {
      SettledKept(size, p, rs[0]);
      SettledRuns(size, Handle(p, rs[0]), rs[1..]);
    }
  }

  lemma {:induction false} StuckRuns(p: Pool, rs: seq<Request>)
    requires |p.free| < 3
    ensures HandleAll(p, rs) == p
    decreases |rs|
  {
    if rs != [] {
      StuckRuns(p, rs[1..]);
    }
  }

  /** How many requests of three a list of n can lose to, two at a time. */
  function Lives(n: nat): nat { if n == 0 then 0 else (n - 1) / 2 }

  function Min(a: nat, b: nat): nat { if a < b then a else b }

  lemma {:induction false} UnusedRuns(size: nat, p: Pool, rs: seq<Request>)
    requires Unused(size, p)
    ensures HandleAll(p, rs).flight == []
    ensures |HandleAll(p, rs).lost| == |p.lost| + 2 * Min(Early(rs), Lives(|p.free|))
    ensures |HandleAll(p, rs).free| + |HandleAll(p, rs).lost| == |p.free| + |p.lost|
    decreases |rs|
  {
    hide Driven, Handle;
    if |p.free| < 3 {
      StuckRuns(p, rs);
    } else if rs != [] {
      if rs[0] == Served {
        ServedSettles(size, p);
        SettledRuns(size, Handle(p, Served), rs[1..]);
      } else {
        UnusedFails(size, p);
        UnusedRuns(size, Handle(p, Untranslated), rs[1..]);
      }
    }
  }

  /**
   The driver's losses over every sequence of requests: two descriptors for each one that
   failed to translate before the first that was served, until fewer than three are left.
   The queue is then dead for good; otherwise it never loses another descriptor.
   */
  lemma {:induction false} RequestsLose(size: nat, rs: seq<Request>)
    requires size > 0
    ensures var p := HandleAll(New(size), rs);
            && p.flight == [] && |p.lost| == 2 * Min(Early(rs), Lives(size)) && |p.free| == size - |p.lost|
            && (|p.free| < 3 <==> Early(rs) >= Lives(size))
  {
    hide HandleAll;
    NewDriven(size);
    UnusedRuns(size, New(size), rs);
  }

  /** A queue of eight: three failing requests at the start and it serves none any more. */
  lemma {:induction false} EightDies(rs: seq<Request>)
    ensures HandleAll(New(8), [Untranslated, Untranslated, Untranslated] + rs) ==
              HandleAll(New(8), [Untranslated, Untranslated, Untranslated])
    ensures |HandleAll(New(8), [Untranslated, Untranslated, Untranslated]).free| == 2
  {
    hide HandleAll;
    var us := [Untranslated, Untranslated, Untranslated];
    RequestsLose(8, us);
    assert Early(us) == 3 by { assert us[1..][1..][1..] == []; }
    HandleMore(New(8), us, rs);
    StuckRuns(HandleAll(New(8), us), rs);
  }

  lemma {:induction false} HandleMore(p: Pool, rs: seq<Request>, more: seq<Request>)
    ensures HandleAll(p, rs + more) == HandleAll(HandleAll(p, rs), more)
    decreases |rs|
  {
    hide Handle;
    if rs == [] {
      assert rs + more == more;
    } else {
      assert (rs + more)[0] == rs[0] && (rs + more)[1..] == rs[1..] + more;
      HandleMore(Handle(p, rs[0]), rs[1..], more);
    }
  }
}
