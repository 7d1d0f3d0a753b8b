/**
 The split virtqueue of the block driver (kernel/drivers/virtio_blk.c): descriptors
 in a table, a free list threaded through their next fields, and the available ring.

 The ghost lists of the class say where every descriptor is: on the free list, in
 a chain that is in flight, or lost. Alloc, Fill and Free take the steps of
 Descriptors.Apply, so what is proved there of every run holds of this queue.
 */
module Virtqueue {
  import opened Arith
  import opened Descriptors

  const INDEX_LIMIT: nat := 65536

  // ----- slots of the available ring

  /** The slot that a 16-bit index gives to the n-th submission, counted from 0. */
  function SlotOf(size: nat, n: nat): nat
    requires size > 0
  {
    Rem(size, n % INDEX_LIMIT)
  }

  lemma IndexAfter(n: nat)
    ensures (n % INDEX_LIMIT + 1) % INDEX_LIMIT == (n + 1) % INDEX_LIMIT
  {
  }

  lemma {:induction false} RemSkips(size: nat, q: nat, x: nat)
    requires size > 0
    ensures Rem(size, Times(q, size) + x) == Rem(size, x)
    decreases q
  {
    if q > 0 {
      RemSkips(size, q - 1, x);
      assert Times(q, size) + x - size == Times(q - 1, size) + x;
    }
  }

  lemma {:induction false} TimesTimes(a: nat, b: nat, c: nat)
    ensures Times(a, Times(b, c)) == Times(a * b, c)
    decreases a
  {
    TimesIsProduct(b, c);
    TimesIsProduct(a, Times(b, c));
    TimesIsProduct(a * b, c);
    assert a * (b * c) == a * b * c;
  }

  /** The n-th submission lands in slot n mod size, for every n across the wrap, exactly when the size divides 65536. */
  lemma SlotsInStep(size: nat)
    requires size > 0
    ensures (forall n: nat :: SlotOf(size, n) == Rem(size, n)) <==> Rem(size, INDEX_LIMIT) == 0
  {
    assert SlotOf(size, INDEX_LIMIT) == Rem(size, 0);
    if Rem(size, INDEX_LIMIT) == 0 {
      forall n: nat
        ensures SlotOf(size, n) == Rem(size, n)
      {
        SlotInStep(size, n);
      }
    }
  }

  lemma SlotInStep(size: nat, n: nat)
    requires size > 0 && Rem(size, INDEX_LIMIT) == 0
    ensures SlotOf(size, n) == Rem(size, n)
  {
    hide Rem, Quot, Times;
    var q := Quot(size, INDEX_LIMIT);
    Split(size, q, 0, INDEX_LIMIT);
    TimesIsProduct(q, size);
    var a := n / INDEX_LIMIT;
    TimesIsProduct(a, INDEX_LIMIT);
    TimesTimes(a, q, size);
    assert n == Times(a * q, size) + n % INDEX_LIMIT;
    RemSkips(size, a * q, n % INDEX_LIMIT);
  }

  /** Every power of two up to 65536 does. */
  lemma PowersOfTwo(size: nat)
    requires size in {1, 2, 4, 8, 16, 32, 64, 128, 256, 512, 1024, 2048, 4096, 8192, 16384, 32768, 65536}
    ensures Rem(size, INDEX_LIMIT) == 0
  {
    QuotRem(size, INDEX_LIMIT);
  }

  /** A queue of three slots loses step at the wrap: submission 65536 goes to slot 0, not 1. */
  lemma ThreeSlots()
    ensures SlotOf(3, INDEX_LIMIT) == 0 && Rem(3, INDEX_LIMIT) == 1
  {
    QuotRem(3, INDEX_LIMIT);
  }

  /** Submissions fewer than size apart have different slots. */
  lemma {:induction false} SlotsApart(size: nat, m: nat, n: nat)
    requires size > 0 && m < n < m + size
    ensures Rem(size, m) != Rem(size, n)
    decreases m
  {
    if m >= size {
      SlotsApart(size, m - size, n - size);
    } else if n >= size {
      assert Rem(size, n) == Rem(size, n - size) == n - size;
    }
  }

  /** The ring holds the last size submissions, the n-th in slot n mod size. */
  ghost predicate Holds(size: nat, ring: seq<nat>, submitted: seq<nat>)
    requires size > 0 && |ring| == size
  {
    forall n :: 0 <= n < |submitted| && |submitted| <= n + size ==> InSlot(size, ring, submitted, n)
  }

  ghost predicate InSlot(size: nat, ring: seq<nat>, submitted: seq<nat>, n: nat)
    requires size > 0 && |ring| == size && n < |submitted|
  {
    Rem(size, n) < size && ring[Rem(size, n)] == submitted[n]
  }

  lemma SubmitHolds(size: nat, ring: seq<nat>, submitted: seq<nat>, idx: nat)
    requires size > 0 && |ring| == size && Holds(size, ring, submitted) && Rem(size, |submitted|) < size
    ensures Holds(size, ring[Rem(size, |submitted|) := idx], submitted + [idx])
  {
    hide Rem;
    var ring', s' := ring[Rem(size, |submitted|) := idx], submitted + [idx];
    forall n | 0 <= n < |s'| && |s'| <= n + size
      ensures InSlot(size, ring', s', n)
    {
      if n < |submitted| {
        assert InSlot(size, ring, submitted, n);
        SlotsApart(size, n, |submitted|);
      }
    }
  }

  // ----- the queue

  class Queue {
    const size: nat
    const next: array<nat>
    const flag: array<bool>
    const ring: array<nat>
    var freeHead: nat
    var numFree: nat
    var availIdx: nat
    ghost var free: seq<nat>
    ghost var flight: seq<seq<nat>>
    ghost var filled: seq<bool>
    ghost var lost: seq<nat>
    ghost var submitted: seq<nat>

    ghost predicate Valid()
      reads this, next, ring
    {
      && 0 < size && next.Length == size && flag.Length == size && ring.Length == size
      && next != ring && freeHead < size && availIdx == |submitted| % INDEX_LIMIT
      && (forall i :: 0 <= i < size ==> next[i] < size)
      && numFree == |free| && (free != [] ==> free[0] == freeHead) && |filled| == |flight|
      && Partition(size, free, flight, lost) && Linked(next[..], free) && AllLinked(next[..], flight)
      && (Rem(size, INDEX_LIMIT) == 0 ==> Holds(size, ring[..], submitted))
    }

    ghost function Contents(): Pool
      reads this, flag
    {
      Pool(free, flight, filled, lost, flag[..])
    }

    /** virtqueue_init: all descriptors are free, in order. */
    constructor (n: nat)
      requires n > 0
      ensures Valid() && size == n && Contents() == New(n) && submitted == []
      ensures fresh(next) && fresh(flag) && fresh(ring)
    {
      size := n;
      next := new nat[n](i => if i < n - 1 then i + 1 else 0);
      flag := new bool[n](i => false);
      ring := new nat[n](i => 0);
      freeHead, numFree, availIdx := 0, n, 0;
      free := InOrder(n);
      flight, filled, lost, submitted := [], [], [], [];
      new;
      OrderPartition(n);
      assert flag[..] == New(n).flag;
    }

    /** virtqueue_alloc_desc_chain: the first count free descriptors become a chain in flight. */
    method Alloc(count: nat) returns (ok: bool, idx: nat)
      requires Valid() && count > 0
      modifies this`freeHead, this`numFree, this`free, this`flight, this`filled
      ensures Valid() && ok == (old(numFree) >= count)
      ensures !ok ==> free == old(free) && flight == old(flight) && filled == old(filled) && freeHead == old(freeHead)
      ensures ok ==> && free == old(free)[count..] && flight == old(flight) + [old(free)[..count]]
                     && filled == old(filled) + [false] && idx == old(free)[0]
      ensures count == 3 ==> Contents() == Apply(old(Contents()), Take)
    {
      hide Partition, AllLinked, Holds, Rem;
      idx := 0;
      if numFree < count {
        return false, idx;
      }
      idx := freeHead;
      var current: nat := freeHead;
      var i := 0;
      while i < count
        invariant i <= count && current < size && (i < |free| ==> current == free[i])
      {
        current := next[current];
        i := i + 1;
      }
      freeHead := current;
      numFree := numFree - count;
      TakePartition(size, free, flight, lost, count);
      TakeLinked(next[..], free, flight, count);
      flight := flight + [free[..count]];
      filled := filled + [false];
      free := free[count..];
      ok := true;
    }

    /** The descriptor fields of virtio_blk_do_request, for the chain of three at place k. */
    method Fill(idx: nat, ghost k: nat)
      requires Valid() && k < |flight| && |flight[k]| == 3 && flight[k][0] == idx
      modifies next, flag, this`filled
      ensures Valid() && Contents() == Apply(old(Contents()), Op.Fill(k))
    {
      hide Partition, Bag, AllLinked, Descriptors.Linked, Holds, Rem;
      ghost var c := flight[k];
      LinkedThree(next[..], flight, k);
      Apart(size, free, flight, lost, k, c[0]);
      Apart(size, free, flight, lost, k, c[1]);
      Apart(size, free, flight, lost, k, c[2]);
      var idx1 := next[idx];
      var idx2 := next[idx1];
      assert c == [idx, idx1, idx2];
      EndLinked(size, next[..], free, flight, lost, k, 0);
      flag[idx] := true;
      flag[idx1] := true;
      flag[idx2] := false;
      ghost var was := next[..];
      next[idx2] := 0;
      assert next[..] == was[idx2 := 0];
      filled := filled[k := true];
      assert flag[..] == FillFlags(old(flag[..]), c);
    }

    /**
     virtqueue_free_desc_chain of the chain at place k, in which the walk stops: its
     descriptors up to the first without the next flag are free again; any behind
     that are lost.
     */
    method Free(idx: nat, ghost k: nat)
      requires Valid() && k < |flight| && flight[k] != [] && flight[k][0] == idx &&
                 FirstClear(flag[..], flight[k]) < |flight[k]|
      modifies this`freeHead, this`numFree, this`free, this`flight, this`filled, this`lost, next
      ensures Valid() && Contents() == Apply(old(Contents()), Give(k))
      ensures numFree == old(numFree) + old(Returned(flag[..], flight[k]))
    {
      hide Partition, AllLinked, Descriptors.Linked, FirstClear, Without, Holds, Rem;
      ghost var c, j := flight[k], FirstClear(flag[..], flight[k]);
      ChainLinked(next[..], flight, k);
      var current, count := Walk(idx, c, j);
      GiveLinked(size, next[..], freeHead, free, flight, lost, k, j);
      GivePartition(size, free, flight, lost, k, j + 1);
      WithoutLess(flight, k);
      filled := filled[..k] + filled[k + 1..];
      Prepend(current, idx, count, c[..j + 1] + free, Without(flight, k), lost + c[j + 1..]);
    }

    /** The three stores that put a chain of count, from idx to last, in front of the list. */
    method Prepend(last: nat, idx: nat, count: nat, ghost free': seq<nat>, ghost flight': seq<seq<nat>>,
                   ghost lost': seq<nat>)
      requires && 0 < size && next.Length == size && flag.Length == size && ring.Length == size
               && next != ring && freeHead < size && availIdx == |submitted| % INDEX_LIMIT
               && (forall i :: 0 <= i < size ==> next[i] < size) && numFree == |free|
               && (Rem(size, INDEX_LIMIT) == 0 ==> Holds(size, ring[..], submitted))
      requires last < size && idx < size && |free'| == numFree + count && free' != [] && free'[0] == idx
      requires Partition(size, free', flight', lost') && |filled| == |flight'|
      requires Descriptors.Linked(next[..][last := freeHead], free') && AllLinked(next[..][last := freeHead], flight')
      modifies this`freeHead, this`numFree, this`free, this`flight, this`lost, next
      ensures Valid() && free == free' && flight == flight' && lost == lost'
    {
      hide Partition, AllLinked, Descriptors.Linked, Holds, Rem;
      ghost var was := next[..];
      next[last] := freeHead;
      assert next[..] == was[last := freeHead];
      freeHead := idx;
      numFree := numFree + count;
      free, flight, lost := free', flight', lost';
    }

    /** The loop that counts the chain. */
    method Walk(idx: nat, ghost c: seq<nat>, ghost j: nat) returns (current: nat, count: nat)
      requires next.Length == flag.Length == size && Descriptors.Linked(next[..], c) && c != [] && c[0] == idx
      requires j == FirstClear(flag[..], c) < |c|
      ensures current == c[j] && count == j + 1
    {
      current, count := idx, 1;
      while flag[current]
        invariant 1 <= count <= j + 1 && current == c[count - 1] && current < size
        decreases j + 1 - count
      {
        current := next[current];
        count := count + 1;
      }
    }

    /** virtqueue_add_to_avail: submission n goes to slot n mod size, if the size divides 65536. */
    method AddToAvail(idx: nat)
      requires Valid()
      modifies ring, this`availIdx, this`submitted
      ensures Valid() && submitted == old(submitted) + [idx]
      ensures ring[..] == old(ring[..])[SlotOf(size, |old(submitted)|) := idx]
      ensures Rem(size, INDEX_LIMIT) == 0 ==> SlotOf(size, |old(submitted)|) == Rem(size, |old(submitted)|)
    {
      hide Partition, AllLinked, Descriptors.Linked, Holds, Rem, Quot;
      QuotRem(size, availIdx);
      IndexAfter(|submitted|);
      if Rem(size, INDEX_LIMIT) == 0 {
        SlotInStep(size, |submitted|);
        SubmitHolds(size, ring[..], submitted, idx);
      }
      ring[availIdx % size] := idx;
      availIdx := (availIdx + 1) % INDEX_LIMIT;
      submitted := submitted + [idx];
    }

    /** Any run of allocations of three, fills with their submission, and frees; chain k is named by its head. */
    method Run(ops: seq<Op>)
      requires Valid() && Driven(size, Contents()) && flight == []
      modifies this, next, flag, ring
      ensures Valid() && Contents() == After(old(Contents()), ops) && Driven(size, Contents())
      ensures Tidy(old(Contents()), ops) && old(lost) == [] ==> lost == [] && |free| + 3 * |flight| == size
    {
      hide Partition, Spaced, Apply, AllLinked, Descriptors.Linked, Holds;
      if Tidy(Contents(), ops) && lost == [] {
        TidyLosesNothing(size, Contents(), ops);
      }
      var heads: seq<nat> := [];
      var i := 0;
      while i < |ops|
        invariant i <= |ops| && Valid() && Driven(size, Contents()) && |heads| == |flight|
        invariant forall k :: 0 <= k < |flight| ==> flight[k] != [] && flight[k][0] == heads[k]
        invariant After(Contents(), ops[i..]) == After(old(Contents()), ops)
      {
        heads := Step(ops[i], heads);
        i := i + 1;
      }
    }

    method Step(op: Op, heads: seq<nat>) returns (heads': seq<nat>)
      requires Valid() && Driven(size, Contents()) && |heads| == |flight|
      requires forall k :: 0 <= k < |flight| ==> flight[k] != [] && flight[k][0] == heads[k]
      modifies this, next, flag, ring
      ensures Valid() && Contents() == Apply(old(Contents()), op) && Driven(size, Contents()) && |heads'| == |flight|
      ensures forall k :: 0 <= k < |flight| ==> flight[k] != [] && flight[k][0] == heads'[k]
    {
      hide Partition, Spaced, AllLinked, Descriptors.Linked, Holds, Rem, Returned, FillFlags, FilledWhole;
      StepDriven(size, Contents(), op);
      heads' := heads;
      match op {
        case Take =>
          var ok, idx := Alloc(3);
          if ok {
            heads' := heads + [idx];
          }
        case Fill(k) =>
          if k < |heads| {
            Fill(heads[k], k);
            AddToAvail(heads[k]);
          }
        case Give(k) =>
          if k < |heads| {
            Free(heads[k], k);
            heads' := heads[..k] + heads[k + 1..];
          }
      }
    }
  }
}
