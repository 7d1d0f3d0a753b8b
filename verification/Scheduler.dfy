/**
 The scheduler as it is written (kernel/core/scheduler.c): a circular array with
 head, tail and count, a time slice, and the current process.  Each method is
 proved against its function on the ring's contents in module SchedModel.
 */
module Scheduler {
  import opened Circular
  import opened SchedModel

  function Wrap(x: nat): nat { x % MAX_PROCS }

  lemma WrapSlot(head: nat, k: nat)
    requires head < MAX_PROCS && k <= MAX_PROCS
    ensures Wrap(head + k) == Slot(MAX_PROCS, head, k)
  {
  }

  lemma WrapBack(head: nat, k: nat)
    requires head < MAX_PROCS && k < MAX_PROCS
    ensures Wrap(Slot(MAX_PROCS, head, k + 1) - 1 + MAX_PROCS) == Slot(MAX_PROCS, head, k)
  {
  }

  /** No p among the first i. */
  ghost predicate Before(ring: seq<nat>, p: nat, i: nat) {
    i <= |ring| && forall k :: 0 <= k < i ==> ring[k] != p
  }

  lemma BeforeNext(ring: seq<nat>, p: nat, i: nat)
    requires Before(ring, p, i) && i < |ring| && ring[i] != p
    ensures Before(ring, p, i + 1)
  {
  }

  /** r is ring with places i to j moved up by one, as far as j. */
  ghost predicate Shifted(ring: seq<nat>, r: seq<nat>, i: nat, j: nat) {
    && i <= j < |ring| && j <= |r| <= |ring|
    && (forall k :: 0 <= k < i ==> r[k] == ring[k])
    && (forall k :: i <= k < j ==> r[k] == ring[k + 1])
    && (forall k :: j <= k < |r| ==> r[k] == ring[k])
  }

  lemma ShiftedNone(ring: seq<nat>, i: nat)
    requires i < |ring|
    ensures Shifted(ring, ring, i, i)
  {
  }

  lemma ShiftedNext(ring: seq<nat>, i: nat, j: nat)
    requires j + 1 < |ring|
    ensures forall r :: Shifted(ring, r, i, j) && |r| == |ring| ==> Shifted(ring, r[j := r[j + 1]], i, j + 1)
  {
  }

  lemma ShiftedEnd(ring: seq<nat>, r: seq<nat>, i: nat, j: nat)
    requires Shifted(ring, r, i, j) && |r| == |ring| == j + 1
    ensures Shifted(ring, r[..j], i, j)
  {
  }

  /** Taking out the first p, which is at place i: everything behind it moves up by one. */
  lemma {:induction false} RemoveAt(ring: seq<nat>, p: nat, i: nat)
    requires i < |ring| && ring[i] == p && Before(ring, p, i)
    ensures |Remove(ring, p)| == |ring| - 1
    ensures forall r :: |r| == |ring| - 1 && Shifted(ring, r, i, |ring| - 1) ==> r == Remove(ring, p)
  {
    RemoveSlices(ring, p, i);
    forall r | |r| == |ring| - 1 && Shifted(ring, r, i, |ring| - 1)
      ensures r == ring[..i] + ring[i + 1..]
    {
    }
  }

  lemma {:induction false} RemoveSlices(ring: seq<nat>, p: nat, i: nat)
    requires i < |ring| && ring[i] == p && Before(ring, p, i)
    ensures Remove(ring, p) == ring[..i] + ring[i + 1..]
  {
    if i > 0 {
      assert Before(ring[1..], p, i - 1);
      RemoveSlices(ring[1..], p, i - 1);
    }
  }

  lemma {:induction false} RemoveAbsent(ring: seq<nat>, p: nat)
    requires Before(ring, p, |ring|)
    ensures Remove(ring, p) == ring
  {
    if ring != [] {
      assert Before(ring[1..], p, |ring| - 1);
      RemoveAbsent(ring[1..], p);
    }
  }

  class Scheduler {
    const queue: array<nat>
    const states: array<State>
    var head: nat
    var tail: nat
    var count: nat
    var slice: nat
    var current: int

    ghost predicate Valid()
      reads this, queue
    {
      && queue.Length == MAX_PROCS && states.Length == MAX_PROCS
      && head < MAX_PROCS && count <= MAX_PROCS && tail == Slot(MAX_PROCS, head, count)
      && NONE <= current < MAX_PROCS
      && forall k :: 0 <= k < MAX_PROCS ==> queue[k] < MAX_PROCS
    }

    /** The processes in the ring, first to last. */
    ghost function Ring(): (r: seq<nat>)
      requires Valid()
      reads this, queue
    {
      Window(queue[..], head, count)
    }

    ghost function View(): (s: Sched)
      requires Valid()
      reads this, queue, states
      ensures Shaped(s)
    {
      Sched(states[..], Ring(), current, slice)
    }

    /** scheduler_init over a fresh process table: process 0 runs. */
    constructor ()
      ensures Valid() && fresh(queue) && fresh(states)
      ensures View() == Boot().s
    {
      queue := new nat[MAX_PROCS](i => 0);
      states := new State[MAX_PROCS](i => if i == 0 then Running else Unused);
      head, tail, count := 0, 0, 0;
      slice := TIME_SLICE;
      current := 0;
      new;
      assert states[..] == Boot().s.states;
    }

    /** scheduler_enqueue. */
    method Enqueue(p: nat)
      requires Valid() && p < MAX_PROCS
      modifies this`tail, this`count, queue
      ensures Valid() && Ring() == SchedModel.Enqueue(old(Ring()), p)
    {
      hide Window;
      if count >= MAX_PROCS {
        return;
      }
      Push(queue[..], head, count, p);
      ghost var was := queue[..];
      queue[tail] := p;
      assert queue[..] == was[tail := p];
      tail := (tail + 1) % MAX_PROCS;
      count := count + 1;
    }

    /** scheduler_pick_next. */
    method PickNext() returns (p: int)
      requires Valid()
      modifies this`head, this`count
      ensures Valid()
      ensures old(Ring()) == [] ==> p == NONE && Ring() == []
      ensures old(Ring()) != [] ==> 0 <= p < MAX_PROCS && p == old(Ring())[0] && Ring() == old(Ring())[1..]
    {
      hide Window;
      if count == 0 {
        return NONE;
      }
      p := queue[head];
      Drop(queue[..], head, count, 1);
      assert Slot(MAX_PROCS, head, 0) == head;
      head := (head + 1) % MAX_PROCS;
      count := count - 1;
    }

    /** scheduler_dequeue's search: the place of the first p, or count. */
    method Find(p: nat) returns (i: nat)
      requires Valid()
      ensures i <= count && Before(Ring(), p, i) && (i < count ==> Ring()[i] == p)
    {
      hide Window, Wrap;
      i := 0;
      while i < count
        invariant i <= count && Before(Ring(), p, i)
      {
        WrapSlot(head, i);
        if queue[Wrap(head + i)] == p {
          return;
        }
        BeforeNext(Ring(), p, i);
        i := i + 1;
      }
    }

    /** scheduler_dequeue: the first p, if there is one, is taken out. */
    method Dequeue(p: nat)
      requires Valid()
      modifies this`tail, this`count, queue
      ensures Valid() && Ring() == Remove(old(Ring()), p)
    {
      hide Window, Remove, Before, Shifted;
      ghost var ring := Ring();
      var i := Find(p);
      if i < count {
        RemoveAt(ring, p, i);
        TakeOut(i);
      } else {
        RemoveAbsent(ring, p);
      }
    }

    /** Element i is taken out: the inner loop, then tail and count. */
    method TakeOut(i: nat)
      requires Valid() && i < count
      modifies this`tail, this`count, queue
      ensures Valid() && Shifted(old(Ring()), Ring(), i, count) && count == old(count) - 1
    {
      hide Window, Wrap, Shifted;
      ghost var ring := Ring();
      var j := i;
      ShiftedNone(ring, i);
      while j < count - 1
        invariant i <= j <= count - 1 && Valid() && |ring| == count && Shifted(ring, Ring(), i, j)
      {
        WrapSlot(head, j);
        WrapSlot(head, j + 1);
        Move(Wrap(head + j), Wrap(head + j + 1), j);
        ShiftedNext(ring, i, j);
        j := j + 1;
      }
      Shorter(queue[..], head, count, j);
      ShiftedEnd(ring, Ring(), i, j);
      tail := Wrap(tail - 1 + MAX_PROCS);
      count := count - 1;
      WrapBack(head, count);
    }

    /** One store of the inner loop. */
    method Move(to: nat, from: nat, ghost j: nat)
      requires Valid() && j + 1 < count && to == Slot(MAX_PROCS, head, j) && from == Slot(MAX_PROCS, head, j + 1)
      modifies queue
      ensures Valid() && Ring() == old(Ring())[j := old(Ring())[j + 1]]
    {
      hide Window;
      ghost var cells := queue[..];
      Store(cells, head, count, j, cells[from]);
      queue[to] := queue[from];
      assert queue[..] == cells[to := cells[from]];
    }

    /** context_switch's bookkeeping. */
    method SwitchTo(p: nat)
      requires Valid() && p < MAX_PROCS
      modifies this`current, states
      ensures Valid() && View() == SchedModel.SwitchTo(old(View()), p)
    {
      hide Window;
      ghost var was := states[..];
      if current != NONE && states[current] == Running {
        states[current] := Ready;
      }
      assert states[..] == if current != NONE && was[current] == Running then was[current := Ready] else was;
      ghost var mid := states[..];
      states[p] := Running;
      assert states[..] == mid[p := Running];
      current := p;
    }

    /** schedule. */
    method Schedule()
      requires Valid()
      modifies this, queue, states
      ensures Valid() && View() == SchedModel.Schedule(old(View()))
    {
      hide Window, SchedModel.Enqueue;
      if slice > 0 {
        slice := slice - 1;
      }
      var running := current != NONE && states[current] == Running;
      var preempt := false;
      if !running {
        preempt := true;
      } else if slice == 0 {
        preempt := true;
        slice := TIME_SLICE;
      }
      if !preempt {
        return;
      }
      var next := PickNext();
      if next == NONE {
        if !running {
          current := NONE;
        }
        return;
      }
      if next != current {
        if running {
          Enqueue(current);
        }
        SwitchTo(next);
      }
    }

    /** scheduler_yield. */
    method Yield()
      requires Valid()
      modifies this, queue, states
      ensures Valid() && View() == SchedModel.Schedule(old(View()).(slice := 0))
    {
      hide Window, SchedModel.Schedule;
      slice := 0;
      Schedule();
    }
  }
}
