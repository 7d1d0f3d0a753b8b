/**
 The scheduler's state machine (kernel/core/scheduler.c, wait_queue.c, signal.c,
 process.c, syscall.c).

 `Sched` is the scheduler's data: process states, ready ring, current process and
 time slice.  `Machine` adds where processes stand in their code: those made ready
 but not yet enqueued, those that marked themselves asleep and have not come back
 from schedule, those inside wait's sleep, and the calls of process_wakeup that were
 decided on and are still to come.  Interrupts let the steps of different processes
 interleave in any order.
 */
module SchedModel {
  const MAX_PROCS: nat := 64
  const TIME_SLICE: nat := 10
  const NONE: int := -1

  datatype State = Unused | Embryo | Ready | Running | Sleeping | Stopped | Zombie

  datatype Sched = Sched(states: seq<State>, ring: seq<nat>, current: int, slice: nat)

  predicate Shaped(s: Sched) {
    && |s.states| == MAX_PROCS && NONE <= s.current < MAX_PROCS
    && |s.ring| <= MAX_PROCS && forall k :: 0 <= k < |s.ring| ==> s.ring[k] < MAX_PROCS
  }

  predicate IsRunning(s: Sched)
    requires Shaped(s)
  {
    s.current != NONE && s.states[s.current] == Running
  }

  /** scheduler_enqueue: dropped when the ring is full. */
  function Enqueue(ring: seq<nat>, p: nat): seq<nat> {
    if |ring| >= MAX_PROCS then ring else ring + [p]
  }

  /** scheduler_dequeue: the first occurrence is taken out. */
  function Remove(ring: seq<nat>, p: nat): (r: seq<nat>)
    ensures |r| <= |ring|
    ensures forall k :: 0 <= k < |r| ==> r[k] in ring
  {
    if ring == [] then []
    else if ring[0] == p then ring[1..]
    else [ring[0]] + Remove(ring[1..], p)
  }

  /** Only the first occurrence goes, and the others keep their order. */
  lemma {:induction false} RemoveFirst(a: seq<nat>, p: nat, b: seq<nat>)
    requires p !in a
    ensures Remove(a + [p] + b, p) == a + b && Remove(a, p) == a
    decreases |a|
  {
    var ring := a + [p] + b;
    if a == [] {
      assert ring[1..] == b && a + b == b;
    } else {
      assert ring[0] == a[0] && ring[1..] == a[1..] + [p] + b;
      RemoveFirst(a[1..], p, b);
      assert a + b == [a[0]] + (a[1..] + b);
    }
  }

  /** Whether this call of schedule gives the processor up. */
  predicate Preempts(s: Sched)
    requires Shaped(s)
  {
    !IsRunning(s) || s.slice <= 1
  }

  function SliceAfter(s: Sched): nat
    requires Shaped(s)
  {
    if IsRunning(s) && s.slice <= 1 then TIME_SLICE else if s.slice > 0 then s.slice - 1 else 0
  }

  /** Process p gets the processor from whoever has it. */
  function SwitchTo(s: Sched, p: nat): (r: Sched)
    requires Shaped(s) && p < MAX_PROCS
    ensures Shaped(r)
  {
    var states := if IsRunning(s) then s.states[s.current := Ready] else s.states;
    s.(states := states[p := Running], current := p)
  }

  /** schedule. */
  function Schedule(s: Sched): (r: Sched)
    requires Shaped(s)
    ensures Shaped(r)
  {
    var s1 := s.(slice := SliceAfter(s));
    if !Preempts(s) then s1
    else if s.ring == [] then if IsRunning(s) then s1 else s1.(current := NONE)
    else
      var next, rest := s.ring[0], s.ring[1..];
      if next == s.current then s1.(ring := rest)
      else SwitchTo(s1.(ring := if IsRunning(s) then Enqueue(rest, s.current) else rest), next)
  }

  // ----- steps

  datatype Machine = Machine(
    s: Sched,
    limbo: set<nat>,
    parked: set<nat>,
    waiting: set<nat>,
    claims: multiset<nat>)

  /**
   Alloc, MakeReady, Submit, Free: creation of p up to its first enqueue, and freeing.
   Tick: schedule, called by the current process itself (own) or by an interrupt; a
   process switched to may thereby return from its own call (back).
   Sleep: wait_queue_sleep.  Nap: process_sleep, and wait's first assignment.
   Resume: wait's second assignment.  Stop, Exit: of the current process.
   Wake: wait_queue_wake and wait_queue_wake_one, which find p asleep and make it ready at once.
   Look: a signal finds p asleep (or, with cont, stopped) and decides to wake it.
   Wakeup: the process_wakeup that was decided on, which takes a sleeping or stopped process.
   */
  datatype Op =
    | Alloc(p: nat) | MakeReady(p: nat) | Submit(p: nat) | Free(p: nat)
    | Tick(own: bool, back: bool) | ZeroSlice
    | Sleep | Nap(wait: bool) | Resume(p: nat) | Stop | Exit
    | Wake(p: nat) | Look(p: nat, cont: bool) | Wakeup(p: nat)

  function With(m: Machine, p: nat, st: State): (r: Machine)
    requires Shaped(m.s) && p < MAX_PROCS
    ensures Shaped(r.s)
  {
    m.(s := m.s.(states := m.s.states[p := st]))
  }

  function Queued(m: Machine, p: nat): (r: Machine)
    requires Shaped(m.s) && p < MAX_PROCS
    ensures Shaped(r.s)
  {
    m.(s := m.s.(ring := Enqueue(m.s.ring, p)))
  }

  function Unqueued(m: Machine, p: nat): (r: Machine)
    requires Shaped(m.s)
    ensures Shaped(r.s)
  {
    m.(s := m.s.(ring := Remove(m.s.ring, p)))
  }

  predicate Enabled(m: Machine, op: Op) {
    && Shaped(m.s)
    && match op
       case Alloc(p) => p < MAX_PROCS && m.s.states[p] == Unused
       case MakeReady(p) => p < MAX_PROCS && m.s.states[p] == Embryo
       case Submit(p) => p < MAX_PROCS && p in m.limbo
       case Free(p) => && p < MAX_PROCS && p != m.s.current
                       && (p in m.limbo || m.s.states[p] == Embryo || m.s.states[p] == Zombie)
       case Tick(_, _) => true
       case ZeroSlice => true
       case Sleep => m.s.current != NONE && m.s.current !in m.parked
       case Nap(_) => m.s.current != NONE && m.s.current !in m.parked
       case Resume(p) => p < MAX_PROCS && p in m.waiting && p !in m.parked
       case Stop => m.s.current != NONE
       case Exit => m.s.current > 0
       case Wake(p) => p < MAX_PROCS && m.s.states[p] == Sleeping
       case Look(p, cont) => p < MAX_PROCS && m.s.states[p] == if cont then Stopped else Sleeping
       case Wakeup(p) => p < MAX_PROCS && p in m.claims
  }

  /** process_wakeup's own guard. */
  predicate Takes(m: Machine, p: nat)
    requires Shaped(m.s) && p < MAX_PROCS
  {
    m.s.states[p] == Sleeping || m.s.states[p] == Stopped
  }

  /** This step puts its process into the ring. */
  predicate Queues(m: Machine, op: Op)
    requires Enabled(m, op)
  {
    op.Submit? || op.Wake? || (op.Wakeup? && Takes(m, op.p))
  }

  /** Who has come back from its own call of schedule. */
  function Returned(m: Machine, own: bool, back: bool): set<nat>
    requires Shaped(m.s)
  {
    var s' := Schedule(m.s);
    if s'.current != m.s.current && s'.current != NONE then if back then {s'.current as nat} else {}
    else if own && m.s.current != NONE then {m.s.current as nat} else {}
  }

  function Apply(m: Machine, op: Op): (r: Machine)
    requires Enabled(m, op)
    ensures Shaped(r.s)
  {
    var c := m.s.current;
    match op
    case Alloc(p) => With(m, p, Embryo)
    case MakeReady(p) => With(m, p, Ready).(limbo := m.limbo + {p})
    case Submit(p) => Queued(m, p).(limbo := m.limbo - {p})
    case Free(p) => With(m, p, Unused).(limbo := m.limbo - {p}, parked := m.parked - {p}, waiting := m.waiting - {p})
    case Tick(own, back) => m.(s := Schedule(m.s), parked := m.parked - Returned(m, own, back))
    case ZeroSlice => m.(s := m.s.(slice := 0))
    case Sleep => Unqueued(With(m, c, Sleeping), c).(parked := m.parked + {c as nat})
    case Nap(wait) => With(m, c, Sleeping).(parked := m.parked + {c as nat},
                                            waiting := if wait then m.waiting + {c as nat} else m.waiting)
    case Resume(p) => With(m, p, Running).(waiting := m.waiting - {p})
    case Stop => With(m, c, Stopped).(parked := m.parked + {c as nat})
    case Exit => Unqueued(With(m, c, Zombie), c).(parked := m.parked + {c as nat})
    case Wake(p) => Queued(With(m, p, Ready), p)
    case Look(p, _) => m.(claims := m.claims + multiset{p})
    case Wakeup(p) =>
      var m1 := m.(claims := m.claims - multiset{p});
      if Takes(m, p) then Queued(With(m1, p, Ready), p) else m1
  }

  // ----- the invariant

  ghost predicate Distinct(ring: seq<nat>) {
    forall i, j :: 0 <= i < j < |ring| ==> ring[i] != ring[j]
  }

  /** The claim: ring members are distinct and ready, and whoever runs is the current process. */
  ghost predicate Orderly(s: Sched) {
    && Shaped(s) && Distinct(s.ring)
    && (forall k :: 0 <= k < |s.ring| ==> s.states[s.ring[k]] == Ready)
    && (forall p: nat :: p < MAX_PROCS && s.states[p] == Running ==> p == s.current)
  }

  /** What keeps it: where processes stand. */
  ghost predicate Inv(m: Machine) {
    && Orderly(m.s) && m.s.slice <= TIME_SLICE
    && (forall p :: p in m.limbo ==> p < MAX_PROCS && m.s.states[p] == Ready && p !in m.s.ring && p != m.s.current)
    && (m.s.current != NONE ==> m.s.states[m.s.current] != Unused && m.s.states[m.s.current] != Embryo)
    && (m.s.current != NONE && m.s.current !in m.parked ==>
          m.s.current !in m.s.ring && (m.s.states[m.s.current] == Running || m.s.states[m.s.current] == Ready))
  }

  /** Stop and Resume do not look whether the process is queued, or still current; these are the steps where that
      is so. */
  predicate Tame(m: Machine, op: Op) {
    match op
    case Stop => m.s.current !in m.s.ring
    case Resume(p) => m.s.current == p
    case _ => true
  }

  // ----- the ring never fills

  ghost function Members(ring: seq<nat>): set<nat> { set k | 0 <= k < |ring| :: ring[k] }

  lemma {:induction false} DistinctCount(ring: seq<nat>)
    requires Distinct(ring)
    ensures |Members(ring)| == |ring|
  {
    if ring != [] {
      var n := |ring| - 1;
      var init := ring[..n];
      DistinctCount(init);
      assert Members(ring) == Members(init) + {ring[n]};
      assert ring[n] !in Members(init);
    }
  }

  lemma {:induction false} Below(xs: set<nat>, n: nat)
    requires forall x :: x in xs ==> x < n
    ensures |xs| <= n
  {
    if n == 0 {
      assert xs == {};
    } else if n - 1 in xs {
      Below(xs - {n - 1}, n - 1);
    } else {
      Below(xs, n - 1);
    }
  }

  /** A process that is not queued always finds room: the branch that drops it is never taken. */
  lemma RoomForOne(ring: seq<nat>, p: nat)
    requires Distinct(ring) && p < MAX_PROCS && p !in ring && forall k :: 0 <= k < |ring| ==> ring[k] < MAX_PROCS
    ensures Enqueue(ring, p) == ring + [p] && Distinct(ring + [p])
  {
    DistinctCount(ring);
    var others := Members(ring);
    assert p !in others;
    Below(others + {p}, MAX_PROCS);
  }

  lemma {:induction false} RemoveKeeps(ring: seq<nat>, p: nat)
    requires Distinct(ring)
    ensures Distinct(Remove(ring, p)) && p !in Remove(ring, p)
    ensures forall x :: x in ring && x != p ==> x in Remove(ring, p)
  {
    if ring != [] {
      assert Distinct(ring[1..]);
      assert ring == [ring[0]] + ring[1..];
      RemoveKeeps(ring[1..], p);
      assert ring[0] !in ring[1..];
      if ring[0] != p {
        assert ring[0] !in Remove(ring[1..], p);
      }
    }
  }

  // ----- every step keeps the invariant

  /** A switch: the head of the ring runs, and a running predecessor is queued behind the rest. */
  lemma SwitchKeeps(s: Sched)
    requires Orderly(s) && Preempts(s) && s.ring != [] && s.ring[0] != s.current
    ensures var s' := Schedule(s);
            && Orderly(s') && s'.current == s.ring[0] && s'.states[s'.current] == Running && s'.current !in s'.ring
            && s'.ring == s.ring[1..] + (if IsRunning(s) then [s.current as nat] else [])
            && (forall p: nat :: p < MAX_PROCS && p != s'.current ==>
                  s'.states[p] == if p == s.current && IsRunning(s) then Ready else s.states[p])
  {
    var next, rest := s.ring[0], s.ring[1..];
    assert s.ring == [next] + rest && next !in rest && Distinct(rest);
    assert forall k :: 0 <= k < |rest| ==> rest[k] == s.ring[k + 1];
    if IsRunning(s) {
      assert s.current !in s.ring;
      RoomForOne(rest, s.current);
    }
    hide Distinct;
    var s' := Schedule(s);
    forall k | 0 <= k < |s'.ring|
      ensures s'.states[s'.ring[k]] == Ready
    {
      assert k < |rest| ==> s'.ring[k] == s.ring[k + 1];
    }
  }

  /** No switch: the current process goes on, or nothing runs. */
  lemma StayKeeps(s: Sched)
    requires Orderly(s) && !(Preempts(s) && s.ring != [] && s.ring[0] != s.current)
    ensures var s' := Schedule(s);
            && Orderly(s') && s'.states == s.states && (s'.current == s.current || s'.current == NONE)
            && (forall x :: x in s'.ring ==> x in s.ring)
            && (s'.current != NONE ==> s'.current !in s'.ring && s.states[s.current] in {Running, Ready})
  {
    var s' := Schedule(s);
    if Preempts(s) && s.ring != [] {
      var rest := s.ring[1..];
      assert s.ring == [s.ring[0]] + rest && s.ring[0] !in rest && Distinct(rest);
      assert s.states[s.ring[0]] == Ready;
    }
  }

  lemma TickKeeps(m: Machine, own: bool, back: bool)
    requires Inv(m)
    ensures Inv(Apply(m, Tick(own, back)))
  {
    var s := m.s;
    assert SliceAfter(s) == Schedule(s).slice;
    if Preempts(s) && s.ring != [] && s.ring[0] != s.current {
      SwitchKeeps(s);
    } else {
      StayKeeps(s);
    }
    hide Schedule, Orderly, Distinct;
    assert Orderly(Schedule(s)) && Shaped(s);
  }

  lemma QueuedKeeps(m: Machine, p: nat)
    requires Shaped(m.s) && Distinct(m.s.ring) && p < MAX_PROCS && p !in m.s.ring
    ensures Queued(m, p).s.ring == m.s.ring + [p] && Distinct(Queued(m, p).s.ring)
  {
    RoomForOne(m.s.ring, p);
  }

  lemma StepKeeps(m: Machine, op: Op)
    requires Inv(m) && Enabled(m, op) && Tame(m, op)
    ensures Inv(Apply(m, op))
  {
    match op
    case Tick(own, back) => TickKeeps(m, own, back);
    case Submit(p) => SubmitKeeps(m, p);
    case Wake(p) => WakeKeeps(m, op);
    case Wakeup(p) => WakeKeeps(m, op);
    case Sleep => LeaveKeeps(m, op);
    case Exit => LeaveKeeps(m, op);
    case _ =>
  }

  lemma SubmitKeeps(m: Machine, p: nat)
    requires Inv(m) && Enabled(m, Submit(p))
    ensures Inv(Apply(m, Submit(p)))
  {
    hide Distinct, Enqueue;
    QueuedKeeps(m, p);
  }

  lemma ReadyKeeps(m: Machine, p: nat)
    requires Inv(m) && p < MAX_PROCS && Takes(m, p)
    ensures Inv(Queued(With(m, p, Ready), p))
  {
    hide Distinct, Enqueue;
    QueuedKeeps(With(m, p, Ready), p);
  }

  lemma WakeKeeps(m: Machine, op: Op)
    requires Inv(m) && Enabled(m, op) && (op.Wake? || op.Wakeup?)
    ensures Inv(Apply(m, op))
  {
    hide Queued, With, Distinct;
    if op.Wake? {
      ReadyKeeps(m, op.p);
    } else {
      var m1 := m.(claims := m.claims - multiset{op.p});
      assert Inv(m1);
      if Takes(m, op.p) {
        ReadyKeeps(m1, op.p);
      }
    }
  }

  lemma LeaveKeeps(m: Machine, op: Op)
    requires Inv(m) && Enabled(m, op) && (op.Sleep? || op.Exit?)
    ensures Inv(Apply(m, op))
  {
    hide Distinct, Remove;
    RemoveKeeps(m.s.ring, m.s.current);
  }

  /** Stopping keeps the claim exactly when the process is not queued, and wait's return exactly when it is current. */
  lemma UntamedBreaks(m: Machine, op: Op)
    requires Inv(m) && Enabled(m, op) && (op.Stop? || op.Resume?)
    ensures Orderly(Apply(m, op).s) <==> Tame(m, op)
  {
    if Tame(m, op) {
      StepKeeps(m, op);
    } else if op.Stop? {
      var k :| 0 <= k < |m.s.ring| && m.s.ring[k] == m.s.current;
      assert Apply(m, op).s.states[m.s.ring[k]] == Stopped;
    } else {
      assert Apply(m, op).s.states[op.p] == Running;
    }
  }

  // ----- runs

  /** process_init and scheduler_init: process 0 runs, all other slots are unused. */
  function Boot(): Machine {
    Machine(Sched([Running] + seq(MAX_PROCS - 1, (i: nat) => Unused), [], 0, TIME_SLICE), {}, {}, {}, multiset{})
  }

  ghost predicate Legal(m: Machine, ops: seq<Op>)
    decreases |ops|
  {
    ops == [] || (Enabled(m, ops[0]) && Tame(m, ops[0]) && Legal(Apply(m, ops[0]), ops[1..]))
  }

  ghost function After(m: Machine, ops: seq<Op>): Machine
    requires Legal(m, ops)
    decreases |ops|
  {
    if ops == [] then m else After(Apply(m, ops[0]), ops[1..])
  }

  lemma {:induction false} RunKeeps(m: Machine, ops: seq<Op>)
    requires Inv(m) && Legal(m, ops)
    ensures Inv(After(m, ops))
    decreases |ops|
  {
    if ops != [] {
      StepKeeps(m, ops[0]);
      RunKeeps(Apply(m, ops[0]), ops[1..]);
    }
  }

  /** From boot, whatever the interleaving: ring distinct and ready, at most one process running and it is current. */
  lemma {:induction false} ReachableOrderly(ops: seq<Op>)
    requires Legal(Boot(), ops)
    ensures Orderly(After(Boot(), ops).s)
  {
    RunKeeps(Boot(), ops);
  }

  /** Every process made ready in a reachable state is put into the ring. */
  lemma EnqueueLands(m: Machine, op: Op)
    requires Inv(m) && Enabled(m, op) && Queues(m, op)
    ensures Apply(m, op).s.ring == m.s.ring + [op.p]
  {
    if op.Submit? {
      QueuedKeeps(m, op.p);
    } else {
      QueuedKeeps(With(m, op.p, Ready), op.p);
    }
  }

  // ----- bounded waiting

  /** This step hands the processor to p, the head of the ring. */
  predicate Picks(m: Machine, op: Op, p: nat) {
    op.Tick? && Shaped(m.s) && Preempts(m.s) && m.s.ring != [] && m.s.ring[0] == p
  }

  lemma PicksRuns(m: Machine, op: Op, p: nat)
    requires Picks(m, op, p) && Enabled(m, op)
    ensures Apply(m, op).s.current == p
  {
  }

  /** Calls of schedule that p, at place k, may still have to wait for. */
  function Wait(s: Sched, k: nat): nat {
    TIME_SLICE * k + if s.slice == 0 then 1 else s.slice
  }

  lemma {:induction false} RemoveShifts(ring: seq<nat>, c: nat, k: nat) returns (k': nat)
    requires k < |ring| && ring[k] != c
    ensures k' <= k && k' < |Remove(ring, c)| && Remove(ring, c)[k'] == ring[k]
  {
    if ring[0] == c {
      k' := k - 1;
    } else if k == 0 {
      k' := 0;
    } else {
      k' := RemoveShifts(ring[1..], c, k - 1);
      k' := k' + 1;
    }
  }

  lemma TickWaits(m: Machine, op: Op, k: nat) returns (k': nat)
    requires Inv(m) && op.Tick? && k < |m.s.ring| && !Picks(m, op, m.s.ring[k])
    ensures k' < |Schedule(m.s).ring| && Schedule(m.s).ring[k'] == m.s.ring[k]
    ensures Wait(Schedule(m.s), k') < Wait(m.s, k)
  {
    k' := if Preempts(m.s) then k - 1 else k;
    if Preempts(m.s) {
      if m.s.ring[0] != m.s.current {
        SwitchKeeps(m.s);
      }
      assert m.s.ring[1..][k - 1] == m.s.ring[k];
    }
  }

  /** Every step but p's own exit leaves p in the ring, no further back; every call of schedule brings it closer. */
  lemma StepWaits(m: Machine, op: Op, k: nat) returns (k': nat)
    requires Inv(m) && Enabled(m, op) && Tame(m, op) && k < |m.s.ring| && !Picks(m, op, m.s.ring[k])
    requires !(op.Exit? && m.s.current == m.s.ring[k])
    ensures k' < |Apply(m, op).s.ring| && Apply(m, op).s.ring[k'] == m.s.ring[k]
    ensures Wait(Apply(m, op).s, k') + (if op.Tick? then 1 else 0) <= Wait(m.s, k)
  {
    k' := k;
    match op
    case Tick(_, _) => k' := TickWaits(m, op, k);
    case Submit(p) => EnqueueLands(m, op);
    case Wake(p) => EnqueueLands(m, op);
    case Wakeup(p) => if Takes(m, p) { EnqueueLands(m, op); }
    case Sleep => k' := RemoveShifts(m.s.ring, m.s.current, k);
    case Exit => k' := RemoveShifts(m.s.ring, m.s.current, k);
    case _ =>
  }

  function Ticks(ops: seq<Op>): nat {
    if ops == [] then 0 else (if ops[0].Tick? then 1 else 0) + Ticks(ops[1..])
  }

  ghost predicate Picked(m: Machine, ops: seq<Op>, p: nat)
    requires Legal(m, ops)
    decreases |ops|
  {
    ops != [] && (Picks(m, ops[0], p) || Picked(Apply(m, ops[0]), ops[1..], p))
  }

  ghost predicate Exits(m: Machine, ops: seq<Op>, p: nat)
    requires Legal(m, ops)
    decreases |ops|
  {
    ops != [] && ((ops[0].Exit? && m.s.current == p) || Exits(Apply(m, ops[0]), ops[1..], p))
  }

  lemma {:induction false} PickedInTime(m: Machine, ops: seq<Op>, k: nat)
    requires Inv(m) && Legal(m, ops) && k < |m.s.ring| && Ticks(ops) >= Wait(m.s, k)
    ensures Picked(m, ops, m.s.ring[k]) || Exits(m, ops, m.s.ring[k])
    decreases |ops|
  {
    var p := m.s.ring[k];
    if !Picks(m, ops[0], p) && !(ops[0].Exit? && m.s.current == p) {
      var k' := StepWaits(m, ops[0], k);
      StepKeeps(m, ops[0]);
      PickedInTime(Apply(m, ops[0]), ops[1..], k');
    }
  }

  /** A process at place k of the ring is picked within 10 * (k + 1) calls of schedule, whatever else happens between
      them. */
  lemma {:induction false} BoundedWaiting(m: Machine, ops: seq<Op>, k: nat)
    requires Inv(m) && Legal(m, ops) && k < |m.s.ring| && Ticks(ops) >= TIME_SLICE * (k + 1)
    ensures Picked(m, ops, m.s.ring[k]) || Exits(m, ops, m.s.ring[k])
  {
    PickedInTime(m, ops, k);
  }
}
