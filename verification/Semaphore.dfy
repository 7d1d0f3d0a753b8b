/**
 The counting semaphore (kernel/core/mutex.c) as a protocol of any number of
 threads.  `signals` and `waits` count the calls that have taken effect; they are
 there to state what the count means.
 */
module Semaphore {
  import opened Threads

  datatype Pc = Idle | Doze | Queued | Try | Waker

  datatype Sem = Sem(count: int, pc: seq<Pc>, waiters: seq<nat>, signals: nat, waits: nat)

  datatype Op =
    | Wait(t: nat, atomic: bool) | Trywait(t: nat) | Sleep(t: nat) | Signal(t: nat) | WakeOne(t: nat) | Spurious(t: nat)

  predicate Enabled(s: Sem, op: Op) {
    && op.t < |s.pc|
    && match op
       case Wait(t, _) => s.pc[t] == Idle || s.pc[t] == Try
       case Trywait(t) => s.pc[t] == Idle
       case Sleep(t) => s.pc[t] == Doze
       case Signal(t) => s.pc[t] == Idle
       case WakeOne(t) => s.pc[t] == Waker
       case Spurious(t) => s.pc[t] == Queued
  }

  function Goes(s: Sem, t: nat, at: Pc): Sem
    requires t < |s.pc|
  {
    s.(pc := s.pc[t := at])
  }

  function Apply(s: Sem, op: Op): (r: Sem)
    requires Enabled(s, op)
    ensures |r.pc| == |s.pc|
  {
    var t := op.t;
    match op
    case Wait(_, atomic) =>
      if s.count > 0 then Goes(s, t, Idle).(count := s.count - 1, waits := s.waits + 1)
      else if atomic then Goes(s, t, Queued).(waiters := s.waiters + [t])
      else Goes(s, t, Doze)
    case Trywait(_) => if s.count > 0 then s.(count := s.count - 1, waits := s.waits + 1) else s
    case Sleep(_) => Goes(s, t, Queued).(waiters := s.waiters + [t])
    case Signal(_) => Goes(s, t, Waker).(count := s.count + 1, signals := s.signals + 1)
    case WakeOne(_) =>
      if s.waiters == [] then Goes(s, t, Idle)
      else
        var w := s.waiters[0];
        var pc := if w < |s.pc| && s.pc[w] == Queued then s.pc[w := Try] else s.pc;
        Goes(s.(pc := pc, waiters := s.waiters[1..]), t, Idle)
    case Spurious(_) => Goes(s, t, Try)
  }

  /** The count is what was there, plus signals, less waits; and waits never take more than there is. */
  ghost predicate Balanced(s: Sem, initial: int) {
    s.count == initial + s.signals - s.waits && (s.count >= 0 || s.count >= initial)
  }

  /** The queue holds the threads asleep there, each once. */
  ghost predicate Holds(pc: seq<Pc>, q: seq<nat>) {
    && (forall i :: 0 <= i < |q| ==> q[i] < |pc| && pc[q[i]] == Queued)
    && (forall i, j :: 0 <= i < j < |q| ==> q[i] != q[j])
    && (forall t: nat :: t < |pc| && pc[t] == Queued ==> t in q)
  }

  /** While anyone sleeps, as many are awake for the count, or about to be woken, as it allows through. */
  ghost predicate Served(s: Sem) {
    (exists t: nat :: t < |s.pc| && s.pc[t] == Queued) ==> At(s.pc, Try) + At(s.pc, Waker) >= s.count
  }

  /** The sleep after the check comes in time: as many are awake for the count, or about to be, as it allows through. */
  ghost predicate Timely(s: Sem, op: Op) {
    op.Sleep? ==> At(s.pc, Try) + At(s.pc, Waker) >= s.count
  }

  lemma HoldsMove(pc: seq<Pc>, q: seq<nat>, t: nat, to: Pc)
    requires Holds(pc, q) && t < |pc| && pc[t] != Queued
    ensures to != Queued ==> Holds(pc[t := to], q)
    ensures to == Queued ==> Holds(pc[t := to], q + [t])
  {
  }

  lemma HoldsPop(pc: seq<Pc>, q: seq<nat>)
    requires Holds(pc, q) && q != []
    ensures Holds(pc[q[0] := Try], q[1..])
  {
    var pc' := pc[q[0] := Try];
    forall t: nat | t < |pc'| && pc'[t] == Queued
      ensures t in q[1..]
    {
      assert t in q;
    }
  }

  lemma HoldsKept(s: Sem, op: Op)
    requires Holds(s.pc, s.waiters) && Enabled(s, op) && !op.Spurious?
    ensures Holds(Apply(s, op).pc, Apply(s, op).waiters)
  {
    var t := op.t;
    if op.WakeOne? && s.waiters != [] {
      HoldsPop(s.pc, s.waiters);
      HoldsMove(s.pc[s.waiters[0] := Try], s.waiters[1..], t, Idle);
    } else {
      hide Holds;
      HoldsMove(s.pc, s.waiters, t, Apply(s, op).pc[t]);
      assert Apply(s, op).pc == s.pc[t := Apply(s, op).pc[t]];
    }
  }

  /** Someone sleeps exactly when the queue is not empty. */
  lemma SleeperQueued(pc: seq<Pc>, q: seq<nat>)
    requires Holds(pc, q)
    ensures (exists t: nat :: t < |pc| && pc[t] == Queued) <==> q != []
  {
    if q != [] {
      assert pc[q[0]] == Queued;
    }
  }

  /** Of all steps only a late sleep leaves someone unserved. */
  lemma ServedExactly(s: Sem, op: Op)
    requires Served(s) && Holds(s.pc, s.waiters) && Enabled(s, op) && !op.Spurious?
    ensures Served(Apply(s, op)) <==> Timely(s, op)
  {
    hide At, Holds;
    var t := op.t;
    var s' := Apply(s, op);
    SleeperQueued(s.pc, s.waiters);
    HoldsKept(s, op);
    SleeperQueued(s'.pc, s'.waiters);
    if op.WakeOne? && s.waiters != [] {
      var w := s.waiters[0];
      FrontSleeps(s.pc, s.waiters);
      Moved(s.pc, w, Try, s.pc[w := Try]);
      Moved(s.pc[w := Try], t, Idle, s'.pc);
    } else {
      Moved(s.pc, t, s'.pc[t], s'.pc);
    }
  }

  lemma FrontSleeps(pc: seq<Pc>, q: seq<nat>)
    requires Holds(pc, q) && q != []
    ensures q[0] < |pc| && pc[q[0]] == Queued
  {
  }

  /** A call of wait or trywait gets through exactly when the count is positive, and takes one. */
  lemma TakesExactly(s: Sem, op: Op)
    requires Enabled(s, op) && (op.Wait? || op.Trywait?)
    ensures Apply(s, op).waits == s.waits + 1 <==> s.count > 0
    ensures Apply(s, op).count == if s.count > 0 then s.count - 1 else s.count
    ensures s.count > 0 ==> Apply(s, op).pc[op.t] == Idle && Apply(s, op).waiters == s.waiters
    ensures s.count <= 0 && op.Trywait? ==> Apply(s, op) == s
  {
  }

  /** A signal adds one, whoever waits. */
  lemma SignalAdds(s: Sem, t: nat)
    requires Enabled(s, Signal(t))
    ensures Apply(s, Signal(t)).count == s.count + 1 && Apply(s, Signal(t)).signals == s.signals + 1
  {
  }

  /** Whoever is ahead in the queue stays ahead while asleep, so the first asleep is the first woken. */
  lemma AheadKept(s: Sem, op: Op, u: nat, v: nat)
    requires Holds(s.pc, s.waiters) && Enabled(s, op) && !op.Spurious? && Ahead(s.waiters, u, v)
    requires u < |s.pc| && s.pc[u] == Queued && Apply(s, op).pc[u] == Queued
    ensures Ahead(Apply(s, op).waiters, u, v)
  {
    hide Ahead;
    AheadPush(s.waiters, u, v, op.t);
    if op.WakeOne? && s.waiters != [] {
      AheadPop(s.waiters, u, v);
    }
  }

  /** A thread that goes to sleep comes behind all who are asleep. */
  lemma JoinsLast(s: Sem, op: Op, u: nat)
    requires Holds(s.pc, s.waiters) && Enabled(s, op) && u in s.waiters
    requires s.pc[op.t] != Queued && Apply(s, op).pc[op.t] == Queued
    ensures Ahead(Apply(s, op).waiters, u, op.t)
  {
    AheadPush(s.waiters, u, op.t, op.t);
  }

  // ----- runs

  function Fresh(initial: int, n: nat): Sem { Sem(initial, seq(n, (i: nat) => Idle), [], 0, 0) }

  ghost predicate Legal(s: Sem, ops: seq<Op>)
    decreases |ops|
  {
    ops == [] || (Enabled(s, ops[0]) && Legal(Apply(s, ops[0]), ops[1..]))
  }

  ghost function After(s: Sem, ops: seq<Op>): Sem
    requires Legal(s, ops)
    decreases |ops|
  {
    if ops == [] then s else After(Apply(s, ops[0]), ops[1..])
  }

  /** The calls of signal in a run. */
  function Signals(ops: seq<Op>): nat {
    if ops == [] then 0 else (if ops[0].Signal? then 1 else 0) + Signals(ops[1..])
  }

  /** And so over a run: every call of signal counts, and nothing else does. */
  lemma {:induction false} SignalsCounted(s: Sem, ops: seq<Op>)
    requires Legal(s, ops)
    ensures After(s, ops).signals == s.signals + Signals(ops)
    decreases |ops|
  {
    if ops != [] {
      SignalsCounted(Apply(s, ops[0]), ops[1..]);
    }
  }

  lemma {:induction false} StaysBalanced(s: Sem, initial: int, ops: seq<Op>)
    requires Balanced(s, initial) && Legal(s, ops)
    ensures Balanced(After(s, ops), initial)
    decreases |ops|
  {
    if ops != [] {
      StaysBalanced(Apply(s, ops[0]), initial, ops[1..]);
    }
  }

  /** No step of the run leaves anyone unserved. */
  ghost predicate ServedThroughout(s: Sem, ops: seq<Op>)
    requires Legal(s, ops)
    decreases |ops|
  {
    Served(s) && (ops == [] || ServedThroughout(Apply(s, ops[0]), ops[1..]))
  }

  /** No sleep of the run is late. */
  ghost predicate TimelyThroughout(s: Sem, ops: seq<Op>)
    requires Legal(s, ops)
    decreases |ops|
  {
    ops == [] || (Timely(s, ops[0]) && TimelyThroughout(Apply(s, ops[0]), ops[1..]))
  }

  /** Thread u is asleep in the queue all through the run. */
  ghost predicate SleepsThrough(s: Sem, ops: seq<Op>, u: nat)
    requires Legal(s, ops)
    decreases |ops|
  {
    u < |s.pc| && s.pc[u] == Queued && (ops == [] || SleepsThrough(Apply(s, ops[0]), ops[1..], u))
  }

  /** First come, first woken: while a thread sleeps, no one who came after it is woken. */
  lemma {:induction false} FirstWokenFirst(s: Sem, ops: seq<Op>, u: nat, v: nat)
    requires Holds(s.pc, s.waiters) && Legal(s, ops) && forall i :: 0 <= i < |ops| ==> !ops[i].Spurious?
    requires Ahead(s.waiters, u, v) && SleepsThrough(s, ops, u)
    ensures SleepsThrough(s, ops, v)
    decreases |ops|
  {
    hide Apply, Enabled;
    assert v in s.waiters;
    if ops != [] {
      AheadKept(s, ops[0], u, v);
      HoldsKept(s, ops[0]);
      FirstWokenFirst(Apply(s, ops[0]), ops[1..], u, v);
    }
  }

  lemma {:induction false} StaysServed(s: Sem, ops: seq<Op>)
    requires Served(s) && Holds(s.pc, s.waiters) && Legal(s, ops) && forall i :: 0 <= i < |ops| ==> !ops[i].Spurious?
    ensures ServedThroughout(s, ops) <==> TimelyThroughout(s, ops)
    decreases |ops|
  {
    hide Served, Timely, Holds, Apply, Enabled;
    if ops != [] {
      ServedExactly(s, ops[0]);
      if Timely(s, ops[0]) {
        HoldsKept(s, ops[0]);
        StaysServed(Apply(s, ops[0]), ops[1..]);
      }
    }
  }

  /** From a count that is not negative it never becomes so, and it always is initial plus signals minus completed
      waits. */
  lemma {:induction false} RunBalanced(initial: nat, n: nat, ops: seq<Op>)
    requires Legal(Fresh(initial, n), ops)
    ensures var s := After(Fresh(initial, n), ops); s.count == initial + s.signals - s.waits >= 0
  {
    StaysBalanced(Fresh(initial, n), initial, ops);
  }

  /**
   Over every run: at every point while anyone sleeps at least count threads are awake to
   take it or on their way to wake one, if and only if no sleep was late.
   */
  lemma {:induction false} RunServed(initial: int, n: nat, ops: seq<Op>)
    requires Legal(Fresh(initial, n), ops) && forall i :: 0 <= i < |ops| ==> !ops[i].Spurious?
    ensures ServedThroughout(Fresh(initial, n), ops) <==> TimelyThroughout(Fresh(initial, n), ops)
  {
    StaysServed(Fresh(initial, n), ops);
  }

  /** With atomic sleeps none is. */
  lemma {:induction false} AtomicTimely(s: Sem, ops: seq<Op>)
    requires Legal(s, ops) && forall i :: 0 <= i < |ops| ==> !ops[i].Sleep?
    ensures TimelyThroughout(s, ops)
    decreases |ops|
  {
    hide Apply, Enabled;
    if ops != [] {
      AtomicTimely(Apply(s, ops[0]), ops[1..]);
    }
  }

  /** As written the sleep is not atomic: the signal comes first, and the count stays while its waiter sleeps. */
  function LateSleep(): seq<Op> { [Wait(0, false), Signal(1), WakeOne(1), Sleep(0)] }

  lemma LateSteps()
    ensures Fresh(0, 2) == Sem(0, [Idle, Idle], [], 0, 0)
    ensures var s := Sem(0, [Idle, Idle], [], 0, 0);
            Enabled(s, Wait(0, false)) && Apply(s, Wait(0, false)) == Sem(0, [Doze, Idle], [], 0, 0)
    ensures var s := Sem(0, [Doze, Idle], [], 0, 0);
            Enabled(s, Signal(1)) && Apply(s, Signal(1)) == Sem(1, [Doze, Waker], [], 1, 0)
    ensures var s := Sem(1, [Doze, Waker], [], 1, 0);
            Enabled(s, WakeOne(1)) && Apply(s, WakeOne(1)) == Sem(1, [Doze, Idle], [], 1, 0)
    ensures var s := Sem(1, [Doze, Idle], [], 1, 0);
            Enabled(s, Sleep(0)) && Apply(s, Sleep(0)) == Sem(1, [Queued, Idle], [0], 1, 0)
  {
    assert Fresh(0, 2).pc == [Idle, Idle];
  }

  lemma LateUnserved()
    ensures !Served(Sem(1, [Queued, Idle], [0], 1, 0))
  {
    var s := Sem(1, [Queued, Idle], [0], 1, 0);
    assert s.pc[0] == Queued;
    assert multiset(s.pc) == multiset{Queued, Idle};
  }

  lemma LateSleepStranded()
    ensures Legal(Fresh(0, 2), LateSleep())
    ensures var s := After(Fresh(0, 2), LateSleep()); s.count == 1 && s.pc == [Queued, Idle] && !Served(s)
  {
    LateSteps();
    LateUnserved();
    hide Apply, Enabled, Fresh, Served;
    var ops := LateSleep();
    Link(Sem(1, [Doze, Idle], [], 1, 0), ops[3..], Sem(1, [Queued, Idle], [0], 1, 0));
    Link(Sem(1, [Doze, Waker], [], 1, 0), ops[2..], Sem(1, [Doze, Idle], [], 1, 0));
    Link(Sem(0, [Doze, Idle], [], 0, 0), ops[1..], Sem(1, [Doze, Waker], [], 1, 0));
    Link(Sem(0, [Idle, Idle], [], 0, 0), ops, Sem(0, [Doze, Idle], [], 0, 0));
  }

  lemma {:induction false} Link(s: Sem, ops: seq<Op>, s1: Sem)
    requires ops != [] && Enabled(s, ops[0]) && s1 == Apply(s, ops[0]) && Legal(s1, ops[1..])
    ensures Legal(s, ops) && After(s, ops) == After(s1, ops[1..])
  {
    hide Enabled, Apply;
  }

  // ----- the count, as the code updates it

  /** semaphore_t.  Each method is one stretch with interrupts off; s is the protocol's state around it. */
  class Counter {
    var count: int

    ghost predicate Shows(s: Sem)
      reads this
    {
      count == s.count
    }

    /** semaphore_init. */
    constructor (initial: int)
      ensures forall n: nat :: Shows(Fresh(initial, n))
    {
      count := initial;
    }

    /** semaphore_wait up to the decision. */
    method WaitSection(ghost s: Sem, ghost t: nat, ghost atomic: bool) returns (took: bool)
      requires Shows(s) && Enabled(s, Wait(t, atomic))
      modifies this
      ensures Shows(Apply(s, Wait(t, atomic))) && took == (Apply(s, Wait(t, atomic)).waits > s.waits)
    {
      if count <= 0 {
        return false;
      }
      count := count - 1;
      return true;
    }

    /** semaphore_trywait. */
    method TrywaitSection(ghost s: Sem, ghost t: nat) returns (took: bool)
      requires Shows(s) && Enabled(s, Trywait(t))
      modifies this
      ensures Shows(Apply(s, Trywait(t))) && took == (Apply(s, Trywait(t)).waits > s.waits)
    {
      if count <= 0 {
        return false;
      }
      count := count - 1;
      return true;
    }

    /** semaphore_signal, before it wakes a waiter. */
    method SignalSection(ghost s: Sem, ghost t: nat)
      requires Shows(s) && Enabled(s, Signal(t))
      modifies this
      ensures Shows(Apply(s, Signal(t)))
    {
      count := count + 1;
    }
  }
}
