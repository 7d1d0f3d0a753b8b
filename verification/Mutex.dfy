/**
 The mutex (kernel/core/mutex.c) and the condition variable on it
 (kernel/core/condvar.c) as a protocol of any number of threads.

 A step is one stretch of code with interrupts off.
 */
module Mutex {
  import opened Threads

  /**
   Doze, Queued, Try: on the way to the mutex; cond when that is the second half of
   cond_wait.  Waker: has unlocked and is about to wake a waiter.  CondDoze: in
   cond_wait, mutex given up, not yet in the queue.  CondQueued: asleep there.
   */
  datatype Pc =
    | Idle | Hold | Waker
    | Doze(cond: bool) | Queued(cond: bool) | Try(cond: bool)
    | CondDoze | CondQueued

  datatype Mx = Mx(locked: bool, owner: int, pc: seq<Pc>, waiters: seq<nat>, condQ: seq<nat>)

  datatype Op =
    | Lock(t: nat, atomic: bool) | Trylock(t: nat) | Sleep(t: nat) | Unlock(t: nat) | WakeOne(t: nat)
    | CondWait(t: nat, atomic: bool) | CondSleep(t: nat) | Signal(t: nat)
    | Spurious(t: nat)

  const NOBODY: int := -1

  predicate Enabled(s: Mx, op: Op) {
    && op.t < |s.pc|
    && match op
       case Lock(t, _) => s.pc[t].Idle? || s.pc[t].Try?
       case Trylock(t) => s.pc[t].Idle?
       case Sleep(t) => s.pc[t].Doze?
       case Unlock(t) => s.pc[t].Hold?
       case WakeOne(t) => s.pc[t].Waker?
       case CondWait(t, _) => s.pc[t].Hold?
       case CondSleep(t) => s.pc[t].CondDoze?
       case Signal(t) => s.pc[t].Idle? || s.pc[t].Hold?
       case Spurious(t) => s.pc[t].Queued? || s.pc[t].CondQueued?
  }

  function Goes(s: Mx, t: nat, at: Pc): Mx
    requires t < |s.pc|
  {
    s.(pc := s.pc[t := at])
  }

  /** What a wake does to a thread that is in the queue. */
  function Roused(at: Pc): Pc {
    match at
    case Queued(cond) => Try(cond)
    case CondQueued => Try(true)
    case _ => at
  }

  /** wait_queue_wake. */
  function WakeAll(pc: seq<Pc>, q: seq<nat>): (r: seq<Pc>)
    ensures |r| == |pc|
    ensures forall t :: 0 <= t < |pc| ==> r[t] == if t in q then Roused(pc[t]) else pc[t]
  {
    seq(|pc|, t requires 0 <= t < |pc| => if t in q then Roused(pc[t]) else pc[t])
  }

  function Acquire(s: Mx, t: nat): Mx
    requires t < |s.pc|
  {
    Goes(s, t, Hold).(locked := true, owner := t)
  }

  function Apply(s: Mx, op: Op): (r: Mx)
    requires Enabled(s, op)
    ensures |r.pc| == |s.pc|
  {
    var t := op.t;
    match op
    case Lock(_, atomic) =>
      var cond := s.pc[t].Try? && s.pc[t].cond;
      if !s.locked then Acquire(s, t)
      else if atomic then Goes(s, t, Queued(cond)).(waiters := s.waiters + [t])
      else Goes(s, t, Doze(cond))
    case Trylock(_) => if s.locked then s else Acquire(s, t)
    case Sleep(_) => Goes(s, t, Queued(s.pc[t].cond)).(waiters := s.waiters + [t])
    case Unlock(_) => Goes(s, t, Waker).(locked := false, owner := NOBODY)
    case WakeOne(_) =>
      if s.waiters == [] then Goes(s, t, Idle)
      else
        var w := s.waiters[0];
        var pc := if w < |s.pc| then s.pc[w := Roused(s.pc[w])] else s.pc;
        Goes(s.(pc := pc, waiters := s.waiters[1..]), t, Idle)
    case CondWait(_, atomic) =>
      var s1 := s.(locked := false, owner := NOBODY, pc := WakeAll(s.pc, s.waiters), waiters := []);
      if atomic then Goes(s1, t, CondQueued).(condQ := s.condQ + [t]) else Goes(s1, t, CondDoze)
    case CondSleep(_) => Goes(s, t, CondQueued).(condQ := s.condQ + [t])
    case Signal(_) => s.(pc := WakeAll(s.pc, s.condQ), condQ := [])
    case Spurious(_) => Goes(s, t, Roused(s.pc[t]))
  }

  // ----- one holder

  /** The lock word says whether there is a holder, there is no second, and the owner field names it. */
  ghost predicate Exclusive(s: Mx) {
    && At(s.pc, Hold) == (if s.locked then 1 else 0)
    && (if s.locked then 0 <= s.owner < |s.pc| && s.pc[s.owner] == Hold else s.owner == NOBODY)
  }

  /** A wake moves no one who is not asleep. */
  lemma {:induction false} WakeCount(pc: seq<Pc>, q: seq<nat>, x: Pc)
    requires x.Hold? || x.Waker?
    ensures At(WakeAll(pc, q), x) == At(pc, x)
    decreases |pc|
  {
    if pc != [] {
      var n := |pc| - 1;
      WakeCount(pc[..n], q, x);
      assert WakeAll(pc, q)[..n] == WakeAll(pc[..n], q);
      Last(pc, n, x);
      Last(WakeAll(pc, q), n, x);
    } else {
      assert WakeAll(pc, q) == pc;
    }
  }

  lemma TwoAt(pc: seq<Pc>, t: nat, u: nat, x: Pc, y: Pc)
    requires t < |pc| && u < |pc| && t != u && pc[t] == x && pc[u] == x && y != x
    ensures At(pc, x) >= 2
  {
    var rest := pc[t := y];
    Moved(pc, t, y, rest);
    assert rest[u] in multiset(rest);
  }

  lemma OneHolder(s: Mx, t: nat)
    requires Exclusive(s) && t < |s.pc| && s.pc[t] == Hold
    ensures s.locked && s.owner == t
  {
    hide At;
    Moved(s.pc, t, Idle, s.pc[t := Idle]);
    if s.owner != t {
      TwoAt(s.pc, t, s.owner, Hold, Idle);
    }
  }

  lemma ExclusiveKept(s: Mx, op: Op)
    requires Exclusive(s) && Enabled(s, op)
    ensures Exclusive(Apply(s, op))
  {
    if s.pc[op.t] == Hold {
      OneHolder(s, op.t);
    }
    if op.Signal? || op.CondWait? {
      AllExclusive(s, op);
    } else if op.WakeOne? {
      OneExclusive(s, op);
    } else {
      PlainExclusive(s, op);
    }
  }

  lemma PlainExclusive(s: Mx, op: Op)
    requires Exclusive(s) && Enabled(s, op) && !op.Signal? && !op.CondWait? && !op.WakeOne?
    requires s.pc[op.t] == Hold ==> s.locked && s.owner == op.t
    ensures Exclusive(Apply(s, op))
  {
    hide At, WakeAll;
    Moved(s.pc, op.t, Apply(s, op).pc[op.t], Apply(s, op).pc);
  }

  lemma OneExclusive(s: Mx, op: Op)
    requires Exclusive(s) && Enabled(s, op) && op.WakeOne?
    ensures Exclusive(Apply(s, op))
  {
    hide At, WakeAll;
    var t := op.t;
    var s' := Apply(s, op);
    if s.waiters != [] && s.waiters[0] < |s.pc| {
      var w := s.waiters[0];
      var pc := s.pc[w := Roused(s.pc[w])];
      Moved(s.pc, w, pc[w], pc);
      Moved(pc, t, Idle, s'.pc);
    } else {
      Moved(s.pc, t, Idle, s'.pc);
    }
  }

  lemma AllExclusive(s: Mx, op: Op)
    requires Exclusive(s) && Enabled(s, op) && (op.Signal? || op.CondWait?)
    ensures Exclusive(Apply(s, op))
  {
    var t := op.t;
    var s' := Apply(s, op);
    hide At;
    if op.Signal? {
      WakeCount(s.pc, s.condQ, Hold);
    } else {
      WakeCount(s.pc, s.waiters, Hold);
      Moved(WakeAll(s.pc, s.waiters), t, s'.pc[t], s'.pc);
      Moved(s.pc, t, Idle, s.pc[t := Idle]);
    }
  }

  /** Whoever holds the mutex is its owner, so no two threads hold it. */
  lemma SoleHolder(s: Mx)
    requires Exclusive(s)
    ensures forall u: nat :: u < |s.pc| && s.pc[u] == Hold ==> u == s.owner
  {
    forall u: nat | u < |s.pc| && s.pc[u] == Hold
      ensures u == s.owner
    {
      OneHolder(s, u);
    }
  }

  /** In cond_wait: from giving up the mutex to having it again. */
  predicate InWait(at: Pc) {
    at.CondDoze? || at.CondQueued? || ((at.Doze? || at.Queued? || at.Try?) && at.cond)
  }

  /** cond_wait is left in one way only: by taking the free mutex, as its only holder. */
  lemma WaitReturnsHolding(s: Mx, op: Op, t: nat)
    requires Exclusive(s) && Enabled(s, op) && t < |s.pc| && InWait(s.pc[t]) && !InWait(Apply(s, op).pc[t])
    ensures op.Lock? && op.t == t && !s.locked
    ensures var s' := Apply(s, op); s'.pc[t] == Hold && s'.locked && s'.owner == t
    ensures forall u: nat :: u < |s.pc| && Apply(s, op).pc[u] == Hold ==> u == t
  {
    hide Exclusive, At;
    ExclusiveKept(s, op);
    SoleHolder(Apply(s, op));
  }

  // ----- no one is forgotten

  predicate Asleep(at: Pc, onCond: bool) { if onCond then at.CondQueued? else at.Queued? }

  /** A queue holds the threads asleep there, each once. */
  ghost predicate Holds(pc: seq<Pc>, q: seq<nat>, onCond: bool) {
    && (forall i :: 0 <= i < |q| ==> q[i] < |pc| && Asleep(pc[q[i]], onCond))
    && (forall i, j :: 0 <= i < j < |q| ==> q[i] != q[j])
    && (forall t: nat :: t < |pc| && Asleep(pc[t], onCond) ==> t in q)
  }

  /** Someone awake will take the mutex, or wake another to take it. */
  ghost predicate Contended(pc: seq<Pc>) { exists t: nat :: t < |pc| && (pc[t].Waker? || pc[t].Try?) }

  /** While the mutex is free and threads sleep for it, someone is awake for it. */
  ghost predicate Served(s: Mx) { !s.locked && s.waiters != [] ==> Contended(s.pc) }

  /** The sleep after the check comes in time: the mutex is held, or someone awake is after it. */
  ghost predicate Timely(s: Mx, op: Op) { op.Sleep? ==> s.locked || Contended(s.pc) }

  ghost predicate Queues(s: Mx) { Holds(s.pc, s.waiters, false) && Holds(s.pc, s.condQ, true) }

  lemma HoldsMove(pc: seq<Pc>, q: seq<nat>, onCond: bool, t: nat, to: Pc)
    requires Holds(pc, q, onCond) && t < |pc| && !Asleep(pc[t], onCond)
    ensures !Asleep(to, onCond) ==> Holds(pc[t := to], q, onCond)
    ensures Asleep(to, onCond) ==> Holds(pc[t := to], q + [t], onCond)
  {
  }

  lemma HoldsPop(pc: seq<Pc>, q: seq<nat>)
    requires Holds(pc, q, false) && q != []
    ensures Holds(pc[q[0] := Roused(pc[q[0]])], q[1..], false)
  {
    var pc' := pc[q[0] := Roused(pc[q[0]])];
    forall t: nat | t < |pc'| && Asleep(pc'[t], false)
      ensures t in q[1..]
    {
      assert t in q;
    }
  }

  lemma HoldsWakeAll(pc: seq<Pc>, q: seq<nat>, other: seq<nat>, onCond: bool)
    requires Holds(pc, q, onCond) && Holds(pc, other, !onCond)
    ensures Holds(WakeAll(pc, q), [], onCond) && Holds(WakeAll(pc, q), other, !onCond)
  {
  }

  lemma QueuesKept(s: Mx, op: Op)
    requires Enabled(s, op) && !op.Spurious? && Queues(s)
    ensures Queues(Apply(s, op))
  {
    var t := op.t;
    var s' := Apply(s, op);
    if op.WakeOne? && s.waiters != [] {
      var w := s.waiters[0];
      var pc := s.pc[w := Roused(s.pc[w])];
      HoldsPop(s.pc, s.waiters);
      HoldsMove(s.pc, s.condQ, true, w, pc[w]);
      HoldsMove(pc, s.waiters[1..], false, t, Idle);
      HoldsMove(pc, s.condQ, true, t, Idle);
    } else if op.Signal? {
      HoldsWakeAll(s.pc, s.condQ, s.waiters, true);
    } else if op.CondWait? {
      var pc := WakeAll(s.pc, s.waiters);
      HoldsWakeAll(s.pc, s.waiters, s.condQ, false);
      HoldsMove(pc, [], false, t, s'.pc[t]);
      HoldsMove(pc, s.condQ, true, t, s'.pc[t]);
    } else {
      hide Holds;
      HoldsMove(s.pc, s.waiters, false, t, s'.pc[t]);
      HoldsMove(s.pc, s.condQ, true, t, s'.pc[t]);
      assert s'.pc == s.pc[t := s'.pc[t]];
    }
  }

  lemma ContendedKept(s: Mx, op: Op)
    requires Served(s) && Queues(s) && Enabled(s, op) && !op.Spurious? && !op.Sleep?
    ensures Served(Apply(s, op))
  {
    hide Queues;
    var s' := Apply(s, op);
    if !s'.locked && s'.waiters != [] {
      if op.WakeOne? {
        var w := s.waiters[0];
        FrontSleeps(s);
        assert s'.pc[w].Try?;
      } else if op.Unlock? {
        assert s'.pc[op.t].Waker?;
      } else {
        var t: nat :| t < |s.pc| && (s.pc[t].Waker? || s.pc[t].Try?);
        assert s'.pc[t] == s.pc[t];
      }
    }
  }

  lemma FrontSleeps(s: Mx)
    requires Queues(s) && s.waiters != []
    ensures s.waiters[0] < |s.pc| && s.pc[s.waiters[0]].Queued?
  {
  }

  lemma SleepServes(s: Mx, t: nat)
    requires Enabled(s, Sleep(t))
    ensures Served(Apply(s, Sleep(t))) <==> Timely(s, Sleep(t))
  {
    var s' := Apply(s, Sleep(t));
    if Contended(s.pc) {
      var u: nat :| u < |s.pc| && (s.pc[u].Waker? || s.pc[u].Try?);
      assert s'.pc[u] == s.pc[u];
    }
    if Contended(s'.pc) {
      var u: nat :| u < |s'.pc| && (s'.pc[u].Waker? || s'.pc[u].Try?);
      assert s.pc[u] == s'.pc[u];
    }
  }

  /** Of all steps only a late sleep leaves a free mutex with sleepers and no one awake for it. */
  lemma ServedExactly(s: Mx, op: Op)
    requires Served(s) && Queues(s) && Enabled(s, op) && !op.Spurious?
    ensures Served(Apply(s, op)) <==> Timely(s, op)
  {
    hide Served, Queues, Apply, Enabled;
    if op.Sleep? {
      SleepServes(s, op.t);
    } else {
      ContendedKept(s, op);
    }
  }

  // ----- signals

  /** A signal wakes every thread that waits, but for those between giving up the mutex and falling asleep. */
  lemma SignalReaches(s: Mx, t: nat, u: nat)
    requires Holds(s.pc, s.condQ, true) && Enabled(s, Signal(t)) && u < |s.pc| &&
               (s.pc[u].CondDoze? || s.pc[u].CondQueued?)
    ensures Apply(s, Signal(t)).pc[u] == Try(true) <==> !s.pc[u].CondDoze?
  {
  }

  /** No one who waits when the signal comes still waits for it afterwards. */
  ghost predicate Reaches(s: Mx, op: Op)
    requires Enabled(s, op)
  {
    op.Signal? ==> forall u :: 0 <= u < |s.pc| && InWait(s.pc[u]) ==>
      !Apply(s, op).pc[u].CondQueued? && !Apply(s, op).pc[u].CondDoze?
  }

  /** The signal comes while no one is between giving up the mutex and falling asleep. */
  ghost predicate SignalTimely(s: Mx, op: Op) {
    op.Signal? ==> forall u :: 0 <= u < |s.pc| ==> !s.pc[u].CondDoze?
  }

  lemma ReachesExactly(s: Mx, op: Op)
    requires Queues(s) && Enabled(s, op)
    ensures Reaches(s, op) <==> SignalTimely(s, op)
  {
    if op.Signal? {
      forall u | 0 <= u < |s.pc| && InWait(s.pc[u])
        ensures Apply(s, op).pc[u].CondQueued? || Apply(s, op).pc[u].CondDoze? <==> s.pc[u].CondDoze?
      {
        if s.pc[u].CondQueued? || s.pc[u].CondDoze? {
          SignalReaches(s, op.t, u);
        }
      }
    }
  }

  /** Thread u goes on because of the signal. */
  predicate Moves(s: Mx, t: nat, u: nat)
    requires Enabled(s, Signal(t))
  {
    u < |s.pc| && Apply(s, Signal(t)).pc[u] != s.pc[u]
  }

  /** cond_signal moves exactly the threads in the queue: only one if and only if no more than one waits. */
  lemma SignalWakes(s: Mx, t: nat)
    requires Queues(s) && Enabled(s, Signal(t))
    ensures forall u: nat :: Moves(s, t, u) <==> u in s.condQ
    ensures (forall u: nat, v: nat :: Moves(s, t, u) && Moves(s, t, v) ==> u == v) <==> |s.condQ| <= 1
  {
    if |s.condQ| > 1 {
      var a, b := s.condQ[0], s.condQ[1];
      assert Moves(s, t, a) && Moves(s, t, b) && a != b;
    }
  }

  /** A call of lock or trylock gets the mutex exactly when no thread holds it; a trylock that fails changes
      nothing. */
  lemma LocksExactly(s: Mx, op: Op)
    requires Exclusive(s) && Enabled(s, op) && (op.Lock? || op.Trylock?)
    ensures Apply(s, op).pc[op.t] == Hold <==> forall u :: 0 <= u < |s.pc| ==> s.pc[u] != Hold
    ensures op.Trylock? && Apply(s, op).pc[op.t] != Hold ==> Apply(s, op) == s
  {
    NoneAt(s.pc, Hold);
  }

  /** Whoever is ahead in the mutex's queue stays ahead while asleep there. */
  lemma AheadKept(s: Mx, op: Op, u: nat, v: nat)
    requires Queues(s) && Enabled(s, op) && !op.Spurious? && Ahead(s.waiters, u, v)
    requires u < |s.pc| && s.pc[u].Queued? && Apply(s, op).pc[u].Queued?
    ensures Ahead(Apply(s, op).waiters, u, v)
  {
    AheadIn(s.waiters, u, v);
    hide Ahead;
    AheadPush(s.waiters, u, v, op.t);
    if op.WakeOne? && s.waiters != [] {
      AheadPop(s.waiters, u, v);
    }
  }

  lemma AheadIn(q: seq<nat>, u: nat, v: nat)
    requires Ahead(q, u, v)
    ensures u in q && v in q
  {
  }

  /** A thread that goes to sleep comes behind all who are asleep. */
  lemma JoinsLast(s: Mx, op: Op, u: nat)
    requires Queues(s) && Enabled(s, op) && u in s.waiters
    requires !s.pc[op.t].Queued? && Apply(s, op).pc[op.t].Queued?
    ensures Ahead(Apply(s, op).waiters, u, op.t)
  {
    AheadPush(s.waiters, u, op.t, op.t);
  }

  // ----- runs

  function Fresh(n: nat): Mx { Mx(false, NOBODY, seq(n, (i: nat) => Idle), [], []) }

  ghost predicate Legal(s: Mx, ops: seq<Op>)
    decreases |ops|
  {
    ops == [] || (Enabled(s, ops[0]) && Legal(Apply(s, ops[0]), ops[1..]))
  }

  ghost function After(s: Mx, ops: seq<Op>): Mx
    requires Legal(s, ops)
    decreases |ops|
  {
    if ops == [] then s else After(Apply(s, ops[0]), ops[1..])
  }

  lemma {:induction false} FreshCount(n: nat)
    ensures At(Fresh(n).pc, Hold) == 0
  {
    if n > 0 {
      FreshCount(n - 1);
      assert Fresh(n).pc[..n - 1] == Fresh(n - 1).pc;
      Last(Fresh(n).pc, n - 1, Hold);
    }
  }

  lemma {:induction false} StaysExclusive(s: Mx, ops: seq<Op>)
    requires Exclusive(s) && Legal(s, ops)
    ensures Exclusive(After(s, ops))
    decreases |ops|
  {
    if ops != [] {
      ExclusiveKept(s, ops[0]);
      StaysExclusive(Apply(s, ops[0]), ops[1..]);
    }
  }

  /** No step of the run leaves a free mutex with sleepers and no one awake for it. */
  ghost predicate ServedThroughout(s: Mx, ops: seq<Op>)
    requires Legal(s, ops)
    decreases |ops|
  {
    Served(s) && (ops == [] || ServedThroughout(Apply(s, ops[0]), ops[1..]))
  }

  /** No sleep of the run is late. */
  ghost predicate TimelyThroughout(s: Mx, ops: seq<Op>)
    requires Legal(s, ops)
    decreases |ops|
  {
    ops == [] || (Timely(s, ops[0]) && TimelyThroughout(Apply(s, ops[0]), ops[1..]))
  }

  /** Thread u is asleep in the mutex's queue all through the run. */
  ghost predicate SleepsThrough(s: Mx, ops: seq<Op>, u: nat)
    requires Legal(s, ops)
    decreases |ops|
  {
    u < |s.pc| && s.pc[u].Queued? && (ops == [] || SleepsThrough(Apply(s, ops[0]), ops[1..], u))
  }

  /** First come, first woken: while a thread sleeps, no one who came after it is woken. */
  lemma {:induction false} FirstWokenFirst(s: Mx, ops: seq<Op>, u: nat, v: nat)
    requires Queues(s) && Legal(s, ops) && forall i :: 0 <= i < |ops| ==> !ops[i].Spurious?
    requires Ahead(s.waiters, u, v) && SleepsThrough(s, ops, u)
    ensures SleepsThrough(s, ops, v)
    decreases |ops|
  {
    AheadIn(s.waiters, u, v);
    hide Apply, Enabled, Ahead;
    if ops != [] {
      AheadKept(s, ops[0], u, v);
      QueuesKept(s, ops[0]);
      FirstWokenFirst(Apply(s, ops[0]), ops[1..], u, v);
    }
  }

  lemma {:induction false} StaysServed(s: Mx, ops: seq<Op>)
    requires Served(s) && Queues(s) && Legal(s, ops) && forall i :: 0 <= i < |ops| ==> !ops[i].Spurious?
    ensures ServedThroughout(s, ops) <==> TimelyThroughout(s, ops)
    decreases |ops|
  {
    hide Served, Queues, Timely, Apply, Enabled;
    if ops != [] {
      ServedExactly(s, ops[0]);
      if Timely(s, ops[0]) {
        QueuesKept(s, ops[0]);
        StaysServed(Apply(s, ops[0]), ops[1..]);
      }
    }
  }

  /** Every signal of the run reaches everyone who waits. */
  ghost predicate ReachesThroughout(s: Mx, ops: seq<Op>)
    requires Legal(s, ops)
    decreases |ops|
  {
    ops == [] || (Reaches(s, ops[0]) && ReachesThroughout(Apply(s, ops[0]), ops[1..]))
  }

  /** No signal of the run falls between a waiter's unlock and its sleep. */
  ghost predicate SignalsTimely(s: Mx, ops: seq<Op>)
    requires Legal(s, ops)
    decreases |ops|
  {
    ops == [] || (SignalTimely(s, ops[0]) && SignalsTimely(Apply(s, ops[0]), ops[1..]))
  }

  lemma {:induction false} StaysReached(s: Mx, ops: seq<Op>)
    requires Queues(s) && Legal(s, ops) && forall i :: 0 <= i < |ops| ==> !ops[i].Spurious?
    ensures ReachesThroughout(s, ops) <==> SignalsTimely(s, ops)
    decreases |ops|
  {
    hide Queues, Reaches, SignalTimely, Apply, Enabled;
    if ops != [] {
      ReachesExactly(s, ops[0]);
      QueuesKept(s, ops[0]);
      StaysReached(Apply(s, ops[0]), ops[1..]);
    }
  }

  /** Any number of threads, any interleaving: at most one holds the mutex, and it is the recorded owner. */
  lemma {:induction false} RunExclusive(n: nat, ops: seq<Op>)
    requires Legal(Fresh(n), ops)
    ensures Exclusive(After(Fresh(n), ops))
  {
    FreshCount(n);
    StaysExclusive(Fresh(n), ops);
  }

  /**
   Over every run: at every point a free mutex with sleepers has someone awake for it, if
   and only if no sleep was late; and every signal reaches all who wait, if and only if
   none falls between a waiter's unlock and its sleep.
   */
  lemma {:induction false} RunServed(n: nat, ops: seq<Op>)
    requires Legal(Fresh(n), ops) && forall i :: 0 <= i < |ops| ==> !ops[i].Spurious?
    ensures ServedThroughout(Fresh(n), ops) <==> TimelyThroughout(Fresh(n), ops)
    ensures ReachesThroughout(Fresh(n), ops) <==> SignalsTimely(Fresh(n), ops)
  {
    StaysServed(Fresh(n), ops);
    StaysReached(Fresh(n), ops);
  }

  ghost predicate NoGap(pc: seq<Pc>) {
    forall t :: 0 <= t < |pc| ==> !pc[t].Doze? && !pc[t].CondDoze?
  }

  predicate Atomic(op: Op) { (op.Lock? || op.CondWait? ==> op.atomic) && !op.Sleep? && !op.CondSleep? }

  lemma NoGapKept(s: Mx, op: Op)
    requires NoGap(s.pc) && Enabled(s, op) && Atomic(op)
    ensures NoGap(Apply(s, op).pc)
  {
  }

  /** With atomic sleeps neither happens. */
  lemma {:induction false} AtomicTimely(s: Mx, ops: seq<Op>)
    requires Legal(s, ops) && NoGap(s.pc) && forall i :: 0 <= i < |ops| ==> Atomic(ops[i])
    ensures TimelyThroughout(s, ops) && SignalsTimely(s, ops)
    decreases |ops|
  {
    hide Apply, Enabled;
    if ops != [] {
      NoGapKept(s, ops[0]);
      AtomicTimely(Apply(s, ops[0]), ops[1..]);
    }
  }

  /** As written the sleep is not atomic: a signal between the unlock and the sleep is missed. */
  function LateSignal(): seq<Op> { [Lock(0, true), CondWait(0, false), Signal(1), CondSleep(0)] }

  lemma LateSteps()
    ensures var s := Mx(false, NOBODY, [Idle, Idle], [], []);
            Enabled(s, Lock(0, true)) && Apply(s, Lock(0, true)) == Mx(true, 0, [Hold, Idle], [], [])
    ensures var s := Mx(true, 0, [Hold, Idle], [], []);
            Enabled(s, CondWait(0, false)) && Apply(s, CondWait(0, false)) ==
              Mx(false, NOBODY, [CondDoze, Idle], [], [])
    ensures var s := Mx(false, NOBODY, [CondDoze, Idle], [], []);
            Enabled(s, Signal(1)) && Apply(s, Signal(1)) == s
    ensures var s := Mx(false, NOBODY, [CondDoze, Idle], [], []);
            Enabled(s, CondSleep(0)) && Apply(s, CondSleep(0)) == Mx(false, NOBODY, [CondQueued, Idle], [], [0])
  {
    assert WakeAll([Hold, Idle], []) == [Hold, Idle];
    assert WakeAll([CondDoze, Idle], []) == [CondDoze, Idle];
  }

  lemma FreshTwo()
    ensures Fresh(2) == Mx(false, NOBODY, [Idle, Idle], [], [])
  {
    assert Fresh(2).pc == [Idle, Idle];
  }

  lemma LateSignalMissed()
    ensures Legal(Fresh(2), LateSignal()) && After(Fresh(2), LateSignal()).pc == [CondQueued, Idle]
  {
    LateSteps();
    FreshTwo();
    hide Apply, Enabled, Fresh;
    var ops := LateSignal();
    var s2 := Mx(false, NOBODY, [CondDoze, Idle], [], []);
    Link(s2, ops[3..], Mx(false, NOBODY, [CondQueued, Idle], [], [0]));
    Link(s2, ops[2..], s2);
    Link(Mx(true, 0, [Hold, Idle], [], []), ops[1..], s2);
    Link(Mx(false, NOBODY, [Idle, Idle], [], []), ops, Mx(true, 0, [Hold, Idle], [], []));
  }

  lemma {:induction false} Link(s: Mx, ops: seq<Op>, s1: Mx)
    requires ops != [] && Enabled(s, ops[0]) && s1 == Apply(s, ops[0]) && Legal(s1, ops[1..])
    ensures Legal(s, ops) && After(s, ops) == After(s1, ops[1..])
  {
    hide Enabled, Apply;
  }

  /** Two threads wait, one signal comes, and both go on. */
  function TwoWait(): seq<Op> { [Lock(0, true), CondWait(0, true), Lock(1, true), CondWait(1, true), Signal(2)] }

  lemma FirstWaits()
    ensures Fresh(3) == Mx(false, NOBODY, [Idle, Idle, Idle], [], [])
    ensures var s := Mx(false, NOBODY, [Idle, Idle, Idle], [], []);
            Enabled(s, Lock(0, true)) && Apply(s, Lock(0, true)) == Mx(true, 0, [Hold, Idle, Idle], [], [])
    ensures var s := Mx(true, 0, [Hold, Idle, Idle], [], []);
            Enabled(s, CondWait(0, true)) && Apply(s, CondWait(0, true)) ==
              Mx(false, NOBODY, [CondQueued, Idle, Idle], [], [0])
  {
    assert Fresh(3).pc == [Idle, Idle, Idle];
    assert WakeAll([Hold, Idle, Idle], []) == [Hold, Idle, Idle];
  }

  lemma SecondWaits()
    ensures var s := Mx(false, NOBODY, [CondQueued, Idle, Idle], [], [0]);
            Enabled(s, Lock(1, true)) && Apply(s, Lock(1, true)) == Mx(true, 1, [CondQueued, Hold, Idle], [], [0])
    ensures var s := Mx(true, 1, [CondQueued, Hold, Idle], [], [0]);
            Enabled(s, CondWait(1, true)) &&
            Apply(s, CondWait(1, true)) == Mx(false, NOBODY, [CondQueued, CondQueued, Idle], [], [0, 1])
  {
    assert WakeAll([CondQueued, Hold, Idle], []) == [CondQueued, Hold, Idle];
  }

  lemma SignalComes()
    ensures var s := Mx(false, NOBODY, [CondQueued, CondQueued, Idle], [], [0, 1]);
            Enabled(s, Signal(2)) && Apply(s, Signal(2)) == Mx(false, NOBODY, [Try(true), Try(true), Idle], [], [])
  {
    assert 0 in [0, 1] && 1 in [0, 1] && 2 !in [0, 1];
    assert WakeAll([CondQueued, CondQueued, Idle], [0, 1]) == [Try(true), Try(true), Idle];
  }

  lemma BothWoken()
    ensures Legal(Fresh(3), TwoWait()) && After(Fresh(3), TwoWait()).pc == [Try(true), Try(true), Idle]
  {
    FirstWaits();
    SecondWaits();
    SignalComes();
    hide Apply, Enabled, Fresh;
    var ops := TwoWait();
    var s4 := Mx(false, NOBODY, [CondQueued, CondQueued, Idle], [], [0, 1]);
    Link(s4, ops[4..], Mx(false, NOBODY, [Try(true), Try(true), Idle], [], []));
    Link(Mx(true, 1, [CondQueued, Hold, Idle], [], [0]), ops[3..], s4);
    var s3 := Mx(true, 1, [CondQueued, Hold, Idle], [], [0]);
    Link(Mx(false, NOBODY, [CondQueued, Idle, Idle], [], [0]), ops[2..], s3);
    Link(Mx(true, 0, [Hold, Idle, Idle], [], []), ops[1..], Mx(false, NOBODY, [CondQueued, Idle, Idle], [], [0]));
    Link(Mx(false, NOBODY, [Idle, Idle, Idle], [], []), ops, Mx(true, 0, [Hold, Idle, Idle], [], []));
  }

  // ----- the fields, as the code updates them

  /** mutex_t.  Each method is one stretch with interrupts off; s is the protocol's state around it. */
  class Lock {
    var locked: bool
    var owner: int

    ghost predicate Shows(s: Mx)
      reads this
    {
      locked == s.locked && owner == s.owner
    }

    /** mutex_init. */
    constructor ()
      ensures forall n: nat :: Shows(Fresh(n))
    {
      locked, owner := false, NOBODY;
    }

    /** mutex_lock up to the decision, by process pid; mutex_trylock is the same section. */
    method LockSection(pid: nat, ghost s: Mx, ghost atomic: bool) returns (held: bool)
      requires Shows(s) && Enabled(s, Op.Lock(pid, atomic))
      modifies this
      ensures Shows(Apply(s, Op.Lock(pid, atomic))) && held == (Apply(s, Op.Lock(pid, atomic)).pc[pid] == Hold)
      ensures s.pc[pid].Idle? ==> Shows(Apply(s, Trylock(pid))) && held == (Apply(s, Trylock(pid)).pc[pid] == Hold)
    {
      if locked {
        return false;
      }
      locked := true;
      owner := pid;
      return true;
    }

    /** mutex_unlock, before it wakes a waiter. */
    method UnlockSection(ghost s: Mx, ghost t: nat)
      requires Shows(s) && Enabled(s, Unlock(t))
      modifies this
      ensures Shows(Apply(s, Unlock(t)))
    {
      locked := false;
      owner := NOBODY;
    }

    /** The part of cond_wait with interrupts off. */
    method WaitSection(ghost s: Mx, ghost t: nat, ghost atomic: bool)
      requires Shows(s) && Enabled(s, CondWait(t, atomic))
      modifies this
      ensures Shows(Apply(s, CondWait(t, atomic)))
    {
      locked := false;
      owner := NOBODY;
    }
  }
}
