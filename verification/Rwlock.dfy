/**
 The read-write lock (kernel/core/rwlock.c) as a protocol of any number of threads.

 A step is one stretch of code with interrupts off; between steps any other
 thread may go.  `pc` says where each thread stands.
 */
module Rwlock {
  import opened Threads

  /**
   Doze: found the lock taken, interrupts on again, not yet in the queue.
   Queued: asleep.  Try: woken, about to look again.
   Wake: has to wake one writer.  Unlock1, Unlock2: between the parts of write unlock.
   */
  datatype Pc =
    | Idle
    | ReadDoze | ReadQueued | ReadTry | ReadHold
    | WriteDoze | WriteQueued | WriteTry | WriteHold
    | Wake | Unlock1 | Unlock2

  datatype Rw = Rw(readers: nat, writer: bool, waiting: nat, pc: seq<Pc>, readerQ: seq<nat>, writerQ: seq<nat>)

  /**
   Atomic says that the check and the sleep are one step.  Spurious: a signal wakes
   a sleeper, whose queue entry stays behind.
   */
  datatype Op =
    | ReadLock(t: nat, atomic: bool) | ReadTrylock(t: nat) | ReadSleep(t: nat) | ReadUnlock(t: nat)
    | WriteLock(t: nat, atomic: bool) | WriteTrylock(t: nat) | WriteSleep(t: nat) | WriteUnlock(t: nat)
    | WakeReaders(t: nat) | LookAgain(t: nat) | WakeWriter(t: nat)
    | Spurious(t: nat)

  predicate Enabled(s: Rw, op: Op) {
    && op.t < |s.pc|
    && match op
       case ReadLock(t, _) => s.pc[t] == Idle || s.pc[t] == ReadTry
       case ReadTrylock(t) => s.pc[t] == Idle
       case ReadSleep(t) => s.pc[t] == ReadDoze
       case ReadUnlock(t) => s.pc[t] == ReadHold
       case WriteLock(t, _) => s.pc[t] == Idle || s.pc[t] == WriteTry
       case WriteTrylock(t) => s.pc[t] == Idle
       case WriteSleep(t) => s.pc[t] == WriteDoze
       case WriteUnlock(t) => s.pc[t] == WriteHold
       case WakeReaders(t) => s.pc[t] == Unlock1
       case LookAgain(t) => s.pc[t] == Unlock2
       case WakeWriter(t) => s.pc[t] == Wake
       case Spurious(t) => s.pc[t] == ReadQueued || s.pc[t] == WriteQueued
  }

  function Goes(s: Rw, t: nat, at: Pc): Rw
    requires t < |s.pc|
  {
    s.(pc := s.pc[t := at])
  }

  /** wait_queue_wake: every thread of the queue that is asleep there tries again. */
  function Woken(pc: seq<Pc>, q: seq<nat>): (r: seq<Pc>)
    ensures |r| == |pc|
    ensures forall t :: 0 <= t < |pc| ==> r[t] == if t in q && pc[t] == ReadQueued then ReadTry else pc[t]
  {
    seq(|pc|, t requires 0 <= t < |pc| => if t in q && pc[t] == ReadQueued then ReadTry else pc[t])
  }

  function Apply(s: Rw, op: Op): (r: Rw)
    requires Enabled(s, op)
    ensures |r.pc| == |s.pc|
  {
    var t := op.t;
    match op
    case ReadLock(_, atomic) =>
      if s.writer || s.waiting > 0 then
        if atomic then Goes(s, t, ReadQueued).(readerQ := s.readerQ + [t]) else Goes(s, t, ReadDoze)
      else Goes(s, t, ReadHold).(readers := s.readers + 1)
    case ReadTrylock(_) =>
      if s.writer || s.waiting > 0 then s else Goes(s, t, ReadHold).(readers := s.readers + 1)
    case ReadSleep(_) => Goes(s, t, ReadQueued).(readerQ := s.readerQ + [t])
    case ReadUnlock(_) =>
      var readers := if s.readers > 0 then s.readers - 1 else 0;
      Goes(s, t, if readers == 0 && s.waiting > 0 then Wake else Idle).(readers := readers)
    case WriteLock(_, atomic) =>
      var waiting := if s.pc[t] == Idle then s.waiting + 1 else s.waiting;
      if s.readers > 0 || s.writer then
        if atomic then Goes(s, t, WriteQueued).(waiting := waiting, writerQ := s.writerQ + [t])
        else Goes(s, t, WriteDoze).(waiting := waiting)
      else Goes(s, t, WriteHold).(waiting := if waiting > 0 then waiting - 1 else 0, writer := true)
    case WriteTrylock(_) =>
      if s.readers > 0 || s.writer then s else Goes(s, t, WriteHold).(writer := true)
    case WriteSleep(_) => Goes(s, t, WriteQueued).(writerQ := s.writerQ + [t])
    case WriteUnlock(_) => Goes(s, t, Unlock1).(writer := false)
    case WakeReaders(_) => Goes(s.(pc := Woken(s.pc, s.readerQ), readerQ := []), t, Unlock2)
    case LookAgain(_) => Goes(s, t, if s.readers == 0 && s.waiting > 0 then Wake else Idle)
    case WakeWriter(_) =>
      if s.writerQ == [] then Goes(s, t, Idle)
      else
        var w := s.writerQ[0];
        var pc := if w < |s.pc| && s.pc[w] == WriteQueued then s.pc[w := WriteTry] else s.pc;
        Goes(s.(pc := pc, writerQ := s.writerQ[1..]), t, Idle)
    case Spurious(_) => Goes(s, t, if s.pc[t] == ReadQueued then ReadTry else WriteTry)
  }

  // ----- exclusion

  /** The fields count the threads, and a writer is alone. */
  ghost predicate Exclusive(s: Rw) {
    && s.readers == At(s.pc, ReadHold)
    && s.waiting == At(s.pc, WriteDoze) + At(s.pc, WriteQueued) + At(s.pc, WriteTry)
    && At(s.pc, WriteHold) == (if s.writer then 1 else 0)
    && (s.writer ==> s.readers == 0)
  }

  lemma {:induction false} WokenCount(pc: seq<Pc>, q: seq<nat>, x: Pc)
    requires x != ReadQueued && x != ReadTry
    ensures At(Woken(pc, q), x) == At(pc, x)
    decreases |pc|
  {
    if pc != [] {
      var n := |pc| - 1;
      WokenCount(pc[..n], q, x);
      assert Woken(pc, q)[..n] == Woken(pc[..n], q);
      Last(pc, n, x);
      Last(Woken(pc, q), n, x);
    } else {
      assert Woken(pc, q) == pc;
    }
  }

  lemma ExclusiveKept(s: Rw, op: Op)
    requires Exclusive(s) && Enabled(s, op)
    ensures Exclusive(Apply(s, op))
  {
    if op.WakeReaders? || op.WakeWriter? {
      WakeExclusive(s, op);
    } else if op.ReadLock? || op.ReadTrylock? || op.ReadSleep? || op.ReadUnlock? {
      ReadExclusive(s, op);
    } else {
      WriteExclusive(s, op);
    }
  }

  lemma ReadExclusive(s: Rw, op: Op)
    requires Exclusive(s) && Enabled(s, op) && (op.ReadLock? || op.ReadTrylock? || op.ReadSleep? || op.ReadUnlock?)
    ensures Exclusive(Apply(s, op))
  {
    hide At;
    Moved(s.pc, op.t, Apply(s, op).pc[op.t], Apply(s, op).pc);
  }

  lemma WriteExclusive(s: Rw, op: Op)
    requires Exclusive(s) && Enabled(s, op)
    requires op.WriteLock? || op.WriteTrylock? || op.WriteSleep? || op.WriteUnlock? || op.LookAgain? || op.Spurious?
    ensures Exclusive(Apply(s, op))
  {
    hide At;
    Moved(s.pc, op.t, Apply(s, op).pc[op.t], Apply(s, op).pc);
  }

  lemma WakeExclusive(s: Rw, op: Op)
    requires Exclusive(s) && Enabled(s, op) && (op.WakeReaders? || op.WakeWriter?)
    ensures Exclusive(Apply(s, op))
  {
    hide At, Woken;
    var t := op.t;
    if op.WakeReaders? {
      forall x | x != ReadQueued && x != ReadTry
        ensures At(Woken(s.pc, s.readerQ), x) == At(s.pc, x)
      {
        WokenCount(s.pc, s.readerQ, x);
      }
      WokenAt(s.pc, s.readerQ, t);
      Moved(Woken(s.pc, s.readerQ), t, Unlock2, Apply(s, op).pc);
    } else if s.writerQ == [] || s.writerQ[0] >= |s.pc| || s.pc[s.writerQ[0]] != WriteQueued {
      Moved(s.pc, t, Idle, Apply(s, op).pc);
    } else {
      Moved(s.pc, s.writerQ[0], WriteTry, s.pc[s.writerQ[0] := WriteTry]);
      Moved(s.pc[s.writerQ[0] := WriteTry], t, Idle, Apply(s, op).pc);
    }
  }

  lemma WokenAt(pc: seq<Pc>, q: seq<nat>, t: nat)
    requires t < |pc| && pc[t] != ReadQueued
    ensures Woken(pc, q)[t] == pc[t]
  {
  }

  /** A thread that holds the lock for writing is the only one that holds it. */
  lemma AloneWriter(s: Rw, t: nat, u: nat)
    requires Exclusive(s) && t < |s.pc| && u < |s.pc| && t != u && s.pc[t] == WriteHold
    ensures s.pc[u] != WriteHold && s.pc[u] != ReadHold
  {
    var rest := s.pc[t := Idle];
    Moved(s.pc, t, Idle, rest);
    assert rest[u] in multiset(rest);
  }

  /** Readers only grow while no writer holds the lock or waits for it. */
  lemma ReadersHeldBack(s: Rw, op: Op)
    requires Enabled(s, op) && Apply(s, op).readers > s.readers
    ensures !s.writer && s.waiting == 0
  {
  }

  // ----- no one is forgotten

  /** A queue holds the threads asleep there, each once. */
  ghost predicate Holds(pc: seq<Pc>, q: seq<nat>, at: Pc) {
    && (forall i :: 0 <= i < |q| ==> q[i] < |pc| && pc[q[i]] == at)
    && (forall i, j :: 0 <= i < j < |q| ==> q[i] != q[j])
    && (forall t: nat :: t < |pc| && pc[t] == at ==> t in q)
  }

  ghost predicate Served(s: Rw) {
    && (s.writerQ != [] && !s.writer && s.readers == 0 ==>
          At(s.pc, WriteTry) + At(s.pc, Wake) + At(s.pc, Unlock1) + At(s.pc, Unlock2) > 0)
    && (s.readerQ != [] ==> s.writer || s.waiting > 0 || At(s.pc, Unlock1) > 0)
  }

  ghost predicate Live(s: Rw) {
    && Exclusive(s) && Served(s)
    && Holds(s.pc, s.readerQ, ReadQueued) && Holds(s.pc, s.writerQ, WriteQueued)
  }

  /**
   The sleep after the check comes in time: a wake is still to come. For a writer that
   is someone who holds the lock, tries for it or is on the way to wake a writer; for a
   reader, a writer that holds or waits, or one between its unlock and its wake.
   */
  ghost predicate Timely(s: Rw, op: Op) {
    && (op.WriteSleep? ==>
          s.writer || s.readers > 0 || At(s.pc, WriteTry) + At(s.pc, Wake) + At(s.pc, Unlock1) + At(s.pc, Unlock2) > 0)
    && (op.ReadSleep? ==> s.writer || s.waiting > 0 || At(s.pc, Unlock1) > 0)
  }

  lemma HoldsMove(pc: seq<Pc>, q: seq<nat>, at: Pc, t: nat, to: Pc)
    requires Holds(pc, q, at) && t < |pc| && pc[t] != at
    ensures to != at ==> Holds(pc[t := to], q, at)
    ensures to == at ==> Holds(pc[t := to], q + [t], at)
  {
  }

  lemma HoldsPop(pc: seq<Pc>, q: seq<nat>, at: Pc, to: Pc)
    requires Holds(pc, q, at) && q != [] && to != at
    ensures Holds(pc[q[0] := to], q[1..], at)
  {
    var pc' := pc[q[0] := to];
    forall t: nat | t < |pc'| && pc'[t] == at
      ensures t in q[1..]
    {
      assert t in q;
    }
  }

  lemma HoldsWoken(pc: seq<Pc>, q: seq<nat>, wq: seq<nat>)
    requires Holds(pc, q, ReadQueued) && Holds(pc, wq, WriteQueued)
    ensures Holds(Woken(pc, q), [], ReadQueued) && Holds(Woken(pc, q), wq, WriteQueued)
  {
  }

  lemma HoldsKept(s: Rw, op: Op)
    requires Enabled(s, op) && !op.Spurious?
    requires Holds(s.pc, s.readerQ, ReadQueued) && Holds(s.pc, s.writerQ, WriteQueued)
    ensures Holds(Apply(s, op).pc, Apply(s, op).readerQ, ReadQueued)
    ensures Holds(Apply(s, op).pc, Apply(s, op).writerQ, WriteQueued)
  {
    var t := op.t;
    if op.WakeReaders? {
      var pc := Woken(s.pc, s.readerQ);
      HoldsWoken(s.pc, s.readerQ, s.writerQ);
      HoldsMove(pc, [], ReadQueued, t, Unlock2);
      HoldsMove(pc, s.writerQ, WriteQueued, t, Unlock2);
    } else if op.WakeWriter? && s.writerQ != [] {
      var w := s.writerQ[0];
      var pc := s.pc[w := WriteTry];
      HoldsPop(s.pc, s.writerQ, WriteQueued, WriteTry);
      HoldsMove(s.pc, s.readerQ, ReadQueued, w, WriteTry);
      HoldsMove(pc, s.writerQ[1..], WriteQueued, t, Idle);
      HoldsMove(pc, s.readerQ, ReadQueued, t, Idle);
    } else {
      hide Holds;
      var to := Apply(s, op).pc[t];
      HoldsMove(s.pc, s.readerQ, ReadQueued, t, to);
      HoldsMove(s.pc, s.writerQ, WriteQueued, t, to);
      assert Apply(s, op).pc == s.pc[t := to];
    }
  }

  lemma QueuedWaits(s: Rw)
    requires Exclusive(s) && Holds(s.pc, s.writerQ, WriteQueued) && s.writerQ != []
    ensures s.waiting > 0
  {
    assert s.pc[s.writerQ[0]] in multiset(s.pc);
  }

  lemma TryingWaits(s: Rw, t: nat)
    requires Exclusive(s) && t < |s.pc| && s.pc[t] == WriteTry
    ensures s.waiting > 0
  {
    assert s.pc[t] in multiset(s.pc);
  }

  /** Of all the lock's steps only a late sleep leaves someone unserved. */
  lemma ServedExactly(s: Rw, op: Op)
    requires Live(s) && Enabled(s, op) && !op.Spurious?
    ensures Served(Apply(s, op)) <==> Timely(s, op)
  {
    if s.writerQ != [] {
      QueuedWaits(s);
    }
    if s.pc[op.t] == WriteTry {
      TryingWaits(s, op.t);
    }
    if op.WakeReaders? {
      ReadersServed(s, op.t);
    } else if op.WakeWriter? {
      assert s.writerQ != [] ==> s.writerQ[0] < |s.pc| && s.pc[s.writerQ[0]] == WriteQueued;
      WriterServed(s, op.t);
    } else if op.ReadLock? || op.ReadTrylock? || op.ReadUnlock? {
      ReadServes(s, op);
    } else if op.ReadSleep? || op.WriteSleep? {
      SleepServes(s, op);
    } else {
      WriteServes(s, op);
    }
  }

  lemma SleepServes(s: Rw, op: Op)
    requires Served(s) && Enabled(s, op) && (op.ReadSleep? || op.WriteSleep?)
    ensures Served(Apply(s, op)) <==> Timely(s, op)
  {
    hide At;
    Moved(s.pc, op.t, Apply(s, op).pc[op.t], Apply(s, op).pc);
  }

  lemma ReadServes(s: Rw, op: Op)
    requires Served(s) && Enabled(s, op) && (s.writerQ != [] ==> s.waiting > 0)
    requires op.ReadLock? || op.ReadTrylock? || op.ReadUnlock?
    ensures Served(Apply(s, op))
  {
    hide At;
    var s' := Apply(s, op);
    Moved(s.pc, op.t, s'.pc[op.t], s'.pc);
  }

  lemma WriteServes(s: Rw, op: Op)
    requires Served(s) && Enabled(s, op)
    requires (s.writerQ != [] ==> s.waiting > 0) && (s.pc[op.t] == WriteTry ==> s.waiting > 0)
    requires op.WriteLock? || op.WriteTrylock? || op.WriteUnlock? || op.LookAgain?
    ensures Served(Apply(s, op))
  {
    hide At;
    Moved(s.pc, op.t, Apply(s, op).pc[op.t], Apply(s, op).pc);
  }

  lemma ReadersServed(s: Rw, t: nat)
    requires Enabled(s, WakeReaders(t))
    ensures Served(Apply(s, WakeReaders(t)))
  {
    hide At, Woken;
    WokenAt(s.pc, s.readerQ, t);
    Moved(Woken(s.pc, s.readerQ), t, Unlock2, Apply(s, WakeReaders(t)).pc);
  }

  lemma WriterServed(s: Rw, t: nat)
    requires Served(s) && Enabled(s, WakeWriter(t))
    requires s.writerQ != [] ==> s.writerQ[0] < |s.pc| && s.pc[s.writerQ[0]] == WriteQueued
    ensures Served(Apply(s, WakeWriter(t)))
  {
    hide At;
    if s.writerQ != [] {
      var w := s.writerQ[0];
      Moved(s.pc, w, WriteTry, s.pc[w := WriteTry]);
      Moved(s.pc[w := WriteTry], t, Idle, Apply(s, WakeWriter(t)).pc);
    } else {
      Moved(s.pc, t, Idle, Apply(s, WakeWriter(t)).pc);
    }
  }

  lemma LiveKept(s: Rw, op: Op)
    requires Live(s) && Enabled(s, op) && !op.Spurious? && Timely(s, op)
    ensures Live(Apply(s, op))
  {
    hide Exclusive, Served, Holds, Apply, Enabled, Timely;
    ExclusiveKept(s, op);
    HoldsKept(s, op);
    ServedExactly(s, op);
  }

  /** A reader gets in exactly when no thread holds the lock for writing or is waiting to; a writer exactly when no
      thread holds it at all; and a trylock that fails changes nothing. */
  lemma EntersExactly(s: Rw, op: Op)
    requires Exclusive(s) && Enabled(s, op)
    ensures op.ReadLock? || op.ReadTrylock? ==>
              (Apply(s, op).pc[op.t] == ReadHold <==>
               forall u :: 0 <= u < |s.pc| ==> s.pc[u] !in {WriteHold, WriteDoze, WriteQueued, WriteTry})
    ensures op.WriteLock? || op.WriteTrylock? ==>
              (Apply(s, op).pc[op.t] == WriteHold <==>
               forall u :: 0 <= u < |s.pc| ==> s.pc[u] !in {WriteHold, ReadHold})
    ensures op.ReadTrylock? && Apply(s, op).pc[op.t] != ReadHold ==> Apply(s, op) == s
    ensures op.WriteTrylock? && Apply(s, op).pc[op.t] != WriteHold ==> Apply(s, op) == s
  {
    NoneAt(s.pc, WriteHold);
    NoneAt(s.pc, WriteDoze);
    NoneAt(s.pc, WriteQueued);
    NoneAt(s.pc, WriteTry);
    NoneAt(s.pc, ReadHold);
    hide At;
  }

  /** Whoever is ahead in the writers' queue stays ahead while asleep there. */
  lemma AheadKept(s: Rw, op: Op, u: nat, v: nat)
    requires Holds(s.pc, s.writerQ, WriteQueued) && Enabled(s, op) && !op.Spurious? && Ahead(s.writerQ, u, v)
    requires u < |s.pc| && s.pc[u] == WriteQueued && Apply(s, op).pc[u] == WriteQueued
    ensures Ahead(Apply(s, op).writerQ, u, v)
  {
    hide Ahead;
    AheadPush(s.writerQ, u, v, op.t);
    if op.WakeWriter? && s.writerQ != [] {
      AheadPop(s.writerQ, u, v);
    }
  }

  /** A thread that goes to sleep comes behind all who are asleep. */
  lemma JoinsLast(s: Rw, op: Op, u: nat)
    requires Holds(s.pc, s.writerQ, WriteQueued) && Enabled(s, op) && u in s.writerQ
    requires s.pc[op.t] != WriteQueued && Apply(s, op).pc[op.t] == WriteQueued
    ensures Ahead(Apply(s, op).writerQ, u, op.t)
  {
    AheadPush(s.writerQ, u, op.t, op.t);
  }

  // ----- runs

  function Fresh(n: nat): Rw { Rw(0, false, 0, seq(n, (i: nat) => Idle), [], []) }

  ghost predicate Legal(s: Rw, ops: seq<Op>)
    decreases |ops|
  {
    ops == [] || (Enabled(s, ops[0]) && Legal(Apply(s, ops[0]), ops[1..]))
  }

  ghost function After(s: Rw, ops: seq<Op>): Rw
    requires Legal(s, ops)
    decreases |ops|
  {
    if ops == [] then s else After(Apply(s, ops[0]), ops[1..])
  }

  lemma {:induction false} FreshCount(n: nat, x: Pc)
    ensures At(Fresh(n).pc, x) == if x == Idle then n else 0
  {
    if n > 0 {
      FreshCount(n - 1, x);
      assert Fresh(n).pc[..n - 1] == Fresh(n - 1).pc;
      Last(Fresh(n).pc, n - 1, x);
    }
  }

  lemma {:induction false} StaysExclusive(s: Rw, ops: seq<Op>)
    requires Exclusive(s) && Legal(s, ops)
    ensures Exclusive(After(s, ops))
    decreases |ops|
  {
    if ops != [] {
      ExclusiveKept(s, ops[0]);
      StaysExclusive(Apply(s, ops[0]), ops[1..]);
    }
  }

  /** No step of the run leaves anyone unserved. */
  ghost predicate ServedThroughout(s: Rw, ops: seq<Op>)
    requires Legal(s, ops)
    decreases |ops|
  {
    Served(s) && (ops == [] || ServedThroughout(Apply(s, ops[0]), ops[1..]))
  }

  /** No sleep of the run is late. */
  ghost predicate TimelyThroughout(s: Rw, ops: seq<Op>)
    requires Legal(s, ops)
    decreases |ops|
  {
    ops == [] || (Timely(s, ops[0]) && TimelyThroughout(Apply(s, ops[0]), ops[1..]))
  }

  /** Writer u is asleep in the queue all through the run. */
  ghost predicate SleepsThrough(s: Rw, ops: seq<Op>, u: nat)
    requires Legal(s, ops)
    decreases |ops|
  {
    u < |s.pc| && s.pc[u] == WriteQueued && (ops == [] || SleepsThrough(Apply(s, ops[0]), ops[1..], u))
  }

  /** First come, first woken: while a writer sleeps, no writer who came after it is woken. */
  lemma {:induction false} FirstWokenFirst(s: Rw, ops: seq<Op>, u: nat, v: nat)
    requires Holds(s.pc, s.readerQ, ReadQueued) && Holds(s.pc, s.writerQ, WriteQueued) && Legal(s, ops)
    requires Ahead(s.writerQ, u, v) && SleepsThrough(s, ops, u) && forall i :: 0 <= i < |ops| ==> !ops[i].Spurious?
    ensures SleepsThrough(s, ops, v)
    decreases |ops|
  {
    hide Apply, Enabled;
    assert v in s.writerQ;
    if ops != [] {
      AheadKept(s, ops[0], u, v);
      HoldsKept(s, ops[0]);
      FirstWokenFirst(Apply(s, ops[0]), ops[1..], u, v);
    }
  }

  lemma {:induction false} StaysServed(s: Rw, ops: seq<Op>)
    requires Live(s) && Legal(s, ops) && forall i :: 0 <= i < |ops| ==> !ops[i].Spurious?
    ensures ServedThroughout(s, ops) <==> TimelyThroughout(s, ops)
    decreases |ops|
  {
    hide Exclusive, Served, Holds, Apply, Enabled, Timely;
    if ops != [] {
      ServedExactly(s, ops[0]);
      if Timely(s, ops[0]) {
        LiveKept(s, ops[0]);
        StaysServed(Apply(s, ops[0]), ops[1..]);
      }
    }
  }

  lemma FreshLive(n: nat)
    ensures Live(Fresh(n))
  {
    hide At;
    FreshCount(n, ReadHold);
    FreshCount(n, WriteHold);
    FreshCount(n, WriteDoze);
    FreshCount(n, WriteQueued);
    FreshCount(n, WriteTry);
  }

  /** Any number of threads, any interleaving, sleepers woken early or late: writers exclude, and the fields count
      the holders. */
  lemma {:induction false} RunExclusive(n: nat, ops: seq<Op>)
    requires Legal(Fresh(n), ops)
    ensures Exclusive(After(Fresh(n), ops))
  {
    FreshLive(n);
    StaysExclusive(Fresh(n), ops);
  }

  /**
   Over every run: at every point a free lock with queued writers has one awake or about
   to be, and readers queue only behind a writer, if and only if no sleep was late.
   */
  lemma {:induction false} RunServed(n: nat, ops: seq<Op>)
    requires Legal(Fresh(n), ops) && forall i :: 0 <= i < |ops| ==> !ops[i].Spurious?
    ensures ServedThroughout(Fresh(n), ops) <==> TimelyThroughout(Fresh(n), ops)
  {
    hide Live, Served, Apply, Enabled, Timely;
    FreshLive(n);
    StaysServed(Fresh(n), ops);
  }

  /** With atomic sleeps none is. */
  lemma {:induction false} AtomicTimely(s: Rw, ops: seq<Op>)
    requires Legal(s, ops) && forall i :: 0 <= i < |ops| ==> !ops[i].ReadSleep? && !ops[i].WriteSleep?
    ensures TimelyThroughout(s, ops)
    decreases |ops|
  {
    hide Apply, Enabled;
    if ops != [] {
      AtomicTimely(Apply(s, ops[0]), ops[1..]);
    }
  }

  // ----- what the gap between check and sleep costs

  /** The writer's whole unlock fits into the gap: the lock is free, and the sleeper is not woken. */
  function LateSleep(): seq<Op> {
    [WriteLock(0, true), WriteLock(1, false), WriteUnlock(0), WakeReaders(0), LookAgain(0), WakeWriter(0),
     WriteSleep(1)]
  }

  /** Its states: what thread 0 and thread 1 are at. */
  function Late(writer: bool, waiting: nat, a: Pc, b: Pc, q: seq<nat>): Rw { Rw(0, writer, waiting, [a, b], [], q) }

  lemma LateFirst()
    ensures var s := Late(false, 0, Idle, Idle, []);
            Enabled(s, WriteLock(0, true)) && Apply(s, WriteLock(0, true)) == Late(true, 0, WriteHold, Idle, [])
    ensures var s := Late(true, 0, WriteHold, Idle, []);
            Enabled(s, WriteLock(1, false)) && Apply(s, WriteLock(1, false)) == Late(true, 1, WriteHold, WriteDoze, [])
    ensures var s := Late(true, 1, WriteHold, WriteDoze, []);
            Enabled(s, WriteUnlock(0)) && Apply(s, WriteUnlock(0)) == Late(false, 1, Unlock1, WriteDoze, [])
  {
  }

  lemma LateMiddle()
    ensures var s := Late(false, 1, Unlock1, WriteDoze, []);
            Enabled(s, WakeReaders(0)) && Apply(s, WakeReaders(0)) == Late(false, 1, Unlock2, WriteDoze, [])
    ensures var s := Late(false, 1, Unlock2, WriteDoze, []);
            Enabled(s, LookAgain(0)) && Apply(s, LookAgain(0)) == Late(false, 1, Wake, WriteDoze, [])
  {
    var s := Late(false, 1, Unlock1, WriteDoze, []);
    assert Woken(s.pc, []) == s.pc;
  }

  lemma LateLast()
    ensures var s := Late(false, 1, Wake, WriteDoze, []);
            Enabled(s, WakeWriter(0)) && Apply(s, WakeWriter(0)) == Late(false, 1, Idle, WriteDoze, [])
    ensures var s := Late(false, 1, Idle, WriteDoze, []);
            Enabled(s, WriteSleep(1)) && Apply(s, WriteSleep(1)) == Late(false, 1, Idle, WriteQueued, [1])
  {
  }

  lemma LateUnserved()
    ensures var s := Late(false, 1, Idle, WriteQueued, [1]);
            s.writerQ == [1] && s.pc == [Idle, WriteQueued] && !s.writer && s.readers == 0 && !Served(s)
  {
    assert multiset(Late(false, 1, Idle, WriteQueued, [1]).pc) == multiset{Idle, WriteQueued};
  }

  /** The second half of the run. */
  function LateTail(): seq<Op> { [WakeReaders(0), LookAgain(0), WakeWriter(0), WriteSleep(1)] }

  lemma LateTailRun()
    ensures var s := Late(false, 1, Unlock1, WriteDoze, []);
            Legal(s, LateTail()) && After(s, LateTail()) == Late(false, 1, Idle, WriteQueued, [1])
  {
    var ops := LateTail();
    LateMiddle();
    LateLast();
    hide Apply, Enabled, Late;
    Link(Late(false, 1, Idle, WriteDoze, []), ops[3..], Late(false, 1, Idle, WriteQueued, [1]));
    Link(Late(false, 1, Wake, WriteDoze, []), ops[2..], Late(false, 1, Idle, WriteDoze, []));
    Link(Late(false, 1, Unlock2, WriteDoze, []), ops[1..], Late(false, 1, Wake, WriteDoze, []));
    Link(Late(false, 1, Unlock1, WriteDoze, []), ops, Late(false, 1, Unlock2, WriteDoze, []));
  }

  lemma LateStart()
    ensures Fresh(2) == Late(false, 0, Idle, Idle, []) && LateSleep()[3..] == LateTail()
  {
    assert Fresh(2).pc == [Idle, Idle];
  }

  lemma LateSleepStranded()
    ensures Legal(Fresh(2), LateSleep())
    ensures var s := After(Fresh(2), LateSleep());
            s.writerQ == [1] && s.pc == [Idle, WriteQueued] && !s.writer && s.readers == 0 && !Served(s)
  {
    var ops := LateSleep();
    LateFirst();
    LateTailRun();
    LateUnserved();
    LateStart();
    hide Apply, Enabled, Late, Served, Fresh;
    Link(Late(true, 1, WriteHold, WriteDoze, []), ops[2..], Late(false, 1, Unlock1, WriteDoze, []));
    Link(Late(true, 0, WriteHold, Idle, []), ops[1..], Late(true, 1, WriteHold, WriteDoze, []));
    Link(Late(false, 0, Idle, Idle, []), ops, Late(true, 0, WriteHold, Idle, []));
  }

  lemma {:induction false} Link(s: Rw, ops: seq<Op>, s1: Rw)
    requires ops != [] && Enabled(s, ops[0]) && s1 == Apply(s, ops[0]) && Legal(s1, ops[1..])
    ensures Legal(s, ops) && After(s, ops) == After(s1, ops[1..])
  {
    hide Enabled, Apply;
  }

  // ----- the fields, as the code updates them

  /** rwlock_t.  Each method is one stretch with interrupts off; s is the protocol's state around it. */
  class Lock {
    var readers: nat
    var writer: bool
    var waiting: nat

    ghost predicate Shows(s: Rw)
      reads this
    {
      readers == s.readers && writer == s.writer && waiting == s.waiting
    }

    /** rwlock_init. */
    constructor ()
      ensures forall n: nat :: Shows(Fresh(n))
    {
      readers, writer, waiting := 0, false, 0;
    }

    /** rwlock_read_lock up to the decision; rwlock_read_trylock is the same section. */
    method ReadSection(ghost s: Rw, ghost t: nat, ghost atomic: bool) returns (held: bool)
      requires Shows(s) && Enabled(s, ReadLock(t, atomic))
      modifies this
      ensures Shows(Apply(s, ReadLock(t, atomic))) && held == (Apply(s, ReadLock(t, atomic)).pc[t] == ReadHold)
      ensures s.pc[t] == Idle ==> Shows(Apply(s, ReadTrylock(t)))
      ensures s.pc[t] == Idle ==> held == (Apply(s, ReadTrylock(t)).pc[t] == ReadHold)
    {
      if writer || waiting > 0 {
        return false;
      }
      readers := readers + 1;
      return true;
    }

    /** rwlock_read_unlock; wake says whether a writer is to be woken. */
    method ReadUnlockSection(ghost s: Rw, ghost t: nat) returns (wake: bool)
      requires Shows(s) && Enabled(s, ReadUnlock(t))
      modifies this
      ensures Shows(Apply(s, ReadUnlock(t))) && wake == (Apply(s, ReadUnlock(t)).pc[t] == Wake)
    {
      if readers > 0 {
        readers := readers - 1;
      }
      return readers == 0 && waiting > 0;
    }

    /** rwlock_write_lock up to the decision; first on entry, not when woken. */
    method WriteSection(first: bool, ghost s: Rw, ghost t: nat, ghost atomic: bool) returns (held: bool)
      requires Shows(s) && Exclusive(s) && Enabled(s, WriteLock(t, atomic)) && first == (s.pc[t] == Idle)
      modifies this
      ensures Shows(Apply(s, WriteLock(t, atomic))) && held == (Apply(s, WriteLock(t, atomic)).pc[t] == WriteHold)
    {
      if !first {
        TryingWaits(s, t);
      }
      if first {
        waiting := waiting + 1;
      }
      if readers > 0 || writer {
        return false;
      }
      waiting := waiting - 1;
      writer := true;
      return true;
    }

    /** The first section of rwlock_write_unlock. */
    method WriteUnlockSection(ghost s: Rw, ghost t: nat)
      requires Shows(s) && Enabled(s, WriteUnlock(t))
      modifies this
      ensures Shows(Apply(s, WriteUnlock(t)))
    {
      writer := false;
    }

    /** Its second section, after the readers are woken. */
    method LookAgainSection(ghost s: Rw, ghost t: nat) returns (wake: bool)
      requires Shows(s) && Enabled(s, LookAgain(t))
      ensures wake == (Apply(s, LookAgain(t)).pc[t] == Wake)
    {
      return readers == 0 && waiting > 0;
    }
  }
}
