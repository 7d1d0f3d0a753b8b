/**
 Runs of the scheduler's state machine: which break its invariant, which end a stop
 without SIGCONT, and which lose a ready process for good.
 */
module SchedRuns {
  import opened SchedModel

  // ----- the run that breaks it

  ghost predicate Possible(m: Machine, ops: seq<Op>)
    decreases |ops|
  {
    ops == [] || (Enabled(m, ops[0]) && Possible(Apply(m, ops[0]), ops[1..]))
  }

  ghost function Outcome(m: Machine, ops: seq<Op>): Machine
    requires Possible(m, ops)
    decreases |ops|
  {
    if ops == [] then m else Outcome(Apply(m, ops[0]), ops[1..])
  }

  lemma {:induction false} Chain(m: Machine, ops: seq<Op>, m1: Machine)
    requires ops != [] && Enabled(m, ops[0]) && m1 == Apply(m, ops[0]) && Possible(m1, ops[1..])
    ensures Possible(m, ops) && Outcome(m, ops) == Outcome(m1, ops[1..])
  {
    hide Enabled, Apply;
  }

  /** Process p waits while no one else is ready: schedule comes back with no current process, and p marks itself
      running. */
  function IdleWait(p: nat): seq<Op> { [Nap(true), Tick(true, true), Resume(p)] }

  lemma IdleWaitRuns(m: Machine, p: nat)
    requires Inv(m) && m.s.current == p && p !in m.parked && m.s.ring == []
    ensures Possible(m, IdleWait(p))
    ensures var m' := Outcome(m, IdleWait(p));
            && m'.s.states == m.s.states[p := Running] && m'.s.current == NONE && m'.s.ring == []
            && !Orderly(m'.s)
  {
    var ops := IdleWait(p);
    var m1 := Apply(m, Nap(true));
    var m2 := Apply(m1, Tick(true, true));
    var m3 := Apply(m2, Resume(p));
    assert m2.s.states == m.s.states[p := Sleeping] && m2.s.current == NONE && p in m2.waiting && p !in m2.parked;
    assert m3.s.states[p] == Running && m3.s.current != p;
    hide Enabled, Apply;
    assert ops[1..] == [Tick(true, true), Resume(p)] && ops[1..][1..] == [Resume(p)];
    Chain(m2, ops[1..][1..], m3);
    Chain(m1, ops[1..], m2);
    Chain(m, ops, m1);
  }

  /** At boot already. */
  lemma BootWaitBreaks()
    ensures Possible(Boot(), IdleWait(0)) && !Orderly(Outcome(Boot(), IdleWait(0)).s)
  {
    IdleWaitRuns(Boot(), 0);
  }

  /** If then a sleeping process q is woken and the timer fires, two processes are running. */
  lemma TwoRunning(m: Machine, p: nat, q: nat)
    requires Shaped(m.s) && p < MAX_PROCS && m.s.states[p] == Running && m.s.current == NONE && m.s.ring == []
    requires q < MAX_PROCS && m.s.states[q] == Sleeping
    ensures Enabled(m, Wake(q)) && Enabled(Apply(m, Wake(q)), Tick(false, false))
    ensures var s := Apply(Apply(m, Wake(q)), Tick(false, false)).s; s.states[p] == Running && s.states[q] == Running
  {
  }

  // ----- stopped processes

  /** The step ends p's stop: process_wakeup, or p's own exit. */
  predicate EndsStop(m: Machine, op: Op, p: nat) {
    op == Wakeup(p) || (op.Exit? && m.s.current == p)
  }

  /** A step leaves a stopped process stopped exactly when it is neither of these. */
  lemma StoppedExactly(m: Machine, op: Op, p: nat)
    requires Inv(m) && Enabled(m, op) && Tame(m, op) && p < MAX_PROCS && m.s.states[p] == Stopped
    ensures Apply(m, op).s.states[p] == Stopped <==> !EndsStop(m, op, p)
  {
    if op.Tick? {
      if Preempts(m.s) && m.s.ring != [] && m.s.ring[0] != m.s.current {
        SwitchKeeps(m.s);
      } else {
        StayKeeps(m.s);
      }
    }
  }

  /** p's own exit, or a SIGCONT that finds p stopped. */
  ghost predicate ExitsOrContinued(m: Machine, ops: seq<Op>, p: nat)
    requires Legal(m, ops)
    decreases |ops|
  {
    ops != [] && ((ops[0].Exit? && m.s.current == p) || ops[0] == Look(p, true) ||
                  ExitsOrContinued(Apply(m, ops[0]), ops[1..], p))
  }

  /** With no wake-up still to come, a stopped process stays stopped through every run without its exit or a SIGCONT. */
  lemma {:induction false} StoppedStays(m: Machine, ops: seq<Op>, p: nat)
    requires Inv(m) && Legal(m, ops) && p < MAX_PROCS && m.s.states[p] == Stopped && p !in m.claims
    requires !ExitsOrContinued(m, ops, p)
    ensures Shaped(After(m, ops).s) && After(m, ops).s.states[p] == Stopped
    decreases |ops|
  {
    if ops != [] {
      StoppedExactly(m, ops[0], p);
      StepKeeps(m, ops[0]);
      assert p !in Apply(m, ops[0]).claims;
      hide Inv, Enabled, Apply, Tame;
      StoppedStays(Apply(m, ops[0]), ops[1..], p);
    }
  }

  // ----- ready, and never run again

  /** Ready, but in no place from which anything would run it. */
  ghost predicate Lost(m: Machine, p: nat) {
    Shaped(m.s) && p < MAX_PROCS && m.s.states[p] == Ready && p !in m.s.ring && p != m.s.current && p !in m.limbo
  }

  lemma LostStays(m: Machine, op: Op, p: nat)
    requires Inv(m) && Enabled(m, op) && Tame(m, op) && Lost(m, p)
    ensures Lost(Apply(m, op), p)
  {
    if op.Tick? {
      if Preempts(m.s) && m.s.ring != [] && m.s.ring[0] != m.s.current {
        SwitchKeeps(m.s);
        assert m.s.ring[0] in m.s.ring;
      } else {
        StayKeeps(m.s);
      }
    }
  }

  lemma {:induction false} LostForever(m: Machine, ops: seq<Op>, p: nat)
    requires Inv(m) && Legal(m, ops) && Lost(m, p)
    ensures Lost(After(m, ops), p) && !Picked(m, ops, p)
    decreases |ops|
  {
    if ops != [] {
      LostStays(m, ops[0], p);
      StepKeeps(m, ops[0]);
      LostForever(Apply(m, ops[0]), ops[1..], p);
    }
  }


  /** p is current and ready, not running, and not queued. */
  ghost predicate Hanging(m: Machine, p: nat) {
    Shaped(m.s) && p < MAX_PROCS && m.s.current == p && m.s.states[p] == Ready && p !in m.s.ring
  }

  /** This comes about in one way: p, made ready before its own call of schedule, is picked while still current. */
  lemma HangsExactly(m: Machine, op: Op, p: nat)
    requires Inv(m) && Enabled(m, op) && Tame(m, op) && p < MAX_PROCS && !Hanging(m, p)
    ensures Hanging(Apply(m, op), p) <==> Picks(m, op, p) && m.s.current == p
  {
    if op.Tick? {
      if Preempts(m.s) && m.s.ring != [] && m.s.ring[0] != m.s.current {
        SwitchKeeps(m.s);
      } else {
        StayKeeps(m.s);
      }
    } else if op.Sleep? || op.Exit? {
      RemoveKeeps(m.s.ring, m.s.current);
    } else if Queues(m, op) {
      EnqueueLands(m, op);
    }
  }

  /** A step loses p exactly when it is a call of schedule that finds p hanging. */
  lemma LosesExactly(m: Machine, op: Op, p: nat)
    requires Inv(m) && Enabled(m, op) && Tame(m, op) && p < MAX_PROCS && !Lost(m, p)
    ensures Lost(Apply(m, op), p) <==> op.Tick? && Hanging(m, p)
  {
    if op.Tick? {
      if Preempts(m.s) && m.s.ring != [] && m.s.ring[0] != m.s.current {
        SwitchKeeps(m.s);
      } else {
        StayKeeps(m.s);
      }
    } else if op.Sleep? || op.Exit? {
      RemoveKeeps(m.s.ring, m.s.current);
    } else if Queues(m, op) {
      EnqueueLands(m, op);
    }
  }

  /** Some call of schedule of the run finds p hanging. */
  ghost predicate TickedHanging(m: Machine, ops: seq<Op>, p: nat)
    requires Legal(m, ops)
    decreases |ops|
  {
    ops != [] && ((ops[0].Tick? && Hanging(m, p)) || TickedHanging(Apply(m, ops[0]), ops[1..], p))
  }

  /** Over every run: p is lost at the end exactly when schedule was once called while p was hanging. */
  lemma {:induction false} RunLosesExactly(m: Machine, ops: seq<Op>, p: nat)
    requires Inv(m) && Legal(m, ops) && p < MAX_PROCS && !Lost(m, p)
    ensures Lost(After(m, ops), p) <==> TickedHanging(m, ops, p)
    decreases |ops|
  {
    hide Inv, Enabled, Apply, Tame, Lost, Hanging;
    if ops != [] {
      StepKeeps(m, ops[0]);
      LosesExactly(m, ops[0], p);
      var m1 := Apply(m, ops[0]);
      if Lost(m1, p) {
        LostForever(m1, ops[1..], p);
      } else {
        RunLosesExactly(m1, ops[1..], p);
      }
    }
  }

  lemma {:induction false} Link(m: Machine, ops: seq<Op>, m1: Machine)
    requires ops != [] && Enabled(m, ops[0]) && Tame(m, ops[0]) && m1 == Apply(m, ops[0]) && Legal(m1, ops[1..])
    ensures Legal(m, ops) && After(m, ops) == After(m1, ops[1..])
  {
    hide Enabled, Apply;
  }

  lemma One(m: Machine, op: Op)
    requires Enabled(m, op) && Tame(m, op)
    ensures Legal(m, [op]) && After(m, [op]) == Apply(m, op)
  {
    hide Enabled, Apply, Tame;
    assert [op][1..] == [];
    Link(m, [op], Apply(m, op));
  }

  // ----- concrete runs

  /** p, alone and current, falls asleep and is woken before its own call of schedule. */
  lemma SleepThenWake(m: Machine, p: nat)
    requires Inv(m) && m.s.current == p && p !in m.parked && m.s.ring == []
    ensures Enabled(m, Sleep) && Enabled(Apply(m, Sleep), Wake(p))
    ensures Apply(Apply(m, Sleep), Wake(p)) ==
            m.(s := m.s.(states := m.s.states[p := Ready], ring := [p]), parked := m.parked + {p})
  {
    assert Apply(m, Sleep).s.states == m.s.states[p := Sleeping] && Apply(m, Sleep).s.ring == [];
    assert m.s.states[p := Sleeping][p := Ready] == m.s.states[p := Ready];
  }

  /** Its call of schedule then picks it while it is still current. */
  lemma PickedWhileCurrent(m: Machine, p: nat)
    requires Shaped(m.s) && m.s.current == p && m.s.states[p] == Ready && m.s.ring == [p]
    ensures Apply(m, Tick(true, true)) == m.(s := m.s.(ring := [], slice := SliceAfter(m.s)), parked := m.parked - {p})
  {
  }

  function StopRun(p: nat): seq<Op> { [Sleep, Wake(p), Stop] }

  /** A stop that arrives then breaks the invariant: the ring holds a stopped process. */
  lemma StopBreaks(m: Machine, p: nat)
    requires Inv(m) && m.s.current == p && p !in m.parked && m.s.ring == []
    ensures Possible(m, StopRun(p)) && !Orderly(Outcome(m, StopRun(p)).s)
  {
    var ops := StopRun(p);
    SleepThenWake(m, p);
    var m1 := Apply(m, Sleep);
    var m2 := Apply(m1, Wake(p));
    var m3 := Apply(m2, Stop);
    assert m3.s.ring[0] == p && m3.s.states[p] == Stopped;
    hide Apply, Inv;
    assert ops[1..] == [Wake(p), Stop] && ops[1..][1..] == [Stop];
    Chain(m2, ops[1..][1..], m3);
    Chain(m1, ops[1..], m2);
    Chain(m, ops, m1);
  }

  lemma TickLoses(m: Machine, p: nat)
    requires Hanging(m, p) && m.s.ring == [] && p !in m.limbo
    ensures Lost(Apply(m, Tick(false, false)), p)
  {
  }

  function LossRun(p: nat): seq<Op> { [Sleep, Wake(p), Tick(true, true), Tick(false, false)] }

  /** The timer tick after that loses it. */
  lemma WokenTooSoon(m: Machine, p: nat)
    requires Inv(m) && m.s.current == p && p !in m.parked && m.s.ring == []
    ensures Legal(m, LossRun(p)) && Lost(After(m, LossRun(p)), p)
  {
    hide Apply, Schedule, Orderly, Legal, After;
    var ops := LossRun(p);
    SleepThenWake(m, p);
    var m1 := Apply(m, Sleep);
    var m2 := Apply(m1, Wake(p));
    PickedWhileCurrent(m2, p);
    var m3 := Apply(m2, Tick(true, true));
    var m4 := Apply(m3, Tick(false, false));
    TickLoses(m3, p);
    assert ops[1..] == [Wake(p), Tick(true, true), Tick(false, false)];
    assert ops[1..][1..] == [Tick(true, true), Tick(false, false)];
    assert ops[1..][1..][1..] == [Tick(false, false)];
    One(m3, Tick(false, false));
    Link(m2, ops[1..][1..], m3);
    Link(m1, ops[1..], m2);
    Link(m, ops, m1);
  }

  /** p is signalled in its sleep, the wait queue wakes it first, and it is stopped before the signal's
      process_wakeup. */
  function SignalledRun(p: nat): seq<Op> { [Sleep, Look(p, false), Wake(p), Tick(true, true), Stop] }

  lemma LookedAsleep(m: Machine, p: nat)
    requires Inv(m) && m.s.current == p && p !in m.parked && m.s.ring == []
    ensures Enabled(m, Sleep) && Enabled(Apply(m, Sleep), Look(p, false))
    ensures Enabled(Apply(Apply(m, Sleep), Look(p, false)), Wake(p))
    ensures Apply(Apply(Apply(m, Sleep), Look(p, false)), Wake(p)) ==
            m.(s := m.s.(states := m.s.states[p := Ready], ring := [p]),
               parked := m.parked + {p}, claims := m.claims + multiset{p})
  {
    SleepThenWake(m, p);
  }

  lemma StoppedThenWoken(m: Machine, p: nat)
    requires Shaped(m.s) && m.s.current == p && m.s.ring == [] && p in m.claims
    ensures Enabled(m, Stop) && Tame(m, Stop) && Apply(m, Stop).s.states[p] == Stopped
    ensures Enabled(Apply(m, Stop), Wakeup(p))
    ensures var m' := Apply(Apply(m, Stop), Wakeup(p)); m'.s.states[p] == Ready && m'.s.ring == [p]
  {
  }

  /** That wakes the stopped process without any SIGCONT. */
  lemma RestartedWithoutCont(m: Machine, p: nat)
    requires Inv(m) && m.s.current == p && p !in m.parked && m.s.ring == []
    ensures Look(p, true) !in SignalledRun(p) && Legal(m, SignalledRun(p))
    ensures var m5 := After(m, SignalledRun(p));
            && Enabled(m5, Wakeup(p)) && m5.s.states[p] == Stopped
            && Apply(m5, Wakeup(p)).s.states[p] == Ready && Apply(m5, Wakeup(p)).s.ring == [p]
  {
    hide Apply, Schedule, Orderly, Legal, After;
    var ops := SignalledRun(p);
    LookedAsleep(m, p);
    var m1 := Apply(m, Sleep);
    var m2 := Apply(m1, Look(p, false));
    var m3 := Apply(m2, Wake(p));
    PickedWhileCurrent(m3, p);
    var m4 := Apply(m3, Tick(true, true));
    StoppedThenWoken(m4, p);
    var m5 := Apply(m4, Stop);
    assert ops[1..] == [Look(p, false), Wake(p), Tick(true, true), Stop];
    assert ops[1..][1..] == [Wake(p), Tick(true, true), Stop];
    assert ops[1..][1..][1..] == [Tick(true, true), Stop];
    assert ops[1..][1..][1..][1..] == [Stop];
    One(m4, Stop);
    Link(m3, ops[1..][1..][1..], m4);
    Link(m2, ops[1..][1..], m3);
    Link(m1, ops[1..], m2);
    Link(m, ops, m1);
  }

  /** All three from boot. */
  lemma BootRuns()
    ensures Possible(Boot(), StopRun(0)) && !Orderly(Outcome(Boot(), StopRun(0)).s)
    ensures Legal(Boot(), LossRun(0)) && Lost(After(Boot(), LossRun(0)), 0)
    ensures Legal(Boot(), SignalledRun(0)) && Enabled(After(Boot(), SignalledRun(0)), Wakeup(0))
    ensures After(Boot(), SignalledRun(0)).s.states[0] == Stopped
    ensures Apply(After(Boot(), SignalledRun(0)), Wakeup(0)).s.states[0] == Ready
  {
    var m := Boot();
    assert Inv(m) && m.s.current == 0 && 0 !in m.parked && m.s.ring == [];
    hide Inv, Apply, Lost, Orderly, Boot, Legal, Possible, After, Outcome, Enabled;
    StopBreaks(m, 0);
    WokenTooSoon(m, 0);
    RestartedWithoutCont(m, 0);
  }
}
