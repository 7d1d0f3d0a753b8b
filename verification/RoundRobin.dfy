/**
 The time slice (kernel/core/scheduler.c:187-267): who has the processor when, as long
 as nothing but the timer happens.

 A running process keeps the processor for its slice of ten ticks and then goes to the
 back of the ring, so with n processes ready beside it everything is as it was after
 10 * (n + 1) ticks.
 */
module RoundRobin {
  import opened SchedModel

  /** n calls of schedule. */
  function Ticked(s: Sched, n: nat): (r: Sched)
    requires Shaped(s)
    ensures Shaped(r)
  {
    if n == 0 then s else Schedule(Ticked(s, n - 1))
  }

  lemma {:induction false} TickedMore(s: Sched, m: nat, n: nat)
    requires Shaped(s)
    ensures Ticked(s, m + n) == Ticked(Ticked(s, m), n)
    decreases n
  {
    hide Schedule;
    if n > 0 {
      TickedMore(s, m, n - 1);
    }
  }

  /** Until its slice is used up, calls of schedule take nothing from a running process but time. */
  lemma {:induction false} KeepsProcessor(s: Sched, n: nat)
    requires Shaped(s) && IsRunning(s) && n < s.slice
    ensures Ticked(s, n) == s.(slice := s.slice - n)
  {
    if n > 0 {
      KeepsProcessor(s, n - 1);
    }
  }

  /** With nobody else ready, a running process gets another slice, and without one the processor idles. */
  lemma NobodyReady(s: Sched)
    requires Shaped(s) && s.ring == []
    ensures IsRunning(s) ==> Schedule(s) == s.(slice := if s.slice <= 1 then 10 else s.slice - 1)
    ensures !IsRunning(s) ==> Schedule(s).current == NONE && Schedule(s).states == s.states
  {
  }

  /** A process that gave the processor up is followed by the head of the ring at once, whatever is left of its
      slice. */
  lemma GivenUp(s: Sched)
    requires Orderly(s) && !IsRunning(s) && s.ring != [] && s.ring[0] != s.current
    ensures Schedule(s) == s.(states := s.states[s.ring[0] := Running], ring := s.ring[1..], current := s.ring[0],
                              slice := if s.slice > 0 then s.slice - 1 else 0)
  {
  }

  /** The state one turn later. */
  function Turn(s: Sched): (r: Sched)
    requires Shaped(s) && IsRunning(s) && s.ring != []
  {
    Sched(s.states[s.current := Ready][s.ring[0] := Running], s.ring[1..] + [s.current as nat], s.ring[0], 10)
  }

  /** A whole slice: then the head of the ring has the processor, the others move up, and the process goes last. */
  lemma {:induction false} OneTurn(s: Sched)
    requires Orderly(s) && IsRunning(s) && s.slice > 0 && s.ring != []
    ensures Ticked(s, s.slice) == Turn(s) && Shaped(Turn(s)) && Orderly(Turn(s)) && IsRunning(Turn(s))
  {
    var s1 := s.(slice := 1);
    KeepsProcessor(s, s.slice - 1);
    assert s.current !in s.ring;
    SwitchKeeps(s1);
    assert Schedule(s1).slice == 10;
    var t := Schedule(s1);
    assert t.states == Turn(s).states;
  }

  /** A running process that yields ends its turn at once, and goes on if nobody else is ready. */
  lemma Yields(s: Sched)
    requires Shaped(s) && Orderly(s) && IsRunning(s)
    ensures var r := Schedule(s.(slice := 0)); r == if s.ring == [] then s.(slice := 10) else Turn(s)
  {
    if s.ring != [] {
      OneTurn(s.(slice := 1));
      assert Ticked(s.(slice := 1), 0) == s.(slice := 1);
    }
  }

  /** Everyone who takes part, in the order of their turns. */
  function Line(s: Sched): (line: seq<nat>)
    requires Shaped(s) && IsRunning(s)
  {
    [s.current as nat] + s.ring
  }

  /** The state after k turns: number k of the line runs, and those who had theirs are behind the rest. */
  function AfterTurns(s: Sched, k: nat): (r: Sched)
    requires Shaped(s) && IsRunning(s) && k <= |s.ring|
  {
    var line := Line(s);
    Sched(s.states[s.current := Ready][line[k] := Running], line[k + 1..] + line[..k], line[k], 10)
  }

  lemma NoTurns(s: Sched)
    requires Shaped(s) && IsRunning(s) && s.slice == 10
    ensures AfterTurns(s, 0) == s
  {
    assert Line(s)[1..] + Line(s)[..0] == s.ring;
    assert s.states[s.current := Ready][s.current := Running] == s.states;
  }

  lemma NextTurn(s: Sched, k: nat)
    requires Orderly(s) && IsRunning(s) && k < |s.ring|
    requires var r := AfterTurns(s, k); Shaped(r) && IsRunning(r)
    ensures AfterTurns(s, k).ring != [] && Turn(AfterTurns(s, k)) == AfterTurns(s, k + 1)
  {
    var line, r := Line(s), AfterTurns(s, k);
    assert r.ring[0] == line[k + 1] && r.ring[1..] == line[k + 2..] + line[..k];
    assert line[..k + 1] == line[..k] + [line[k]];
    StatesTurn(s, line[k], line[k + 1]);
  }

  lemma {:induction false} Turns(s: Sched, k: nat)
    requires Shaped(s) && Orderly(s) && IsRunning(s) && s.slice == 10 && k <= |s.ring|
    ensures Ticked(s, 10 * k) == AfterTurns(s, k)
    ensures Shaped(AfterTurns(s, k)) && Orderly(AfterTurns(s, k)) && IsRunning(AfterTurns(s, k))
  {
    hide Orderly, AfterTurns, Schedule, Turn;
    if k == 0 {
      NoTurns(s);
    } else {
      Turns(s, k - 1);
      var r := AfterTurns(s, k - 1);
      TickedMore(s, 10 * (k - 1), 10);
      NextTurn(s, k - 1);
      TurnSlice(s, k - 1);
      OneTurn(r);
    }
  }

  lemma TurnSlice(s: Sched, k: nat)
    requires Shaped(s) && IsRunning(s) && k <= |s.ring|
    ensures AfterTurns(s, k).slice == 10
  {
  }

  lemma StatesTurn(s: Sched, p: nat, q: nat)
    requires Shaped(s) && IsRunning(s) && p < MAX_PROCS && q < MAX_PROCS
    requires p == s.current || s.states[p] == Ready
    ensures s.states[s.current := Ready][p := Running][p := Ready][q := Running] ==
            s.states[s.current := Ready][q := Running]
  {
    var base := s.states[s.current := Ready];
    assert base[p] == Ready;
    assert base[p := Running][p := Ready] == base;
  }

  /** All the way round: with n others ready, the state after 10 * (n + 1) ticks is the state before. */
  lemma {:induction false} AllTheWayRound(s: Sched)
    requires Shaped(s) && Orderly(s) && IsRunning(s) && s.slice == 10
    ensures Ticked(s, 10 * (|s.ring| + 1)) == s
  {
    hide Schedule, Distinct;
    var n, line := |s.ring|, Line(s);
    Turns(s, n);
    var r := AfterTurns(s, n);
    TickedMore(s, 10 * n, 10);
    if n == 0 {
      NoTurns(s);
      KeepsProcessor(s, 9);
      NobodyReady(Ticked(s, 9));
    } else {
      OneTurn(r);
      assert r.ring == line[..n];
      assert r.ring[1..] + [r.current as nat] == s.ring;
      StatesTurn(s, line[n], line[0]);
      assert s.states[s.current := Ready][s.current := Running] == s.states;
    }
  }

  /** On the way everyone has the processor for ten ticks in a row, in the order of the ring. */
  lemma {:induction false} EveryoneTen(s: Sched, k: nat, n: nat)
    requires Shaped(s) && Orderly(s) && IsRunning(s) && s.slice == 10 && k <= |s.ring| && n < 10
    ensures var r := Ticked(s, 10 * k + n);
            IsRunning(r) && r.current == if k == 0 then s.current else s.ring[k - 1]
  {
    Turns(s, k);
    TickedMore(s, 10 * k, n);
    KeepsProcessor(Ticked(s, 10 * k), n);
  }
}
