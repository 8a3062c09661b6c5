/** Interrupts, over whole runs: what becomes of the ring of a core that is interrupted. */
module InterruptRuns {
  import opened Tasks
  import opened Scheduler
  import opened SchedulerRuns
  import opened SchedulerFrames

  /** The tasks of a ring, in order from its head, without the idle task. */
  ghost function Others(ring: seq<Task>, idle: Task): seq<Task> {
    if ring == [] then []
    else (if ring[0] == idle then [] else [ring[0]]) + Others(ring[1..], idle)
  }

  lemma {:induction false} OthersWithout(ring: seq<Task>, idle: Task)
    requires idle in ring && Count(ring, idle) == 1
    ensures Others(ring, idle) == Sidelined(ring, idle)
  {
    if ring[0] == idle {
      OthersAll(ring[1..], idle);
    } else {
      OthersWithout(ring[1..], idle);
      var k := IndexOf(ring, idle);
      if ring[1] == idle {
        assert Without(ring, 1) == [ring[0]] + ring[2..];
        OthersAll(ring[2..], idle);
        assert ring[1..][1..] == ring[2..];
      } else {
        assert Without(ring, k) == [ring[0]] + Without(ring[1..], k - 1);
      }
    }
  }

  lemma {:induction false} OthersAll(ring: seq<Task>, idle: Task)
    requires Count(ring, idle) == 0
    ensures Others(ring, idle) == ring
  {
    if ring != [] { OthersAll(ring[1..], idle); }
  }

  /** The ring, without the idle task, is set aside whichever task is interrupted. */
  lemma InterruptSetsAside(s: State, c: nat)
    requires Inv(s) && c < |s.cores| && s.cores[c].idle in s.cores[c].ring && DoInterrupt(s, c).Some?
    ensures SetAside(DoInterrupt(s, c).value, c, Others(s.cores[c].ring, s.cores[c].idle))
  {
    var k := s.cores[c];
    CountIn(k.ring, k.idle);
    CoresAt(s.cores, c, k.idle);
    assert Places(s, k.idle) >= CoresCount(s.cores, k.idle);
    OthersWithout(k.ring, k.idle);
  }

  ghost predicate SetAside(s: State, c: nat, side: seq<Task>) {
    c < |s.cores| && s.cores[c].masked && s.cores[c].sidelined == side
  }

  /** The idle task, alone in the ring, takes back what was set aside: in the same cyclic order, the one that
      would have been next, not the first, right behind it. */
  ghost predicate TakesBack(s: State, s': State, c: nat, side: seq<Task>) {
    && c < |s.cores| && s.cores[c].ring == [s.cores[c].idle]
    && s'.cores == s.cores[c := s.cores[c].(ring := [s.cores[c].idle] + TurnedRound(side), masked := false, sidelined := [])]
  }

  function TurnedRound(side: seq<Task>): seq<Task> {
    if side == [] then [] else side[1..] + [side[0]]
  }

  /** A step of core c changes no other core. */
  ghost predicate OwnCore(s: State, o: Option<State>, c: nat) {
    o.Some? ==> c < |s.cores| == |o.value.cores| && o.value.cores == s.cores[c := o.value.cores[c]]
  }

  lemma MoveOwnCore(s: State, c: nat, n: nat, core: nat, mode: bool)
    requires Able(s, c)
    ensures OwnCore(s, DoYield(s, c), c) && OwnCore(s, DoSleep(s, c, n), c)
    ensures OwnCore(s, DoSwitchToCore(s, c, core, mode), c)
    ensures OwnCore(s, Some(DoTick(s)), c) && OwnCore(s, DoInterrupt(s, c), c)
  {
  }

  lemma StepOwnCore(s: State, c: nat, e: Event)
    requires Able(s, c)
    ensures OwnCore(s, StepOf(s, c, e), c)
  {
    match e
    case Yield => MoveOwnCore(s, c, 0, 0, true);
    case Sleep(n) => MoveOwnCore(s, c, n, 0, true);
    case SwitchToCore(core, mode) => MoveOwnCore(s, c, 0, core, mode);
    case Tick => MoveOwnCore(s, c, 0, 0, true);
    case Interrupt => MoveOwnCore(s, c, 0, 0, true);
    case _ => LocalStep(s, c, e);
  }

  /** What was set aside stays so, or is taken back; only where nothing was set aside can there be another
      interrupt. */
  ghost predicate KeptAside(s: State, o: Option<State>, c: nat, side: seq<Task>, e: Event) {
    o.Some? ==>
      SetAside(o.value, c, side) || TakesBack(s, o.value, c, side) || (side == [] && e == Interrupt)
  }

  lemma YieldAside(s: State, c: nat, side: seq<Task>, e: Event)
    requires Able(s, c) && SetAside(s, c, side)
    ensures KeptAside(s, DoYield(s, c), c, side, e)
  {
    var k := s.cores[c];
    if |k.ring| == 1 && k.ring[0] == k.idle {
      assert k.ring == [k.idle] && Restored(k) == [k.idle] + TurnedRound(side);
    }
  }

  lemma MoveAside(s: State, c: nat, side: seq<Task>, n: nat, core: nat, mode: bool, e: Event)
    requires Able(s, c) && SetAside(s, c, side) && n > 0
    ensures KeptAside(s, DoSleep(s, c, n), c, side, e) && KeptAside(s, DoSwitchToCore(s, c, core, mode), c, side, e)
    ensures KeptAside(s, Some(DoTick(s)), c, side, e) && KeptAside(s, DoInterrupt(s, c), c, side, Interrupt)
  {
  }

  lemma StepAside(s: State, c: nat, side: seq<Task>, e: Event)
    requires Able(s, c) && SetAside(s, c, side)
    ensures KeptAside(s, StepOf(s, c, e), c, side, e)
  {
    match e
    case Yield => YieldAside(s, c, side, e);
    case Sleep(n) => if n == 0 { YieldAside(s, c, side, e); } else { MoveAside(s, c, side, n, 0, true, e); }
    case SwitchToCore(core, mode) => MoveAside(s, c, side, 1, core, mode, e);
    case Tick => MoveAside(s, c, side, 1, 0, true, e);
    case Interrupt => MoveAside(s, c, side, 1, 0, true, e);
    case _ => LocalStep(s, c, e);
  }

  /** Along the run, what was set aside on core c stays so to the end, or until the idle task takes it back. */
  ghost predicate AsideUntilTaken(s: State, acts: seq<Act>, c: nat, side: seq<Task>)
    requires IsRun(s, acts)
    decreases |acts|
  {
    SetAside(s, c, side) &&
    (acts == [] || TakesBack(s, Next(s, acts[0]), c, side) || (side == [] && acts[0] == Act(c, Interrupt))
     || AsideUntilTaken(Next(s, acts[0]), acts[1..], c, side))
  }

  lemma SidelinedUntilRestored(s: State, a: Act, c: nat, side: seq<Task>)
    requires CanStep(s, a) && SetAside(s, c, side)
    ensures SetAside(Next(s, a), c, side) || TakesBack(s, Next(s, a), c, side) || (side == [] && a == Act(c, Interrupt))
  {
    InvRunning(s, a.core);
    if a.core == c { StepAside(s, c, side, a.event); } else { StepOwnCore(s, a.core, a.event); }
  }

  lemma {:induction false} StaysAside(s: State, acts: seq<Act>, c: nat, side: seq<Task>)
    requires Inv(s) && IsRun(s, acts) && SetAside(s, c, side)
    ensures AsideUntilTaken(s, acts, c, side)
    decreases |acts|
  {
    if acts != [] {
      SidelinedUntilRestored(s, acts[0], c, side);
      StepKeepsInv(s, acts[0].core, acts[0].event);
      if SetAside(Next(s, acts[0]), c, side) { StaysAside(Next(s, acts[0]), acts[1..], c, side); }
    }
  }

  /** From an interrupt on core c, whatever all the cores do: the tasks that were in its ring stay set aside,
      in the order they had, until they come back all together behind the idle task, turned round by one. */
  lemma InterruptThenRestore(s: State, c: nat, acts: seq<Act>)
    requires CanStep(s, Act(c, Interrupt)) && IsRun(Next(s, Act(c, Interrupt)), acts)
    ensures AsideUntilTaken(Next(s, Act(c, Interrupt)), acts, c, Others(s.cores[c].ring, s.cores[c].idle))
  {
    InvRunning(s, c);
    InterruptSetsAside(s, c);
    StepKeepsInv(s, c, Interrupt);
    StaysAside(Next(s, Act(c, Interrupt)), acts, c, Others(s.cores[c].ring, s.cores[c].idle));
  }
}
