/** Sleeping, in the system as a whole: over any run of all the cores. */
module Sleepers {
  import opened Tasks
  import SleepQueue
  import opened Scheduler
  import opened SchedulerRuns
  import opened SchedulerFrames

  // ----- sleeping

  /** No task is asleep twice, so what is proved of the sleep queue holds here. */
  lemma SleepersValid(s: State)
    requires Inv(s)
    ensures SleepQueue.Valid(s.sleeping)
  {
    var ts := SleepQueue.Tasks(s.sleeping);
    forall t ensures Count(ts, t) <= 1 {
      assert Places(s, t) <= 1;
    }
    CountDistinct(ts);
  }

  /** Ticks passing in a run, on whatever core */
  function TicksIn(acts: seq<Act>): nat {
    if acts == [] then 0 else (if acts[0].event.Tick? then 1 else 0) + TicksIn(acts[1..])
  }

  ghost predicate Sleeps(s: State, t: Task, n: nat) {
    && SleepQueue.Valid(s.sleeping)
    && t in SleepQueue.TicksLeft(s.sleeping) && SleepQueue.TicksLeft(s.sleeping)[t] == n
  }

  lemma SleepingAfter(s: State, c: nat, e: Event)
    requires Inv(s) && c < |s.cores| && Enabled(s, c, e) && Ready(s, c) && Step(s, c, e).Some?
    ensures if e.Tick? then Step(s, c, e).value == DoTick(s) else SleepsOn(s, Step(s, c, e).value, c, e)
  {
    if !e.Tick? { ListsAfter(s, c, e); }
  }

  lemma RunningIsAwake(s: State, c: nat)
    requires Inv(s) && Ready(s, c)
    ensures !SleepQueue.Asleep(s.sleeping, Running(s, c))
  {
    var r := Running(s, c);
    CountIn(s.cores[c].ring, r);
    CoresAt(s.cores, c, r);
    var ts := SleepQueue.Tasks(s.sleeping);
    CountIn(ts, r);
    assert Places(s, r) >= CoresCount(s.cores, r) + Count(ts, r);
    assert forall k :: 0 <= k < |s.sleeping| ==> ts[k] in ts;
  }

  /** One step of any core, seen by a sleeping task: a tick takes one from its wait
      and, if that was the last, makes it runnable; nothing else makes a difference. */
  lemma SleeperAfter(s: State, c: nat, e: Event, t: Task, n: nat)
    requires Inv(s) && c < |s.cores| && Enabled(s, c, e) && Step(s, c, e).Some? && Sleeps(s, t, n)
    ensures !e.Tick? ==> Sleeps(Step(s, c, e).value, t, n)
    ensures e.Tick? ==> Step(s, c, e).value == DoTick(s)
  {
    InvRunning(s, c);
    SleepingAfter(s, c, e);
    RunningIsAwake(s, c);
    if e.Sleep? && e.ticks > 0 {
      SleepQueue.AddRefines(s.sleeping, Running(s, c), e.ticks);
    }
  }

  lemma TickWakes(s: State, t: Task, n: nat)
    requires Sleeps(s, t, n)
    ensures if n > 1 then Sleeps(DoTick(s), t, n - 1)
      else n == 1 ==> t in DoTick(s).runnable && !SleepQueue.Asleep(DoTick(s).sleeping, t)
  {
    SleepQueue.TickRefines(s.sleeping);
    SleepQueue.TickKeepsValid(s.sleeping);
    SleepQueue.TickPartition(s.sleeping);
    var woken := SleepQueue.WakeyWakey(s.sleeping).1;
    if n == 1 {
      assert t in SleepQueue.Names(woken);
      var k :| 0 <= k < |woken| && woken[k].task == t;
      assert SleepQueue.Tasks(woken)[k] == t;
      assert DoTick(s).runnable[|s.runnable| + k] == t;
    }
  }

  /** In any run, whatever all the cores do, a sleeping task sleeps on until as many
      ticks have passed as it has left ... */
  lemma {:induction false} SleepsUntil(s: State, acts: seq<Act>, t: Task, n: nat)
    requires Inv(s) && IsRun(s, acts) && Sleeps(s, t, n) && TicksIn(acts) < n
    ensures Sleeps(End(s, acts), t, n - TicksIn(acts))
    decreases |acts|
  {
    if acts != [] {
      var (c, e) := (acts[0].core, acts[0].event);
      StepKeepsInv(s, c, e);
      SleeperAfter(s, c, e, t, n);
      if e.Tick? { TickWakes(s, t, n); }
      SleepsUntil(Next(s, acts[0]), acts[1..], t, if e.Tick? then n - 1 else n);
    }
  }

  lemma FallsAsleep(s: State, c: nat, n: nat)
    requires Inv(s) && Ready(s, c) && Running(s, c) != s.cores[c].idle && n > 0
    ensures DoSleep(s, c, n).Some? ==> Sleeps(DoSleep(s, c, n).value, Running(s, c), n)
  {
    RunningIsAwake(s, c);
    SleepersValid(s);
    SleepQueue.AddRefines(s.sleeping, Running(s, c), n);
  }

  lemma SleepStep(s: State, c: nat, n: nat)
    requires CanStep(s, Act(c, Sleep(n))) && n > 0 && Ready(s, c)
    ensures Inv(Next(s, Act(c, Sleep(n)))) && Running(s, c) != s.cores[c].idle
    ensures DoSleep(s, c, n) == Some(Next(s, Act(c, Sleep(n))))
  {
    StepKeepsInv(s, c, Sleep(n));
  }

  /** ... and a task that asks to sleep for n ticks is made runnable by the n-th. */
  lemma SleepThenWake(s: State, c: nat, n: nat, acts: seq<Act>)
    requires Inv(s) && Ready(s, c) && n > 0
    requires CanStep(s, Act(c, Sleep(n))) && IsRun(Next(s, Act(c, Sleep(n))), acts) && TicksIn(acts) == n - 1
    ensures var t := Running(s, c);
      var s' := End(Next(s, Act(c, Sleep(n))), acts);
      && SleepQueue.Asleep(s'.sleeping, t)
      && SleepQueue.HeadWaits(s'.sleeping)
      && t in DoTick(s').runnable && !SleepQueue.Asleep(DoTick(s').sleeping, t)
  {
    SleepStep(s, c, n);
    FallsAsleep(s, c, n);
    WakesWhenDue(Next(s, Act(c, Sleep(n))), acts, Running(s, c), n);
  }

  lemma WakesWhenDue(s: State, acts: seq<Act>, t: Task, n: nat)
    requires Inv(s) && IsRun(s, acts) && Sleeps(s, t, n) && TicksIn(acts) == n - 1
    ensures var s' := End(s, acts);
      && SleepQueue.Asleep(s'.sleeping, t)
      && SleepQueue.HeadWaits(s'.sleeping)
      && t in DoTick(s').runnable && !SleepQueue.Asleep(DoTick(s').sleeping, t)
  {
    SleepsUntil(s, acts, t, n);
    TickWakes(End(s, acts), t, 1);
  }
}
