/** Moving to another core, over whole runs: which tasks get there. */
module MovingRuns {
  import opened Tasks
  import opened Scheduler
  import opened SchedulerRuns
  import opened SchedulerFrames

  // ----- there is no such core

  /** The number of the core that t asked for is not that of any core. */
  ghost predicate Stuck(s: State, t: Task, k: nat) {
    Mover(t, k) in s.moving && k >= |s.cores|
  }

  lemma NotPickedUp(m: seq<Mover>, m': seq<Mover>, c: nat, x: Mover)
    requires MovesOn(m, m', c) && x in m && x.core != c
    ensures x in m'
  {
    var k :| 0 <= k < |m| && m[k] == x;
    if |m'| >= |m| {
      assert m'[k] == x;
    } else {
      assert m'[if k < ForCore(m, c) then k else k - 1] == x;
    }
  }

  lemma StuckStays(s: State, a: Act, t: Task, k: nat)
    requires CanStep(s, a) && Stuck(s, t, k)
    ensures Stuck(Next(s, a), t, k)
  {
    InvRunning(s, a.core);
    StepKeepsInv(s, a.core, a.event);
    MovingAfter(s, a.core, a.event);
    NotPickedUp(s.moving, Next(s, a).moving, a.core, Mover(t, k));
  }

  lemma {:induction false} StuckForever(s: State, acts: seq<Act>, t: Task, k: nat)
    requires Inv(s) && IsRun(s, acts) && Stuck(s, t, k)
    ensures Inv(End(s, acts)) && Stuck(End(s, acts), t, k) && |End(s, acts).cores| == |s.cores|
    decreases |acts|
  {
    if acts != [] {
      StepKeepsInv(s, acts[0].core, acts[0].event);
      StuckStays(s, acts[0], t, k);
      StuckForever(Next(s, acts[0]), acts[1..], t, k);
    }
  }

  // ----- there is

  ghost predicate Arrived(s: State, t: Task, k: nat) {
    && k < |s.cores| && s.cores[k].ring != [] && Running(s, k) == t
    && forall x :: x in s.moving ==> x.task != t
  }

  /** A task on the move is in no ring, and the other way round. */
  lemma MovingIsNotInRing(s: State, t: Task, c: nat)
    requires Inv(s) && c < |s.cores| && t in s.cores[c].ring
    ensures forall x :: x in s.moving ==> x.task != t
  {
    CountIn(s.cores[c].ring, t);
    CoresAt(s.cores, c, t);
    CountIn(MoverTasks(s.moving), t);
    assert Places(s, t) >= CoresCount(s.cores, t) + Count(MoverTasks(s.moving), t);
    forall x | x in s.moving ensures x.task != t {
      var i :| 0 <= i < |s.moving| && s.moving[i] == x;
      assert MoverTasks(s.moving)[i] == x.task;
    }
  }

  lemma IdleOnlyOnce(s: State, c: nat)
    requires Inv(s) && c < |s.cores| && |s.cores[c].ring| > 1 && s.cores[c].ring[0] == s.cores[c].idle
    ensures s.cores[c].ring[1] != s.cores[c].idle
  {
    var k := s.cores[c];
    CoresAt(s.cores, c, k.idle);
    CountIn(k.ring[1..], k.idle);
    assert Places(s, k.idle) >= CoresCount(s.cores, k.idle);
  }

  /** How far core c is from taking the next task that moves there: lexicographically smaller, yield by yield */
  ghost function StillMasked(s: State, c: nat): nat
    requires c < |s.cores|
  {
    if s.cores[c].masked then 1 else 0
  }

  ghost function RingSize(s: State, c: nat): nat
    requires c < |s.cores|
  {
    |s.cores[c].ring|
  }

  ghost function IdleFirst(s: State, c: nat): nat
    requires c < |s.cores|
  {
    if s.cores[c].ring != [] && s.cores[c].ring[0] == s.cores[c].idle then 1 else 0
  }

  /** What a yield on core c achieves for the i-th task on the move, which is for core c */
  ghost predicate Nearer(s: State, s': State, c: nat, i: nat)
    requires c < |s.cores| == |s'.cores| && i < |s.moving|
  {
    || (s'.cores[c].ring != [] && Running(s', c) == s.moving[i].task)
    || (s'.moving == s.moving &&
        (StillMasked(s', c) < StillMasked(s, c)
         || (StillMasked(s', c) == StillMasked(s, c) && RingSize(s', c) < RingSize(s, c))
         || (StillMasked(s', c) == StillMasked(s, c) && RingSize(s', c) == RingSize(s, c)
             && IdleFirst(s', c) < IdleFirst(s, c))))
    || (0 < i <= |s'.moving| < |s.moving| && s'.moving[i - 1] == s.moving[i])
  }

  lemma YieldNearer(s: State, c: nat, i: nat)
    requires Able(s, c) && i < |s.moving| && s.moving[i].core == c
    requires |s.cores[c].ring| > 1 && s.cores[c].ring[0] == s.cores[c].idle ==> s.cores[c].ring[1] != s.cores[c].idle
    ensures DoYield(s, c).Some? ==>
      |DoYield(s, c).value.cores| == |s.cores| && Nearer(s, DoYield(s, c).value, c, i)
  {
  }

  lemma YieldStep(s: State, c: nat, i: nat)
    requires Inv(s) && c < |s.cores| && i < |s.moving| && s.moving[i].core == c
    ensures CanStep(s, Act(c, Yield))
    ensures var s' := Next(s, Act(c, Yield));
      Inv(s') && |s'.cores| == |s.cores| && Nearer(s, s', c, i)
  {
    InvRunning(s, c);
    StopSound(s, c);
    if |s.cores[c].ring| > 1 && s.cores[c].ring[0] == s.cores[c].idle { IdleOnlyOnce(s, c); }
    YieldNearer(s, c, i);
    assert CanStep(s, Act(c, Yield));
    StepKeepsInv(s, c, Yield);
  }

  /** A core that yields often enough takes every task that moves to it, each in its turn. */
  lemma {:induction false} GetsThere(s: State, i: nat) returns (acts: seq<Act>)
    requires Inv(s) && i < |s.moving| && s.moving[i].core < |s.cores|
    ensures IsRun(s, acts) && Arrived(End(s, acts), s.moving[i].task, s.moving[i].core)
    decreases i, StillMasked(s, s.moving[i].core), RingSize(s, s.moving[i].core), IdleFirst(s, s.moving[i].core)
  {
    var Mover(t, c) := s.moving[i];
    YieldStep(s, c, i);
    var s' := Next(s, Act(c, Yield));
    var more := [];
    if s'.cores[c].ring != [] && Running(s', c) == t {
      MovingIsNotInRing(s', t, c);
    } else {
      more := GetsThere(s', if s'.moving == s.moving then i else i - 1);
    }
    acts := [Act(c, Yield)] + more;
    assert acts[1..] == more;
  }

  /** A task on the move can get to the core it asked for exactly when there is such a core; otherwise it
      stays on the list, whatever all the cores do. */
  lemma GetsThereIff(s: State, t: Task, k: nat)
    requires Inv(s) && Mover(t, k) in s.moving
    ensures (exists acts :: IsRun(s, acts) && Arrived(End(s, acts), t, k)) <==> k < |s.cores|
    ensures (exists acts :: IsRun(s, acts) && Mover(t, k) !in End(s, acts).moving) <==> k < |s.cores|
  {
    var i :| 0 <= i < |s.moving| && s.moving[i] == Mover(t, k);
    if k < |s.cores| {
      var acts := GetsThere(s, i);
      assert IsRun(s, acts) && Arrived(End(s, acts), t, k) && Mover(t, k) !in End(s, acts).moving;
    } else {
      forall acts | IsRun(s, acts) ensures Stuck(End(s, acts), t, k) && |End(s, acts).cores| == |s.cores| {
        StuckForever(s, acts, t, k);
      }
    }
  }

  /** The check on the number of the core lets one too many pass: what is asked for can come true exactly
      when the number is not that of cores. */
  lemma SwitchWorksIff(s: State, c: nat, k: nat)
    requires CanStep(s, Act(c, SwitchToCore(k, true))) && k != c && s.cores[c].ring != []
    ensures k <= |s.cores|
    ensures var s' := Next(s, Act(c, SwitchToCore(k, true)));
      (exists acts :: IsRun(s', acts) && Arrived(End(s', acts), Running(s, c), k)) <==> k != |s.cores|
  {
    InvRunning(s, c);
    var s' := Next(s, Act(c, SwitchToCore(k, true)));
    StepKeepsInv(s, c, SwitchToCore(k, true));
    assert s'.moving[|s.moving|] == Mover(Running(s, c), k);
    GetsThereIff(s', Running(s, c), k);
  }

  /** At that input: any task that asks for core number |cores| is stuck, and never runs again. */
  lemma AskedForTooMuch(s: State, c: nat, acts: seq<Act>, d: nat)
    requires Inv(s) && c < |s.cores| && s.cores[c].ring != [] && Running(s, c) != s.cores[c].idle && d < |s.cores|
    ensures CanStep(s, Act(c, SwitchToCore(|s.cores|, true)))
    ensures var s' := Next(s, Act(c, SwitchToCore(|s.cores|, true)));
      IsRun(s', acts) ==>
        Stuck(End(s', acts), Running(s, c), |s.cores|) && d < |End(s', acts).cores|
        && Running(s, c) !in End(s', acts).cores[d].ring
  {
    InvRunning(s, c);
    StopSound(s, c);
    var a := Act(c, SwitchToCore(|s.cores|, true));
    assert CanStep(s, a);
    var s' := Next(s, a);
    StepKeepsInv(s, c, a.event);
    assert s'.moving[|s.moving|] == Mover(Running(s, c), |s.cores|);
    if IsRun(s', acts) {
      StuckForever(s', acts, Running(s, c), |s.cores|);
      if Running(s, c) in End(s', acts).cores[d].ring { MovingIsNotInRing(End(s', acts), Running(s, c), d); }
    }
  }
}
