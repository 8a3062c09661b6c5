/** The running flags of tasks (OSTask/ostask.h, OSTask/ostask.c), beside the scheduler.

    The flag is bit 0 of the word that also has the address of the routine that saved the registers of a task:
    no such address has it set, so saving a task clears its flag.  A core that goes on with another task
    sets the flag of that one.  The code asserts before and after that flags are as they should be. */
module RunningFlags {
  import opened Tasks
  import opened Scheduler
  import opened SchedulerRuns
  import opened SchedulerFrames
  import Locks
  import Pipes

  /** The scheduler's state, and the tasks whose flag is set */
  datatype System = System(sched: State, flags: set<Task>)

  // ----- what the code does to the flags, None where an assertion fails or save_task_state panics

  /** save_task_state */
  function Save(flags: set<Task>, t: Task): Option<set<Task>> {
    if t in flags then Some(flags - {t}) else None
  }

  /** return_to_swi_caller, with another task to go on with */
  function Resume(flags: set<Task>, r: Task, t: Task): Option<set<Task>> {
    if t == r || t in flags then None else Some(flags + {t})
  }

  /** return_to_swi_caller, with none: the core still has the task that called, and its flag is set. */
  function Continue(flags: set<Task>, r: Task, t: Task): Option<set<Task>> {
    if t == r && t in flags then Some(flags) else None
  }

  function NextInRing(ring: seq<Task>): Task
    requires ring != []
  {
    if |ring| > 1 then ring[1] else ring[0]
  }

  /** stop_running_task, and then the return to the task that the core has now */
  function StopAndResume(flags: set<Task>, ring: seq<Task>, head: Task): Option<set<Task>>
    requires ring != []
  {
    if NextInRing(ring) in flags then None
    else
      match Save(flags, ring[0])
      case None => None
      case Some(f) => Resume(f, ring[0], head)
  }

  /** IdleTaskYield; its state is saved without a look at the flag if there is another task in its ring. */
  function IdleFlags(s: State, c: nat, flags: set<Task>, head: Task): Option<set<Task>>
    requires c < |s.cores| && s.cores[c].ring != []
  {
    var k := s.cores[c];
    var r := k.ring[0];
    if |k.ring| > 1 then Resume(flags - {r}, r, head)
    else if k.masked then Continue(flags + {r}, r, head)
    else
      match Save(flags, r)
      case None => None
      case Some(f) =>
        if ForCore(s.moving, c) < |s.moving| || s.runnable != [] then Resume(f, r, head)
        else Continue(f + {r}, r, head)
  }

  /** irq_handler: the head of what is set aside must not be marked as running. */
  function InterruptFlags(k: Core, flags: set<Task>, head: Task): Option<set<Task>>
    requires k.ring != []
  {
    match Save(flags, k.ring[0])
    case None => None
    case Some(f) =>
      if |k.ring| > 1 && (if k.ring[0] == k.idle then k.ring[1] else k.ring[0]) in f then None
      else Resume(f, k.ring[0], head)
  }

  /** Does the code come to stop_running_task? */
  ghost predicate Stops(s: State, c: nat, e: Event)
    requires Ready(s, c)
  {
    var r := Running(s, c);
    match e
    case Yield => r != s.cores[c].idle
    case Sleep(n) => n > 0 || r != s.cores[c].idle
    case EndTask => true
    case SwitchToCore(core, _) => core != c
    case WaitForInterrupt(_) => true
    case QueueWait(q) => q < |s.queues| && s.queues[q].callers == []
    case QueueCall(q, _) => q < |s.queues|
    case LockClaim(a, r1) => Locks.Claim(s.locks, r, a, r1).1.Blocked?
    case PipeCall(i, op) => i < |s.pipes| && Pipes.Step(s.pipes[i], r, op).Blocks?
    case _ => false
  }

  ghost predicate IdleYields(s: State, c: nat, e: Event)
    requires Ready(s, c)
  {
    Running(s, c) == s.cores[c].idle && (e.Yield? || e == Sleep(0))
  }

  /** The flags after a step in s on core c that leaves `head` at the head of the ring there. A task that is
      created is filled with noughts, and then saved. */
  ghost function FlagsAfter(s: State, c: nat, e: Event, flags: set<Task>, head: Task): Option<set<Task>>
    requires Ready(s, c)
  {
    var k := s.cores[c];
    if e.Interrupt? then InterruptFlags(k, flags, head)
    else if |k.ring| == 1 && k.ring[0] != k.idle then None
    else if IdleYields(s, c, e) then IdleFlags(s, c, flags, head)
    else if Stops(s, c, e) then StopAndResume(flags, k.ring, head)
    else if e.Create? && s.pool != [] then Continue(flags - {s.pool[0]}, k.ring[0], head)
    else Continue(flags, k.ring[0], head)
  }

  /** One step on core c; None when the system stops, at an assertion about the flags or otherwise. */
  ghost function SystemStep(x: System, c: nat, e: Event): Option<System>
    requires Inv(x.sched) && c < |x.sched.cores| && Enabled(x.sched, c, e)
  {
    InvRunning(x.sched, c);
    match Step(x.sched, c, e)
    case None => None
    case Some(s) =>
      StepKeepsInv(x.sched, c, e);
      InvRunning(s, c);
      match FlagsAfter(x.sched, c, e, x.flags, Running(s, c))
      case None => None
      case Some(f) => Some(System(s, f))
  }

  /** What the assertions catch, whatever flags are set: on stopping, a running task without its flag, or a next task or
      one that takes over with it; on an interrupt, that, or the task to come back to first with its flag; on going on,
      a task without its flag. */
  lemma AssertionsCatch(k: Core, flags: set<Task>, head: Task)
    requires k.ring != []
    ensures var r := k.ring[0];
      && (StopAndResume(flags, k.ring, head).Some? <==>
           r in flags && NextInRing(k.ring) !in flags && head != r && head !in flags)
      && (InterruptFlags(k, flags, head).Some? <==>
           r in flags && (|k.ring| > 1 && r == k.idle ==> k.ring[1] == r || k.ring[1] !in flags) && head != r && head !in flags)
      && (Continue(flags, r, head).Some? <==> head == r && r in flags)
  {
  }

  // ----- the flags are those of the tasks that run

  predicate RunsOn(s: State, c: nat, t: Task) {
    c < |s.cores| && s.cores[c].ring != [] && s.cores[c].ring[0] == t
  }

  ghost predicate Runs(s: State, t: Task) {
    exists c: nat :: RunsOn(s, c, t)
  }

  ghost predicate FlagsRight(s: State, flags: set<Task>) {
    forall t :: t in flags <==> Runs(s, t)
  }

  ghost predicate Right(x: System) {
    Inv(x.sched) && FlagsRight(x.sched, x.flags)
  }

  lemma {:induction false} TwoCores(ks: seq<Core>, c: nat, d: nat, t: Task)
    requires c < d < |ks|
    ensures CoresCount(ks, t) >= CoreCount(ks[c], t) + CoreCount(ks[d], t)
  {
    if c == 0 {
      CoresAt(ks[1..], d - 1, t);
    } else {
      TwoCores(ks[1..], c - 1, d - 1, t);
    }
  }

  /** A task in the ring of one core is in that of no other. */
  lemma OneRing(s: State, c: nat, d: nat, t: Task)
    requires Inv(s) && c < |s.cores| && d < |s.cores| && c != d && t in s.cores[c].ring
    ensures t !in s.cores[d].ring
  {
    if c < d { TwoCores(s.cores, c, d, t); } else { TwoCores(s.cores, d, c, t); }
    CountIn(s.cores[c].ring, t);
    CountIn(s.cores[d].ring, t);
    assert Places(s, t) >= CoresCount(s.cores, t);
  }

  /** and only once there. */
  lemma OnceInRing(s: State, c: nat)
    requires Inv(s) && c < |s.cores| && |s.cores[c].ring| > 1
    ensures s.cores[c].ring[1] != s.cores[c].ring[0]
  {
    var ring := s.cores[c].ring;
    var t := ring[1];
    CoresAt(s.cores, c, t);
    CountIn(ring[1..], t);
    assert ring[1..][0] == t;
    assert Places(s, t) >= CoresCount(s.cores, t);
  }

  /** The next task of a ring runs nowhere. */
  lemma NextRunsNowhere(s: State, c: nat)
    requires Inv(s) && c < |s.cores| && |s.cores[c].ring| > 1
    ensures !Runs(s, s.cores[c].ring[1])
  {
    var t := s.cores[c].ring[1];
    OnceInRing(s, c);
    if d: nat :| RunsOn(s, d, t) {
      OneRing(s, c, d, t);
      assert false;
    }
  }

  lemma PoolInNoRing(s: State, d: nat)
    requires Inv(s) && s.pool != [] && d < |s.cores|
    ensures s.pool[0] !in s.cores[d].ring
  {
    var t := s.pool[0];
    CoresAt(s.cores, d, t);
    CountIn(s.cores[d].ring, t);
    CountIn(s.pool, t);
    assert Places(s, t) >= CoresCount(s.cores, t) + Count(s.pool, t);
  }

  lemma PoolRunsNowhere(s: State)
    requires Inv(s) && s.pool != []
    ensures !Runs(s, s.pool[0])
  {
    forall d: nat | d < |s.cores| ensures !RunsOn(s, d, s.pool[0]) { PoolInNoRing(s, d); }
  }

  // ----- a step changes one core

  ghost predicate OtherCores(s: State, o: Option<State>, c: nat) {
    o.Some? ==> |o.value.cores| == |s.cores| && forall d :: 0 <= d < |s.cores| && d != c ==> o.value.cores[d] == s.cores[d]
  }

  lemma OneCoreChanges(s: State, c: nat, e: Event)
    requires Able(s, c)
    ensures OtherCores(s, StepOf(s, c, e), c)
  {
    match e
    case Yield => YieldChanges(s, c);
    case Sleep(n) => SleepChanges(s, c, n);
    case SwitchToCore(core, userMode) => SwitchChanges(s, c, core, userMode);
    case Interrupt => InterruptChanges(s, c);
    case Tick => assert DoTick(s).cores == s.cores;
    case _ => OtherwiseChanges(s, c, e);
  }

  lemma OtherwiseChanges(s: State, c: nat, e: Event)
    requires Able(s, c) && !IsMove(e)
    ensures OtherCores(s, StepOf(s, c, e), c)
  {
    LocalStep(s, c, e);
  }

  lemma YieldChanges(s: State, c: nat)
    requires c < |s.cores| && s.cores[c].ring != []
    ensures OtherCores(s, DoYield(s, c), c)
  {
  }

  lemma SleepChanges(s: State, c: nat, n: nat)
    requires c < |s.cores| && s.cores[c].ring != []
    ensures OtherCores(s, DoSleep(s, c, n), c)
  {
  }

  lemma SwitchChanges(s: State, c: nat, core: nat, userMode: bool)
    requires c < |s.cores| && s.cores[c].ring != []
    ensures OtherCores(s, DoSwitchToCore(s, c, core, userMode), c)
  {
  }

  lemma InterruptChanges(s: State, c: nat)
    requires c < |s.cores| && s.cores[c].idle in s.cores[c].ring
    ensures OtherCores(s, DoInterrupt(s, c), c)
  {
  }

  // ----- what is at the head of the ring after a step

  ghost predicate HeadIs(o: Option<State>, c: nat, t: Task) {
    o.Some? ==> RunsOn(o.value, c, t)
  }

  lemma HeadStays(s: State, c: nat, e: Event)
    requires Able(s, c) && !e.Interrupt? && !Stops(s, c, e) && !IdleYields(s, c, e)
    ensures HeadIs(StepOf(s, c, e), c, Running(s, c))
  {
    match e
    case Sleep(n) =>
    case LockClaim(a, r1) => ClaimStays(s, c, a, r1);
    case LockRelease(a) => ReleaseStays(s, c, a);
    case QueueWait(q) => WaitStays(s, c, q);
    case PipeCall(i, op) => PipeStays(s, c, i, op);
    case Tick => assert DoTick(s).cores == s.cores;
    case _ => HeadStaysOtherwise(s, c, e);
  }

  lemma ClaimStays(s: State, c: nat, a: nat, r1: nat)
    requires Ready(s, c) && !Locks.Claim(s.locks, Running(s, c), a, r1).1.Blocked?
    ensures HeadIs(DoLockClaim(s, c, a, r1), c, Running(s, c))
  {
  }

  lemma ReleaseStays(s: State, c: nat, a: nat)
    requires Ready(s, c)
    ensures HeadIs(DoLockRelease(s, c, a), c, Running(s, c))
  {
  }

  lemma WaitStays(s: State, c: nat, q: nat)
    requires Ready(s, c) && !Stops(s, c, QueueWait(q))
    ensures HeadIs(DoQueueWait(s, c, q), c, Running(s, c))
  {
  }

  lemma PipeStays(s: State, c: nat, i: nat, op: Pipes.Op)
    requires Ready(s, c) && !Stops(s, c, PipeCall(i, op))
    ensures HeadIs(DoPipeCall(s, c, i, op), c, Running(s, c))
  {
  }

  lemma HeadStaysOtherwise(s: State, c: nat, e: Event)
    requires Able(s, c) && !Stops(s, c, e) && !IdleYields(s, c, e)
    requires e.Yield? || e.Create? || e.EndTask? || e.ReleaseTask? || e.ChangeController? || e.SwitchToCore?
          || e.WaitForInterrupt? || e.QueueCreate? || e.QueueCall? || e.PipeCreate?
    ensures HeadIs(StepOf(s, c, e), c, Running(s, c))
  {
  }

  // ----- the head that takes over is a task that ran nowhere

  /** s' comes of s by a step on core c. */
  ghost predicate After(s: State, c: nat, s': State) {
    Inv(s) && Inv(s') && c < |s.cores| && s.cores[c].ring != [] && s'.cores != [] && OtherCores(s, Some(s'), c) &&
    s'.cores[c].ring != []
  }

  lemma NewHeadRanNowhere(s: State, c: nat, s': State)
    requires After(s, c, s') && Running(s', c) != Running(s, c)
    ensures !Runs(s, Running(s', c))
  {
    var t := Running(s', c);
    if d: nat :| RunsOn(s, d, t) {
      OneRing(s', c, d, t);
      assert false;
    }
  }

  /** The flag goes with the core: from the task that it ran to the one that it runs. */
  lemma FlagsPassOn(s: State, c: nat, s': State, flags: set<Task>)
    requires After(s, c, s') && FlagsRight(s, flags)
    ensures FlagsRight(s', flags - {Running(s, c)} + {Running(s', c)})
  {
    var r, t := Running(s, c), Running(s', c);
    forall u ensures u in flags - {r} + {t} <==> Runs(s', u) {
      if u in flags - {r} {
        var d: nat :| RunsOn(s, d, u);
        assert RunsOn(s', d, u);
      } else if u == t {
        assert RunsOn(s', c, u);
      } else if d: nat :| RunsOn(s', d, u) {
        assert RunsOn(s, d, u) && RunsOn(s, c, r);
        if u == r { OneRing(s, c, d, r); }
      }
    }
  }

  lemma StillRuns(s: State, c: nat, s': State, flags: set<Task>)
    requires After(s, c, s') && FlagsRight(s, flags) && Running(s', c) == Running(s, c)
    ensures FlagsRight(s', flags) && Running(s, c) in flags
  {
    assert RunsOn(s, c, Running(s, c));
    FlagsPassOn(s, c, s', flags);
    assert flags - {Running(s, c)} + {Running(s', c)} == flags;
  }

  lemma TakenOver(s: State, c: nat, s': State, flags: set<Task>)
    requires After(s, c, s') && FlagsRight(s, flags) && Running(s', c) != Running(s, c)
    ensures var r, t := Running(s, c), Running(s', c);
      r in flags && t !in flags && FlagsRight(s', flags - {r} + {t})
  {
    assert RunsOn(s, c, Running(s, c));
    NewHeadRanNowhere(s, c, s');
    FlagsPassOn(s, c, s', flags);
  }

  // ----- when there is a new head

  /** Where the code stops the running task, the next one takes over, or a handler that controls it. */
  ghost predicate Moves(s: State, o: Option<State>, c: nat)
    requires Ready(s, c)
  {
    o.Some? ==>
      |s.cores[c].ring| > 1 && c < |o.value.cores| && o.value.cores[c].ring != [] &&
      (Running(o.value, c) == s.cores[c].ring[1] ||
       (Running(s, c) in o.value.controllers && o.value.controllers[Running(s, c)] != []))
  }

  lemma HeadMoves(s: State, c: nat, e: Event)
    requires Able(s, c) && Stops(s, c, e)
    ensures Moves(s, StepOf(s, c, e), c)
  {
    match e
    case Sleep(n) =>
    case LockClaim(a, r1) => ClaimMoves(s, c, a, r1);
    case QueueWait(q) => WaitMoves(s, c, q);
    case QueueCall(q, op) => CallMoves(s, c, q, op);
    case PipeCall(i, op) => PipeMoves(s, c, i, op);
    case _ =>
  }

  lemma ClaimMoves(s: State, c: nat, a: nat, r1: nat)
    requires Ready(s, c) && Locks.Claim(s.locks, Running(s, c), a, r1).1.Blocked?
    ensures Moves(s, DoLockClaim(s, c, a, r1), c)
  {
  }

  lemma WaitMoves(s: State, c: nat, q: nat)
    requires Ready(s, c) && Stops(s, c, QueueWait(q))
    ensures Moves(s, DoQueueWait(s, c, q), c)
  {
  }

  lemma CallMoves(s: State, c: nat, q: nat, op: nat)
    requires Ready(s, c) && q < |s.queues|
    ensures Moves(s, DoQueueCall(s, c, q, op), c)
  {
  }

  lemma PipeMoves(s: State, c: nat, i: nat, op: Pipes.Op)
    requires Ready(s, c) && Stops(s, c, PipeCall(i, op))
    ensures Moves(s, DoPipeCall(s, c, i, op), c)
  {
  }

  lemma StoppedIsPassed(s: State, c: nat, s': State)
    requires After(s, c, s') && Ready(s, c) && Moves(s, Some(s'), c)
    ensures |s.cores[c].ring| > 1 && Running(s', c) != Running(s, c)
  {
    OnceInRing(s, c);
    RunningUncontrolled(s', c);
  }

  lemma InterruptPasses(s: State, c: nat, s': State)
    requires After(s, c, s') && s.cores[c].idle in s.cores[c].ring && DoInterrupt(s, c) == Some(s')
    ensures Running(s', c) != Running(s, c)
  {
    var k := s.cores[c];
    if k.ring[0] == k.idle {
      OnceInRing(s', c);
    } else {
      var t := k.ring[0];
      CoresAt(s.cores, c, t);
      assert Places(s, t) >= CoresCount(s.cores, t);
    }
  }

  /** What the idle task goes on to is not the idle task. */
  lemma IdlePasses(s: State, c: nat, s': State)
    requires After(s, c, s') && Running(s, c) == s.cores[c].idle && s' == IdleYield(s, c)
    ensures Running(s', c) == Running(s, c) <==>
      |s.cores[c].ring| == 1 && (s.cores[c].masked || (ForCore(s.moving, c) == |s.moving| && s.runnable == []))
  {
    var k := s.cores[c];
    if |k.ring| > 1 {
      OnceInRing(s, c);
    } else if !k.masked && (ForCore(s.moving, c) < |s.moving| || s.runnable != []) {
      assert s'.cores[c].ring[1] == k.idle;
      OnceInRing(s', c);
    }
  }

  // ----- no assertion about the flags fails

  lemma StopHolds(s: State, c: nat, s': State, flags: set<Task>)
    requires After(s, c, s') && FlagsRight(s, flags) && |s.cores[c].ring| > 1 && Running(s', c) != Running(s, c)
    ensures StopAndResume(flags, s.cores[c].ring, Running(s', c)).Some?
    ensures FlagsRight(s', StopAndResume(flags, s.cores[c].ring, Running(s', c)).value)
  {
    NextRunsNowhere(s, c);
    TakenOver(s, c, s', flags);
  }

  lemma InterruptHolds(s: State, c: nat, s': State, flags: set<Task>)
    requires After(s, c, s') && FlagsRight(s, flags) && Running(s', c) != Running(s, c)
    ensures InterruptFlags(s.cores[c], flags, Running(s', c)).Some?
    ensures FlagsRight(s', InterruptFlags(s.cores[c], flags, Running(s', c)).value)
  {
    if |s.cores[c].ring| > 1 { NextRunsNowhere(s, c); }
    TakenOver(s, c, s', flags);
  }

  lemma IdleHolds(s: State, c: nat, s': State, flags: set<Task>)
    requires After(s, c, s') && FlagsRight(s, flags) && Running(s, c) == s.cores[c].idle && s' == IdleYield(s, c)
    ensures IdleFlags(s, c, flags, Running(s', c)).Some?
    ensures FlagsRight(s', IdleFlags(s, c, flags, Running(s', c)).value)
  {
    var r := Running(s, c);
    IdlePasses(s, c, s');
    if Running(s', c) == r {
      StillRuns(s, c, s', flags);
      assert flags + {r} == flags && flags - {r} + {r} == flags;
    } else {
      TakenOver(s, c, s', flags);
    }
  }

  lemma CreateHolds(s: State, c: nat, s': State, flags: set<Task>)
    requires After(s, c, s') && FlagsRight(s, flags) && Running(s', c) == Running(s, c) && s.pool != []
    ensures Continue(flags - {s.pool[0]}, Running(s, c), Running(s', c)) == Some(flags) && FlagsRight(s', flags)
  {
    PoolRunsNowhere(s);
    StillRuns(s, c, s', flags);
    assert flags - {s.pool[0]} == flags;
  }

  lemma ContinueHolds(s: State, c: nat, s': State, flags: set<Task>)
    requires After(s, c, s') && FlagsRight(s, flags) && Running(s', c) == Running(s, c)
    ensures Continue(flags, Running(s, c), Running(s', c)) == Some(flags) && FlagsRight(s', flags)
  {
    StillRuns(s, c, s', flags);
  }

  /** None of the assertions fails, and the flags are right again. */
  ghost predicate Holds(o: Option<set<Task>>, s': State) {
    o.Some? && FlagsRight(s', o.value)
  }

  lemma FlagsHold(s: State, c: nat, e: Event, s': State, flags: set<Task>)
    requires After(s, c, s') && Able(s, c) && StepOf(s, c, e) == Some(s') && FlagsRight(s, flags)
    requires Running(s, c) == s.cores[c].idle ==> e.Yield? || e.Interrupt?
    ensures Holds(FlagsAfter(s, c, e, flags, Running(s', c)), s')
  {
    if e.Interrupt? {
      InterruptPasses(s, c, s');
      InterruptHolds(s, c, s', flags);
    } else if IdleYields(s, c, e) {
      IdleHolds(s, c, s', flags);
    } else if Stops(s, c, e) {
      HeadMoves(s, c, e);
      StoppedIsPassed(s, c, s');
      StopHolds(s, c, s', flags);
    } else {
      HeadStays(s, c, e);
      RingOfOne(s, c);
      if e.Create? && s.pool != [] { CreateHolds(s, c, s', flags); } else { ContinueHolds(s, c, s', flags); }
    }
  }

  lemma RingOfOne(s: State, c: nat)
    requires Able(s, c)
    ensures |s.cores[c].ring| == 1 ==> s.cores[c].ring[0] == s.cores[c].idle
  {
  }

  /** With the flags the system stops exactly where it does without, and goes on to the same state. */
  ghost predicate SameStep(o: Option<System>, p: Option<State>) {
    (o.Some? <==> p.Some?) && (o.Some? ==> o.value.sched == p.value && Right(o.value))
  }

  /** In every state with the flags right, no assertion about the flags can fail, and they are right again. */
  lemma StepHolds(x: System, c: nat, e: Event)
    requires Right(x) && c < |x.sched.cores| && Enabled(x.sched, c, e)
    ensures SameStep(SystemStep(x, c, e), Step(x.sched, c, e))
  {
    InvRunning(x.sched, c);
    var o := Step(x.sched, c, e);
    if o.Some? {
      FlagsHoldAfter(x.sched, c, e, o.value, x.flags);
    }
  }

  lemma FlagsHoldAfter(s: State, c: nat, e: Event, s': State, flags: set<Task>)
    requires Inv(s) && c < |s.cores| && Enabled(s, c, e) && Step(s, c, e) == Some(s') && FlagsRight(s, flags)
    ensures Inv(s') && Ready(s, c) && Ready(s', c) && Holds(FlagsAfter(s, c, e, flags, Running(s', c)), s')
  {
    InvRunning(s, c);
    StepKeepsInv(s, c, e);
    InvRunning(s', c);
    OneCoreChanges(s, c, e);
    FlagsHold(s, c, e, s', flags);
  }

  /** All the assertions of stop_running_task, those about flags among them, and the PANICs of save_task_state: one
      fails exactly for the idle task. */
  lemma StoppingFailsIff(x: System, c: nat)
    requires Right(x) && Ready(x.sched, c)
    ensures var (ring, r) := (x.sched.cores[c].ring, Running(x.sched, c));
      Stop(x.sched, c).None? || NextInRing(ring) in x.flags || Save(x.flags, r).None? <==> r == x.sched.cores[c].idle
  {
    StopFailsIff(x.sched, c);
    assert RunsOn(x.sched, c, Running(x.sched, c));
    if Stop(x.sched, c).Some? { NextRunsNowhere(x.sched, c); }
  }

  /** Of the PANICs and assertions that are outcomes of the steps, those about flags now among them, exactly the
      fatal ones can be met. */
  lemma SystemStopsIff(x: System, c: nat, e: Event)
    requires Right(x) && c < |x.sched.cores| && Enabled(x.sched, c, e) && Ready(x.sched, c)
    ensures SystemStep(x, c, e).None? <==> Fatal(x.sched, c, e)
  {
    StepHolds(x, c, e);
    StopsIff(x.sched, c, e);
  }

  // ----- runs

  ghost predicate IsSystemRun(x: System, acts: seq<Act>)
    decreases |acts|
  {
    acts == [] ||
    (CanStep(x.sched, acts[0]) && SystemStep(x, acts[0].core, acts[0].event).Some? &&
     IsSystemRun(SystemStep(x, acts[0].core, acts[0].event).value, acts[1..]))
  }

  ghost function SystemEnd(x: System, acts: seq<Act>): System
    requires IsSystemRun(x, acts)
    decreases |acts|
  {
    if acts == [] then x else SystemEnd(SystemStep(x, acts[0].core, acts[0].event).value, acts[1..])
  }

  /** Over any run of any number of cores: a task's flag is set exactly while some core runs it; and every run
      of the scheduler is one in which no assertion about the flags fails. */
  lemma {:induction false} RunHolds(x: System, acts: seq<Act>)
    requires Right(x)
    ensures IsSystemRun(x, acts) <==> IsRun(x.sched, acts)
    ensures IsSystemRun(x, acts) ==> SystemEnd(x, acts).sched == End(x.sched, acts)
    ensures IsSystemRun(x, acts) ==> Right(SystemEnd(x, acts))
    decreases |acts|
  {
    if acts != [] && CanStep(x.sched, acts[0]) {
      StepHolds(x, acts[0].core, acts[0].event);
      RunHolds(SystemStep(x, acts[0].core, acts[0].event).value, acts[1..]);
    }
  }

  /** A task runs on one core at most. */
  lemma RunsOnOne(x: System, t: Task, c: nat, d: nat)
    requires Right(x) && RunsOn(x.sched, c, t) && RunsOn(x.sched, d, t)
    ensures c == d
  {
    if c != d { OneRing(x.sched, c, d, t); }
  }

  /** What core c runs at first: the first core a task beside its idle task */
  function BootTask(n: nat, c: nat): Task {
    Handle(if c == 0 then n else c)
  }

  /** The boot code sets the flag of the task it becomes, on each core; the idle task of the first core is
      made as a saved task. */
  lemma BootRight(n: nat, m: nat)
    requires 0 < n < m && n <= 64
    ensures Right(System(Boot(n, m), set c: nat | c < n :: BootTask(n, c)))
  {
    var s := Boot(n, m);
    var flags := set c: nat | c < n :: BootTask(n, c);
    BootInv(n, m);
    forall c: nat | c < n ensures RunsOn(s, c, BootTask(n, c)) {}
    forall t ensures t in flags <==> Runs(s, t) {
      if c: nat :| RunsOn(s, c, t) { assert c < n && t == BootTask(n, c); }
      if t in flags {
        var c: nat :| c < n && t == BootTask(n, c);
        assert RunsOn(s, c, t);
      }
    }
  }
}
