/** Where each step takes a task: tasks that yield, end, or are woken, made or sent elsewhere, over whole runs. */
module Whereabouts {
  import opened Tasks
  import opened Queues
  import SleepQueue
  import opened Scheduler
  import opened SchedulerRuns
  import opened SchedulerFrames
  import opened SchedulerOrder
  import Locks
  import Pipes

  // ----- what a step leaves alone

  /** Pipes, locks, the tasks that have ended and those in the pool are changed only by the calls that are for that. */
  ghost predicate Unmoved(s: State, o: Option<State>, e: Event) {
    o.Some? ==>
      && (!e.PipeCall? ==> s.pipes <= o.value.pipes)
      && (!e.LockClaim? && !e.LockRelease? ==> o.value.locks == s.locks)
      && (!e.EndTask? ==> o.value.ended == s.ended)
      && (!e.Create? ==> o.value.pool == s.pool)
  }

  lemma StopUnmoved(s: State, c: nat, core: nat, mode: bool, e: Event)
    requires Able(s, c)
    ensures Unmoved(s, DoEnd(s, c), EndTask)
    ensures Unmoved(s, DoSwitchToCore(s, c, core, mode), e) && Unmoved(s, DoWaitForInterrupt(s, c, mode), e)
  {
  }

  lemma YieldUnmoved(s: State, c: nat, n: nat, e: Event)
    requires Able(s, c)
    ensures Unmoved(s, DoYield(s, c), e) && Unmoved(s, DoSleep(s, c, n), e)
  {
  }

  lemma ClockUnmoved(s: State, c: nat, e: Event)
    requires Able(s, c)
    ensures Unmoved(s, Some(DoTick(s)), e) && Unmoved(s, DoInterrupt(s, c), e)
  {
  }

  lemma ControlUnmoved(s: State, c: nat, t: Task, u: Task, lock: bool, size: nat, e: Event)
    requires Able(s, c)
    ensures Unmoved(s, DoCreate(s, c), Create) && Unmoved(s, DoRelease(s, c, t, lock), e)
    ensures Unmoved(s, DoChangeController(s, c, t, u), e) && Unmoved(s, DoPipeCreate(s, c, size), e)
  {
  }

  lemma WaitUnmoved(s: State, c: nat, q: nat, e: Event)
    requires Able(s, c)
    ensures Unmoved(s, DoQueueWait(s, c, q), e)
  {
  }

  lemma CallUnmoved(s: State, c: nat, q: nat, op: nat, e: Event)
    requires Able(s, c)
    ensures Unmoved(s, DoQueueCall(s, c, q, op), e)
  {
  }

  lemma LockUnmoved(s: State, c: nat, a: nat, r1: nat)
    requires Able(s, c)
    ensures Unmoved(s, DoLockClaim(s, c, a, r1), LockClaim(a, r1)) && Unmoved(s, DoLockRelease(s, c, a), LockRelease(a))
  {
  }

  lemma PipeUnmoved(s: State, c: nat, i: nat, op: Pipes.Op)
    requires Able(s, c)
    ensures Unmoved(s, DoPipeCall(s, c, i, op), PipeCall(i, op))
  {
  }

  lemma StepUnmoved(s: State, c: nat, e: Event)
    requires Able(s, c)
    ensures Unmoved(s, StepOf(s, c, e), e)
  {
    if IsMove(e) || e.EndTask? || e.WaitForInterrupt? { MoveUnmoved(s, c, e); } else { ServiceUnmoved(s, c, e); }
  }

  lemma MoveUnmoved(s: State, c: nat, e: Event)
    requires Able(s, c) && (IsMove(e) || e.EndTask? || e.WaitForInterrupt?)
    ensures Unmoved(s, StepOf(s, c, e), e)
  {
    match e
    case Yield => YieldUnmoved(s, c, 0, e);
    case Sleep(n) => YieldUnmoved(s, c, n, e);
    case EndTask => StopUnmoved(s, c, 0, true, e);
    case SwitchToCore(core, mode) => StopUnmoved(s, c, core, mode, e);
    case WaitForInterrupt(masked) => StopUnmoved(s, c, 0, masked, e);
    case Tick => ClockUnmoved(s, c, e);
    case Interrupt => ClockUnmoved(s, c, e);
  }

  lemma ServiceUnmoved(s: State, c: nat, e: Event)
    requires Able(s, c) && !IsMove(e) && !e.EndTask? && !e.WaitForInterrupt?
    ensures Unmoved(s, StepOf(s, c, e), e)
  {
    match e
    case Create => ControlUnmoved(s, c, 0, 0, true, 0, e);
    case ReleaseTask(t, lock) => ControlUnmoved(s, c, t, 0, lock, 0, e);
    case ChangeController(t, u) => ControlUnmoved(s, c, t, u, true, 0, e);
    case PipeCreate(size) => ControlUnmoved(s, c, 0, 0, true, size, e);
    case PipeCall(i, op) => PipeUnmoved(s, c, i, op);
    case LockClaim(a, r1) => LockUnmoved(s, c, a, r1);
    case LockRelease(a) => LockUnmoved(s, c, a, 0);
    case QueueCreate =>
    case QueueWait(q) => WaitUnmoved(s, c, q, e);
    case QueueCall(q, op) => CallUnmoved(s, c, q, op, e);
  }

  // ----- at the end of the runnable list, and so running in its turn

  ghost predicate JoinsLast(s: State, s': State, t: Task) {
    s'.runnable == s.runnable + [t]
  }

  /** Step a takes a task off the runnable list. */
  ghost predicate TakesOne(s: State, a: Act)
    requires CanStep(s, a)
  {
    |Next(s, a).runnable| < |s.runnable|
  }

  /** A task that has joined the list last runs on the core that takes one when as many have been taken as were there
      before it, whatever all the cores do meanwhile. */
  ghost predicate RunsInTurn(before: State, s: State, t: Task, acts: seq<Act>, a: Act)
    requires IsRun(s, acts) && CanStep(End(s, acts), a)
  {
    Taken(s, acts) == |before.runnable| && TakesOne(End(s, acts), a) ==>
      var v := Next(End(s, acts), a);
      a.core < |v.cores| && v.cores[a.core].ring != [] && Running(v, a.core) == t
  }

  lemma LastRunsInTurn(before: State, s: State, t: Task, acts: seq<Act>, a: Act)
    requires JoinsLast(before, s, t) && IsRun(s, acts) && CanStep(End(s, acts), a)
    ensures RunsInTurn(before, s, t, acts, a)
  {
    if Taken(s, acts) == |before.runnable| && TakesOne(End(s, acts), a) {
      var u, v := TakenInTurn(s, acts, |before.runnable|, a);
    }
  }

  // ----- yielding

  lemma YieldGoesLast(s: State, c: nat, e: Event)
    requires CanStep(s, Act(c, e)) && (e == Yield || e == Sleep(0)) && Ready(s, c) && Running(s, c) != s.cores[c].idle
    ensures var s' := Next(s, Act(c, e)); JoinsLast(s, s', Running(s, c)) && |s'.cores| == |s.cores| && s'.cores[c].ring == s.cores[c].ring[1..]
  {
    InvRunning(s, c);
    StopSound(s, c);
  }

  /** A task that yields is the last of those that may run on any core, and runs when its turn comes; the next task of
      its ring goes on. */
  lemma YieldThenRun(s: State, c: nat, e: Event, acts: seq<Act>, a: Act)
    requires CanStep(s, Act(c, e)) && (e == Yield || e == Sleep(0)) && Ready(s, c) && Running(s, c) != s.cores[c].idle
    requires IsRun(Next(s, Act(c, e)), acts) && CanStep(End(Next(s, Act(c, e)), acts), a)
    ensures RunsInTurn(s, Next(s, Act(c, e)), Running(s, c), acts, a)
  {
    YieldGoesLast(s, c, e);
    LastRunsInTurn(s, Next(s, Act(c, e)), Running(s, c), acts, a);
  }

  // ----- woken at a pipe

  /** The task is blocked at pipe i before the step, and not after it. */
  ghost predicate LeavesPipe(s: State, s': State, i: nat, t: Task) {
    i < |s.pipes| && Pipes.BlockedAt(s.pipes[i], t) && !(i < |s'.pipes| && Pipes.BlockedAt(s'.pipes[i], t))
  }

  /** Whoever is no longer blocked at the pipe after an operation is woken by it, and made runnable, last of all. */
  lemma PipeCallWakes(s: State, c: nat, i: nat, op: Pipes.Op, j: nat, t: Task)
    requires Inv(s) && Able(s, c) && i < |s.pipes| && Pipes.EndIsIdle(s.pipes[i], op) && DoPipeCall(s, c, i, op).Some?
    requires LeavesPipe(s, DoPipeCall(s, c, i, op).value, j, t)
    ensures JoinsLast(s, DoPipeCall(s, c, i, op).value, t)
  {
    RunningNotBlocked(s, c, i);
    assert Pipes.Ok(s.pipes[i]);
    Pipes.StepCounts(s.pipes[i], Running(s, c), op, t);
    PipeAfterIs(s, c, i, Pipes.Step(s.pipes[i], Running(s, c), op));
  }

  lemma PipeAfterIs(s: State, c: nat, i: nat, o: Pipes.Outcome)
    requires Ready(s, c) && i < |s.pipes| && PipeOutcome(s, c, i, o).Some?
    ensures PipeOutcome(s, c, i, o).value.pipes == s.pipes[i := Pipes.PipeAfter(s.pipes[i], o)]
    ensures o.Wakes? ==> JoinsLast(s, PipeOutcome(s, c, i, o).value, o.woken)
  {
  }

  lemma WokenIsRunnable(s: State, a: Act, i: nat, t: Task)
    requires CanStep(s, a) && LeavesPipe(s, Next(s, a), i, t)
    ensures a.event.PipeCall? && a.event.pipe == i && JoinsLast(s, Next(s, a), t)
  {
    InvRunning(s, a.core);
    if a.event.PipeCall? {
      if a.event.pipe < |s.pipes| { PipeCallWakes(s, a.core, a.event.pipe, a.event.op, i, t); }
      OnlyThatPipe(s, a.core, a.event.pipe, a.event.op);
    } else {
      StepUnmoved(s, a.core, a.event);
    }
  }

  lemma OnlyThatPipe(s: State, c: nat, i: nat, op: Pipes.Op)
    requires Able(s, c) && DoPipeCall(s, c, i, op).Some?
    ensures var s' := DoPipeCall(s, c, i, op).value;
      |s'.pipes| == |s.pipes| && forall j :: 0 <= j < |s.pipes| && j != i ==> s'.pipes[j] == s.pipes[j]
  {
  }

  /** No wakeup is lost, in the system as a whole: whichever step ends a wait at a pipe, the task that waited is then the
      last of those that may run, and runs when its turn comes. */
  lemma WokenThenRun(s: State, b: Act, i: nat, t: Task, acts: seq<Act>, a: Act)
    requires CanStep(s, b) && LeavesPipe(s, Next(s, b), i, t)
    requires IsRun(Next(s, b), acts) && CanStep(End(Next(s, b), acts), a)
    ensures RunsInTurn(s, Next(s, b), t, acts, a)
  {
    WokenIsRunnable(s, b, i, t);
    LastRunsInTurn(s, Next(s, b), t, acts, a);
  }

  // ----- granted a lock

  ghost predicate LeavesLocks(s: State, s': State, t: Task) {
    t in Locks.Names(s.locks.blocked) && t !in Locks.Names(s'.locks.blocked)
  }

  /** A task that has to wait for a lock is the last that does; nothing else becomes of it. */
  lemma ClaimWaits(s: State, c: nat, a: nat, r1: nat)
    requires Able(s, c) && DoLockClaim(s, c, a, r1).Some?
    ensures var s' := DoLockClaim(s, c, a, r1).value;
      s'.locks.blocked == s.locks.blocked ||
      (s'.locks.blocked == s.locks.blocked + [Locks.Waiter(Running(s, c), a, r1)] && s'.runnable == s.runnable)
  {
  }

  lemma ReleaseWakes(s: State, c: nat, a: nat, t: Task)
    requires Able(s, c) && DoLockRelease(s, c, a).Some? && LeavesLocks(s, DoLockRelease(s, c, a).value, t)
    ensures JoinsLast(s, DoLockRelease(s, c, a).value, t)
  {
    FirstWaiter(s.locks.blocked, t);
  }

  lemma FirstWaiter(b: seq<Locks.Waiter>, t: Task)
    requires t in Locks.Names(b)
    ensures t in Locks.Names(b[1..]) || t == b[0].task
  {
    var k :| 0 <= k < |b| && Locks.Names(b)[k] == t;
    if k > 0 { assert Locks.Names(b[1..])[k - 1] == t; }
  }

  lemma GrantedIsRunnable(s: State, a: Act, t: Task)
    requires CanStep(s, a) && LeavesLocks(s, Next(s, a), t)
    ensures a.event.LockRelease? && JoinsLast(s, Next(s, a), t)
  {
    InvRunning(s, a.core);
    if a.event.LockRelease? {
      ReleaseWakes(s, a.core, a.event.lock, t);
    } else {
      if a.event.LockClaim? { ClaimWaits(s, a.core, a.event.lock, a.event.r1); } else { StepUnmoved(s, a.core, a.event); }
      NamesGrow(s.locks.blocked, Next(s, a).locks.blocked, t);
    }
  }

  lemma NamesGrow(b: seq<Locks.Waiter>, b': seq<Locks.Waiter>, t: Task)
    requires b <= b'
    ensures t in Locks.Names(b) ==> t in Locks.Names(b')
  {
    if t in Locks.Names(b) {
      var k :| 0 <= k < |b| && Locks.Names(b)[k] == t;
      assert Locks.Names(b')[k] == t;
    }
  }

  /** So it is with a task that has waited for a lock: whichever step ends that, it runs when its turn comes. */
  lemma GrantedThenRun(s: State, b: Act, t: Task, acts: seq<Act>, a: Act)
    requires CanStep(s, b) && LeavesLocks(s, Next(s, b), t)
    requires IsRun(Next(s, b), acts) && CanStep(End(Next(s, b), acts), a)
    ensures RunsInTurn(s, Next(s, b), t, acts, a)
  {
    GrantedIsRunnable(s, b, t);
    LastRunsInTurn(s, Next(s, b), t, acts, a);
  }

  // ----- waking from sleep

  /** Tasks woken by a tick join the list in the order in which they slept. */
  lemma TickAppends(s: State, a: Act) returns (woken: seq<Task>)
    requires CanStep(s, a) && a.event.Tick?
    ensures Next(s, a).runnable == s.runnable + woken
    ensures SleepQueue.Tasks(s.sleeping) == woken + SleepQueue.Tasks(Next(s, a).sleeping)
  {
    InvRunning(s, a.core);
    SleepQueue.TickTasks(s.sleeping);
    woken := SleepQueue.Tasks(SleepQueue.WakeyWakey(s.sleeping).1);
  }

  // ----- ended

  lemma EndGoesLast(s: State, a: Act)
    requires CanStep(s, a) && Ready(s, a.core)
    ensures Next(s, a).ended == if a.event.EndTask? then s.ended + [Running(s, a.core)] else s.ended
  {
    InvRunning(s, a.core);
    StepUnmoved(s, a.core, a.event);
  }

  lemma {:induction false} EndedGrows(s: State, acts: seq<Act>)
    requires Inv(s) && IsRun(s, acts)
    ensures s.ended <= End(s, acts).ended
    decreases |acts|
  {
    if acts != [] {
      InvRunning(s, acts[0].core);
      EndGoesLast(s, acts[0]);
      StepKeepsInv(s, acts[0].core, acts[0].event);
      EndedGrows(Next(s, acts[0]), acts[1..]);
    }
  }

  lemma EndedRunsNowhere(s: State, c: nat, t: Task)
    requires Inv(s) && c < |s.cores| && t in s.ended
    ensures t !in s.cores[c].ring
  {
    CoresAt(s.cores, c, t);
    CountIn(s.cores[c].ring, t);
    CountIn(s.ended, t);
    assert Places(s, t) >= CoresCount(s.cores, t) + Count(s.ended, t);
  }

  /** A task that ends itself never runs again, on any core. */
  lemma EndedForGood(s: State, c: nat, acts: seq<Act>, d: nat)
    requires CanStep(s, Act(c, EndTask)) && Ready(s, c) && IsRun(Next(s, Act(c, EndTask)), acts)
    requires d < |End(Next(s, Act(c, EndTask)), acts).cores|
    ensures Running(s, c) !in End(Next(s, Act(c, EndTask)), acts).cores[d].ring
  {
    var s' := Next(s, Act(c, EndTask));
    EndGoesLast(s, Act(c, EndTask));
    StepKeepsInv(s, c, EndTask);
    RunKeepsInv(s', acts);
    EndedGrows(s', acts);
    assert s'.ended[|s.ended|] == Running(s, c);
    EndedRunsNowhere(End(s', acts), d, Running(s, c));
  }

  // ----- made

  /** A task is made of the first in the pool, and its maker has control of it, nobody else of any other task more
      or less. */
  lemma CreateGives(s: State, c: nat)
    requires CanStep(s, Act(c, Create)) && Ready(s, c)
    ensures var s' := Next(s, Act(c, Create));
      && s.pool != [] && s'.pool == s.pool[1..] && s'.cores == s.cores && s'.runnable == s.runnable
      && s'.controllers == s.controllers[s.pool[0] := [Running(s, c)]]
      && s.pool[0] in s'.regs && s'.regs[s.pool[0]].r0 == s.pool[0]
  {
  }

  /** So from then on only its maker can release it, from whatever core. */
  lemma OnlyMakerReleases(s: State, c: nat, d: nat, lockToCore: bool)
    requires CanStep(s, Act(c, Create)) && Ready(s, c)
    ensures var s' := Next(s, Act(c, Create));
      d < |s'.cores| && s'.cores[d].ring != [] ==>
        (DoRelease(s', d, s.pool[0], lockToCore).Some? <==> Running(s', d) == Running(s, c))
  {
    CreateGives(s, c);
  }

  /** A new pipe is empty, of the size asked for, and its maker's at both ends; a new queue has nobody waiting; and the
      others keep their handles. */
  lemma NewPipesAndQueues(s: State, a: Act)
    requires CanStep(s, a) && Ready(s, a.core)
    ensures a.event.PipeCreate? ==>
      var p := Next(s, a).pipes;
      |p| == |s.pipes| + 1 && s.pipes <= p && p[|s.pipes|].size == a.event.size && p[|s.pipes|].Data() == 0 &&
      p[|s.pipes|].sender == p[|s.pipes|].receiver == Pipes.Held(Running(s, a.core))
    ensures a.event.QueueCreate? ==> Next(s, a).queues == s.queues + [Queue([], [])]
  {
  }

  // ----- going to another core

  /** Asking for the core it is on changes nothing for a task; asking for another takes it off its core, to the end of
      the list of those on the move. */
  lemma SwitchGoes(s: State, c: nat, core: nat, userMode: bool)
    requires CanStep(s, Act(c, SwitchToCore(core, userMode))) && Ready(s, c)
    ensures var s' := Next(s, Act(c, SwitchToCore(core, userMode)));
      if core == c then s' == s
      else s'.moving == s.moving + [Mover(Running(s, c), core)] && s'.runnable == s.runnable &&
           |s'.cores| == |s.cores| && s'.cores[c].ring == s.cores[c].ring[1..]
  {
    InvRunning(s, c);
    StopSound(s, c);
  }

  // ----- waiting for an interrupt

  /** What a step on core c does to the slot for a task that waits for an interrupt, and to the mask */
  ghost predicate SlotOn(s: State, o: Option<State>, c: nat, e: Event)
    requires Ready(s, c)
  {
    o.Some? ==>
      && |o.value.cores| == |s.cores|
      && (forall d :: 0 <= d < |s.cores| && d != c ==> o.value.cores[d] == s.cores[d])
      && o.value.cores[c].irq == (if e.WaitForInterrupt? then Some(Running(s, c)) else if e.Interrupt? then None else s.cores[c].irq)
      && (o.value.cores[c].masked <==> e.Interrupt? || (s.cores[c].masked && !Unmasks(s.cores[c], e)))
  }

  /** The idle task, with no other in its ring, yields. */
  predicate Unmasks(k: Core, e: Event) {
    (e.Yield? || e == Sleep(0)) && k.ring == [k.idle]
  }

  lemma YieldSlot(s: State, c: nat, n: nat)
    requires Able(s, c)
    ensures SlotOn(s, DoYield(s, c), c, Yield) && SlotOn(s, DoSleep(s, c, n), c, Sleep(n))
  {
  }

  lemma StopSlot(s: State, c: nat, core: nat, mode: bool)
    requires Able(s, c)
    ensures SlotOn(s, DoEnd(s, c), c, EndTask) && SlotOn(s, DoSwitchToCore(s, c, core, mode), c, SwitchToCore(core, mode))
    ensures SlotOn(s, DoWaitForInterrupt(s, c, mode), c, WaitForInterrupt(mode))
  {
  }

  lemma ClockSlot(s: State, c: nat)
    requires Able(s, c)
    ensures SlotOn(s, Some(DoTick(s)), c, Event.Tick) && SlotOn(s, DoInterrupt(s, c), c, Interrupt)
  {
  }

  lemma ControlSlot(s: State, c: nat, t: Task, u: Task, lock: bool, size: nat)
    requires Able(s, c)
    ensures SlotOn(s, DoCreate(s, c), c, Create) && SlotOn(s, DoRelease(s, c, t, lock), c, ReleaseTask(t, lock))
    ensures SlotOn(s, DoChangeController(s, c, t, u), c, ChangeController(t, u)) && SlotOn(s, DoPipeCreate(s, c, size), c, PipeCreate(size))
  {
  }

  lemma WaitSlot(s: State, c: nat, q: nat)
    requires Able(s, c)
    ensures SlotOn(s, DoQueueWait(s, c, q), c, QueueWait(q))
  {
  }

  lemma CallSlot(s: State, c: nat, q: nat, op: nat)
    requires Able(s, c)
    ensures SlotOn(s, DoQueueCall(s, c, q, op), c, QueueCall(q, op))
  {
  }

  lemma LockSlot(s: State, c: nat, a: nat, r1: nat)
    requires Able(s, c)
    ensures SlotOn(s, DoLockClaim(s, c, a, r1), c, LockClaim(a, r1)) && SlotOn(s, DoLockRelease(s, c, a), c, LockRelease(a))
  {
  }

  lemma PipeSlot(s: State, c: nat, i: nat, op: Pipes.Op)
    requires Able(s, c)
    ensures SlotOn(s, DoPipeCall(s, c, i, op), c, PipeCall(i, op))
  {
  }

  lemma StepSlot(s: State, c: nat, e: Event)
    requires Able(s, c)
    ensures SlotOn(s, StepOf(s, c, e), c, e)
  {
    if IsMove(e) || e.EndTask? || e.WaitForInterrupt? { MoveSlot(s, c, e); } else { ServiceSlot(s, c, e); }
  }

  lemma MoveSlot(s: State, c: nat, e: Event)
    requires Able(s, c) && (IsMove(e) || e.EndTask? || e.WaitForInterrupt?)
    ensures SlotOn(s, StepOf(s, c, e), c, e)
  {
    match e
    case Yield => YieldSlot(s, c, 0);
    case Sleep(n) => YieldSlot(s, c, n);
    case EndTask => StopSlot(s, c, 0, true);
    case SwitchToCore(core, mode) => StopSlot(s, c, core, mode);
    case WaitForInterrupt(masked) => StopSlot(s, c, 0, masked);
    case Tick => ClockSlot(s, c);
    case Interrupt => ClockSlot(s, c);
  }

  lemma ServiceSlot(s: State, c: nat, e: Event)
    requires Able(s, c) && !IsMove(e) && !e.EndTask? && !e.WaitForInterrupt?
    ensures SlotOn(s, StepOf(s, c, e), c, e)
  {
    match e
    case Create => ControlSlot(s, c, 0, 0, true, 0);
    case ReleaseTask(t, lock) => ControlSlot(s, c, t, 0, lock, 0);
    case ChangeController(t, u) => ControlSlot(s, c, t, u, true, 0);
    case PipeCreate(size) => ControlSlot(s, c, 0, 0, true, size);
    case QueueCreate =>
    case QueueWait(q) => WaitSlot(s, c, q);
    case QueueCall(q, op) => CallSlot(s, c, q, op);
    case LockClaim(a, r1) => LockSlot(s, c, a, r1);
    case LockRelease(a) => LockSlot(s, c, a, 0);
    case PipeCall(i, op) => PipeSlot(s, c, i, op);
  }

  /** No interrupt on core c in the run */
  predicate NoInterrupt(acts: seq<Act>, c: nat) {
    forall k :: 0 <= k < |acts| ==> acts[k] != Act(c, Interrupt)
  }

  lemma {:induction false} SlotStays(s: State, acts: seq<Act>, c: nat, t: Task)
    requires Inv(s) && IsRun(s, acts) && c < |s.cores| && s.cores[c].irq == Some(t) && NoInterrupt(acts, c)
    ensures c < |End(s, acts).cores| && End(s, acts).cores[c].irq == Some(t) && Inv(End(s, acts))
    decreases |acts|
  {
    if acts != [] {
      SlotKept(s, acts[0], c, t);
      assert NoInterrupt(acts[1..], c);
      SlotStays(Next(s, acts[0]), acts[1..], c, t);
    }
  }

  /** While one task waits, no other can on that core. */
  lemma SlotKept(s: State, a: Act, c: nat, t: Task)
    requires CanStep(s, a) && c < |s.cores| && s.cores[c].irq == Some(t) && a != Act(c, Interrupt)
    ensures var s' := Next(s, a); Inv(s') && c < |s'.cores| && s'.cores[c].irq == Some(t)
  {
    InvRunning(s, a.core);
    StepSlot(s, a.core, a.event);
    StepKeepsInv(s, a.core, a.event);
  }

  lemma InterruptRuns(s: State, c: nat, t: Task)
    requires CanStep(s, Act(c, Interrupt)) && s.cores[c].irq == Some(t)
    ensures var s' := Next(s, Act(c, Interrupt));
      c < |s'.cores| && s'.cores[c].ring == [t, s.cores[c].idle] && s'.cores[c].masked
  {
    InvRunning(s, c);
  }

  /** A task that waits for an interrupt is what the next interrupt of its core runs, with interrupts masked when the idle
      task is come to, whatever all the cores do until then. */
  lemma WaitThenInterrupt(s: State, c: nat, masked: bool, acts: seq<Act>)
    requires CanStep(s, Act(c, WaitForInterrupt(masked))) && Ready(s, c)
    requires IsRun(Next(s, Act(c, WaitForInterrupt(masked))), acts) && NoInterrupt(acts, c)
    requires CanStep(End(Next(s, Act(c, WaitForInterrupt(masked))), acts), Act(c, Interrupt))
    ensures var v := Next(End(Next(s, Act(c, WaitForInterrupt(masked))), acts), Act(c, Interrupt));
      c < |v.cores| && v.cores[c].ring != [] && Running(v, c) == Running(s, c) && v.cores[c].masked
  {
    var s' := Next(s, Act(c, WaitForInterrupt(masked)));
    InvRunning(s, c);
    StepSlot(s, c, WaitForInterrupt(masked));
    StepKeepsInv(s, c, WaitForInterrupt(masked));
    SlotStays(s', acts, c, Running(s, c));
    InterruptRuns(End(s', acts), c, Running(s, c));
  }
}
