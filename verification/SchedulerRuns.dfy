/** What the scheduler's invariant means, over whole runs from boot. */
module SchedulerRuns {
  import opened Tasks
  import opened Queues
  import opened Scheduler
  import Locks
  import Pipes

  // ----- boot

  /** The handle of the k-th task of the pool: handles are even, and not nought. */
  function Handle(k: nat): (t: Task)
    ensures Locks.IsHandle(t)
  {
    4 * (k + 1)
  }

  /** t is the handle of one of the tasks i up to n. */
  predicate IsOneOf(i: nat, n: nat, t: Task) {
    Locks.IsHandle(t) && 4 * i < t <= 4 * n
  }

  /** Cores i up to n, each running its idle task */
  function BootCores(i: nat, n: nat): (ks: seq<Core>)
    requires i <= n
    ensures |ks| == n - i
    ensures forall j :: 0 <= j < n - i ==> ks[j] == Core([Handle(i + j)], Handle(i + j), false, [], None)
    decreases n - i
  {
    if i == n then [] else [Core([Handle(i)], Handle(i), false, [], None)] + BootCores(i + 1, n)
  }

  function Handles(i: nat, n: nat): (ts: seq<Task>)
    requires i <= n
    decreases n - i
  {
    if i == n then [] else [Handle(i)] + Handles(i + 1, n)
  }

  lemma {:induction false} HandlesCount(i: nat, n: nat, t: Task)
    requires i <= n
    ensures Count(Handles(i, n), t) == if IsOneOf(i, n, t) then 1 else 0
    decreases n - i
  {
    if i < n {
      CountCons(Handle(i), Handles(i + 1, n), t);
      HandlesCount(i + 1, n, t);
    }
  }

  lemma {:induction false} BootCoresCount(i: nat, n: nat, t: Task)
    requires i <= n
    ensures CoresCount(BootCores(i, n), t) == if IsOneOf(i, n, t) then 1 else 0
    decreases n - i
  {
    if i < n {
      BootCoresCount(i + 1, n, t);
      CountOne(Handle(i), t);
      assert BootCores(i, n)[1..] == BootCores(i + 1, n);
    }
  }

  /** n cores, each running its idle task; on the first also the task that starts the
      rest of the system; the other tasks, m in all, in the pool. */
  ghost function Boot(n: nat, m: nat): State
    requires 0 < n < m
  {
    var ks := BootCores(0, n);
    var ts := Handles(0, m);
    State(ks[0 := Core([Handle(n), Handle(0)], Handle(0), false, [], None)], [], [], [], Locks.LockState(map[], []), [], [],
          Handles(n + 1, m), [], map t | t in ts :: [], map t | t in ts :: 0, map t | t in ts :: Regs(0, 0, 0))
  }

  lemma BootPlaces(n: nat, m: nat, t: Task)
    requires 0 < n < m
    ensures Places(Boot(n, m), t) == if t in Handles(0, m) then 1 else 0
  {
    HandlesCount(n + 1, m, t);
    HandlesCount(0, m, t);
    CountIn(Handles(0, m), t);
    BootRingsCount(n, t);
  }

  lemma BootRingsCount(n: nat, t: Task)
    requires 0 < n
    ensures CoresCount(BootCores(0, n)[0 := Core([Handle(n), Handle(0)], Handle(0), false, [], None)], t)
         == if IsOneOf(0, n + 1, t) then 1 else 0
  {
    BootCoresCount(0, n, t);
    CoresChange(BootCores(0, n), 0, Core([Handle(n), Handle(0)], Handle(0), false, [], None), t);
    CountCons(Handle(n), [Handle(0)], t);
    CountOne(Handle(0), t);
    assert [Handle(n), Handle(0)] == [Handle(n)] + [Handle(0)];
  }

  lemma BootSound(n: nat, m: nat)
    requires 0 < n < m && n <= 64
    ensures Sound(Boot(n, m))
  {
    var s := Boot(n, m);
    forall c | 0 <= c < n ensures CoreOk(s.cores[c]) {
      assert s.cores[c].idle == s.cores[c].ring[|s.cores[c].ring| - 1];
    }
  }

  lemma BootInv(n: nat, m: nat)
    requires 0 < n < m && n <= 64
    ensures Inv(Boot(n, m))
  {
    BootSound(n, m);
    forall t ensures Places(Boot(n, m), t) == if t in Boot(n, m).controllers then 1 else 0 { BootPlaces(n, m, t); }
  }

  // ----- runs

  /** A step: which core, and what happens there. */
  datatype Act = Act(core: nat, event: Event)

  ghost predicate CanStep(s: State, a: Act) {
    Inv(s) && a.core < |s.cores| && Enabled(s, a.core, a.event) && Step(s, a.core, a.event).Some?
  }

  ghost function Next(s: State, a: Act): State
    requires CanStep(s, a)
  {
    Step(s, a.core, a.event).value
  }

  ghost predicate IsRun(s: State, acts: seq<Act>)
    decreases |acts|
  {
    acts == [] || (CanStep(s, acts[0]) && IsRun(Next(s, acts[0]), acts[1..]))
  }

  ghost function End(s: State, acts: seq<Act>): State
    requires IsRun(s, acts)
    decreases |acts|
  {
    if acts == [] then s else End(Next(s, acts[0]), acts[1..])
  }

  /** Over any run of any number of cores: every task is in exactly one place, and
      every core keeps its idle task. */
  lemma {:induction false} RunKeepsInv(s: State, acts: seq<Act>)
    requires Inv(s) && IsRun(s, acts)
    ensures Inv(End(s, acts))
    ensures End(s, acts).controllers.Keys == s.controllers.Keys
    ensures |End(s, acts).cores| == |s.cores|
    ensures forall t :: t in s.controllers ==> Places(End(s, acts), t) == 1
    ensures forall c :: 0 <= c < |s.cores| ==> End(s, acts).cores[c].idle in End(s, acts).cores[c].ring
    decreases |acts|
  {
    if acts == [] {
      assert forall c :: 0 <= c < |s.cores| ==> CoreOk(s.cores[c]);
    } else {
      StepKeepsInv(s, acts[0].core, acts[0].event);
      RunKeepsInv(Next(s, acts[0]), acts[1..]);
    }
  }

  // ----- which steps stop the system

  /** Of the PANICs and assertions that are outcomes of the steps only these can be met: none about the idle task
      being stopped or a ring being left empty, about the array of controllers, about a task being in the wrong
      state on a pipe or in a queue. RunningFlags adds those about the running flags of tasks. */
  ghost predicate Fatal(s: State, c: nat, e: Event)
    requires Ready(s, c)
  {
    var k := s.cores[c];
    var r := k.ring[0];
    match e
    case Create => s.pool == []
    case ReleaseTask(t, _) => !Controls(s, r, t)
    case ChangeController(t, _) => !Controls(s, r, t)
    case SwitchToCore(core, userMode) => core != c && (core > |s.cores| || !userMode)
    case WaitForInterrupt(masked) => !masked || k.irq.Some?
    case Interrupt => k.irq.None? || k.sidelined != []
    case LockRelease(a) => Locks.Owner(Locks.Word(s.locks, a)) != r
    case PipeCreate(size) => size == 0 || size % 0x1000 != 0
    case PipeCall(i, op) =>
      i < |s.pipes| &&
      ((op.NoMoreData? && s.pipes[i].receiverWants > 0) || (op.NotListening? && s.pipes[i].senderWants > 0))
    case _ => false
  }

  lemma StopsIff(s: State, c: nat, e: Event)
    requires Inv(s) && c < |s.cores| && Enabled(s, c, e) && Ready(s, c)
    ensures Step(s, c, e).None? <==> Fatal(s, c, e)
  {
    InvRunning(s, c);
    if e.QueueWait? || e.QueueCall? {
      QueueingGoesOn(s, c, e.queue, if e.QueueCall? then e.swi else 0);
      NeverFatal(s, c, e);
    } else if e.PipeCall? {
      PipeStopsIff(s, c, e.pipe, e.op);
    } else {
      StopSound(s, c);
      OtherStopsIff(s, c, e);
    }
  }

  lemma NeverFatal(s: State, c: nat, e: Event)
    requires Able(s, c) && (e.QueueWait? || e.QueueCall?)
    ensures !Fatal(s, c, e)
    ensures e.QueueWait? ==> StepOf(s, c, e) == DoQueueWait(s, c, e.queue)
    ensures e.QueueCall? ==> StepOf(s, c, e) == DoQueueCall(s, c, e.queue, e.swi)
  {
  }

  /** A task that can be stopped, or the idle task when it yields or is interrupted */
  lemma OtherStopsIff(s: State, c: nat, e: Event)
    requires Able(s, c) && (Stop(s, c).Some? || (Running(s, c) == s.cores[c].idle && (e.Yield? || e.Interrupt?)))
    requires !e.QueueWait? && !e.QueueCall? && !e.PipeCall?
    ensures StepOf(s, c, e).None? <==> Fatal(s, c, e)
  {
    match e
    case LockClaim(a, r1) => LockClaimGoesOn(s, c, a, r1);
    case LockRelease(a) => LockReleaseStopsIff(s, c, a);
    case Tick =>
    case _ =>
  }

  lemma LockClaimGoesOn(s: State, c: nat, a: nat, r1: nat)
    requires c < |s.cores| && s.cores[c].ring != [] && Stop(s, c).Some?
    ensures DoLockClaim(s, c, a, r1).Some?
  {
  }

  lemma LockReleaseStopsIff(s: State, c: nat, a: nat)
    requires c < |s.cores| && s.cores[c].ring != []
    ensures DoLockRelease(s, c, a).None? <==> Locks.Owner(Locks.Word(s.locks, a)) != Running(s, c)
  {
  }

  /** The assertions of stop_running_task that it is not the idle task that stops, and that another is there to go
      on with: in every reachable state they fail exactly for the idle task, which never makes a call that stops
      it. */
  lemma StopFailsIff(s: State, c: nat)
    requires Inv(s) && Ready(s, c)
    ensures Stop(s, c).None? <==> Running(s, c) == s.cores[c].idle
  {
    StopSound(s, c);
  }

  lemma QueueingGoesOn(s: State, c: nat, q: nat, op: nat)
    requires Inv(s) && Able(s, c) && Running(s, c) != s.cores[c].idle
    ensures DoQueueWait(s, c, q).Some? && DoQueueCall(s, c, q, op).Some?
  {
    QueueWaitKeeps(s, c, q);
    QueueCallKeeps(s, c, q, op);
  }

  lemma PipeStopsIff(s: State, c: nat, i: nat, op: Pipes.Op)
    requires Inv(s) && Ready(s, c) && (i < |s.pipes| ==> Pipes.EndIsIdle(s.pipes[i], op))
    requires Running(s, c) != s.cores[c].idle
    ensures DoPipeCall(s, c, i, op).None? <==> Fatal(s, c, PipeCall(i, op))
  {
    if i < |s.pipes| {
      RunningNotBlocked(s, c, i);
      assert Pipes.Ok(s.pipes[i]);
      Pipes.PanicsOnlyIf(s.pipes[i], Running(s, c), op);
      StopSound(s, c);
    }
  }

  /** Of the operations on pipes that do not stop the system, whoever calls: the state is in order afterwards
      exactly when none gives up an end at which a task is blocked. That task would be on no list any more. */
  lemma PipeCallKeepsIff(s: State, c: nat, i: nat, op: Pipes.Op)
    requires Inv(s) && Able(s, c) && i < |s.pipes| && DoPipeCall(s, c, i, op).Some?
    ensures Inv(DoPipeCall(s, c, i, op).value) <==> Pipes.EndIsIdle(s.pipes[i], op)
  {
    if Pipes.EndIsIdle(s.pipes[i], op) {
      IdleEndKeeps(s, c, i, op);
    } else {
      EndGivenUp(s, c, i, op);
      PipesOk(DoPipeCall(s, c, i, op).value, i);
    }
  }

  lemma IdleEndKeeps(s: State, c: nat, i: nat, op: Pipes.Op)
    requires Inv(s) && Able(s, c) && i < |s.pipes| && DoPipeCall(s, c, i, op).Some? && Pipes.EndIsIdle(s.pipes[i], op)
    ensures Inv(DoPipeCall(s, c, i, op).value)
  {
    PipeCallKeeps(s, c, i, op);
  }

  lemma PipesOk(s: State, i: nat)
    ensures Inv(s) && i < |s.pipes| ==> Pipes.Ok(s.pipes[i])
  {
  }

  lemma EndGivenUp(s: State, c: nat, i: nat, op: Pipes.Op)
    requires Ready(s, c) && i < |s.pipes| && DoPipeCall(s, c, i, op).Some? && !Pipes.EndIsIdle(s.pipes[i], op)
    ensures i < |DoPipeCall(s, c, i, op).value.pipes| && !Pipes.Ok(DoPipeCall(s, c, i, op).value.pipes[i])
  {
  }

  /** In every reachable state a task that a pipe has down as waiting lacks what it waits for, and is
      stopped: it is in no ring and not runnable. */
  lemma WaitingIsStopped(s: State, i: nat, t: Task, c: nat)
    requires Inv(s) && i < |s.pipes| && c < |s.cores| && Pipes.BlockedAt(s.pipes[i], t)
    ensures Pipes.Ok(s.pipes[i])
    ensures t !in s.cores[c].ring && t !in s.cores[c].sidelined && t !in s.runnable
  {
    PipesAt(s.pipes, i, t);
    CoresAt(s.cores, c, t);
    CountIn(s.cores[c].ring, t);
    CountIn(s.cores[c].sidelined, t);
    CountIn(s.runnable, t);
    assert Places(s, t) >= PipesCount(s.pipes, t) + CoresCount(s.cores, t) + Count(s.runnable, t);
  }

  /** An interrupt of the idle task finds no ring sidelined already. */
  lemma IdleInterruptIsClean(s: State, c: nat)
    requires Inv(s) && Ready(s, c) && Running(s, c) == s.cores[c].idle && Enabled(s, c, Interrupt)
    ensures s.cores[c].sidelined == []
  {
    assert CoreOk(s.cores[c]);
  }

  // ----- controllers

  /** A task has a controller exactly when it is in no list and waits for nothing
      else; and then it has only the one. */
  lemma ControlledIff(s: State, t: Task)
    requires Inv(s) && t in s.controllers
    ensures s.controllers[t] != [] <==> Places(s, t) - ControlledCount(s.controllers, t) == 0
    ensures |s.controllers[t]| <= 1
  {
  }

  /** A controller is given, if at all, to a task that has none at the time. */
  ghost predicate Pushes(s: State, o: Option<State>) {
    o.Some? && o.value.controllers != s.controllers ==>
      exists u, v :: u in s.controllers && s.controllers[u] == [] && o.value.controllers == s.controllers[u := [v]]
  }

  lemma CreatePushes(s: State, c: nat)
    requires Inv(s) && Ready(s, c)
    ensures Pushes(s, DoCreate(s, c))
  {
    if s.pool != [] {
      PoolUncontrolled(s);
      assert DoCreate(s, c).value.controllers == s.controllers[s.pool[0] := [Running(s, c)]];
    }
  }

  lemma QueueWaitPushes(s: State, c: nat, q: nat)
    requires Inv(s) && Ready(s, c)
    ensures Pushes(s, DoQueueWait(s, c, q))
  {
    if q < |s.queues| && s.queues[q].callers != [] {
      CallerUncontrolled(s, q);
      assert DoQueueWait(s, c, q).Some? ==>
        DoQueueWait(s, c, q).value.controllers == s.controllers[s.queues[q].callers[0] := [Running(s, c)]];
    }
  }

  lemma QueueCallPushes(s: State, c: nat, q: nat, op: nat)
    requires Inv(s) && Ready(s, c)
    ensures Pushes(s, DoQueueCall(s, c, q, op))
  {
    RunningUncontrolled(s, c);
    if q < |s.queues| {
      var k := FirstTaker(s.queues[q].handlers, s.words, op, c);
      if k < |s.queues[q].handlers| {
        var r := Running(s, c);
        assert DoQueueCall(s, c, q, op).Some? ==>
          DoQueueCall(s, c, q, op).value.controllers == s.controllers[r := [s.queues[q].handlers[k]]];
      }
    }
  }

  /** Every task that is given a controller has none at the time. */
  lemma PushedOnEmpty(s: State, c: nat, e: Event)
    requires Inv(s) && c < |s.cores| && (e.Create? || e.QueueWait? || e.QueueCall?)
    ensures Pushes(s, Step(s, c, e))
  {
    InvRunning(s, c);
    match e
    case Create => CreatePushes(s, c);
    case QueueWait(q) => QueueWaitPushes(s, c, q);
    case QueueCall(q, op) => QueueCallPushes(s, c, q, op);
  }
}
