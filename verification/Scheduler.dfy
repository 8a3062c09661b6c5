/** The scheduler as a machine (OSTask/ostask.c, with the parts of queues.c, locks.c,
    pipes.c and sleep.c that move tasks about).  Each SVC, and each interrupt, is one
    step; a PANIC, a failed assertion or a fault ends the run. */
module Scheduler {
  import opened Tasks
  import opened SleepQueue
  import opened Queues
  import Locks
  import Pipes

  /** What belongs to one core: `ring` are the tasks it runs in turn, the head running
      now, its idle task always among them; `sidelined` is the ring it had when it was
      interrupted, without the idle task; `irq` is the task waiting for an interrupt.
      `masked` tells that interrupts are disabled in the idle task. */
  datatype Core = Core(ring: seq<Task>, idle: Task, masked: bool, sidelined: seq<Task>, irq: Option<Task>)

  /** A task on its way to another core, the number of which is in its r[0]. */
  datatype Mover = Mover(task: Task, core: nat)

  datatype Regs = Regs(r0: nat, r1: nat, r2: nat)

  datatype State = State(
    cores: seq<Core>,
    runnable: seq<Task>,
    sleeping: seq<Sleeper<Task>>,
    moving: seq<Mover>,
    locks: Locks.LockState,
    queues: seq<Queue>,
    pipes: seq<Pipes.Pipe>,
    pool: seq<Task>,
    ended: seq<Task>,
    controllers: map<Task, seq<Task>>,
    words: map<Task, nat>,
    regs: map<Task, Regs>)

  datatype Event =
    | Yield
    | Sleep(ticks: nat)
    | Create
    | EndTask
    | ReleaseTask(task: Task, lockToCore: bool)
    | ChangeController(task: Task, controller: Task)
    | SwitchToCore(core: nat, userMode: bool)
    | WaitForInterrupt(masked: bool)
    | Tick
    | Interrupt
    | QueueCreate
    | QueueWait(queue: nat)
    | QueueCall(queue: nat, swi: nat)
    | LockClaim(lock: nat, r1: nat)
    | LockRelease(lock: nat)
    | PipeCreate(size: nat)
    | PipeCall(pipe: nat, op: Pipes.Op)

  function MoverTasks(ms: seq<Mover>): (ts: seq<Task>)
    ensures |ts| == |ms| && forall k :: 0 <= k < |ms| ==> ts[k] == ms[k].task
  {
    seq(|ms|, k requires 0 <= k < |ms| => ms[k].task)
  }

  // ----- primitive moves

  function Running(s: State, c: nat): Task
    requires c < |s.cores| && s.cores[c].ring != []
  {
    s.cores[c].ring[0]
  }

  function WithRing(s: State, c: nat, ring: seq<Task>): State
    requires c < |s.cores|
  {
    s.(cores := s.cores[c := s.cores[c].(ring := ring)])
  }

  /** The running task leaves the ring of its core. */
  function Leave(s: State, c: nat): State
    requires c < |s.cores| && s.cores[c].ring != []
  {
    WithRing(s, c, s.cores[c].ring[1..])
  }

  /** stop_running_task: the next task in the ring takes over. Its assertions are that the running task is
      not the idle task, and that there is another to go on with. */
  function Stop(s: State, c: nat): Option<State>
    requires c < |s.cores| && s.cores[c].ring != []
  {
    if Running(s, c) == s.cores[c].idle || |s.cores[c].ring| == 1 then None else Some(Leave(s, c))
  }

  /** push_controller, on the entries in use of the array of controllers: it works on
      an empty array, overwrites a lone entry, and runs away with more. */
  function PushController(cs: seq<Task>, t: Task): Option<seq<Task>> {
    if |cs| <= 1 then Some([t]) else None
  }

  function PopController(cs: seq<Task>): seq<Task> {
    if cs == [] then cs else cs[1..]
  }

  /** What a step on core c relies on: some task runs there, and the tasks queued are
      tasks. */
  ghost predicate Ready(s: State, c: nat) {
    && c < |s.cores| && s.cores[c].ring != [] && s.cores[c].ring[0] in s.controllers
    && (forall i, t :: 0 <= i < |s.queues| && t in s.queues[i].callers ==> t in s.controllers && t in s.words)
    && (forall i, t :: 0 <= i < |s.queues| && t in s.queues[i].handlers ==> t in s.words)
    && (forall i :: 0 <= i < |s.pipes| ==> s.pipes[i].size > 0)
  }

  // ----- the steps, for the task running on core c

  /** for_core: the first task moving to this core */
  function ForCore(ms: seq<Mover>, c: nat): (k: nat)
    ensures k <= |ms|
    ensures k < |ms| ==> ms[k].core == c
    ensures forall j :: 0 <= j < k ==> ms[j].core != c
  {
    if ms == [] || ms[0].core == c then 0 else 1 + ForCore(ms[1..], c)
  }

  /** The ring the idle task finds when the interrupt has been dealt with. */
  function Restored(k: Core): seq<Task>
    requires k.ring != []
  {
    if k.sidelined == [] then k.ring else [k.idle] + k.sidelined[1..] + [k.sidelined[0]]
  }

  function IdleYield(s: State, c: nat): State
    requires c < |s.cores| && s.cores[c].ring != []
  {
    var k := s.cores[c];
    if |k.ring| > 1 then
      WithRing(s, c, k.ring[1..] + [k.ring[0]])
    else if k.masked then
      s.(cores := s.cores[c := k.(ring := Restored(k), masked := false, sidelined := [])])
    else
      var m := ForCore(s.moving, c);
      if m < |s.moving| then
        WithRing(s, c, [s.moving[m].task] + k.ring).(moving := Without(s.moving, m))
      else if s.runnable != [] then
        WithRing(s, c, [s.runnable[0]] + k.ring).(runnable := s.runnable[1..])
      else s
  }

  function DoYield(s: State, c: nat): Option<State>
    requires c < |s.cores| && s.cores[c].ring != []
  {
    if Running(s, c) == s.cores[c].idle then Some(IdleYield(s, c))
    else
      match Stop(s, c)
      case None => None
      case Some(s1) => Some(s1.(runnable := s.runnable + [Running(s, c)]))
  }

  function DoSleep(s: State, c: nat, n: nat): Option<State>
    requires c < |s.cores| && s.cores[c].ring != []
  {
    if n == 0 then DoYield(s, c)
    else
      match Stop(s, c)
      case None => None
      case Some(s1) => Some(s1.(sleeping := PutToSleep(s.sleeping, Running(s, c), n)))
  }

  function DoEnd(s: State, c: nat): Option<State>
    requires c < |s.cores| && s.cores[c].ring != []
  {
    match Stop(s, c)
    case None => None
    case Some(s1) => Some(s1.(ended := s.ended + [Running(s, c)]))
  }

  function DoCreate(s: State, c: nat): Option<State>
    requires c < |s.cores| && s.cores[c].ring != []
  {
    if s.pool == [] then None
    else
      var t := s.pool[0];
      match PushController([], Running(s, c))
      case None => None
      case Some(cs) =>
        Some(s.(pool := s.pool[1..], controllers := s.controllers[t := cs],
                words := s.words[t := 0], regs := s.regs[t := Regs(t, 0, 0)]))
  }

  predicate Controls(s: State, r: Task, t: Task) {
    t in s.controllers && s.controllers[t] != [] && s.controllers[t][0] == r
  }

  function DoRelease(s: State, c: nat, t: Task, lockToCore: bool): Option<State>
    requires c < |s.cores| && s.cores[c].ring != []
  {
    var ring := s.cores[c].ring;
    if !Controls(s, ring[0], t) then None
    else
      var s1 := s.(controllers := s.controllers[t := PopController(s.controllers[t])]);
      if lockToCore then Some(WithRing(s1, c, [ring[0], t] + ring[1..]))
      else Some(s1.(runnable := s.runnable + [t]))
  }

  function DoChangeController(s: State, c: nat, t: Task, controller: Task): Option<State>
    requires c < |s.cores| && s.cores[c].ring != []
  {
    if !Controls(s, Running(s, c), t) then None
    else Some(s.(controllers := s.controllers[t := [controller] + s.controllers[t][1..]]))
  }

  function DoSwitchToCore(s: State, c: nat, core: nat, userMode: bool): Option<State>
    requires c < |s.cores| && s.cores[c].ring != []
  {
    if core == c then Some(s)
    else if core > |s.cores| then None
    else if !userMode then None
    else
      match Stop(s, c)
      case None => None
      case Some(s1) => Some(s1.(moving := s.moving + [Mover(Running(s, c), core)]))
  }

  function DoWaitForInterrupt(s: State, c: nat, masked: bool): Option<State>
    requires c < |s.cores| && s.cores[c].ring != []
  {
    if !masked || s.cores[c].irq.Some? then None
    else
      match Stop(s, c)
      case None => None
      case Some(s1) => Some(s1.(cores := s1.cores[c := s1.cores[c].(irq := Some(Running(s, c)))]))
  }

  function DoTick(s: State): State
    requires HeadWaits(s.sleeping)
  {
    var (rest, woken) := WakeyWakey(s.sleeping);
    s.(sleeping := rest, runnable := s.runnable + SleepQueue.Tasks(woken))
  }

  function IndexOf(s: seq<Task>, t: Task): (k: nat)
    requires t in s
    ensures k < |s| && s[k] == t && forall j :: 0 <= j < k ==> s[j] != t
  {
    if s[0] == t then 0 else 1 + IndexOf(s[1..], t)
  }

  /** irq_handler: the ring, as seen from the interrupted task, without the idle task;
      or, when that was interrupted, the tasks after it. */
  function Sidelined(ring: seq<Task>, idle: Task): seq<Task>
    requires idle in ring
  {
    if ring[0] == idle then ring[1..] else Without(ring, IndexOf(ring, idle))
  }

  function DoInterrupt(s: State, c: nat): Option<State>
    requires c < |s.cores| && s.cores[c].idle in s.cores[c].ring
  {
    var k := s.cores[c];
    if k.sidelined != [] || k.irq.None? then None
    else
      Some(s.(cores := s.cores[c :=
        Core([k.irq.value, k.idle], k.idle, true, if |k.ring| > 1 then Sidelined(k.ring, k.idle) else [], None)]))
  }

  /** QueueWait: it panics when there is no other task in the ring. */
  function DoQueueWait(s: State, c: nat, q: nat): Option<State>
    requires Ready(s, c)
  {
    var r := Running(s, c);
    if q >= |s.queues| then Some(s)  // "Invalid OSTask Queue handle"
    else if |s.cores[c].ring| == 1 then None
    else
      var Queue(callers, handlers) := s.queues[q];
      if callers == [] then
        match Stop(s, c)
        case None => None
        case Some(s1) => Some(s1.(queues := s.queues[q := Queue([], [r] + handlers)]))
      else
        var head := callers[0];
        match PushController(s.controllers[head], r)
        case None => None
        case Some(cs) =>
          Some(s.(queues := s.queues[q := Queue(callers[1..], handlers)],
                  regs := s.regs[r := Regs(head, SwiOffset(s.words[head]), SwiCore(s.words[head]))],
                  controllers := s.controllers[head := cs]))
  }

  /** queue_running_OSTask: whatever happens, the caller stops running. */
  function DoQueueCall(s: State, c: nat, q: nat, op: nat): Option<State>
    requires Ready(s, c)
  {
    var r := Running(s, c);
    if q >= |s.queues| then Some(s)
    else
      match Stop(s, c)
      case None => None
      case Some(s1) =>
        var Queue(callers, handlers) := s.queues[q];
        var k := FirstTaker(handlers, s.words, op, c);
        if k < |handlers| then
          match PushController(s.controllers[r], handlers[k])
          case None => None
          case Some(cs) =>
            Some(WithRing(s1, c, [handlers[k]] + s1.cores[c].ring).(
                    queues := s.queues[q := Queue(callers, Without(handlers, k))],
                    regs := s.regs[handlers[k] := Regs(r, op, c)],
                    controllers := s.controllers[r := cs]))
        else
          Some(s1.(queues := s.queues[q := Queue([r] + callers, handlers)],
                   words := s.words[r := SwiWord(op, c)]))
  }

  function DoLockClaim(s: State, c: nat, a: nat, r1: nat): Option<State>
    requires c < |s.cores| && s.cores[c].ring != []
  {
    var (l, r) := Locks.Claim(s.locks, Running(s, c), a, r1);
    if !r.Blocked? then Some(s.(locks := l))
    else
      match Stop(s, c)
      case None => None
      case Some(s1) => Some(s1.(locks := l))
  }

  function DoLockRelease(s: State, c: nat, a: nat): Option<State>
    requires c < |s.cores| && s.cores[c].ring != []
  {
    var (l, r) := Locks.Release(s.locks, Running(s, c), a);
    match r
    case NotOwner => None
    case HandedTo(t) => Some(s.(locks := l, runnable := s.runnable + [t]))
    case _ => Some(s.(locks := l))
  }

  function DoPipeCreate(s: State, c: nat, size: nat): Option<State>
    requires c < |s.cores| && s.cores[c].ring != []
  {
    if size == 0 || size % 0x1000 != 0 then None
    else Some(s.(pipes := s.pipes + [Pipes.Create(size, Running(s, c))]))
  }

  /** What an operation on pipe i comes to, for the task running on core c */
  function PipeOutcome(s: State, c: nat, i: nat, o: Pipes.Outcome): Option<State>
    requires c < |s.cores| && s.cores[c].ring != [] && i < |s.pipes|
  {
    match o
    case Done(p, _) => Some(s.(pipes := s.pipes[i := p]))
    case Wakes(p, _, t, _) => Some(s.(pipes := s.pipes[i := p], runnable := s.runnable + [t]))
    case Refused => Some(s)
    case Blocks(p) =>
      (match Stop(s, c)
       case None => None
       case Some(s1) => Some(s1.(pipes := s.pipes[i := p])))
    case Panics => None
  }

  function DoPipeCall(s: State, c: nat, i: nat, op: Pipes.Op): Option<State>
    requires Ready(s, c)
  {
    if i >= |s.pipes| then Some(s)  // "Invalid Pipe handle"
    else PipeOutcome(s, c, i, Pipes.Step(s.pipes[i], Running(s, c), op))
  }

  /** Ready, with the idle task in the ring and the sleep queue in order */
  ghost predicate Able(s: State, c: nat) {
    Ready(s, c) && s.cores[c].idle in s.cores[c].ring && HeadWaits(s.sleeping)
  }

  ghost function StepOf(s: State, c: nat, e: Event): Option<State>
    requires Able(s, c)
  {
    match e
    case Yield => DoYield(s, c)
    case Sleep(n) => DoSleep(s, c, n)
    case Create => DoCreate(s, c)
    case EndTask => DoEnd(s, c)
    case ReleaseTask(t, lock) => DoRelease(s, c, t, lock)
    case ChangeController(t, u) => DoChangeController(s, c, t, u)
    case SwitchToCore(core, userMode) => DoSwitchToCore(s, c, core, userMode)
    case WaitForInterrupt(masked) => DoWaitForInterrupt(s, c, masked)
    case Tick => Some(DoTick(s))
    case Interrupt => DoInterrupt(s, c)
    case QueueCreate => Some(s.(queues := s.queues + [Queue([], [])]))
    case QueueWait(q) => DoQueueWait(s, c, q)
    case QueueCall(q, op) => DoQueueCall(s, c, q, op)
    case LockClaim(a, r1) => DoLockClaim(s, c, a, r1)
    case LockRelease(a) => DoLockRelease(s, c, a)
    case PipeCreate(size) => DoPipeCreate(s, c, size)
    case PipeCall(i, op) => DoPipeCall(s, c, i, op)
  }

  /** One step on core c; None when the system stops. */
  ghost function Step(s: State, c: nat, e: Event): Option<State>
    requires Inv(s) && c < |s.cores|
  {
    InvRunning(s, c);
    StepOf(s, c, e)
  }

  /** The idle task does nothing but yield, and is not interrupted while that is
      disabled; a pipe end is not given up while a task is blocked there. */
  ghost predicate Enabled(s: State, c: nat, e: Event)
    requires Inv(s) && c < |s.cores|
  {
    InvRunning(s, c);
    && (Running(s, c) == s.cores[c].idle ==> e.Yield? || (e.Interrupt? && !s.cores[c].masked))
    && Considerate(s, e)
  }

  // ----- where a task is

  function CoreCount(k: Core, t: Task): nat {
    Count(k.ring, t) + Count(k.sidelined, t) + (if k.irq == Some(t) then 1 else 0)
  }

  function CoresCount(ks: seq<Core>, t: Task): nat {
    if ks == [] then 0 else CoreCount(ks[0], t) + CoresCount(ks[1..], t)
  }

  function QueuesCount(qs: seq<Queue>, t: Task): nat {
    if qs == [] then 0
    else Count(qs[0].callers, t) + Count(qs[0].handlers, t) + QueuesCount(qs[1..], t)
  }

  function PipesCount(ps: seq<Pipes.Pipe>, t: Task): nat {
    if ps == [] then 0 else Pipes.BlockedCount(ps[0], t) + PipesCount(ps[1..], t)
  }

  function ControlledCount(controllers: map<Task, seq<Task>>, t: Task): nat {
    if t in controllers && controllers[t] != [] then 1 else 0
  }

  /** The number of places a task is in: the ring, the sidelined ring or the interrupt
      slot of a core; runnable, sleeping, moving or blocked on a lock; the callers or
      the handlers of a queue; blocked at an end of a pipe; held by a controller;
      ended; or in the pool. */
  function Places(s: State, t: Task): nat {
    CoresCount(s.cores, t)
    + Count(s.runnable, t)
    + Count(SleepQueue.Tasks(s.sleeping), t)
    + Count(MoverTasks(s.moving), t)
    + Count(Locks.Names(s.locks.blocked), t)
    + QueuesCount(s.queues, t)
    + PipesCount(s.pipes, t)
    + Count(s.pool, t)
    + Count(s.ended, t)
    + ControlledCount(s.controllers, t)
  }

  ghost predicate CoreOk(k: Core) {
    && k.idle in k.ring
    && (k.sidelined != [] ==> k.masked)
  }

  /** Each core has its idle task; the words tasks keep come from the cores there are;
      no task has two controllers; no queue has both callers and handlers; sleep queue
      and pipes are in order. */
  ghost predicate Sound(s: State) {
    && 0 < |s.cores| <= 64
    && (forall c :: 0 <= c < |s.cores| ==> CoreOk(s.cores[c]))
    && s.words.Keys == s.controllers.Keys
    && (forall t :: t in s.words ==> s.words[t] < 0x40 * 0x100_0000)
    && (forall t :: t in s.controllers ==> |s.controllers[t]| <= 1)
    && HeadWaits(s.sleeping)
    && (forall q :: 0 <= q < |s.queues| ==> s.queues[q].callers == [] || s.queues[q].handlers == [])
    && (forall i :: 0 <= i < |s.pipes| ==> Pipes.Ok(s.pipes[i]))
  }

  /** ... and every task is in exactly one place. */
  ghost predicate Inv(s: State) {
    Sound(s) && forall t {:trigger Places(s, t)} :: Places(s, t) == if t in s.controllers then 1 else 0
  }

  lemma InvRunning(s: State, c: nat)
    requires Inv(s) && c < |s.cores|
    ensures Ready(s, c) && s.cores[c].idle in s.cores[c].ring
  {
    assert CoreOk(s.cores[c]);
    CoresAt(s.cores, c, s.cores[c].ring[0]);
    assert Places(s, s.cores[c].ring[0]) > 0;
    forall i, t | 0 <= i < |s.queues| && (t in s.queues[i].callers || t in s.queues[i].handlers)
      ensures t in s.controllers && t in s.words
    {
      QueuesAt(s.queues, i, t);
      CountIn(s.queues[i].callers, t);
      CountIn(s.queues[i].handlers, t);
      assert Places(s, t) > 0;
    }
    forall i | 0 <= i < |s.pipes| ensures s.pipes[i].size > 0 {
      assert Pipes.Ok(s.pipes[i]);
    }
  }

  // ----- counting when one core, queue or pipe changes

  lemma {:induction false} CoresAt(ks: seq<Core>, c: nat, t: Task)
    requires c < |ks|
    ensures CoresCount(ks, t) >= CoreCount(ks[c], t)
  {
    if c > 0 { CoresAt(ks[1..], c - 1, t); }
  }

  lemma {:induction false} CoresChange(ks: seq<Core>, c: nat, k: Core, t: Task)
    requires c < |ks|
    ensures CoresCount(ks[c := k], t) + CoreCount(ks[c], t) == CoresCount(ks, t) + CoreCount(k, t)
  {
    if c == 0 {
      assert ks[0 := k][1..] == ks[1..];
    } else {
      assert ks[c := k][1..] == ks[1..][c - 1 := k];
      CoresChange(ks[1..], c - 1, k, t);
    }
  }

  lemma {:induction false} QueuesAt(qs: seq<Queue>, q: nat, t: Task)
    requires q < |qs|
    ensures QueuesCount(qs, t) >= Count(qs[q].callers, t) + Count(qs[q].handlers, t)
  {
    if q > 0 { QueuesAt(qs[1..], q - 1, t); }
  }

  lemma {:induction false} QueuesChange(qs: seq<Queue>, q: nat, x: Queue, t: Task)
    requires q < |qs|
    ensures QueuesCount(qs[q := x], t) + Count(qs[q].callers, t) + Count(qs[q].handlers, t)
         == QueuesCount(qs, t) + Count(x.callers, t) + Count(x.handlers, t)
  {
    if q == 0 {
      assert qs[0 := x][1..] == qs[1..];
    } else {
      assert qs[q := x][1..] == qs[1..][q - 1 := x];
      QueuesChange(qs[1..], q - 1, x, t);
    }
  }

  lemma {:induction false} QueuesGrow(qs: seq<Queue>, t: Task)
    ensures QueuesCount(qs + [Queue([], [])], t) == QueuesCount(qs, t)
  {
    if qs != [] {
      assert (qs + [Queue([], [])])[1..] == qs[1..] + [Queue([], [])];
      QueuesGrow(qs[1..], t);
    } else {
      assert (qs + [Queue([], [])])[1..] == [];
    }
  }

  lemma {:induction false} PipesAt(ps: seq<Pipes.Pipe>, i: nat, t: Task)
    requires i < |ps|
    ensures PipesCount(ps, t) >= Pipes.BlockedCount(ps[i], t)
  {
    if i > 0 { PipesAt(ps[1..], i - 1, t); }
  }

  lemma {:induction false} PipesChange(ps: seq<Pipes.Pipe>, i: nat, p: Pipes.Pipe, t: Task)
    requires i < |ps|
    ensures PipesCount(ps[i := p], t) + Pipes.BlockedCount(ps[i], t) == PipesCount(ps, t) + Pipes.BlockedCount(p, t)
  {
    if i == 0 {
      assert ps[0 := p][1..] == ps[1..];
    } else {
      assert ps[i := p][1..] == ps[1..][i - 1 := p];
      PipesChange(ps[1..], i - 1, p, t);
    }
  }

  lemma {:induction false} PipesGrow(ps: seq<Pipes.Pipe>, p: Pipes.Pipe, t: Task)
    requires Pipes.BlockedCount(p, t) == 0
    ensures PipesCount(ps + [p], t) == PipesCount(ps, t)
  {
    if ps != [] {
      assert (ps + [p])[1..] == ps[1..] + [p];
      PipesGrow(ps[1..], p, t);
    } else {
      assert (ps + [p])[1..] == [];
    }
  }

  // ----- primitive moves and the places of a task

  function One(b: bool): nat { if b then 1 else 0 }

  lemma CorePlaces(s: State, c: nat, k: Core, t: Task)
    requires c < |s.cores|
    ensures Places(s.(cores := s.cores[c := k]), t) + CoreCount(s.cores[c], t) == Places(s, t) + CoreCount(k, t)
  {
    CoresChange(s.cores, c, k, t);
  }

  lemma RingPlaces(s: State, c: nat, ring: seq<Task>, t: Task)
    requires c < |s.cores|
    ensures Places(WithRing(s, c, ring), t) + Count(s.cores[c].ring, t) == Places(s, t) + Count(ring, t)
  {
    CorePlaces(s, c, s.cores[c].(ring := ring), t);
  }

  lemma StopPlaces(s: State, c: nat, t: Task)
    requires c < |s.cores| && s.cores[c].ring != []
    ensures Places(Leave(s, c), t) + One(Running(s, c) == t) == Places(s, t)
  {
    RingPlaces(s, c, s.cores[c].ring[1..], t);
  }

  lemma RunnablePlaces(s: State, more: seq<Task>, t: Task)
    ensures Places(s.(runnable := s.runnable + more), t) == Places(s, t) + Count(more, t)
  {
    CountAppend(s.runnable, more, t);
  }

  lemma QueuePlaces(s: State, q: nat, x: Queue, t: Task)
    requires q < |s.queues|
    ensures Places(s.(queues := s.queues[q := x]), t) + Count(s.queues[q].callers, t) + Count(s.queues[q].handlers, t)
         == Places(s, t) + Count(x.callers, t) + Count(x.handlers, t)
  {
    QueuesChange(s.queues, q, x, t);
  }

  lemma ControllerPlaces(s: State, u: Task, cs: seq<Task>, t: Task)
    requires u in s.controllers
    ensures Places(s.(controllers := s.controllers[u := cs]), t) + One(t == u && s.controllers[u] != [])
         == Places(s, t) + One(t == u && cs != [])
  {
  }

  // ----- every step leaves every task in as many places as before

  lemma IdleYieldPlaces(s: State, c: nat, t: Task)
    requires c < |s.cores| && s.cores[c].ring != [] && Running(s, c) == s.cores[c].idle
    ensures Places(IdleYield(s, c), t) == Places(s, t)
  {
    var k := s.cores[c];
    var m := ForCore(s.moving, c);
    if |k.ring| > 1 {
      CountSnoc(k.ring[1..], k.ring[0], t);
      RingPlaces(s, c, k.ring[1..] + [k.ring[0]], t);
    } else if k.masked {
      RestoredCount(k, t);
      CorePlaces(s, c, k.(ring := Restored(k), masked := false, sidelined := []), t);
    } else if m < |s.moving| {
      TakeMoverPlaces(s, c, m, t);
    } else if s.runnable != [] {
      TakeRunnablePlaces(s, c, t);
    }
  }

  lemma TakeMoverPlaces(s: State, c: nat, m: nat, t: Task)
    requires c < |s.cores| && m < |s.moving|
    ensures Places(WithRing(s, c, [s.moving[m].task] + s.cores[c].ring).(moving := Without(s.moving, m)), t) == Places(s, t)
  {
    var x := s.moving[m].task;
    CountCons(x, s.cores[c].ring, t);
    RingPlaces(s, c, [x] + s.cores[c].ring, t);
    assert MoverTasks(Without(s.moving, m)) == Without(MoverTasks(s.moving), m);
    CountWithout(MoverTasks(s.moving), m, t);
    MovingPlaces(WithRing(s, c, [x] + s.cores[c].ring), Without(s.moving, m), t);
  }

  lemma MovingPlaces(s: State, ms: seq<Mover>, t: Task)
    ensures Places(s.(moving := ms), t) + Count(MoverTasks(s.moving), t) == Places(s, t) + Count(MoverTasks(ms), t)
  {
  }

  lemma TakeRunnablePlaces(s: State, c: nat, t: Task)
    requires c < |s.cores| && s.runnable != []
    ensures Places(WithRing(s, c, [s.runnable[0]] + s.cores[c].ring).(runnable := s.runnable[1..]), t) == Places(s, t)
  {
    CountCons(s.runnable[0], s.cores[c].ring, t);
    RingPlaces(s, c, [s.runnable[0]] + s.cores[c].ring, t);
  }

  lemma RestoredCount(k: Core, t: Task)
    requires k.ring == [k.idle]
    ensures Count(Restored(k), t) == Count(k.ring, t) + Count(k.sidelined, t)
  {
    if k.sidelined != [] {
      CountCons(k.idle, k.sidelined[1..], t);
      CountSnoc([k.idle] + k.sidelined[1..], k.sidelined[0], t);
      CountOne(k.idle, t);
    }
  }

  lemma YieldPlaces(s: State, c: nat, t: Task)
    requires c < |s.cores| && s.cores[c].ring != []
    ensures DoYield(s, c).Some? ==> Places(DoYield(s, c).value, t) == Places(s, t)
  {
    if Running(s, c) == s.cores[c].idle {
      IdleYieldPlaces(s, c, t);
    } else {
      StopPlaces(s, c, t);
      CountOne(Running(s, c), t);
      RunnablePlaces(Leave(s, c), [Running(s, c)], t);
    }
  }

  lemma SleepPlaces(s: State, c: nat, n: nat, t: Task)
    requires HeadWaits(s.sleeping) && c < |s.cores| && s.cores[c].ring != [] && n > 0
    ensures DoSleep(s, c, n).Some? ==> Places(DoSleep(s, c, n).value, t) == Places(s, t)
  {
    StopPlaces(s, c, t);
    AddedCount(s.sleeping, Running(s, c), n, t);
  }

  lemma AddedCount(q: seq<Sleeper<Task>>, r: Task, n: nat, t: Task)
    requires HeadWaits(q) && n > 0
    ensures Count(SleepQueue.Tasks(PutToSleep(q, r, n)), t) == Count(SleepQueue.Tasks(q), t) + One(r == t)
  {
    var p := AddTasks(q, r, n);
    var ts := SleepQueue.Tasks(q);
    assert ts == ts[..p] + ts[p..];
    CountAppend(ts[..p], ts[p..], t);
    CountSnoc(ts[..p], r, t);
    CountAppend(ts[..p] + [r], ts[p..], t);
  }

  lemma CreatePlaces(s: State, c: nat, t: Task)
    requires Inv(s) && c < |s.cores| && s.cores[c].ring != [] && s.pool != []
    ensures Places(DoCreate(s, c).value, t) == Places(s, t)
  {
    var u := s.pool[0];
    PoolUncontrolled(s);
    ControllerPlaces(s, u, [Running(s, c)], t);
  }

  /** A task in the pool, in a ring or in a queue has no controller: whoever is given
      one has none yet. */
  lemma PoolUncontrolled(s: State)
    requires Inv(s) && s.pool != []
    ensures s.pool[0] in s.controllers && s.controllers[s.pool[0]] == []
  {
    assert Places(s, s.pool[0]) >= Count(s.pool, s.pool[0]) + ControlledCount(s.controllers, s.pool[0]);
  }

  lemma RunningUncontrolled(s: State, c: nat)
    requires Inv(s) && c < |s.cores| && s.cores[c].ring != []
    ensures Running(s, c) in s.controllers && s.controllers[Running(s, c)] == []
  {
    var r := Running(s, c);
    CoresAt(s.cores, c, r);
    assert Places(s, r) >= CoresCount(s.cores, r) + ControlledCount(s.controllers, r);
  }

  lemma CallerUncontrolled(s: State, q: nat)
    requires Inv(s) && q < |s.queues| && s.queues[q].callers != []
    ensures var u := s.queues[q].callers[0]; u in s.controllers && s.controllers[u] == []
  {
    var u := s.queues[q].callers[0];
    QueuesAt(s.queues, q, u);
    assert Places(s, u) >= QueuesCount(s.queues, u) + ControlledCount(s.controllers, u);
  }

  lemma ReleasePlaces(s: State, c: nat, u: Task, lock: bool, t: Task)
    requires Inv(s) && c < |s.cores| && s.cores[c].ring != [] && Controls(s, Running(s, c), u)
    ensures Places(DoRelease(s, c, u, lock).value, t) == Places(s, t)
  {
    var ring := s.cores[c].ring;
    var s1 := s.(controllers := s.controllers[u := PopController(s.controllers[u])]);
    assert PopController(s.controllers[u]) == [];
    ControllerPlaces(s, u, [], t);
    if lock {
      CountCons(u, ring[1..], t);
      CountCons(ring[0], [u] + ring[1..], t);
      assert [ring[0], u] + ring[1..] == [ring[0]] + ([u] + ring[1..]);
      RingPlaces(s1, c, [ring[0], u] + ring[1..], t);
    } else {
      CountOne(u, t);
      RunnablePlaces(s1, [u], t);
    }
  }

  lemma SwitchPlaces(s: State, c: nat, core: nat, t: Task)
    requires c < |s.cores| && s.cores[c].ring != [] && core != c && DoSwitchToCore(s, c, core, true).Some?
    ensures Places(DoSwitchToCore(s, c, core, true).value, t) == Places(s, t)
  {
    var m := Mover(Running(s, c), core);
    StopPlaces(s, c, t);
    assert MoverTasks(s.moving + [m]) == MoverTasks(s.moving) + [m.task];
    CountSnoc(MoverTasks(s.moving), m.task, t);
    MovingPlaces(Leave(s, c), s.moving + [m], t);
  }

  lemma WaitPlaces(s: State, c: nat, t: Task)
    requires c < |s.cores| && s.cores[c].ring != [] && DoWaitForInterrupt(s, c, true).Some?
    ensures Places(DoWaitForInterrupt(s, c, true).value, t) == Places(s, t)
  {
    var s1 := Leave(s, c);
    StopPlaces(s, c, t);
    CorePlaces(s1, c, s1.cores[c].(irq := Some(Running(s, c))), t);
  }

  lemma TickPlaces(s: State, t: Task)
    requires HeadWaits(s.sleeping)
    ensures Places(DoTick(s), t) == Places(s, t)
  {
    var (rest, woken) := WakeyWakey(s.sleeping);
    TickTasks(s.sleeping);
    CountAppend(SleepQueue.Tasks(woken), SleepQueue.Tasks(rest), t);
    RunnablePlaces(s.(sleeping := rest), SleepQueue.Tasks(woken), t);
  }

  lemma SidelinedCount(ring: seq<Task>, idle: Task, t: Task)
    requires idle in ring
    ensures Count(ring, t) == Count(Sidelined(ring, idle), t) + One(idle == t)
  {
    if ring[0] == idle {
    } else {
      CountWithout(ring, IndexOf(ring, idle), t);
    }
  }

  lemma InterruptPlaces(s: State, c: nat, t: Task)
    requires c < |s.cores| && s.cores[c].idle in s.cores[c].ring && DoInterrupt(s, c).Some?
    ensures Places(DoInterrupt(s, c).value, t) == Places(s, t)
  {
    var k := s.cores[c];
    SidelinedCount(k.ring, k.idle, t);
    var side := if |k.ring| > 1 then Sidelined(k.ring, k.idle) else [];
    assert |k.ring| == 1 ==> Sidelined(k.ring, k.idle) == [];
    assert [k.irq.value, k.idle] == [k.irq.value] + [k.idle];
    CountCons(k.irq.value, [k.idle], t);
    CountOne(k.idle, t);
    CorePlaces(s, c, Core([k.irq.value, k.idle], k.idle, true, side, None), t);
  }

  lemma QueueWaitPlaces(s: State, c: nat, q: nat, t: Task)
    requires Inv(s) && Ready(s, c) && q < |s.queues|
    ensures DoQueueWait(s, c, q).Some? ==> Places(DoQueueWait(s, c, q).value, t) == Places(s, t)
  {
    if s.queues[q].callers == [] {
      HandlerWaitsPlaces(s, c, q, t);
    } else {
      CallerUncontrolled(s, q);
      CallerTakenPlaces(s, c, q, t);
    }
  }

  lemma HandlerWaitsPlaces(s: State, c: nat, q: nat, t: Task)
    requires Ready(s, c) && q < |s.queues| && s.queues[q].callers == []
    ensures DoQueueWait(s, c, q).Some? ==> Places(DoQueueWait(s, c, q).value, t) == Places(s, t)
  {
    var r := Running(s, c);
    StopPlaces(s, c, t);
    CountCons(r, s.queues[q].handlers, t);
    QueuePlaces(Leave(s, c), q, Queue([], [r] + s.queues[q].handlers), t);
  }

  lemma CallerTakenPlaces(s: State, c: nat, q: nat, t: Task)
    requires Ready(s, c) && q < |s.queues| && s.queues[q].callers != []
    requires s.controllers[s.queues[q].callers[0]] == []
    ensures DoQueueWait(s, c, q).Some? ==> Places(DoQueueWait(s, c, q).value, t) == Places(s, t)
  {
    var Queue(callers, handlers) := s.queues[q];
    var s1 := s.(queues := s.queues[q := Queue(callers[1..], handlers)]);
    QueuePlaces(s, q, Queue(callers[1..], handlers), t);
    ControllerPlaces(s1, callers[0], [Running(s, c)], t);
  }

  lemma QueueCallPlaces(s: State, c: nat, q: nat, op: nat, t: Task)
    requires Inv(s) && Ready(s, c) && q < |s.queues|
    ensures DoQueueCall(s, c, q, op).Some? ==> Places(DoQueueCall(s, c, q, op).value, t) == Places(s, t)
  {
    if FirstTaker(s.queues[q].handlers, s.words, op, c) < |s.queues[q].handlers| {
      RunningUncontrolled(s, c);
      CallHandledPlaces(s, c, q, op, t);
    } else {
      CallQueuedPlaces(s, c, q, op, t);
    }
  }

  lemma CallHandledPlaces(s: State, c: nat, q: nat, op: nat, t: Task)
    requires Ready(s, c) && q < |s.queues| && s.controllers[Running(s, c)] == []
    requires FirstTaker(s.queues[q].handlers, s.words, op, c) < |s.queues[q].handlers|
    ensures DoQueueCall(s, c, q, op).Some? ==> Places(DoQueueCall(s, c, q, op).value, t) == Places(s, t)
  {
    var r := Running(s, c);
    var Queue(callers, handlers) := s.queues[q];
    var k := FirstTaker(handlers, s.words, op, c);
    var s1 := Leave(s, c);
    StopPlaces(s, c, t);
    var ring := [handlers[k]] + s1.cores[c].ring;
    CountCons(handlers[k], s1.cores[c].ring, t);
    RingPlaces(s1, c, ring, t);
    var s2 := WithRing(s1, c, ring);
    CountWithout(handlers, k, t);
    QueuePlaces(s2, q, Queue(callers, Without(handlers, k)), t);
    var s3 := s2.(queues := s.queues[q := Queue(callers, Without(handlers, k))]);
    ControllerPlaces(s3, r, [handlers[k]], t);
  }

  lemma CallQueuedPlaces(s: State, c: nat, q: nat, op: nat, t: Task)
    requires Ready(s, c) && q < |s.queues|
    requires FirstTaker(s.queues[q].handlers, s.words, op, c) == |s.queues[q].handlers|
    ensures DoQueueCall(s, c, q, op).Some? ==> Places(DoQueueCall(s, c, q, op).value, t) == Places(s, t)
  {
    var r := Running(s, c);
    var s1 := Leave(s, c);
    var x := Queue([r] + s.queues[q].callers, s.queues[q].handlers);
    StopPlaces(s, c, t);
    CountCons(r, s.queues[q].callers, t);
    QueuePlaces(s1, q, x, t);
    assert Stop(s, c).Some? ==>
      DoQueueCall(s, c, q, op) == Some(s1.(queues := s1.queues[q := x]).(words := s.words[r := SwiWord(op, c)]));
    WordsPlaces(s1.(queues := s1.queues[q := x]), s.words[r := SwiWord(op, c)], t);
  }

  lemma WordsPlaces(s: State, words: map<Task, nat>, t: Task)
    ensures Places(s.(words := words), t) == Places(s, t)
  {
  }

  lemma LockClaimPlaces(s: State, c: nat, a: nat, r1: nat, t: Task)
    requires c < |s.cores| && s.cores[c].ring != []
    ensures DoLockClaim(s, c, a, r1).Some? ==> Places(DoLockClaim(s, c, a, r1).value, t) == Places(s, t)
  {
    var r := Running(s, c);
    var (l, b) := Locks.Claim(s.locks, r, a, r1);
    ClaimNames(s.locks, r, a, r1, t);
    if b.Blocked? {
      StopPlaces(s, c, t);
      LocksPlaces(Leave(s, c), l, t);
    } else {
      LocksPlaces(s, l, t);
    }
  }

  lemma LocksPlaces(s: State, l: Locks.LockState, t: Task)
    ensures Places(s.(locks := l), t) + Count(Locks.Names(s.locks.blocked), t) == Places(s, t) + Count(Locks.Names(l.blocked), t)
  {
  }

  lemma ClaimNames(l: Locks.LockState, r: Task, a: nat, r1: nat, t: Task)
    ensures var (m, b) := Locks.Claim(l, r, a, r1);
            Count(Locks.Names(m.blocked), t) == Count(Locks.Names(l.blocked), t) + One(b.Blocked? && t == r)
  {
    assert Locks.Names(l.blocked + [Locks.Waiter(r, a, r1)]) == Locks.Names(l.blocked) + [r];
    CountSnoc(Locks.Names(l.blocked), r, t);
  }

  lemma LockReleasePlaces(s: State, c: nat, a: nat, t: Task)
    requires c < |s.cores| && s.cores[c].ring != [] && DoLockRelease(s, c, a).Some?
    ensures Places(DoLockRelease(s, c, a).value, t) == Places(s, t)
  {
    var (l, r) := Locks.Release(s.locks, Running(s, c), a);
    ReleaseNames(s.locks, Running(s, c), a, t);
    LocksPlaces(s, l, t);
    if r.HandedTo? {
      CountOne(r.task, t);
      RunnablePlaces(s.(locks := l), [r.task], t);
    }
  }

  lemma ReleaseNames(l: Locks.LockState, me: Task, a: nat, t: Task)
    ensures var (m, r) := Locks.Release(l, me, a);
            Count(Locks.Names(l.blocked), t) == Count(Locks.Names(m.blocked), t) + One(r.HandedTo? && t == r.task)
  {
    if l.blocked != [] {
      assert Locks.Names(l.blocked) == [l.blocked[0].task] + Locks.Names(l.blocked[1..]);
      CountCons(l.blocked[0].task, Locks.Names(l.blocked[1..]), t);
    }
  }

  lemma PipeCreatePlaces(s: State, c: nat, size: nat, t: Task)
    requires c < |s.cores| && s.cores[c].ring != [] && DoPipeCreate(s, c, size).Some?
    ensures Places(DoPipeCreate(s, c, size).value, t) == Places(s, t)
  {
    PipesGrow(s.pipes, Pipes.Create(size, Running(s, c)), t);
  }

  /** A running task is blocked on no pipe. */
  lemma RunningNotBlocked(s: State, c: nat, i: nat)
    requires Inv(s) && c < |s.cores| && s.cores[c].ring != [] && i < |s.pipes|
    ensures !Pipes.BlockedAt(s.pipes[i], Running(s, c))
  {
    var r := Running(s, c);
    CoresAt(s.cores, c, r);
    PipesAt(s.pipes, i, r);
    assert Places(s, r) >= CoresCount(s.cores, r) + PipesCount(s.pipes, r);
  }

  lemma PipePlaces(s: State, i: nat, p: Pipes.Pipe, t: Task)
    requires i < |s.pipes|
    ensures Places(s.(pipes := s.pipes[i := p]), t) + Pipes.BlockedCount(s.pipes[i], t) == Places(s, t) + Pipes.BlockedCount(p, t)
  {
    PipesChange(s.pipes, i, p, t);
  }

  lemma PipeCallPlaces(s: State, c: nat, i: nat, op: Pipes.Op, t: Task)
    requires Ready(s, c) && i < |s.pipes| && Pipes.Ok(s.pipes[i])
    requires Pipes.EndIsIdle(s.pipes[i], op) && !Pipes.BlockedAt(s.pipes[i], Running(s, c))
    ensures DoPipeCall(s, c, i, op).Some? ==> Places(DoPipeCall(s, c, i, op).value, t) == Places(s, t)
  {
    var r := Running(s, c);
    Pipes.StepCounts(s.pipes[i], r, op, t);
    PipeOutcomePlaces(s, c, i, Pipes.Step(s.pipes[i], r, op), t);
  }

  /** The places of a task after the outcome of an operation: one more in the ring's stead for a caller that
      blocks, one less on the pipe for a task that is woken */
  lemma PipeOutcomePlaces(s: State, c: nat, i: nat, o: Pipes.Outcome, t: Task)
    requires Ready(s, c) && i < |s.pipes|
    requires var p := Pipes.PipeAfter(s.pipes[i], o);
             Pipes.BlockedCount(p, t) == Pipes.BlockedCount(s.pipes[i], t)
               + (if o.Blocks? && t == Running(s, c) then 1 else 0) - (if o.Wakes? && t == o.woken then 1 else 0)
    ensures PipeOutcome(s, c, i, o).Some? ==> Places(PipeOutcome(s, c, i, o).value, t) == Places(s, t)
  {
    match o
    case Done(p, _) => PipePlaces(s, i, p, t);
    case Wakes(p, _, u, _) =>
      PipePlaces(s, i, p, t);
      CountOne(u, t);
      RunnablePlaces(s.(pipes := s.pipes[i := p]), [u], t);
    case Blocks(p) =>
      StopPlaces(s, c, t);
      PipePlaces(Leave(s, c), i, p, t);
    case Refused =>
    case Panics =>
  }

  // ----- every step keeps the invariant

  /** The step goes from s to s', with as many cores and the same tasks. */
  ghost predicate Follows(s: State, s': State) {
    Sound(s') && |s'.cores| == |s.cores| && s'.controllers.Keys == s.controllers.Keys
  }

  ghost predicate SamePlaces(s: State, s': State) {
    forall t :: Places(s', t) == Places(s, t)
  }

  /** If the system goes on, it is in order, with every task in as many places as before. */
  ghost predicate Keeps(s: State, o: Option<State>) {
    o.Some? ==> Follows(s, o.value) && SamePlaces(s, o.value)
  }

  lemma Together(s: State, o: Option<State>)
    requires o.Some? ==> Follows(s, o.value)
    requires forall t :: o.Some? ==> Places(o.value, t) == Places(s, t)
    ensures Keeps(s, o)
  {
  }

  lemma YieldKeeps(s: State, c: nat)
    requires Inv(s) && Able(s, c)
    ensures Keeps(s, StepOf(s, c, Yield))
  {
    forall t ensures DoYield(s, c).Some? ==> Places(DoYield(s, c).value, t) == Places(s, t) { YieldPlaces(s, c, t); }
    YieldSound(s, c);
    Together(s, DoYield(s, c));
  }

  /** A change of one core that leaves the idle task in its ring */
  lemma CoreSound(s: State, c: nat, k: Core)
    requires Sound(s) && c < |s.cores| && CoreOk(k)
    ensures Follows(s, s.(cores := s.cores[c := k]))
  {
  }

  lemma IdleYieldSound(s: State, c: nat)
    requires Sound(s) && c < |s.cores| && s.cores[c].ring != []
    requires Running(s, c) == s.cores[c].idle
    ensures Follows(s, IdleYield(s, c))
  {
    assert CoreOk(s.cores[c]);
    IdleYieldCore(s, c);
    CoreSound(s, c, IdleYield(s, c).cores[c]);
  }

  lemma IdleYieldCore(s: State, c: nat)
    requires c < |s.cores| && CoreOk(s.cores[c]) && Running(s, c) == s.cores[c].idle
    ensures IdleYield(s, c).cores == s.cores[c := IdleYield(s, c).cores[c]] && CoreOk(IdleYield(s, c).cores[c])
  {
    var k, k' := s.cores[c], IdleYield(s, c).cores[c];
    if |k.ring| > 1 { assert k'.ring[|k'.ring| - 1] == k.idle; }
    else if k.masked { assert k'.ring[0] == k.idle; }
    else { assert k'.ring[|k'.ring| - 1] == k.idle; }
  }

  /** Any task but the idle task can be stopped: there is always another to go on with. */
  lemma StopSound(s: State, c: nat)
    requires Sound(s) && c < |s.cores| && s.cores[c].ring != []
    ensures Stop(s, c).None? <==> Running(s, c) == s.cores[c].idle
    ensures Stop(s, c).Some? ==> Follows(s, Stop(s, c).value) && Stop(s, c).value == Leave(s, c)
  {
    var k := s.cores[c];
    assert CoreOk(k);
    if k.ring[0] != k.idle { CoreSound(s, c, k.(ring := k.ring[1..])); }
  }

  lemma YieldSound(s: State, c: nat)
    requires Sound(s) && c < |s.cores| && s.cores[c].ring != []
    ensures DoYield(s, c).Some? ==> Follows(s, DoYield(s, c).value)
  {
    if Running(s, c) == s.cores[c].idle { IdleYieldSound(s, c); } else { StopSound(s, c); }
  }

  lemma SleepKeeps(s: State, c: nat, n: nat)
    requires Inv(s) && Able(s, c)
    ensures Keeps(s, StepOf(s, c, Sleep(n)))
  {
    if n == 0 {
      YieldKeeps(s, c);
    } else {
      forall t ensures DoSleep(s, c, n).Some? ==> Places(DoSleep(s, c, n).value, t) == Places(s, t) { SleepPlaces(s, c, n, t); }
      SleepSound(s, c, n);
      Together(s, DoSleep(s, c, n));
    }
  }

  lemma SleepSound(s: State, c: nat, n: nat)
    requires Sound(s) && c < |s.cores| && s.cores[c].ring != [] && n > 0
    ensures DoSleep(s, c, n).Some? ==> Follows(s, DoSleep(s, c, n).value)
  {
    var p := AddTasks(s.sleeping, Running(s, c), n);
    StopSound(s, c);
  }

  lemma CreateKeeps(s: State, c: nat)
    requires Inv(s) && Able(s, c)
    ensures Keeps(s, StepOf(s, c, Create))
  {
    if s.pool != [] {
      forall t ensures Places(DoCreate(s, c).value, t) == Places(s, t) { CreatePlaces(s, c, t); }
      PoolUncontrolled(s);
      CreateSound(s, c);
      Together(s, DoCreate(s, c));
    }
  }

  lemma CreateSound(s: State, c: nat)
    requires Sound(s) && c < |s.cores| && s.cores[c].ring != [] && s.pool != [] && s.pool[0] in s.controllers
    ensures Follows(s, DoCreate(s, c).value)
  {
  }

  lemma EndKeeps(s: State, c: nat)
    requires Inv(s) && Able(s, c)
    ensures Keeps(s, StepOf(s, c, EndTask))
  {
    forall t ensures DoEnd(s, c).Some? ==> Places(DoEnd(s, c).value, t) == Places(s, t) { EndPlaces(s, c, t); }
    StopSound(s, c);
    Together(s, DoEnd(s, c));
  }

  lemma EndPlaces(s: State, c: nat, t: Task)
    requires c < |s.cores| && s.cores[c].ring != []
    ensures DoEnd(s, c).Some? ==> Places(DoEnd(s, c).value, t) == Places(s, t)
  {
    StopPlaces(s, c, t);
    CountSnoc(s.ended, Running(s, c), t);
  }

  lemma ReleaseKeeps(s: State, c: nat, u: Task, lock: bool)
    requires Inv(s) && Able(s, c)
    ensures Keeps(s, StepOf(s, c, ReleaseTask(u, lock)))
  {
    ReleaseSame(s, c, u, lock);
    ReleaseSound(s, c, u, lock);
    Together(s, DoRelease(s, c, u, lock));
  }

  lemma ReleaseSame(s: State, c: nat, u: Task, lock: bool)
    requires Inv(s) && Ready(s, c)
    ensures forall t :: DoRelease(s, c, u, lock).Some? ==> Places(DoRelease(s, c, u, lock).value, t) == Places(s, t)
  {
    var o := DoRelease(s, c, u, lock);
    forall t ensures o.Some? ==> Places(o.value, t) == Places(s, t) {
      if o.Some? { ReleasePlaces(s, c, u, lock, t); }
    }
  }

  lemma ReleaseSound(s: State, c: nat, u: Task, lock: bool)
    requires Sound(s) && Ready(s, c)
    ensures DoRelease(s, c, u, lock).Some? ==> Follows(s, DoRelease(s, c, u, lock).value)
  {
    var k := s.cores[c];
    assert CoreOk(k);
    if lock {
      var k' := k.(ring := [k.ring[0], u] + k.ring[1..]);
      assert k.idle in k'.ring by { if k.idle in k.ring[1..] { assert k.idle in k'.ring; } else { assert k'.ring[0] == k.idle; } }
      CoreSound(s, c, k');
    }
  }

  lemma ChangeKeeps(s: State, c: nat, u: Task, x: Task)
    requires Inv(s) && Able(s, c)
    ensures Keeps(s, StepOf(s, c, ChangeController(u, x)))
  {
    if Controls(s, Running(s, c), u) {
      forall t ensures Places(DoChangeController(s, c, u, x).value, t) == Places(s, t) {
        ControllerPlaces(s, u, [x] + s.controllers[u][1..], t);
      }
      ChangeSound(s, c, u, x);
      Together(s, DoChangeController(s, c, u, x));
    }
  }

  lemma ChangeSound(s: State, c: nat, u: Task, x: Task)
    requires Sound(s) && Ready(s, c) && Controls(s, Running(s, c), u)
    ensures Follows(s, DoChangeController(s, c, u, x).value)
  {
  }

  lemma SwitchKeeps(s: State, c: nat, core: nat, userMode: bool)
    requires Inv(s) && Able(s, c)
    ensures Keeps(s, StepOf(s, c, SwitchToCore(core, userMode)))
  {
    if core != c && DoSwitchToCore(s, c, core, userMode).Some? {
      forall t ensures Places(DoSwitchToCore(s, c, core, userMode).value, t) == Places(s, t) { SwitchPlaces(s, c, core, t); }
      StopSound(s, c);
      Together(s, DoSwitchToCore(s, c, core, userMode));
    }
  }

  lemma WaitKeeps(s: State, c: nat, masked: bool)
    requires Inv(s) && Able(s, c)
    ensures Keeps(s, StepOf(s, c, WaitForInterrupt(masked)))
  {
    if DoWaitForInterrupt(s, c, masked).Some? {
      forall t ensures Places(DoWaitForInterrupt(s, c, true).value, t) == Places(s, t) { WaitPlaces(s, c, t); }
      WaitSound(s, c);
      Together(s, DoWaitForInterrupt(s, c, masked));
    }
  }

  lemma WaitSound(s: State, c: nat)
    requires Sound(s) && c < |s.cores| && s.cores[c].ring != [] && DoWaitForInterrupt(s, c, true).Some?
    ensures Follows(s, DoWaitForInterrupt(s, c, true).value)
  {
    StopSound(s, c);
    var k := Leave(s, c).cores[c];
    assert CoreOk(k);
    CoreSound(Leave(s, c), c, k.(irq := Some(Running(s, c))));
  }

  lemma TickKeeps(s: State, c: nat)
    requires Inv(s) && Able(s, c)
    ensures Keeps(s, StepOf(s, c, Event.Tick))
  {
    forall t ensures Places(DoTick(s), t) == Places(s, t) { TickPlaces(s, t); }
    TickSound(s);
    Together(s, Some(DoTick(s)));
  }

  lemma TickSound(s: State)
    requires Sound(s)
    ensures Follows(s, DoTick(s))
  {
    TickTasks(s.sleeping);
  }

  lemma InterruptKeeps(s: State, c: nat)
    requires Inv(s) && Able(s, c)
    ensures Keeps(s, StepOf(s, c, Interrupt))
  {
    if DoInterrupt(s, c).Some? {
      forall t ensures Places(DoInterrupt(s, c).value, t) == Places(s, t) { InterruptPlaces(s, c, t); }
      CoreSound(s, c, DoInterrupt(s, c).value.cores[c]);
      Together(s, DoInterrupt(s, c));
    }
  }

  lemma QueueCreateKeeps(s: State, c: nat)
    requires Inv(s) && Able(s, c)
    ensures Keeps(s, StepOf(s, c, QueueCreate))
  {
    var s' := s.(queues := s.queues + [Queue([], [])]);
    forall t ensures Places(s', t) == Places(s, t) { QueuesGrow(s.queues, t); }
    QueueCreateSound(s);
    Together(s, Some(s'));
  }

  lemma QueueCreateSound(s: State)
    requires Sound(s)
    ensures Follows(s, s.(queues := s.queues + [Queue([], [])]))
  {
  }

  lemma QueueWaitKeeps(s: State, c: nat, q: nat)
    requires Inv(s) && Able(s, c)
    ensures Keeps(s, StepOf(s, c, QueueWait(q)))
    ensures Running(s, c) != s.cores[c].idle ==> DoQueueWait(s, c, q).Some?
  {
    if q < |s.queues| {
      forall t ensures DoQueueWait(s, c, q).Some? ==> Places(DoQueueWait(s, c, q).value, t) == Places(s, t) {
        QueueWaitPlaces(s, c, q, t);
      }
      if s.queues[q].callers != [] { CallerUncontrolled(s, q); }
      QueueWaitSound(s, c, q);
      Together(s, DoQueueWait(s, c, q));
    }
  }

  lemma QueueWaitSound(s: State, c: nat, q: nat)
    requires Sound(s) && Ready(s, c) && q < |s.queues|
    requires s.queues[q].callers != [] ==>
      s.queues[q].callers[0] in s.controllers && s.controllers[s.queues[q].callers[0]] == []
    ensures DoQueueWait(s, c, q).Some? ==> Follows(s, DoQueueWait(s, c, q).value)
    ensures Running(s, c) != s.cores[c].idle ==> DoQueueWait(s, c, q).Some?
  {
    StopSound(s, c);
  }

  /** With fewer than 64 cores no handler is choosy: the first one takes the call. */
  lemma FirstHandlerTakes(s: State, c: nat, q: nat, op: nat)
    requires Inv(s) && Ready(s, c) && q < |s.queues| && s.queues[q].handlers != []
    ensures FirstTaker(s.queues[q].handlers, s.words, op, c) == 0
  {
    var w := s.words[s.queues[q].handlers[0]];
    assert w / 0x4000_0000 == 0 && w / 0x8000_0000 == 0;
  }

  lemma QueueCallKeeps(s: State, c: nat, q: nat, op: nat)
    requires Inv(s) && Able(s, c)
    ensures Keeps(s, StepOf(s, c, QueueCall(q, op)))
    ensures Running(s, c) != s.cores[c].idle ==> DoQueueCall(s, c, q, op).Some?
  {
    if q < |s.queues| {
      forall t ensures DoQueueCall(s, c, q, op).Some? ==> Places(DoQueueCall(s, c, q, op).value, t) == Places(s, t) {
        QueueCallPlaces(s, c, q, op, t);
      }
      RunningUncontrolled(s, c);
      if s.queues[q].handlers != [] {
        FirstHandlerTakes(s, c, q, op);
        HandledSound(s, c, q, op);
      } else {
        QueuedSound(s, c, q, op);
      }
      Together(s, DoQueueCall(s, c, q, op));
    }
  }

  lemma HandledSound(s: State, c: nat, q: nat, op: nat)
    requires Sound(s) && Ready(s, c) && q < |s.queues|
    requires s.controllers[Running(s, c)] == []
    requires s.queues[q].handlers != [] && FirstTaker(s.queues[q].handlers, s.words, op, c) == 0
    ensures DoQueueCall(s, c, q, op).Some? ==> Follows(s, DoQueueCall(s, c, q, op).value)
    ensures Running(s, c) != s.cores[c].idle ==> DoQueueCall(s, c, q, op).Some?
  {
    StopSound(s, c);
    if Stop(s, c).Some? {
      var k := s.cores[c];
      var k' := DoQueueCall(s, c, q, op).value.cores[c];
      assert CoreOk(k) && k' == k.(ring := [s.queues[q].handlers[0]] + k.ring[1..]);
      assert CoreOk(k');
    }
  }

  lemma QueuedSound(s: State, c: nat, q: nat, op: nat)
    requires Sound(s) && Ready(s, c) && q < |s.queues|
    requires s.queues[q].handlers == []
    ensures DoQueueCall(s, c, q, op).Some? ==> Follows(s, DoQueueCall(s, c, q, op).value)
    ensures Running(s, c) != s.cores[c].idle ==> DoQueueCall(s, c, q, op).Some?
  {
    StopSound(s, c);
    assert SwiWord(op, c) < 0x40 * 0x100_0000 by { assert c % 0x100 < 0x40; }
  }

  lemma LockClaimKeeps(s: State, c: nat, a: nat, r1: nat)
    requires Inv(s) && Able(s, c)
    ensures Keeps(s, StepOf(s, c, LockClaim(a, r1)))
  {
    forall t ensures DoLockClaim(s, c, a, r1).Some? ==> Places(DoLockClaim(s, c, a, r1).value, t) == Places(s, t) {
      LockClaimPlaces(s, c, a, r1, t);
    }
    LockClaimSound(s, c, a, r1);
    Together(s, DoLockClaim(s, c, a, r1));
  }

  lemma LockClaimSound(s: State, c: nat, a: nat, r1: nat)
    requires Sound(s) && c < |s.cores| && s.cores[c].ring != []
    ensures DoLockClaim(s, c, a, r1).Some? ==> Follows(s, DoLockClaim(s, c, a, r1).value)
  {
    StopSound(s, c);
    LocksSound(s, Locks.Claim(s.locks, Running(s, c), a, r1).0);
    LocksSound(Leave(s, c), Locks.Claim(s.locks, Running(s, c), a, r1).0) by {
      assert Stop(s, c).Some? ==> Sound(Leave(s, c));
    }
  }

  lemma LocksSound(s: State, l: Locks.LockState)
    ensures Sound(s) ==> Follows(s, s.(locks := l))
  {
  }

  lemma LockReleaseKeeps(s: State, c: nat, a: nat)
    requires Inv(s) && Able(s, c)
    ensures Keeps(s, StepOf(s, c, LockRelease(a)))
  {
    LockReleaseSame(s, c, a);
    LockReleaseSound(s, c, a);
    Together(s, DoLockRelease(s, c, a));
  }

  lemma LockReleaseSame(s: State, c: nat, a: nat)
    requires c < |s.cores| && s.cores[c].ring != []
    ensures forall t :: DoLockRelease(s, c, a).Some? ==> Places(DoLockRelease(s, c, a).value, t) == Places(s, t)
  {
    var o := DoLockRelease(s, c, a);
    forall t ensures o.Some? ==> Places(o.value, t) == Places(s, t) {
      if o.Some? { LockReleasePlaces(s, c, a, t); }
    }
  }

  lemma LockReleaseSound(s: State, c: nat, a: nat)
    requires Sound(s) && c < |s.cores| && s.cores[c].ring != []
    ensures DoLockRelease(s, c, a).Some? ==> Follows(s, DoLockRelease(s, c, a).value)
  {
    LocksSound(s, Locks.Release(s.locks, Running(s, c), a).0);
  }

  lemma PipeCreateKeeps(s: State, c: nat, size: nat)
    requires Inv(s) && Able(s, c)
    ensures Keeps(s, StepOf(s, c, PipeCreate(size)))
  {
    PipeCreateSame(s, c, size);
    PipeCreateSound(s, c, size);
    Together(s, DoPipeCreate(s, c, size));
  }

  lemma PipeCreateSame(s: State, c: nat, size: nat)
    requires c < |s.cores| && s.cores[c].ring != []
    ensures forall t :: DoPipeCreate(s, c, size).Some? ==> Places(DoPipeCreate(s, c, size).value, t) == Places(s, t)
  {
    var o := DoPipeCreate(s, c, size);
    forall t ensures o.Some? ==> Places(o.value, t) == Places(s, t) {
      if o.Some? { PipeCreatePlaces(s, c, size, t); }
    }
  }

  lemma PipeCreateSound(s: State, c: nat, size: nat)
    requires Sound(s) && c < |s.cores| && s.cores[c].ring != []
    ensures DoPipeCreate(s, c, size).Some? ==> Follows(s, DoPipeCreate(s, c, size).value)
  {
    if DoPipeCreate(s, c, size).Some? {
      Pipes.CreateOk(size, Running(s, c));
    }
  }

  lemma PipeCallKeeps(s: State, c: nat, i: nat, op: Pipes.Op)
    requires Inv(s) && Able(s, c) && (i < |s.pipes| ==> Pipes.EndIsIdle(s.pipes[i], op))
    ensures Keeps(s, StepOf(s, c, PipeCall(i, op)))
  {
    if i < |s.pipes| {
      RunningNotBlocked(s, c, i);
      assert Pipes.Ok(s.pipes[i]);
      forall t ensures DoPipeCall(s, c, i, op).Some? ==> Places(DoPipeCall(s, c, i, op).value, t) == Places(s, t) {
        PipeCallPlaces(s, c, i, op, t);
      }
      PipeCallSound(s, c, i, op);
      Together(s, DoPipeCall(s, c, i, op));
    }
  }

  lemma PipeCallSound(s: State, c: nat, i: nat, op: Pipes.Op)
    requires Sound(s) && Ready(s, c) && i < |s.pipes| && Pipes.EndIsIdle(s.pipes[i], op)
    requires !Pipes.BlockedAt(s.pipes[i], Running(s, c))
    ensures DoPipeCall(s, c, i, op).Some? ==> Follows(s, DoPipeCall(s, c, i, op).value)
  {
    assert Pipes.Ok(s.pipes[i]);
    Pipes.StepKeepsOk(s.pipes[i], Running(s, c), op);
    StopSound(s, c);
  }

  /** A pipe end may only be given up while no task is blocked there. */
  ghost predicate Considerate(s: State, e: Event) {
    e.PipeCall? && e.pipe < |s.pipes| ==> Pipes.EndIsIdle(s.pipes[e.pipe], e.op)
  }

  lemma StepOfKeeps(s: State, c: nat, e: Event)
    requires Inv(s) && Able(s, c) && Considerate(s, e)
    ensures Keeps(s, StepOf(s, c, e))
  {
    if e.PipeCall? {
      PipeCallKeeps(s, c, e.pipe, e.op);
    } else if IsService(e) {
      ServiceKeeps(s, c, e);
    } else if e.SwitchToCore? || e.WaitForInterrupt? || e.Tick? || e.Interrupt? {
      CoreKeeps(s, c, e);
    } else {
      TaskKeeps(s, c, e);
    }
  }

  lemma TaskKeeps(s: State, c: nat, e: Event)
    requires Inv(s) && Able(s, c)
    requires e.Yield? || e.Sleep? || e.Create? || e.EndTask? || e.ReleaseTask? || e.ChangeController?
    ensures Keeps(s, StepOf(s, c, e))
  {
    match e
    case Yield => YieldKeeps(s, c);
    case Sleep(n) => SleepKeeps(s, c, n);
    case Create => CreateKeeps(s, c);
    case EndTask => EndKeeps(s, c);
    case ReleaseTask(t, lock) => ReleaseKeeps(s, c, t, lock);
    case ChangeController(t, u) => ChangeKeeps(s, c, t, u);
  }

  predicate IsService(e: Event) {
    e.QueueCreate? || e.QueueWait? || e.QueueCall? || e.LockClaim? || e.LockRelease? || e.PipeCreate?
  }

  lemma CoreKeeps(s: State, c: nat, e: Event)
    requires Inv(s) && Able(s, c) && (e.SwitchToCore? || e.WaitForInterrupt? || e.Tick? || e.Interrupt?)
    ensures Keeps(s, StepOf(s, c, e))
  {
    match e
    case SwitchToCore(core, userMode) => SwitchKeeps(s, c, core, userMode);
    case WaitForInterrupt(masked) => WaitKeeps(s, c, masked);
    case Tick => TickKeeps(s, c);
    case Interrupt => InterruptKeeps(s, c);
  }

  lemma ServiceKeeps(s: State, c: nat, e: Event)
    requires Inv(s) && Able(s, c) && IsService(e)
    ensures Keeps(s, StepOf(s, c, e))
  {
    match e
    case QueueCreate => QueueCreateKeeps(s, c);
    case QueueWait(q) => QueueWaitKeeps(s, c, q);
    case QueueCall(q, op) => QueueCallKeeps(s, c, q, op);
    case _ => LockOrPipeKeeps(s, c, e);
  }

  lemma LockOrPipeKeeps(s: State, c: nat, e: Event)
    requires Inv(s) && Able(s, c) && (e.LockClaim? || e.LockRelease? || e.PipeCreate?)
    ensures Keeps(s, StepOf(s, c, e))
  {
    match e
    case LockClaim(a, r1) => LockClaimKeeps(s, c, a, r1);
    case LockRelease(a) => LockReleaseKeeps(s, c, a);
    case PipeCreate(size) => PipeCreateKeeps(s, c, size);
  }

  /** Whatever step any core takes, every task stays in exactly one place, and the rest
      of the invariant holds. */
  lemma StepKeepsInv(s: State, c: nat, e: Event)
    requires Inv(s) && c < |s.cores| && Considerate(s, e) && Step(s, c, e).Some?
    ensures Inv(Step(s, c, e).value)
    ensures |Step(s, c, e).value.cores| == |s.cores|
    ensures Step(s, c, e).value.controllers.Keys == s.controllers.Keys
  {
    InvRunning(s, c);
    StepOfKeeps(s, c, e);
  }
}
