/** What a step leaves alone: the other cores, the sidelined ring, the tasks on the move or asleep. */
module SchedulerFrames {
  import opened Tasks
  import SleepQueue
  import opened Scheduler
  import opened SchedulerRuns
  import Pipes

  /** A step that changes neither another core, nor what is sidelined or masked on its own, nor the tasks on
      the move or asleep. */
  ghost predicate Local(s: State, o: Option<State>, c: nat)
    requires c < |s.cores|
  {
    o.Some? ==>
      var s' := o.value;
      && |s'.cores| == |s.cores| && s'.moving == s.moving && s'.sleeping == s.sleeping
      && s'.cores == s.cores[c := s'.cores[c]] && s'.cores[c].sidelined == s.cores[c].sidelined
      && s'.cores[c].masked == s.cores[c].masked && s'.cores[c].idle == s.cores[c].idle
  }

  lemma StoppingIsLocal(s: State, c: nat, masked: bool)
    requires c < |s.cores| && s.cores[c].ring != []
    ensures Local(s, DoEnd(s, c), c)
    ensures Local(s, DoWaitForInterrupt(s, c, masked), c)
  {
  }

  lemma LockClaimIsLocal(s: State, c: nat, a: nat, r1: nat)
    requires c < |s.cores| && s.cores[c].ring != []
    ensures Local(s, DoLockClaim(s, c, a, r1), c)
  {
  }

  lemma LockReleaseIsLocal(s: State, c: nat, a: nat)
    requires c < |s.cores| && s.cores[c].ring != []
    ensures Local(s, DoLockRelease(s, c, a), c)
  {
  }

  lemma ControlIsLocal(s: State, c: nat, t: Task, u: Task, lock: bool, size: nat)
    requires c < |s.cores| && s.cores[c].ring != []
    ensures Local(s, DoCreate(s, c), c)
    ensures Local(s, DoRelease(s, c, t, lock), c)
    ensures Local(s, DoChangeController(s, c, t, u), c)
    ensures Local(s, DoPipeCreate(s, c, size), c)
  {
  }

  lemma QueueingIsLocal(s: State, c: nat, q: nat, op: nat)
    requires Ready(s, c)
    ensures Local(s, DoQueueWait(s, c, q), c)
    ensures Local(s, DoQueueCall(s, c, q, op), c)
  {
  }

  lemma PipingIsLocal(s: State, c: nat, i: nat, op: Pipes.Op)
    requires Ready(s, c)
    ensures Local(s, DoPipeCall(s, c, i, op), c)
  {
  }

  /** Steps that put tasks to sleep, wake or move them, or turn rings around */
  predicate IsMove(e: Event) {
    e.Yield? || e.Sleep? || e.SwitchToCore? || e.Interrupt? || e.Tick?
  }

  lemma LocalStep(s: State, c: nat, e: Event)
    requires Able(s, c) && !IsMove(e)
    ensures Local(s, StepOf(s, c, e), c)
  {
    match e
    case Create => ControlIsLocal(s, c, 0, 0, true, 0);
    case ReleaseTask(t, lock) => ControlIsLocal(s, c, t, 0, lock, 0);
    case ChangeController(t, u) => ControlIsLocal(s, c, t, u, true, 0);
    case QueueWait(q) => QueueingIsLocal(s, c, q, 0);
    case QueueCall(q, op) => QueueingIsLocal(s, c, q, op);
    case PipeCreate(size) => ControlIsLocal(s, c, 0, 0, true, size);
    case PipeCall(i, op) => PipingIsLocal(s, c, i, op);
    case LockClaim(a, r1) => LockClaimIsLocal(s, c, a, r1);
    case LockRelease(a) => LockReleaseIsLocal(s, c, a);
    case _ => LocalOtherwise(s, c, e);
  }

  lemma LocalOtherwise(s: State, c: nat, e: Event)
    requires Able(s, c)
    requires e.WaitForInterrupt? || e.EndTask? || e.QueueCreate?
    ensures Local(s, StepOf(s, c, e), c)
  {
    match e
    case WaitForInterrupt(masked) => StoppingIsLocal(s, c, masked);
    case EndTask => StoppingIsLocal(s, c, true);
    case QueueCreate =>
  }

  ghost predicate MovesOn(m: seq<Mover>, m': seq<Mover>, c: nat) {
    || m' == m
    || (|m'| == |m| + 1 && m' == m + [m'[|m|]])
    || (ForCore(m, c) < |m| && m' == Without(m, ForCore(m, c)))
  }

  ghost predicate SleepsOn(s: State, s': State, c: nat, e: Event)
    requires c < |s.cores| && s.cores[c].ring != []
  {
    || s'.sleeping == s.sleeping
    || (e.Sleep? && e.ticks > 0 && s'.sleeping == SleepQueue.PutToSleep(s.sleeping, Running(s, c), e.ticks))
  }

  /** Tasks get on the list of those moving at the end, and off it only to the core they asked for; and go
      to sleep only when they ask. */
  ghost predicate ListsOn(s: State, o: Option<State>, c: nat, e: Event)
    requires c < |s.cores| && s.cores[c].ring != []
  {
    o.Some? ==> MovesOn(s.moving, o.value.moving, c) && SleepsOn(s, o.value, c, e)
  }

  lemma YieldLists(s: State, c: nat, e: Event)
    requires c < |s.cores| && s.cores[c].ring != []
    ensures ListsOn(s, DoYield(s, c), c, e)
  {
  }

  lemma SleepLists(s: State, c: nat, n: nat)
    requires c < |s.cores| && s.cores[c].ring != [] && n > 0
    ensures ListsOn(s, DoSleep(s, c, n), c, Sleep(n))
  {
  }

  lemma SwitchLists(s: State, c: nat, core: nat, userMode: bool, e: Event)
    requires c < |s.cores| && s.cores[c].ring != []
    ensures ListsOn(s, DoSwitchToCore(s, c, core, userMode), c, e)
  {
  }

  lemma InterruptLists(s: State, c: nat, e: Event)
    requires c < |s.cores| && s.cores[c].ring != [] && s.cores[c].idle in s.cores[c].ring
    ensures ListsOn(s, DoInterrupt(s, c), c, e)
  {
  }

  lemma LocalLists(s: State, o: Option<State>, c: nat, e: Event)
    requires c < |s.cores| && s.cores[c].ring != [] && Local(s, o, c)
    ensures ListsOn(s, o, c, e)
  {
  }

  lemma ListsAfter(s: State, c: nat, e: Event)
    requires Inv(s) && c < |s.cores| && Ready(s, c) && !e.Tick?
    ensures ListsOn(s, Step(s, c, e), c, e)
  {
    InvRunning(s, c);
    ListsStep(s, c, e);
  }

  lemma ListsStep(s: State, c: nat, e: Event)
    requires Able(s, c) && !e.Tick?
    ensures ListsOn(s, StepOf(s, c, e), c, e)
  {
    match e
    case Yield => YieldLists(s, c, e);
    case Sleep(n) => if n == 0 { YieldLists(s, c, e); } else { SleepLists(s, c, n); }
    case SwitchToCore(core, userMode) => SwitchLists(s, c, core, userMode, e);
    case Interrupt => InterruptLists(s, c, e);
    case _ => LocalListsStep(s, c, e);
  }

  lemma LocalListsStep(s: State, c: nat, e: Event)
    requires Able(s, c) && !IsMove(e)
    ensures ListsOn(s, StepOf(s, c, e), c, e)
  {
    LocalStep(s, c, e);
    LocalLists(s, StepOf(s, c, e), c, e);
  }

  lemma MovingAfter(s: State, c: nat, e: Event)
    requires Inv(s) && c < |s.cores| && Enabled(s, c, e) && Ready(s, c) && Step(s, c, e).Some?
    ensures MovesOn(s.moving, Step(s, c, e).value.moving, c)
  {
    if e.Tick? {
      assert DoTick(s).moving == s.moving;
    } else {
      ListsAfter(s, c, e);
    }
  }
}
