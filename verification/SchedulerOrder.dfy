/** In what order tasks get to run: the runnable list is first come, first served, whatever all the cores do. */
module SchedulerOrder {
  import opened Tasks
  import opened Scheduler
  import Pipes
  import Runs = SchedulerRuns

  /** Tasks join the list at its end ... */
  predicate Joins(s: State, s': State) {
    s.runnable <= s'.runnable
  }

  /** ... and leave it, one at a time, from its head, to run at once on the core that takes them. */
  predicate Takes(s: State, s': State, c: nat) {
    && s.runnable != [] && s'.runnable == s.runnable[1..]
    && c < |s'.cores| && s'.cores[c].ring != [] && s'.cores[c].ring[0] == s.runnable[0]
  }

  predicate InOrder(s: State, o: Option<State>, c: nat) {
    o.Some? ==> Joins(s, o.value) || Takes(s, o.value, c)
  }

  lemma YieldInOrder(s: State, c: nat)
    requires c < |s.cores| && s.cores[c].ring != []
    ensures InOrder(s, DoYield(s, c), c)
  {
  }

  lemma StoppingInOrder(s: State, c: nat, n: nat, core: nat, mode: bool)
    requires c < |s.cores| && s.cores[c].ring != [] && n > 0
    ensures InOrder(s, DoSleep(s, c, n), c)
    ensures InOrder(s, DoSwitchToCore(s, c, core, mode), c)
    ensures InOrder(s, DoWaitForInterrupt(s, c, mode), c)
    ensures InOrder(s, DoEnd(s, c), c)
  {
  }

  lemma ControlInOrder(s: State, c: nat, t: Task, u: Task, lock: bool, size: nat)
    requires c < |s.cores| && s.cores[c].ring != []
    ensures InOrder(s, DoCreate(s, c), c)
    ensures InOrder(s, DoRelease(s, c, t, lock), c)
    ensures InOrder(s, DoChangeController(s, c, t, u), c)
    ensures InOrder(s, DoPipeCreate(s, c, size), c)
  {
  }

  lemma QueueingInOrder(s: State, c: nat, q: nat, op: nat)
    requires Ready(s, c)
    ensures InOrder(s, DoQueueWait(s, c, q), c)
    ensures InOrder(s, DoQueueCall(s, c, q, op), c)
  {
  }

  lemma PipingInOrder(s: State, c: nat, i: nat, op: Pipes.Op)
    requires Ready(s, c)
    ensures InOrder(s, DoPipeCall(s, c, i, op), c)
  {
  }

  lemma LocksInOrder(s: State, c: nat, a: nat, r1: nat)
    requires c < |s.cores| && s.cores[c].ring != []
    ensures InOrder(s, DoLockClaim(s, c, a, r1), c)
    ensures InOrder(s, DoLockRelease(s, c, a), c)
  {
  }

  lemma ClockInOrder(s: State, c: nat)
    requires Able(s, c)
    ensures InOrder(s, Some(DoTick(s)), c)
    ensures InOrder(s, DoInterrupt(s, c), c)
  {
  }

  /** Every step keeps the order of the list. */
  lemma StepInOrder(s: State, c: nat, e: Event)
    requires Able(s, c)
    ensures InOrder(s, StepOf(s, c, e), c)
  {
    match e
    case Yield => YieldInOrder(s, c);
    case Sleep(n) => if n == 0 { YieldInOrder(s, c); } else { StoppingInOrder(s, c, n, 0, true); }
    case Create => ControlInOrder(s, c, 0, 0, true, 0);
    case EndTask => StoppingInOrder(s, c, 1, 0, true);
    case ReleaseTask(t, lock) => ControlInOrder(s, c, t, 0, lock, 0);
    case ChangeController(t, u) => ControlInOrder(s, c, t, u, true, 0);
    case SwitchToCore(core, userMode) => StoppingInOrder(s, c, 1, core, userMode);
    case WaitForInterrupt(masked) => StoppingInOrder(s, c, 1, 0, masked);
    case Tick => ClockInOrder(s, c);
    case Interrupt => ClockInOrder(s, c);
    case QueueCreate =>
    case QueueWait(q) => QueueingInOrder(s, c, q, 0);
    case QueueCall(q, op) => QueueingInOrder(s, c, q, op);
    case LockClaim(a, r1) => LocksInOrder(s, c, a, r1);
    case LockRelease(a) => LocksInOrder(s, c, a, 0);
    case PipeCreate(size) => ControlInOrder(s, c, 0, 0, true, size);
    case PipeCall(i, op) => PipingInOrder(s, c, i, op);
  }

  /** How many tasks are taken off the list during a run */
  ghost function Taken(s: State, acts: seq<Runs.Act>): nat
    requires Runs.IsRun(s, acts)
    decreases |acts|
  {
    if acts == [] then 0
    else
      var s' := Runs.Next(s, acts[0]);
      (if |s'.runnable| < |s.runnable| then 1 else 0) + Taken(s', acts[1..])
  }

  /** A runnable task moves up one place each time another is taken, on whatever core, and at no other time. */
  lemma {:induction false} FirstComeFirstServed(s: State, acts: seq<Runs.Act>, k: nat) returns (end: State, j: nat)
    requires Runs.IsRun(s, acts) && k < |s.runnable| && Taken(s, acts) <= k
    ensures end == Runs.End(s, acts) && j == k - Taken(s, acts)
    ensures j < |end.runnable| && end.runnable[j] == s.runnable[k]
    decreases |acts|
  {
    if acts == [] {
      end, j := s, k;
    } else {
      var s', taken := FirstStep(s, acts, k);
      end, j := FirstComeFirstServed(s', acts[1..], k - taken);
    }
  }

  lemma FirstStep(s: State, acts: seq<Runs.Act>, k: nat) returns (s': State, taken: nat)
    requires Runs.IsRun(s, acts) && acts != [] && k < |s.runnable| && Taken(s, acts) <= k
    ensures Runs.IsRun(s', acts[1..]) && Runs.End(s, acts) == Runs.End(s', acts[1..])
    ensures taken <= k && Taken(s, acts) == taken + Taken(s', acts[1..])
    ensures k - taken < |s'.runnable| && s'.runnable[k - taken] == s.runnable[k]
  {
    s' := Runs.Next(s, acts[0]);
    taken := if |s'.runnable| < |s.runnable| then 1 else 0;
    OrderAfter(s, acts[0].core, acts[0].event);
    OneTurn(s, s', acts[0].core, k, taken);
  }

  lemma OneTurn(s: State, s': State, c: nat, k: nat, taken: nat)
    requires Joins(s, s') || Takes(s, s', c)
    requires taken == if |s'.runnable| < |s.runnable| then 1 else 0
    requires taken <= k < |s.runnable|
    ensures k - taken < |s'.runnable| && s'.runnable[k - taken] == s.runnable[k]
  {
  }

  lemma OrderAfter(s: State, c: nat, e: Event)
    requires Runs.CanStep(s, Runs.Act(c, e))
    ensures var s' := Runs.Next(s, Runs.Act(c, e)); Joins(s, s') || Takes(s, s', c)
  {
    InvRunning(s, c);
    StepInOrder(s, c, e);
  }

  /** So the task at place k is the one that runs when, after k others, one more is taken. */
  lemma TakenInTurn(s: State, acts: seq<Runs.Act>, k: nat, a: Runs.Act) returns (u: State, v: State)
    requires Runs.IsRun(s, acts) && k < |s.runnable| && Taken(s, acts) == k
    requires Runs.CanStep(Runs.End(s, acts), a)
    requires |Runs.Next(Runs.End(s, acts), a).runnable| < |Runs.End(s, acts).runnable|
    ensures u == Runs.End(s, acts) && v == Runs.Next(u, a)
    ensures a.core < |v.cores| && v.cores[a.core].ring != [] && Running(v, a.core) == s.runnable[k]
  {
    var j;
    u, j := FirstComeFirstServed(s, acts, k);
    v := Runs.Next(u, a);
    OrderAfter(u, a.core, a.event);
    TakenRuns(u, v, a.core);
  }

  lemma TakenRuns(s: State, s': State, c: nat)
    requires (Joins(s, s') || Takes(s, s', c)) && |s'.runnable| < |s.runnable|
    ensures c < |s'.cores| && s'.cores[c].ring != [] && Running(s', c) == s.runnable[0]
  {
  }

  /** A task released to run on this core is the next to run there, when its controller yields; one released
      otherwise is the last of those that may run anywhere. */
  lemma ReleasedRunsNext(s: State, c: nat, t: Task, lockToCore: bool)
    requires Able(s, c) && Running(s, c) != s.cores[c].idle && DoRelease(s, c, t, lockToCore).Some?
    ensures lockToCore ==>
      var o := DoYield(DoRelease(s, c, t, lockToCore).value, c);
      o.Some? && o.value.cores[c].ring != [] && Running(o.value, c) == t
    ensures !lockToCore ==> DoRelease(s, c, t, lockToCore).value.runnable == s.runnable + [t]
  {
  }

  /** Control passes, without a moment when the task is nobody's or two's: from then on only the new
      controller can release the task. */
  lemma OnlyNewControllerReleases(s: State, c: nat, t: Task, u: Task, d: nat, lockToCore: bool)
    requires Inv(s) && Able(s, c) && d < |s.cores| && DoChangeController(s, c, t, u).Some?
    ensures var s1 := DoChangeController(s, c, t, u).value;
            |s1.cores| == |s.cores| && s1.cores[d].ring != [] &&
            (DoRelease(s1, d, t, lockToCore).Some? <==> Running(s1, d) == u)
  {
    InvRunning(s, d);
  }
}
