/** One lock, claimed and released by the tasks of the whole system, over any run of the scheduler. */
module LockRuns {
  import opened Tasks
  import opened Scheduler
  import opened SchedulerRuns
  import opened SchedulerFrames
  import Locks
  import Pipes

  /** What is asked of locks is asked of the lock at a, and a claim comes with the task's own handle in r[1]. */
  ghost predicate OnlyLock(s: State, c: nat, e: Event, a: nat)
    requires c < |s.cores| && s.cores[c].ring != []
  {
    (e.LockClaim? ==> e.lock == a && e.r1 == Running(s, c)) && (e.LockRelease? ==> e.lock == a)
  }

  ghost predicate IsLockRun(s: State, acts: seq<Act>, a: nat)
    decreases |acts|
  {
    acts == [] ||
    (CanStep(s, acts[0]) && s.cores[acts[0].core].ring != [] && OnlyLock(s, acts[0].core, acts[0].event, a) &&
     IsLockRun(Next(s, acts[0]), acts[1..], a))
  }

  /** Who has been told the lock is theirs, who ever waited, and who was granted it, after a step */
  ghost function LockStep(r: Locks.Run, s: State, c: nat, e: Event, a: nat): Locks.Run
    requires c < |s.cores| && s.cores[c].ring != []
  {
    match e
    case LockClaim(_, _) => Locks.Step(r, a, Locks.ClaimBy(Running(s, c)))
    case LockRelease(_) => Locks.Step(r, a, Locks.ReleaseBy(Running(s, c)))
    case _ => r
  }

  ghost function LockEnd(r: Locks.Run, s: State, acts: seq<Act>, a: nat): Locks.Run
    requires IsLockRun(s, acts, a)
    decreases |acts|
  {
    if acts == [] then r
    else LockEnd(LockStep(r, s, acts[0].core, acts[0].event, a), Next(s, acts[0]), acts[1..], a)
  }

  /** All tasks are known by handles, and the lock is in order. */
  ghost predicate Agrees(r: Locks.Run, s: State, a: nat) {
    r.l == s.locks && Locks.Inv(r, a) && forall t :: t in s.controllers ==> Locks.IsHandle(t)
  }

  // ----- only claims and releases change the locks

  ghost predicate SameLocks(s: State, o: Option<State>) {
    o.Some? ==> o.value.locks == s.locks
  }

  lemma QueueingLocks(s: State, c: nat, q: nat, op: nat)
    requires Ready(s, c)
    ensures SameLocks(s, DoQueueWait(s, c, q)) && SameLocks(s, DoQueueCall(s, c, q, op))
  {
  }

  lemma PipingLocks(s: State, c: nat, i: nat, op: Pipes.Op)
    requires Ready(s, c)
    ensures SameLocks(s, DoPipeCall(s, c, i, op))
  {
  }

  lemma MovingLocks(s: State, c: nat, e: Event)
    requires Able(s, c) && IsMove(e)
    ensures SameLocks(s, StepOf(s, c, e))
  {
    match e
    case Tick => assert DoTick(s).locks == s.locks;
    case _ =>
  }

  lemma OtherLocks(s: State, c: nat, e: Event)
    requires Able(s, c) && !e.LockClaim? && !e.LockRelease?
    ensures SameLocks(s, StepOf(s, c, e))
  {
    if IsMove(e) {
      MovingLocks(s, c, e);
    } else {
      match e
      case QueueWait(q) => QueueingLocks(s, c, q, 0);
      case QueueCall(q, op) => QueueingLocks(s, c, q, op);
      case PipeCall(i, op) => PipingLocks(s, c, i, op);
      case _ =>
    }
  }

  // ----- each step is one of the machine of the one lock

  /** A task that waits for a lock is in no ring: the task that runs does not wait. */
  lemma WaiterIsStopped(s: State, c: nat, t: Task)
    requires Inv(s) && c < |s.cores| && t in Locks.Names(s.locks.blocked)
    ensures t !in s.cores[c].ring
  {
    CoresAt(s.cores, c, t);
    CountIn(s.cores[c].ring, t);
    CountIn(Locks.Names(s.locks.blocked), t);
    assert Places(s, t) >= CoresCount(s.cores, t) + Count(Locks.Names(s.locks.blocked), t);
  }

  lemma RunnerMayCall(r: Locks.Run, s: State, c: nat, a: nat)
    requires Inv(s) && Agrees(r, s, a) && Ready(s, c)
    ensures Locks.IsHandle(Running(s, c)) && Running(s, c) !in Locks.Names(r.l.blocked)
  {
    if Running(s, c) in Locks.Names(s.locks.blocked) { WaiterIsStopped(s, c, Running(s, c)); }
  }

  lemma ClaimIs(r: Locks.Run, s: State, c: nat, a: nat)
    requires r.l == s.locks && Ready(s, c)
    ensures var o := DoLockClaim(s, c, a, Running(s, c));
      o.Some? ==> o.value.locks == Locks.Step(r, a, Locks.ClaimBy(Running(s, c))).l
  {
  }

  lemma ReleaseIs(r: Locks.Run, s: State, c: nat, a: nat)
    requires r.l == s.locks && Ready(s, c)
    ensures var o := DoLockRelease(s, c, a);
      o.Some? ==> o.value.locks == Locks.Step(r, a, Locks.ReleaseBy(Running(s, c))).l
  {
  }

  lemma LocksFollow(r: Locks.Run, s: State, c: nat, e: Event, a: nat)
    requires r.l == s.locks && Able(s, c) && OnlyLock(s, c, e, a)
    ensures StepOf(s, c, e).Some? ==> StepOf(s, c, e).value.locks == LockStep(r, s, c, e, a).l
  {
    if e.LockClaim? {
      ClaimIs(r, s, c, a);
    } else if e.LockRelease? {
      ReleaseIs(r, s, c, a);
    } else {
      OtherLocks(s, c, e);
    }
  }

  lemma LockStaysInOrder(r: Locks.Run, s: State, c: nat, e: Event, a: nat)
    requires Locks.Inv(r, a) && c < |s.cores| && s.cores[c].ring != []
    requires Locks.IsHandle(Running(s, c)) && Running(s, c) !in Locks.Names(r.l.blocked)
    ensures Locks.Inv(LockStep(r, s, c, e, a), a)
  {
    if e.LockClaim? {
      Locks.ClaimKeepsInv(r, a, Running(s, c));
    } else if e.LockRelease? {
      Locks.ReleaseKeepsInv(r, a, Running(s, c));
    }
  }

  lemma StepAgrees(r: Locks.Run, s: State, act: Act, a: nat)
    requires CanStep(s, act) && s.cores[act.core].ring != [] && OnlyLock(s, act.core, act.event, a) && Agrees(r, s, a)
    ensures Inv(Next(s, act)) && Agrees(LockStep(r, s, act.core, act.event, a), Next(s, act), a)
  {
    InvRunning(s, act.core);
    RunnerMayCall(r, s, act.core, a);
    LocksFollow(r, s, act.core, act.event, a);
    LockStaysInOrder(r, s, act.core, act.event, a);
    StepKeepsInv(s, act.core, act.event);
  }

  /** Over any run of the system in which tasks use one lock: one task at most has it; its word names that task,
      with the wanted bit when any waits; those who wait are stopped, and get it in the order they came. */
  lemma {:induction false} OneLockInSystem(r: Locks.Run, s: State, acts: seq<Act>, a: nat) returns (t: Locks.Run)
    requires Inv(s) && Agrees(r, s, a) && IsLockRun(s, acts, a)
    ensures t == LockEnd(r, s, acts, a) && IsRun(s, acts) && Inv(End(s, acts)) && Agrees(t, End(s, acts), a)
    ensures |t.holders| <= 1 && t.granted <= t.waited
    ensures var w := Locks.Word(End(s, acts).locks, a);
      t.holders == (if w == 0 then {} else {Locks.Owner(w)}) &&
      (Locks.Wanted(w) <==> End(s, acts).locks.blocked != [])
    ensures forall x, c :: x in Locks.Names(End(s, acts).locks.blocked) && 0 <= c < |End(s, acts).cores| ==>
      x !in End(s, acts).cores[c].ring && x !in t.holders
    decreases |acts|
  {
    if acts == [] {
      t := r;
      forall x, c | x in Locks.Names(s.locks.blocked) && 0 <= c < |s.cores|
        ensures x !in s.cores[c].ring && x !in t.holders
      {
        WaiterIsStopped(s, c, x);
      }
    } else {
      StepAgrees(r, s, acts[0], a);
      t := OneLockInSystem(LockStep(r, s, acts[0].core, acts[0].event, a), Next(s, acts[0]), acts[1..], a);
    }
  }

  /** The system starts with the lock free. */
  lemma BootAgrees(n: nat, m: nat, a: nat)
    requires 0 < n < m && n <= 64
    ensures Inv(Boot(n, m)) && Agrees(Locks.Run(Locks.LockState(map[], []), {}, [], []), Boot(n, m), a)
  {
    BootInv(n, m);
    Locks.InitInv(Locks.Run(Locks.LockState(map[], []), {}, [], []), a);
    forall t | t in Boot(n, m).controllers ensures Locks.IsHandle(t) {
      HandlesCount(0, m, t);
      CountIn(Handles(0, m), t);
    }
  }
}
