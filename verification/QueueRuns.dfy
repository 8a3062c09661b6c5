/** The hand-over from caller to handler through a queue, over whole runs: whoever comes first, however many
    wait, and whatever all the cores do in between. */
module QueueRuns {
  import opened Tasks
  import opened Queues
  import opened Scheduler
  import opened SchedulerRuns
  import Pipes

  /** The handler h has control of the caller r, runs on core d, and finds in its registers the handle of r,
      the SWI and the core it came from. */
  ghost predicate Handled(s: State, d: nat, h: Task, r: Task, op: nat, c: nat) {
    && r in s.controllers && s.controllers[r] == [h]
    && h in s.regs && s.regs[h] == Regs(r, op, c)
    && d < |s.cores| && s.cores[d].ring != [] && Running(s, d) == h
  }

  /** r waits in queue q with the call it made, on core c. */
  ghost predicate Called(s: State, q: nat, r: Task, op: nat, c: nat) {
    && q < |s.queues| && r in s.queues[q].callers
    && r in s.words && s.words[r] == SwiWord(op, c)
  }

  /** h waits in queue q for a call. */
  ghost predicate Offers(s: State, q: nat, h: Task) {
    q < |s.queues| && h in s.queues[q].handlers
  }

  // ----- the first of the two steps, whichever it is

  /** A call goes to the first handler there is, at once and on the caller's core; without one, it waits. */
  lemma CallOutcome(s: State, c: nat, q: nat, op: nat)
    requires Inv(s) && Able(s, c) && q < |s.queues| && Running(s, c) != s.cores[c].idle
    ensures DoQueueCall(s, c, q, op).Some?
    ensures var (r, s') := (Running(s, c), DoQueueCall(s, c, q, op).value);
      if s.queues[q].handlers == [] then Called(s', q, r, op, c)
      else Handled(s', c, s.queues[q].handlers[0], r, op, c)
  {
    QueueCallKeeps(s, c, q, op);
    RunningUncontrolled(s, c);
    if s.queues[q].handlers != [] {
      FirstHandlerTakes(s, c, q, op);
      CallHandled(s, c, q, op);
    } else {
      CallQueued(s, c, q, op);
    }
  }

  lemma CallHandled(s: State, c: nat, q: nat, op: nat)
    requires Ready(s, c) && q < |s.queues| && s.queues[q].handlers != []
    requires FirstTaker(s.queues[q].handlers, s.words, op, c) == 0 && s.controllers[Running(s, c)] == []
    ensures DoQueueCall(s, c, q, op).Some? ==>
      Handled(DoQueueCall(s, c, q, op).value, c, s.queues[q].handlers[0], Running(s, c), op, c)
  {
  }

  lemma CallQueued(s: State, c: nat, q: nat, op: nat)
    requires Ready(s, c) && q < |s.queues| && s.queues[q].handlers == []
    ensures DoQueueCall(s, c, q, op).Some? ==> Called(DoQueueCall(s, c, q, op).value, q, Running(s, c), op, c)
  {
    if DoQueueCall(s, c, q, op).Some? {
      assert DoQueueCall(s, c, q, op).value.queues[q].callers[0] == Running(s, c);
    }
  }

  /** A handler takes the first caller there is; without one, it waits. */
  lemma WaitOutcome(s: State, c: nat, q: nat)
    requires Inv(s) && Able(s, c) && q < |s.queues| && Running(s, c) != s.cores[c].idle
    ensures DoQueueWait(s, c, q).Some?
    ensures var (h, s', callers) := (Running(s, c), DoQueueWait(s, c, q).value, s.queues[q].callers);
      if callers == [] then Offers(s', q, h)
      else Handled(s', c, h, callers[0], SwiOffset(s.words[callers[0]]), SwiCore(s.words[callers[0]]))
  {
    QueueWaitKeeps(s, c, q);
    if s.queues[q].callers != [] {
      CallerUncontrolled(s, q);
      CallerTaken(s, c, q);
    } else {
      assert DoQueueWait(s, c, q).value.queues[q].handlers[0] == Running(s, c);
    }
  }

  lemma CallerTaken(s: State, c: nat, q: nat)
    requires Ready(s, c) && q < |s.queues| && s.queues[q].callers != []
    requires s.controllers[s.queues[q].callers[0]] == []
    ensures DoQueueWait(s, c, q).Some? ==>
      var r := s.queues[q].callers[0];
      Handled(DoQueueWait(s, c, q).value, c, Running(s, c), r, SwiOffset(s.words[r]), SwiCore(s.words[r]))
  {
  }

  // ----- steps in between

  /** The step neither changes a queue nor the word of a task. */
  ghost predicate Quiet(s: State, o: Option<State>) {
    o.Some? ==> o.value.queues == s.queues && o.value.words == s.words
  }

  lemma CoreIsQuiet(s: State, c: nat, n: nat, core: nat, mode: bool)
    requires Able(s, c)
    ensures Quiet(s, DoYield(s, c)) && Quiet(s, DoSleep(s, c, n)) && Quiet(s, DoEnd(s, c))
    ensures Quiet(s, DoSwitchToCore(s, c, core, mode)) && Quiet(s, DoWaitForInterrupt(s, c, mode))
    ensures Quiet(s, Some(DoTick(s))) && Quiet(s, DoInterrupt(s, c))
  {
  }

  lemma ControlIsQuiet(s: State, c: nat, t: Task, u: Task, lock: bool, size: nat)
    requires Able(s, c)
    ensures Quiet(s, DoRelease(s, c, t, lock)) && Quiet(s, DoChangeController(s, c, t, u))
    ensures Quiet(s, DoPipeCreate(s, c, size))
  {
  }

  lemma LockIsQuiet(s: State, c: nat, a: nat, r1: nat)
    requires Able(s, c)
    ensures Quiet(s, DoLockClaim(s, c, a, r1)) && Quiet(s, DoLockRelease(s, c, a))
  {
  }

  lemma PipeIsQuiet(s: State, c: nat, i: nat, op: Pipes.Op)
    requires Able(s, c)
    ensures Quiet(s, DoPipeCall(s, c, i, op))
  {
  }

  lemma QuietStep(s: State, c: nat, e: Event)
    requires Able(s, c) && !e.Create? && !e.QueueCreate? && !e.QueueWait? && !e.QueueCall?
    ensures Quiet(s, StepOf(s, c, e))
  {
    match e
    case ReleaseTask(t, lock) => ControlIsQuiet(s, c, t, 0, lock, 0);
    case ChangeController(t, u) => ControlIsQuiet(s, c, t, u, true, 0);
    case PipeCreate(size) => ControlIsQuiet(s, c, 0, 0, true, size);
    case LockClaim(a, r1) => LockIsQuiet(s, c, a, r1);
    case LockRelease(a) => LockIsQuiet(s, c, a, 0);
    case PipeCall(i, op) => PipeIsQuiet(s, c, i, op);
    case SwitchToCore(core, mode) => CoreIsQuiet(s, c, 0, core, mode);
    case WaitForInterrupt(masked) => CoreIsQuiet(s, c, 0, 0, masked);
    case Sleep(n) => CoreIsQuiet(s, c, n, 0, true);
    case Yield => CoreIsQuiet(s, c, 0, 0, true);
    case EndTask => CoreIsQuiet(s, c, 0, 0, true);
    case Tick => CoreIsQuiet(s, c, 0, 0, true);
    case Interrupt => CoreIsQuiet(s, c, 0, 0, true);
  }

  /** A task that waits in a queue neither runs nor is in the pool, so that its word is left alone. */
  lemma QueuedIsElsewhere(s: State, c: nat, q: nat, t: Task)
    requires Inv(s) && Ready(s, c) && q < |s.queues| && (t in s.queues[q].callers || t in s.queues[q].handlers)
    ensures t != Running(s, c) && t !in s.pool
  {
    QueuesAt(s.queues, q, t);
    CountIn(s.queues[q].callers, t);
    CountIn(s.queues[q].handlers, t);
    CoresAt(s.cores, c, t);
    CountIn(s.pool, t);
    assert Places(s, t) >= QueuesCount(s.queues, t) + CoresCount(s.cores, t) + Count(s.pool, t);
  }

  /** No caller waits where a handler does. */
  lemma OneKindWaits(s: State, q: nat)
    requires Inv(s) && q < |s.queues|
    ensures s.queues[q].callers == [] || s.queues[q].handlers == []
  {
  }

  /** The word of t stays, and it is not removed from queue q, as caller or handler. */
  ghost predicate StaysQueued(s: State, o: Option<State>, q: nat, t: Task)
    requires q < |s.queues|
  {
    o.Some? ==>
      && q < |o.value.queues|
      && (t in s.queues[q].callers ==> t in o.value.queues[q].callers)
      && (t in s.queues[q].handlers ==> t in o.value.queues[q].handlers)
      && (t in s.words ==> t in o.value.words && o.value.words[t] == s.words[t])
  }

  lemma CreateStays(s: State, c: nat, q: nat, t: Task)
    requires Ready(s, c) && q < |s.queues| && t !in s.pool
    ensures StaysQueued(s, DoCreate(s, c), q, t)
    ensures StaysQueued(s, Some(s.(queues := s.queues + [Queue([], [])])), q, t)
  {
  }

  lemma InRest(x: seq<Task>, k: nat, t: Task)
    requires k < |x| && t in x && t != x[k]
    ensures t in Without(x, k)
  {
    var j :| 0 <= j < |x| && x[j] == t;
    assert Without(x, k)[if j < k then j else j - 1] == t;
  }

  lemma WaitStays(s: State, c: nat, p: nat, q: nat, t: Task)
    requires Ready(s, c) && q < |s.queues| && t != Running(s, c)
    requires p == q && s.queues[p].callers != [] ==> t != s.queues[p].callers[0]
    ensures StaysQueued(s, DoQueueWait(s, c, p), q, t)
  {
    if p == q && s.queues[p].callers != [] && t in s.queues[p].callers {
      InRest(s.queues[p].callers, 0, t);
    }
  }

  lemma CallStays(s: State, c: nat, p: nat, op: nat, q: nat, t: Task)
    requires Ready(s, c) && q < |s.queues| && t != Running(s, c)
    requires p == q && s.queues[p].handlers != [] ==>
      FirstTaker(s.queues[p].handlers, s.words, op, c) == 0 && t != s.queues[p].handlers[0]
    ensures StaysQueued(s, DoQueueCall(s, c, p, op), q, t)
  {
    if p == q && s.queues[p].handlers != [] && t in s.queues[p].handlers {
      InRest(s.queues[p].handlers, 0, t);
    }
  }

  /** The step with which a task is taken from queue q: as the first caller by a handler, or as the first
      handler by a call. */
  predicate Takes(s: State, e: Event, q: nat, t: Task)
    requires q < |s.queues|
  {
    || (e == QueueWait(q) && s.queues[q].callers != [] && s.queues[q].callers[0] == t)
    || (e.QueueCall? && e.queue == q && s.queues[q].handlers != [] && s.queues[q].handlers[0] == t)
  }

  /** No other step of any core takes a task from a queue, or touches its word. */
  lemma OnlyTaken(s: State, c: nat, e: Event, q: nat, t: Task)
    requires Inv(s) && Able(s, c) && q < |s.queues| && (t in s.queues[q].callers || t in s.queues[q].handlers)
    requires !Takes(s, e, q, t)
    ensures StaysQueued(s, StepOf(s, c, e), q, t)
  {
    QueuedIsElsewhere(s, c, q, t);
    if e.QueueCall? {
      if e.queue < |s.queues| && s.queues[e.queue].handlers != [] { FirstHandlerTakes(s, c, e.queue, e.swi); }
      CallStays(s, c, e.queue, e.swi, q, t);
    } else {
      OtherwiseStays(s, c, e, q, t);
    }
  }

  lemma OtherwiseStays(s: State, c: nat, e: Event, q: nat, t: Task)
    requires Able(s, c) && q < |s.queues| && t != Running(s, c) && t !in s.pool
    requires !e.QueueCall? && !Takes(s, e, q, t)
    ensures StaysQueued(s, StepOf(s, c, e), q, t)
  {
    if e.QueueWait? {
      WaitStays(s, c, e.queue, q, t);
    } else if e.Create? || e.QueueCreate? {
      CreateStays(s, c, q, t);
    } else {
      QuietStep(s, c, e);
    }
  }

  lemma SwiWordReads(op: nat, c: nat)
    requires c < 0x100
    ensures SwiOffset(SwiWord(op, c)) == op % 0x100_0000 && SwiCore(SwiWord(op, c)) == c
  {
    var low := op % 0x100_0000;
    SwiWordRoundTrip(low, c);
    SameLow(op, c, low);
  }

  lemma SameLow(op: nat, c: nat, low: nat)
    requires low == op % 0x100_0000
    ensures SwiWord(low, c) == SwiWord(op, c)
  {
  }

  // ----- whole runs

  /** Step a takes the call of r, and hands it over to the task that runs on its core; of the number of the
      SWI 24 bits are left. */
  ghost predicate HandsOver(s: State, a: Act, q: nat, r: Task, op: nat, c: nat)
    requires CanStep(s, a)
  {
    && a.event == QueueWait(q) && s.cores[a.core].ring != []
    && Handled(Next(s, a), a.core, Running(s, a.core), r, op % 0x100_0000, c)
  }

  /** The call waits, as it was made, to the end of the run, or until it is handed over. */
  ghost predicate KeptForHandler(s: State, acts: seq<Act>, q: nat, r: Task, op: nat, c: nat)
    requires IsRun(s, acts)
    decreases |acts|
  {
    Called(s, q, r, op, c) &&
    (acts == [] || HandsOver(s, acts[0], q, r, op, c) || KeptForHandler(Next(s, acts[0]), acts[1..], q, r, op, c))
  }

  lemma CallerStep(s: State, a: Act, q: nat, r: Task, op: nat, c: nat)
    requires CanStep(s, a) && Called(s, q, r, op, c) && c < |s.cores|
    ensures HandsOver(s, a, q, r, op, c) || Called(Next(s, a), q, r, op, c)
  {
    InvRunning(s, a.core);
    if Takes(s, a.event, q, r) {
      OneKindWaits(s, q);
      CallerStepTaken(s, a, q, r, op, c);
    } else {
      OnlyTaken(s, a.core, a.event, q, r);
    }
  }

  lemma CallerStepTaken(s: State, a: Act, q: nat, r: Task, op: nat, c: nat)
    requires CanStep(s, a) && Called(s, q, r, op, c) && c < |s.cores| && Able(s, a.core)
    requires Takes(s, a.event, q, r) && s.queues[q].handlers == []
    ensures HandsOver(s, a, q, r, op, c)
  {
    SwiWordReads(op, c);
    WaitOutcome(s, a.core, q);
  }

  lemma {:induction false} CallerWaits(s: State, acts: seq<Act>, q: nat, r: Task, op: nat, c: nat)
    requires Inv(s) && IsRun(s, acts) && Called(s, q, r, op, c) && c < |s.cores|
    ensures KeptForHandler(s, acts, q, r, op, c)
    decreases |acts|
  {
    if acts != [] {
      CallerStep(s, acts[0], q, r, op, c);
      StepKeepsInv(s, acts[0].core, acts[0].event);
      if !HandsOver(s, acts[0], q, r, op, c) { CallerWaits(Next(s, acts[0]), acts[1..], q, r, op, c); }
    }
  }

  /** Step a is a call that goes to h, which runs on the core of the call from then on. */
  ghost predicate IsGiven(s: State, a: Act, q: nat, h: Task)
    requires CanStep(s, a)
  {
    && a.event.QueueCall? && a.event.queue == q && s.cores[a.core].ring != []
    && Handled(Next(s, a), a.core, h, Running(s, a.core), a.event.swi, a.core)
  }

  /** The handler waits to the end of the run, or until it is given a call. */
  ghost predicate KeptForCaller(s: State, acts: seq<Act>, q: nat, h: Task)
    requires IsRun(s, acts)
    decreases |acts|
  {
    Offers(s, q, h) &&
    (acts == [] || IsGiven(s, acts[0], q, h) || KeptForCaller(Next(s, acts[0]), acts[1..], q, h))
  }

  lemma HandlerStep(s: State, a: Act, q: nat, h: Task)
    requires CanStep(s, a) && Offers(s, q, h)
    ensures IsGiven(s, a, q, h) || Offers(Next(s, a), q, h)
  {
    InvRunning(s, a.core);
    if Takes(s, a.event, q, h) {
      OneKindWaits(s, q);
      HandlerStepGiven(s, a, q, h);
    } else {
      OnlyTaken(s, a.core, a.event, q, h);
    }
  }

  lemma HandlerStepGiven(s: State, a: Act, q: nat, h: Task)
    requires CanStep(s, a) && Offers(s, q, h) && Able(s, a.core)
    requires Takes(s, a.event, q, h) && s.queues[q].callers == []
    ensures IsGiven(s, a, q, h)
  {
    CallOutcome(s, a.core, q, a.event.swi);
  }

  lemma {:induction false} HandlerWaits(s: State, acts: seq<Act>, q: nat, h: Task)
    requires Inv(s) && IsRun(s, acts) && Offers(s, q, h)
    ensures KeptForCaller(s, acts, q, h)
    decreases |acts|
  {
    if acts != [] {
      HandlerStep(s, acts[0], q, h);
      StepKeepsInv(s, acts[0].core, acts[0].event);
      if !IsGiven(s, acts[0], q, h) { HandlerWaits(Next(s, acts[0]), acts[1..], q, h); }
    }
  }

  lemma CallStep(s: State, c: nat, q: nat, op: nat)
    requires CanStep(s, Act(c, QueueCall(q, op))) && q < |s.queues| && s.cores[c].ring != []
    ensures var s' := Next(s, Act(c, QueueCall(q, op)));
      Inv(s') && c < |s'.cores| && (s.queues[q].handlers == [] ==> Called(s', q, Running(s, c), op, c))
  {
    InvRunning(s, c);
    StepKeepsInv(s, c, QueueCall(q, op));
    CallOutcome(s, c, q, op);
  }

  lemma WaitStep(s: State, c: nat, q: nat)
    requires CanStep(s, Act(c, QueueWait(q))) && q < |s.queues| && s.cores[c].ring != []
    ensures var s' := Next(s, Act(c, QueueWait(q)));
      Inv(s') && c < |s'.cores| && (s.queues[q].callers == [] ==> Offers(s', q, Running(s, c)))
  {
    InvRunning(s, c);
    StepKeepsInv(s, c, QueueWait(q));
    WaitOutcome(s, c, q);
  }

  /** The caller comes first: with no handler waiting, the call stays as it was made, whatever all the cores
      do, until a handler takes it; and it is that call, but for the upper bits of the number of the SWI,
      that the handler gets. */
  lemma CallThenWait(s: State, c: nat, q: nat, op: nat, acts: seq<Act>)
    requires CanStep(s, Act(c, QueueCall(q, op))) && IsRun(Next(s, Act(c, QueueCall(q, op))), acts)
    requires q < |s.queues| && s.queues[q].handlers == [] && s.cores[c].ring != []
    ensures KeptForHandler(Next(s, Act(c, QueueCall(q, op))), acts, q, Running(s, c), op, c)
  {
    CallStep(s, c, q, op);
    CallerWaits(Next(s, Act(c, QueueCall(q, op))), acts, q, Running(s, c), op, c);
  }

  /** The handler comes first: with no caller waiting, it stays until it is given a call, which it gets as it
      was made, and runs on the core of the caller. */
  lemma WaitThenCall(s: State, c: nat, q: nat, acts: seq<Act>)
    requires CanStep(s, Act(c, QueueWait(q))) && IsRun(Next(s, Act(c, QueueWait(q))), acts)
    requires q < |s.queues| && s.queues[q].callers == [] && s.cores[c].ring != []
    ensures KeptForCaller(Next(s, Act(c, QueueWait(q))), acts, q, Running(s, c))
  {
    WaitStep(s, c, q);
    HandlerWaits(Next(s, Act(c, QueueWait(q))), acts, q, Running(s, c));
  }

  // ----- who comes first

  /** Queue q is left as it is by all that is neither a call to it nor a wait at it. */
  lemma OthersLeaveQueue(s: State, a: Act, q: nat)
    requires CanStep(s, a) && q < |s.queues|
    requires a.event != QueueWait(q) && !(a.event.QueueCall? && a.event.queue == q)
    ensures q < |Next(s, a).queues| && Next(s, a).queues[q] == s.queues[q]
  {
    InvRunning(s, a.core);
    if a.event.Create? || a.event.QueueCreate? {
      CreateLeaves(s, a.core, q);
    } else if a.event.QueueWait? {
      WaitLeaves(s, a.core, a.event.queue, q);
    } else if a.event.QueueCall? {
      CallLeaves(s, a.core, a.event.queue, a.event.swi, q);
    } else {
      QuietStep(s, a.core, a.event);
    }
  }

  ghost predicate Leaves(s: State, o: Option<State>, q: nat)
    requires q < |s.queues|
  {
    o.Some? ==> q < |o.value.queues| && o.value.queues[q] == s.queues[q]
  }

  lemma CreateLeaves(s: State, c: nat, q: nat)
    requires Ready(s, c) && q < |s.queues|
    ensures Leaves(s, DoCreate(s, c), q) && Leaves(s, Some(s.(queues := s.queues + [Queue([], [])])), q)
  {
  }

  lemma WaitLeaves(s: State, c: nat, p: nat, q: nat)
    requires Ready(s, c) && q < |s.queues| && p != q
    ensures Leaves(s, DoQueueWait(s, c, p), q)
  {
  }

  lemma CallLeaves(s: State, c: nat, p: nat, op: nat, q: nat)
    requires Ready(s, c) && q < |s.queues| && p != q
    ensures Leaves(s, DoQueueCall(s, c, p, op), q)
  {
  }

  /** A run with neither calls to queue q nor waits at it */
  predicate Undisturbed(acts: seq<Act>, q: nat) {
    forall k :: 0 <= k < |acts| ==>
      acts[k].event != QueueWait(q) && !(acts[k].event.QueueCall? && acts[k].event.queue == q)
  }

  lemma {:induction false} QueueStays(s: State, acts: seq<Act>, q: nat)
    requires IsRun(s, acts) && q < |s.queues| && Undisturbed(acts, q)
    ensures q < |End(s, acts).queues| && End(s, acts).queues[q] == s.queues[q]
    decreases |acts|
  {
    if acts != [] {
      OthersLeaveQueue(s, acts[0], q);
      assert Undisturbed(acts[1..], q);
      QueueStays(Next(s, acts[0]), acts[1..], q);
    }
  }

  /** A call that finds no handler goes in front of those that wait already, and a handler that finds no call in front
      of the other handlers. */
  lemma JoinsInFront(s: State, c: nat, q: nat, op: nat)
    requires Inv(s) && Able(s, c) && q < |s.queues| && Running(s, c) != s.cores[c].idle
    ensures s.queues[q].handlers == [] ==>
      var o := DoQueueCall(s, c, q, op);
      o.Some? && q < |o.value.queues| && o.value.queues[q] == Queue([Running(s, c)] + s.queues[q].callers, [])
    ensures s.queues[q].callers == [] ==>
      var o := DoQueueWait(s, c, q);
      o.Some? && q < |o.value.queues| && o.value.queues[q] == Queue([], [Running(s, c)] + s.queues[q].handlers)
  {
    QueueWaitKeeps(s, c, q);
    QueueCallKeeps(s, c, q, op);
    StopSound(s, c);
  }

  /** The last call is the first to be handled: whoever waited already, and whatever all the cores do until the next
      handler waits there, that one gets control of the task that called last. */
  lemma LastCallFirst(s: State, c: nat, q: nat, op: nat, acts: seq<Act>, a: Act)
    requires CanStep(s, Act(c, QueueCall(q, op))) && q < |s.queues| && s.queues[q].handlers == [] && Ready(s, c)
    requires IsRun(Next(s, Act(c, QueueCall(q, op))), acts) && Undisturbed(acts, q) && a.event == QueueWait(q)
    requires CanStep(End(Next(s, Act(c, QueueCall(q, op))), acts), a)
    ensures var u := End(Next(s, Act(c, QueueCall(q, op))), acts);
      a.core < |u.cores| && u.cores[a.core].ring != [] && HandsTo(Next(u, a), a.core, Running(u, a.core), Running(s, c))
  {
    InvRunning(s, c);
    JoinsInFront(s, c, q, op);
    QueueStays(Next(s, Act(c, QueueCall(q, op))), acts, q);
    WaitTakesFirst(End(Next(s, Act(c, QueueCall(q, op))), acts), a, q);
  }

  lemma WaitTakesFirst(u: State, a: Act, q: nat)
    requires CanStep(u, a) && a.event == QueueWait(q) && q < |u.queues| && u.queues[q].callers != []
    ensures u.cores[a.core].ring != [] && HandsTo(Next(u, a), a.core, Running(u, a.core), u.queues[q].callers[0])
  {
    InvRunning(u, a.core);
    WaitOutcome(u, a.core, q);
  }

  lemma CallFindsFirst(u: State, a: Act, q: nat)
    requires CanStep(u, a) && a.event.QueueCall? && a.event.queue == q && q < |u.queues| && u.queues[q].handlers != []
    ensures u.cores[a.core].ring != [] && HandsTo(Next(u, a), a.core, u.queues[q].handlers[0], Running(u, a.core))
  {
    InvRunning(u, a.core);
    CallOutcome(u, a.core, q, a.event.swi);
  }

  /** And the last handler to wait is the first to be given a call. */
  lemma LastHandlerFirst(s: State, c: nat, q: nat, acts: seq<Act>, a: Act)
    requires CanStep(s, Act(c, QueueWait(q))) && q < |s.queues| && s.queues[q].callers == [] && Ready(s, c)
    requires IsRun(Next(s, Act(c, QueueWait(q))), acts) && Undisturbed(acts, q) && a.event.QueueCall? && a.event.queue == q
    requires CanStep(End(Next(s, Act(c, QueueWait(q))), acts), a)
    ensures var u := End(Next(s, Act(c, QueueWait(q))), acts);
      a.core < |u.cores| && u.cores[a.core].ring != [] && HandsTo(Next(u, a), a.core, Running(s, c), Running(u, a.core))
  {
    InvRunning(s, c);
    JoinsInFront(s, c, q, 0);
    QueueStays(Next(s, Act(c, QueueWait(q))), acts, q);
    CallFindsFirst(End(Next(s, Act(c, QueueWait(q))), acts), a, q);
  }

  // ----- either order

  /** h waits in s, with r the first of the callers, whose call `op` came from the core of b; in u it is h that is
      there first, and r makes the same call. Either way h gets control of r, and runs; and which came first
      makes no difference to what it gets exactly when the number of the SWI is below 2^24. */
  lemma EitherOrder(s: State, a: Act, u: State, b: Act, q: nat, op: nat, h: Task, r: Task)
    requires CanStep(s, a) && a.event == QueueWait(q) && Called(s, q, r, op, b.core) && s.queues[q].callers[0] == r
    requires b.core < |s.cores| && s.cores[a.core].ring != [] && Running(s, a.core) == h
    requires CanStep(u, b) && b.event == QueueCall(q, op) && Offers(u, q, h) && u.queues[q].handlers[0] == h
    requires u.cores[b.core].ring != [] && Running(u, b.core) == r
    ensures var (s', u') := (Next(s, a), Next(u, b));
      HandsTo(s', a.core, h, r) && HandsTo(u', b.core, h, r) &&
      (s'.regs[h] == u'.regs[h] <==> op < 0x100_0000)
  {
    WaitsThenTakes(s, a, q, op, h, r, b.core);
    CallIsTaken(u, b, q, op, h, r);
    assert op % 0x100_0000 == op <==> op < 0x100_0000;
  }

  ghost predicate HandsTo(s: State, d: nat, h: Task, r: Task) {
    h in s.regs && r in s.controllers && s.controllers[r] == [h] && d < |s.cores| && s.cores[d].ring != [] && Running(s, d) == h
  }

  lemma WaitsThenTakes(s: State, a: Act, q: nat, op: nat, h: Task, r: Task, c: nat)
    requires CanStep(s, a) && a.event == QueueWait(q) && Called(s, q, r, op, c) && s.queues[q].callers[0] == r
    requires c < |s.cores| && s.cores[a.core].ring != [] && Running(s, a.core) == h
    ensures Handled(Next(s, a), a.core, h, r, op % 0x100_0000, c)
  {
    InvRunning(s, a.core);
    OneKindWaits(s, q);
    CallerStepTaken(s, a, q, r, op, c);
  }

  lemma CallIsTaken(u: State, b: Act, q: nat, op: nat, h: Task, r: Task)
    requires CanStep(u, b) && b.event == QueueCall(q, op) && Offers(u, q, h) && u.queues[q].handlers[0] == h
    requires u.cores[b.core].ring != [] && Running(u, b.core) == r
    ensures Handled(Next(u, b), b.core, h, r, op, b.core)
  {
    InvRunning(u, b.core);
    CallOutcome(u, b.core, q, op);
  }
}
