/** OSTask/ostask.c, OSTask/queues.c and OSTask/locks.c in place: what the SVCs and the interrupt do to the
    rings of tasks of a core and to the shared lists. Each method is given the heads of the lists and
    returns the new ones; the sequences say what is in them. */
module OSTasks {
  import opened Tasks
  import opened DoublyLinkedList
  import Queues
  import Locks
  import Scheduler

  /** stop_running_task, and its assertion that the idle task never stops: with that in the ring too there
      is always a task to go on with. */
  method StopRunningTask(running: OSTask, ghost ring: seq<OSTask>, ghost idle: nat) returns (next: OSTask)
    requires Ring(ring) && running == ring[0] && idle < |ring| && running != ring[idle]
    modifies ring
    ensures |ring| > 1 && next == ring[1] && Ring(ring[1..]) && Ring([running])
  {
    assert |ring| > 1;
    ghost var rest := ring[..0] + ring[0 + 1..];
    assert rest == ring[1..];
    next := running.next;
    Detach(running, ring, 0);
    assert Ring(rest);
  }

  /** TaskOpYield, but for the idle task */
  method Yield(running: OSTask, runnable: OSTask?, ghost ring: seq<OSTask>, ghost idle: nat, ghost r: seq<OSTask>)
    returns (resume: OSTask, newRunnable: OSTask?)
    requires Ring(ring) && running == ring[0] && idle < |ring| && running != ring[idle]
    requires Heads(runnable, r) && Disjoint(ring, r)
    modifies ring, r
    ensures |ring| > 1 && resume == ring[1] && Ring(ring[1..]) && Heads(newRunnable, r + [running])
  {
    assert forall j :: 0 <= j < |r| ==> r[j] !in ring;
    resume := StopRunningTask(running, ring, idle);
    newRunnable := AttachAtTail(running, runnable, r);
  }

  /** The idle task's yield, other tasks being in the ring: it goes to the end. */
  method YieldToNext(running: OSTask, ghost ring: seq<OSTask>) returns (next: OSTask)
    requires Ring(ring) && running == ring[0] && |ring| > 1
    ensures next == ring[1] && Ring(ring[1..] + [ring[0]])
  {
    RingTurns(ring);
    next := running.next;
  }

  /** The idle task's yield, the tasks for the interrupt being done: the ring that was interrupted comes
      back behind it, turned by one, so that its head will be the last to run. */
  method Restore(idle: OSTask, interrupted: OSTask?, ghost side: seq<OSTask>) returns (running: OSTask)
    requires Ring([idle]) && Heads(interrupted, side) && idle !in side
    modifies idle, side
    ensures running == idle
    ensures side == [] ==> Ring([idle])
    ensures side != [] ==> Ring([idle] + (side[1..] + [side[0]]))
  {
    running := idle;
    if interrupted != null {
      RingTurns(side);
      running := interrupted.next;
      running := Attach(idle, running, side[1..] + [side[0]]);
    }
  }

  /** for_core: the first task on the list that is for this core is taken off it. */
  method ForCore(head: OSTask?, core: nat, ghost m: seq<OSTask>)
    returns (newHead: OSTask?, found: OSTask?, ghost k: nat)
    requires Heads(head, m)
    modifies m
    ensures k <= |m| && forall j :: 0 <= j < k ==> m[j].r0 != core
    ensures k < |m| ==> found == m[k] && m[k].r0 == core && Ring([m[k]]) && Heads(newHead, m[..k] + m[k + 1..])
    ensures k == |m| ==> found == null && newHead == head && Heads(head, m)
    ensures forall j :: 0 <= j < |m| ==> m[j].r0 == old(m[j].r0)
  {
    k := 0;
    newHead, found := head, null;
    if head == null { return; }
    var t := head;
    var going := true;
    while going
      invariant Ring(m) && forall j :: 0 <= j < |m| ==> m[j].r0 == old(m[j].r0)
      invariant k <= |m| && (going <==> k < |m|) && (going ==> t == m[k])
      invariant forall j :: 0 <= j < k ==> m[j].r0 != core
      decreases |m| - k
    {
      if t.r0 == core {
        if t == t.next {
          newHead := null;
          OnlyOne(m, k);
        } else {
          if t == head { newHead := head.next; }
          Detach(t, m, k);
        }
        found := t;
        return;
      }
      t := t.next;
      k := k + 1;
      going := t != head;
    }
  }

  lemma OnlyOne(m: seq<OSTask>, k: nat)
    requires Ring(m) && k < |m| && m[k].next == m[k]
    ensures |m| == 1 && k == 0
  {
  }

  /** TaskOpReleaseTask, to a task that has interrupts disabled: it stays on the core, and runs next. */
  method ReleaseOnThisCore(running: OSTask, release: OSTask, ghost ring: seq<OSTask>)
    requires Ring(ring) && running == ring[0] && Ring([release]) && release !in ring
    modifies ring, release
    ensures Ring([ring[0], release] + ring[1..])
  {
    var next := running.next;
    AttachBefore(release, next, ring, 1);
    assert ring[..1] + [release] + ring[1..] == [ring[0], release] + ring[1..];
  }

  /** irq_handler: the ring, without the idle task, is set aside, headed by the task that was interrupted
      or by the one after the idle task; the task for the interrupt runs, and after it the idle task. */
  method Interrupt(running: OSTask, idle: OSTask, irq: OSTask, ghost ring: seq<OSTask>, ghost k: nat)
    returns (interrupted: OSTask?, newRunning: OSTask)
    requires Ring(ring) && running == ring[0] && k < |ring| && idle == ring[k]
    requires Ring([irq]) && irq !in ring
    modifies ring, irq
    ensures newRunning == irq && Ring([irq, idle])
    ensures Heads(interrupted, ring[..k] + ring[k + 1..])
  {
    interrupted := null;
    if running.next != running {
      interrupted := if running == idle then running.next else running;
      Detach(idle, ring, k);
    } else {
      OnlyOne(ring, 0);
    }
    newRunning := Attach(irq, idle, [idle]);
    assert [irq] + [idle] == [irq, idle];
  }

  /** mpsafe_detach_OSTask_at_head, what is done while the list is held */
  method DetachHead(head: OSTask?, ghost s: seq<OSTask>) returns (newHead: OSTask?, h: OSTask?)
    requires Heads(head, s)
    modifies (set x | x in s)`next, (set x | x in s)`prev
    ensures s == [] ==> h == null && newHead == null
    ensures s != [] ==> h == s[0] && Ring([s[0]]) && Heads(newHead, s[1..])
  {
    newHead, h := head, head;
    if h == null { return; }
    if h.next == h {
      newHead := null;
      OnlyOne(s, 0);
    } else {
      newHead := h.next;
      assert newHead == s[1];
      DetachFirst(h, s);
    }
  }

  method DetachFirst(h: OSTask, ghost s: seq<OSTask>)
    requires Ring(s) && |s| > 1 && h == s[0]
    modifies (set x | x in s)`next, (set x | x in s)`prev
    ensures Ring(s[1..]) && Ring([h])
  {
    assert s[..0] + s[1..] == s[1..];
    Detach(h, s, 0);
  }

  /** A task is taken in from another list, ahead of the idle task. */
  method TakeIn(resume: OSTask, idle: OSTask) returns (running: OSTask)
    requires Ring([resume]) && Ring([idle]) && resume != idle
    modifies resume, idle
    ensures running == resume && Ring([resume, idle])
  {
    running := Attach(resume, idle, [idle]);
    assert [resume] + [idle] == [resume, idle];
  }

  /** What IdleTaskYield makes of the ring of the core, with the others it looks at: k is the place of the
      first task moving to the core. */
  ghost function IdleYielded<T>(ring: seq<T>, masked: bool, side: seq<T>, m: seq<T>, k: nat, r: seq<T>): seq<T>
    requires ring != [] && k <= |m|
  {
    if |ring| > 1 then ring[1..] + [ring[0]]
    else if masked then (if side == [] then ring else ring + (side[1..] + [side[0]]))
    else if k < |m| then [m[k]] + ring
    else if r != [] then [r[0]] + ring
    else ring
  }

  /** IdleTaskYield: the next task in the ring; or, when those for an interrupt are done, the ring that was
      set aside; or a task moving to this core; or the first that may run anywhere; or none. */
  method IdleTaskYield(idle: OSTask, masked: bool, core: nat, interrupted: OSTask?, moving: OSTask?, runnable: OSTask?,
                       ghost ring: seq<OSTask>, ghost side: seq<OSTask>, ghost m: seq<OSTask>, ghost r: seq<OSTask>)
    returns (running: OSTask, newMasked: bool, newInterrupted: OSTask?, newMoving: OSTask?,
          newRunnable: OSTask?, ghost k: nat)
    requires Ring(ring) && idle == ring[0]
    requires Heads(interrupted, side) && Heads(moving, m) && Heads(runnable, r)
    requires Disjoint(ring, side) && Disjoint(ring, m) && Disjoint(ring, r) && Disjoint(m, r)
    modifies ring, side, m, r
    ensures k <= |m| && (forall j :: 0 <= j < k ==> old(m[j].r0) != core) && (k < |m| ==> old(m[k].r0) == core)
    ensures Ring(IdleYielded(ring, masked, side, m, k, r)) && running == IdleYielded(ring, masked, side, m, k, r)[0]
    ensures |ring| > 1 ==> newMasked == masked && newInterrupted == interrupted
    ensures |ring| > 1 || masked ==> newMoving == moving && newRunnable == runnable
    ensures |ring| == 1 && masked ==> !newMasked && newInterrupted == null
    ensures |ring| == 1 && !masked ==> !newMasked && newInterrupted == interrupted
    ensures |ring| == 1 && !masked ==> Heads(newMoving, if k < |m| then m[..k] + m[k + 1..] else m)
    ensures |ring| == 1 && !masked ==> Heads(newRunnable, if k < |m| || r == [] then r else r[1..])
  {
    running, newMasked, newInterrupted, newMoving, newRunnable := idle, masked, interrupted, moving, runnable;
    k := FirstFor(m, core);
    var next := idle.next;
    if next != idle {
      running := YieldToNext(idle, ring);
      return;
    }
    OnlyOne(ring, 0);
    assert ring == [idle];
    assert forall j :: 0 <= j < |m| ==> m[j] != ring[0];
    running, newMasked, newInterrupted, newMoving, newRunnable :=
      AloneInRing(idle, masked, core, interrupted, moving, runnable, side, m, k, r);
  }

  /** ... with nothing else in the ring */
  method AloneInRing(idle: OSTask, masked: bool, core: nat, interrupted: OSTask?, moving: OSTask?, runnable: OSTask?,
                     ghost side: seq<OSTask>, ghost m: seq<OSTask>, ghost k: nat, ghost r: seq<OSTask>)
    returns (running: OSTask, newMasked: bool, newInterrupted: OSTask?, newMoving: OSTask?, newRunnable: OSTask?)
    requires Ring([idle]) && Heads(interrupted, side) && Heads(moving, m) && Heads(runnable, r)
    requires Disjoint([idle], side) && Disjoint([idle], m) && Disjoint([idle], r) && Disjoint(m, r)
    requires k <= |m| && (forall j :: 0 <= j < k ==> m[j].r0 != core) && (k < |m| ==> m[k].r0 == core)
    modifies idle, side, m, r
    ensures Ring(IdleYielded([idle], masked, side, m, k, r)) && running == IdleYielded([idle], masked, side, m, k, r)[0]
    ensures !newMasked
    ensures masked ==> newInterrupted == null && newMoving == moving && newRunnable == runnable
    ensures !masked ==> newInterrupted == interrupted
    ensures !masked ==> Heads(newMoving, if k < |m| then m[..k] + m[k + 1..] else m)
    ensures !masked ==> Heads(newRunnable, if k < |m| || r == [] then r else r[1..])
  {
    running, newMasked, newInterrupted, newMoving, newRunnable := idle, false, interrupted, moving, runnable;
    assert [idle][0] == idle;
    if masked {
      running := Restore(idle, interrupted, side);
      newInterrupted := null;
    } else {
      running, newMoving, newRunnable := IdleTakesTask(idle, core, moving, runnable, m, k, r);
      assert k < |m| || r != [] ==> running != idle && [running] + [idle] == [running, idle];
    }
  }

  ghost function FirstFor(m: seq<OSTask>, core: nat): (k: nat)
    reads m
    ensures k <= |m| && (forall j :: 0 <= j < k ==> m[j].r0 != core) && (k < |m| ==> m[k].r0 == core)
  {
    if m == [] || m[0].r0 == core then 0 else 1 + FirstFor(m[1..], core)
  }

  /** The last part of it, with nothing else in the ring */
  method IdleTakesTask(idle: OSTask, core: nat, moving: OSTask?, runnable: OSTask?, ghost m: seq<OSTask>,
        ghost k: nat, ghost r: seq<OSTask>)
    returns (running: OSTask, newMoving: OSTask?, newRunnable: OSTask?)
    requires Ring([idle]) && Heads(moving, m) && Heads(runnable, r) && Disjoint(m, r)
    requires Disjoint([idle], m) && Disjoint([idle], r)
    requires k <= |m| && (forall j :: 0 <= j < k ==> m[j].r0 != core) && (k < |m| ==> m[k].r0 == core)
    modifies idle, m, r
    ensures Heads(newMoving, if k < |m| then m[..k] + m[k + 1..] else m)
    ensures Heads(newRunnable, if k < |m| || r == [] then r else r[1..])
    ensures running == if k < |m| then m[k] else if r != [] then r[0] else idle
    ensures Ring(if running != idle then [running, idle] else [idle])
  {
    newRunnable := runnable;
    var resume;
    newMoving, resume := FindTask(idle, core, moving, runnable, m, k, r);
    if resume != null {
      running := TakeMover(resume, idle, newMoving, runnable, m, k, r);
    } else {
      assert forall i :: 0 <= i < |m| ==> m[i] !in r;
      running, newRunnable := IdleTakesRunnable(idle, runnable, r);
    }
  }

  /** find_task_for_this_core; the idle task and the runnable ones are not concerned. */
  method FindTask(idle: OSTask, core: nat, moving: OSTask?, runnable: OSTask?, ghost m: seq<OSTask>,
        ghost k: nat, ghost r: seq<OSTask>)
    returns (newMoving: OSTask?, resume: OSTask?)
    requires Ring([idle]) && Heads(moving, m) && Heads(runnable, r) && Disjoint(m, r) && Disjoint([idle], m)
    requires k <= |m| && (forall j :: 0 <= j < k ==> m[j].r0 != core) && (k < |m| ==> m[k].r0 == core)
    modifies m
    ensures Heads(newMoving, if k < |m| then m[..k] + m[k + 1..] else m)
    ensures Ring([idle]) && Heads(runnable, r) && Distinct(m)
    ensures if k < |m| then resume == m[k] && Ring([m[k]]) else resume == null
  {
    assert forall j :: 0 <= j < |r| ==> r[j] !in m;
    assert [idle][0] == idle && idle !in m;
    ghost var j;
    newMoving, resume, j := ForCore(moving, core, m);
    assert !(j < k) && !(k < j);
  }

  method TakeMover(resume: OSTask, idle: OSTask, moving: OSTask?, runnable: OSTask?, ghost m: seq<OSTask>,
        ghost k: nat, ghost r: seq<OSTask>)
    returns (running: OSTask)
    requires k < |m| && resume == m[k] && Ring([resume]) && Ring([idle]) && Disjoint(m, r) && Disjoint([idle], r)
    requires Distinct(m) && Disjoint([idle], m) && Heads(moving, m[..k] + m[k + 1..]) && Heads(runnable, r)
    modifies resume, idle
    ensures running == resume && resume != idle && Ring([resume, idle])
    ensures Heads(moving, m[..k] + m[k + 1..]) && Heads(runnable, r)
  {
    RestApart(m, k, idle);
    assert forall j :: 0 <= j < |r| ==> r[j] != m[k] && r[j] != [idle][0];
    running := TakeIn(resume, idle);
  }

  lemma RestApart(m: seq<OSTask>, k: nat, x: OSTask)
    requires Distinct(m) && k < |m| && Disjoint([x], m)
    ensures var rest := m[..k] + m[k + 1..]; forall j :: 0 <= j < |rest| ==> rest[j] != m[k] && rest[j] != x
    ensures m[k] != x
  {
    var rest := m[..k] + m[k + 1..];
    forall j | 0 <= j < |rest| ensures rest[j] != m[k] && rest[j] != x {
      assert rest[j] == m[if j < k then j else j + 1] && [x][0] == x;
    }
    assert [x][0] == x;
  }

  method IdleTakesRunnable(idle: OSTask, runnable: OSTask?, ghost r: seq<OSTask>)
    returns (running: OSTask, newRunnable: OSTask?)
    requires Ring([idle]) && Heads(runnable, r) && idle !in r
    modifies idle, r
    ensures Heads(newRunnable, if r == [] then r else r[1..])
    ensures running == if r != [] then r[0] else idle
    ensures Ring(if running != idle then [running, idle] else [idle])
  {
    running, newRunnable := idle, runnable;
    if runnable != null {
      var resume;
      newRunnable, resume := DetachHead(runnable, r);
      assert forall j :: 1 <= j < |r| ==> r[j] != r[0] && r[j] != idle;
      running := TakeIn(resume, idle);
    }
  }

  /** The step of the scheduler has the same ring, and the same lists, as the code. */
  lemma IdleYieldAgrees(s: Scheduler.State, c: nat)
    requires c < |s.cores| && s.cores[c].ring != [] && s.cores[c].ring[0] == s.cores[c].idle
    ensures var core := s.cores[c];
            var k := Scheduler.ForCore(s.moving, c);
            var t := Scheduler.IdleYield(s, c);
            t.cores[c].ring == IdleYielded(core.ring, core.masked, core.sidelined, Scheduler.MoverTasks(s.moving), k, s.runnable) &&
            (|core.ring| == 1 && !core.masked ==>
              Scheduler.MoverTasks(t.moving) ==
                (if k < |s.moving| then Without(Scheduler.MoverTasks(s.moving), k) else Scheduler.MoverTasks(s.moving)) &&
              t.runnable == if k < |s.moving| || s.runnable == [] then s.runnable else s.runnable[1..])
  {
    var core := s.cores[c];
    if |core.ring| == 1 { assert core.ring == [core.idle]; }
    var k := Scheduler.ForCore(s.moving, c);
    if |core.ring| == 1 && !core.masked && k < |s.moving| {
      assert Scheduler.MoverTasks(Without(s.moving, k)) == Without(Scheduler.MoverTasks(s.moving), k);
    }
  }

  /** The tasks of the scheduler that the structures in a list are */
  ghost function Handles(handle: OSTask -> Task, ts: seq<OSTask>): (hs: seq<Task>)
    ensures |hs| == |ts| && forall k :: 0 <= k < |ts| ==> hs[k] == handle(ts[k])
  {
    seq(|ts|, k requires 0 <= k < |ts| => handle(ts[k]))
  }

  /** When a task that is not the idle task yields, the ring and the runnable list that Yield makes, of structures that
      are the scheduler's tasks, have the tasks of those after its step, and no other list has changed. */
  lemma YieldAgrees(s: Scheduler.State, c: nat, handle: OSTask -> Task, ring: seq<OSTask>, runnable: seq<OSTask>)
    requires c < |s.cores| && ring != [] && s.cores[c].ring == Handles(handle, ring)
    requires s.runnable == Handles(handle, runnable) && handle(ring[0]) != s.cores[c].idle && |ring| > 1
    ensures var o := Scheduler.DoYield(s, c);
            o.Some? && o.value == s.(
              cores := s.cores[c := s.cores[c].(ring := Handles(handle, ring[1..]))],
              runnable := Handles(handle, runnable + [ring[0]]))
  {
    assert Handles(handle, ring)[1..] == Handles(handle, ring[1..]);
    assert Handles(handle, runnable) + [handle(ring[0])] == Handles(handle, runnable + [ring[0]]);
  }

  /** So it is with a release to this core: the ring that ReleaseOnThisCore makes of one that has the tasks of the
      scheduler's ring has those of its ring after the step, and no other core's ring changes; */
  lemma ReleaseAgrees(s: Scheduler.State, c: nat, handle: OSTask -> Task, ring: seq<OSTask>, release: OSTask)
    requires c < |s.cores| && ring != [] && s.cores[c].ring == Handles(handle, ring)
    requires Scheduler.DoRelease(s, c, handle(release), true).Some?
    ensures var cores := Scheduler.DoRelease(s, c, handle(release), true).value.cores;
            |cores| == |s.cores| && cores[c].ring == Handles(handle, [ring[0], release] + ring[1..]) &&
            forall d :: 0 <= d < |cores| && d != c ==> cores[d] == s.cores[d]
  {
    var after := [ring[0], release] + ring[1..];
    assert Handles(handle, after) == [handle(ring[0]), handle(release)] + Handles(handle, ring)[1..];
  }

  /** and with an interrupt: the ring set aside is the one from which Interrupt takes the idle task. */

  lemma InterruptAgrees(s: Scheduler.State, c: nat, k: nat)
    requires c < |s.cores| && k < |s.cores[c].ring| && s.cores[c].ring[k] == s.cores[c].idle
    requires forall j :: 0 <= j < k ==> s.cores[c].ring[j] != s.cores[c].idle
    requires Scheduler.DoInterrupt(s, c).Some?
    ensures var (before, after) := (s.cores[c], Scheduler.DoInterrupt(s, c).value.cores[c]);
            before.irq == Some(after.ring[0]) && after.ring == [after.ring[0], before.idle] &&
            after.sidelined == before.ring[..k] + before.ring[k + 1..]
  {
    var core := s.cores[c];
    assert Scheduler.IndexOf(core.ring, core.idle) == k;
  }

  // ----- queues

  predicate Willing(h: OSTask, op: nat, core: nat)
    reads h
  {
    Queues.Takes(h.word, op, core)
  }

  /** The search of queue_running_OSTask: the first handler that takes such calls leaves the list. */
  method FindHandler(handlers: OSTask?, op: nat, core: nat, ghost h: seq<OSTask>)
    returns (newHandlers: OSTask?, matched: OSTask?, ghost k: nat)
    requires Heads(handlers, h)
    modifies h
    ensures k <= |h| && forall j :: 0 <= j < k ==> !old(Willing(h[j], op, core))
    ensures k < |h| ==> matched == h[k] && old(Willing(h[k], op, core)) && Ring([h[k]]) && Heads(newHandlers, h[..k] + h[k + 1..])
    ensures k == |h| ==> matched == null && newHandlers == handlers && Heads(handlers, h)
  {
    k := 0;
    newHandlers, matched := handlers, null;
    if handlers == null { return; }
    var handler := handlers;
    var going := true;
    while going
      invariant Ring(h) && newHandlers == handlers && matched == null
      invariant forall j :: 0 <= j < |h| ==> h[j].word == old(h[j].word)
      invariant k <= |h| && (going <==> k < |h|) && (going ==> handler == h[k])
      invariant forall j :: 0 <= j < k ==> !old(Willing(h[j], op, core))
      decreases |h| - k
    {
      if Willing(handler, op, core) {
        matched := handler;
        if newHandlers == matched { newHandlers := matched.next; }
        if newHandlers == matched {
          newHandlers := null;
          OnlyOne(h, k);
        } else {
          Detach(matched, h, k);
        }
        return;
      }
      handler := handler.next;
      k := k + 1;
      going := handler != handlers;
    }
  }

  /** The handler found, with the words the specification has, is the one that the call goes to. */
  lemma FindHandlerAgrees(s: Scheduler.State, c: nat, q: nat, op: nat, h: seq<OSTask>, k: nat)
    requires Scheduler.Ready(s, c) && q < |s.queues| && |h| == |s.queues[q].handlers|
    requires forall j :: 0 <= j < |h| ==> s.queues[q].handlers[j] in s.words && h[j].word == s.words[s.queues[q].handlers[j]]
    requires k <= |h| && (k < |h| ==> Willing(h[k], op, c)) && forall j :: 0 <= j < k ==> !Willing(h[j], op, c)
    requires Scheduler.DoQueueCall(s, c, q, op).Some?
    ensures var (t, hs) := (Scheduler.DoQueueCall(s, c, q, op).value, s.queues[q].handlers);
            q < |t.queues| && t.queues[q].handlers == (if k < |h| then hs[..k] + hs[k + 1..] else hs) &&
            t.cores[c].ring == (if k < |h| then [hs[k]] else []) + s.cores[c].ring[1..]
  {
    var f := Queues.FirstTaker(s.queues[q].handlers, s.words, op, c);
    assert !(f < k) && !(k < f);
    assert [] + s.cores[c].ring[1..] == s.cores[c].ring[1..];
  }

  // ----- locks

  /** The part of TaskOpLockClaim that blocks: the task joins the end of the list. */
  method BlockOnLock(running: OSTask, blocked: OSTask?, ghost ring: seq<OSTask>, ghost idle: nat, ghost b: seq<OSTask>)
    returns (next: OSTask, newBlocked: OSTask?)
    requires Ring(ring) && running == ring[0] && idle < |ring| && running != ring[idle]
    requires Heads(blocked, b) && Disjoint(ring, b)
    modifies ring, b
    ensures |ring| > 1 && next == ring[1] && Ring(ring[1..]) && Heads(newBlocked, b + [running])
  {
    next, newBlocked := Yield(running, blocked, ring, idle, b);
  }

  function Wants(t: OSTask, lock: nat): bool
    reads t
  {
    t.r0 == lock
  }

  /** The registers of the blocked tasks are as the specification has them. */
  ghost predicate Blocked(b: seq<OSTask>, ws: seq<Locks.Waiter>)
    reads b
  {
    |b| == |ws| && forall j :: 0 <= j < |b| ==> Wants(b[j], ws[j].lock) && b[j].r1 == ws[j].r1
  }

  /** The search of TaskOpLockRelease: from t on to one that waits for this lock, but no further than the head
      of the list; if that is where it starts, it stops there at once. */
  method SearchFrom(first: OSTask, head: OSTask, lock: nat, ghost b: seq<OSTask>, ghost from: nat)
    returns (t: OSTask, ghost k: nat)
    requires Ring(b) && head == b[0] && from < |b| && first == b[from]
    ensures k < |b| && t == b[k]
    ensures from == 0 ==> t == head
    ensures t != head ==> Wants(t, lock)
    ensures k > 0 ==> from <= k && forall j :: from <= j < k ==> !Wants(b[j], lock)
    ensures from > 0 && k == 0 ==> forall j :: from <= j < |b| ==> !Wants(b[j], lock)
  {
    t, k := first, from;
    while t.r0 != lock && t != head
      invariant from <= k <= |b| && t == b[if k < |b| then k else 0] && (from == 0 ==> k == 0)
      invariant forall j :: from <= j < k ==> !Wants(b[j], lock)
      decreases |b| - k
    {
      t := t.next;
      k := k + 1;
    }
    if k == |b| { k := 0; }
  }

  /** A release, with the new word written as the code makes it */
  lemma HandOverAgrees(l: Locks.LockState, me: Task, lock: nat)
    requires l.blocked != [] && Locks.Owner(Locks.Word(l, lock)) == me
    ensures Locks.Release(l, me, lock) ==
      if l.blocked[0].lock != lock then (l, Locks.Kept)
      else (Locks.LockState(l.words[lock := WordHandedOver(l.blocked, lock)], l.blocked[1..]), Locks.HandedTo(l.blocked[0].task))
  {
  }

  /** TaskOpLockRelease, some task being blocked: the list, the word of the lock and the task woken are those of the
      specified release. The search starts at the head of the list, and so stops there. */
  method HandOver(blocked: OSTask, lock: nat, ghost b: seq<OSTask>, ghost l: Locks.LockState, ghost me: Task)
    returns (newBlocked: OSTask?, resume: OSTask?, word: nat)
    requires Heads(blocked, b) && Blocked(b, l.blocked) && Locks.Owner(Locks.Word(l, lock)) == me
    modifies b
    ensures var (l', r) := Locks.Release(l, me, lock);
      if resume == null then r == Locks.Kept && l' == l && newBlocked == blocked && Heads(blocked, b) && Blocked(b, l.blocked)
      else
        r == Locks.HandedTo(l.blocked[0].task) && resume == b[0] && Ring([b[0]]) && resume.r0 == 0 &&
        Heads(newBlocked, b[1..]) && Blocked(b[1..], l'.blocked) && Locks.Word(l', lock) == word
  {
    newBlocked, resume, word := blocked, null, 0;
    var t;
    ghost var k;
    t, k := SearchFrom(blocked, blocked, lock, b, 0);
    HandOverAgrees(l, me, lock);
    if t.r0 == lock {
      resume := t;
      newBlocked, word := HandOverTo(resume, lock, b, l);
    }
  }

  /** The task found, which is the head of the list, leaves it, and becomes the owner. */
  method HandOverTo(resume: OSTask, lock: nat, ghost b: seq<OSTask>, ghost l: Locks.LockState)
    returns (newBlocked: OSTask?, word: nat)
    requires Heads(resume, b) && Blocked(b, l.blocked)
    modifies b
    ensures Ring([resume]) && resume.r0 == 0 && Heads(newBlocked, b[1..]) && Blocked(b[1..], l.blocked[1..])
    ensures word == WordHandedOver(l.blocked, lock)
  {
    var t;
    newBlocked, t := DetachHead(resume, b);
    assert Blocked(b[1..], l.blocked[1..]);
    word := NewOwner(resume, newBlocked, lock, b[1..], l.blocked);
    assert forall j :: 0 <= j < |b[1..]| ==> b[1..][j] != b[0];
    resume.r0 := 0;
  }

  ghost function WordHandedOver(ws: seq<Locks.Waiter>, lock: nat): nat
    requires ws != []
  {
    if exists w :: w in ws[1..] && w.lock == lock then ws[0].r1 - ws[0].r1 % 2 + 1 else ws[0].r1
  }

  lemma StillWantedAgrees(b: seq<OSTask>, ws: seq<Locks.Waiter>, lock: nat)
    requires Blocked(b, ws)
    ensures (exists j :: 0 <= j < |b| && Wants(b[j], lock)) <==> exists w :: w in ws && w.lock == lock
  {
    if j :| 0 <= j < |b| && Wants(b[j], lock) { assert ws[j] in ws && ws[j].lock == lock; }
    if w :| w in ws && w.lock == lock {
      var j :| 0 <= j < |ws| && ws[j] == w;
      assert Wants(b[j], lock);
    }
  }

  /** The word of the lock: what the new owner has in r[1], with the wanted bit if any other waits for it */
  method NewOwner(resume: OSTask, others: OSTask?, lock: nat, ghost b: seq<OSTask>, ghost ws: seq<Locks.Waiter>)
    returns (word: nat)
    requires ws != [] && resume.r1 == ws[0].r1 && Heads(others, b) && Blocked(b, ws[1..])
    ensures word == WordHandedOver(ws, lock)
  {
    word := resume.r1;
    var wanted := StillWanted(others, lock, b);
    StillWantedAgrees(b, ws[1..], lock);
    if wanted { word := word - word % 2 + 1; }
  }

  /** Does any task on the list wait for the lock? */
  method StillWanted(head: OSTask?, lock: nat, ghost s: seq<OSTask>) returns (wanted: bool)
    requires Heads(head, s)
    ensures wanted <==> exists j :: 0 <= j < |s| && Wants(s[j], lock)
  {
    wanted := false;
    if head == null { return; }
    var t := head;
    ghost var k := 0;
    var going := true;
    while going
      invariant k <= |s| && (going ==> k < |s| && t == s[k] && !wanted)
      invariant wanted ==> k > 0 && Wants(s[k - 1], lock)
      invariant !wanted ==> forall j :: 0 <= j < k ==> !Wants(s[j], lock)
      invariant !going && !wanted ==> k == |s|
      decreases |s| - k
    {
      if t.r0 == lock { wanted := true; }
      t := t.next;
      k := k + 1;
      going := t != head && !wanted;
    }
  }
}
