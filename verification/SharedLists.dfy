/** The steps of the scheduler do to the lists that cores share what the operations of MpsafeList mean: for the runnable
    list, the sleep queue and the list of tasks on the move. An item of a list is a task, with its saved r[0]. */
module SharedLists {
  import opened Tasks
  import opened SleepQueue
  import opened ListMachine
  import M = MpsafeList
  import ListUpdates
  import opened Scheduler

  /** l holds these tasks. */
  predicate Lists(l: seq<Node>, ts: seq<Task>) {
    SleepQueue.Tasks(l) == ts
  }

  lemma TasksOf(a: seq<Node>, b: seq<Node>)
    ensures SleepQueue.Tasks(a + b) == SleepQueue.Tasks(a) + SleepQueue.Tasks(b)
  {
  }

  /** What the list comes to, and what is handed back */
  ghost predicate Becomes(op: M.Op, l: seq<Node>, ts: seq<Task>, out: seq<Task>) {
    Lists(op.effect(l).list, ts) && Lists(op.effect(l).out, out)
  }

  /** A task that yields is inserted at the tail; */
  lemma YieldInserts(s: State, c: nat, l: seq<Node>, x: Node)
    requires c < |s.cores| && s.cores[c].ring != [] && DoYield(s, c).Some? && Running(s, c) != s.cores[c].idle
    requires Lists(l, s.runnable) && x.task == Running(s, c)
    ensures Becomes(ListUpdates.AtTail(x), l, DoYield(s, c).value.runnable, [])
  {
    TasksOf(l, [x]);
    assert SleepQueue.Tasks([x]) == [x.task];
  }

  /** as are one that is released, and one that is granted a lock; */
  lemma ReleaseInserts(s: State, c: nat, t: Task, l: seq<Node>, x: Node)
    requires c < |s.cores| && s.cores[c].ring != [] && DoRelease(s, c, t, false).Some?
    requires Lists(l, s.runnable) && x.task == t
    ensures Becomes(ListUpdates.AtTail(x), l, DoRelease(s, c, t, false).value.runnable, [])
  {
    TasksOf(l, [x]);
    assert SleepQueue.Tasks([x]) == [x.task];
  }

  /** the idle task detaches the head, if it finds no task that wants its core, */
  lemma IdleDetaches(s: State, c: nat, l: seq<Node>)
    requires c < |s.cores| && s.cores[c].ring == [s.cores[c].idle] && !s.cores[c].masked
    requires ForCore(s.moving, c) == |s.moving| && Lists(l, s.runnable)
    ensures var s' := IdleYield(s, c);
      Becomes(ListUpdates.DetachHead(), l, s'.runnable, if s.runnable == [] then [] else [s'.cores[c].ring[0]])
  {
    if l != [] {
      TasksOf([l[0]], l[1..]);
      assert [l[0]] + l[1..] == l && SleepQueue.Tasks([l[0]]) == [l[0].task];
    }
  }

  /** The list of tasks on the move, with the core that each wants */
  predicate ListsMovers(l: seq<Node>, ms: seq<Mover>) {
    |l| == |ms| && forall k :: 0 <= k < |l| ==> l[k] == Sleeper(ms[k].task, ms[k].core)
  }

  lemma Finds(ms: seq<Mover>, l: seq<Node>, c: nat)
    requires ListsMovers(l, ms)
    ensures var k := ForCore(ms, c);
      if k < |ms| then Becomes(ListUpdates.ForCore(c), l, MoverTasks(Without(ms, k)), [ms[k].task])
      else Becomes(ListUpdates.ForCore(c), l, MoverTasks(ms), [])
  {
    var k := ForCore(ms, c);
    ListUpdates.FirstIs(l, c, k);
    if k < |l| {
      assert SleepQueue.Tasks(Without(l, k)) == MoverTasks(Without(ms, k));
      assert SleepQueue.Tasks([l[k]]) == [ms[k].task];
    }
  }

  /** and detaches the first that does, if it finds one. */
  lemma IdleFinds(s: State, c: nat, l: seq<Node>)
    requires c < |s.cores| && s.cores[c].ring == [s.cores[c].idle] && !s.cores[c].masked && ListsMovers(l, s.moving)
    ensures var (s', found) := (IdleYield(s, c), ForCore(s.moving, c) < |s.moving|);
      && Becomes(ListUpdates.ForCore(c), l, MoverTasks(s'.moving), if found then [s'.cores[c].ring[0]] else [])
      && (found ==> s'.runnable == s.runnable)
  {
    Finds(s.moving, l, c);
  }

  /** A task goes to sleep as put_to_sleep has it; */
  lemma SleepPuts(s: State, c: nat, n: nat)
    requires c < |s.cores| && s.cores[c].ring != [] && n > 0 && DoSleep(s, c, n).Some?
    ensures ListUpdates.PutDown(Sleeper(Running(s, c), n)).effect(s.sleeping) == M.Made(DoSleep(s, c, n).value.sleeping, [])
  {
  }

  /** and a tick wakes the tasks that are due, and adds them to those that may run. */
  lemma TickWakes(s: State, l: seq<Node>)
    requires HeadWaits(s.sleeping) && Lists(l, s.runnable)
    ensures var d := ListUpdates.WakeUp().effect(s.sleeping);
      d.list == DoTick(s).sleeping && Becomes(ListUpdates.AddWoken(d.out), l, DoTick(s).runnable, [])
  {
    TasksOf(l, ListUpdates.WakeUp().effect(s.sleeping).out);
  }
}
