/** The routines of OSTask/sleep.c, in place on the rings of tasks, proved against the
    queue operations of SleepQueue. */
module SleepLists {
  import opened DoublyLinkedList
  import opened SleepQueue

  /** The tasks of s hold the delays of the queue q in their saved r[0]. */
  ghost predicate Holds(s: seq<OSTask>, q: seq<Sleeper<OSTask>>)
    reads s
  {
    |s| == |q| && forall k :: 0 <= k < |s| ==> q[k].task == s[k] && q[k].delta == s[k].r0
  }

  /** t's wait is counted from that of the task that goes in front of it. */
  method WaitsLonger(t: OSTask, left: nat, ghost s: seq<OSTask>, ghost q: seq<Sleeper<OSTask>>, ghost k: nat)
    returns (ghost q1: seq<Sleeper<OSTask>>)
    requires Ring(s) && Holds(s, q) && k < |s| && t == s[k] && t.r0 > left
    modifies t`r0
    ensures q1 == q[k := Sleeper(t, q[k].delta - left)] && Holds(s, q1)
  {
    t.r0 := t.r0 - left;
    q1 := q[k := Sleeper(t, t.r0)];
  }

  /** The loop of put_to_sleep: pass the tasks that wake within `time`, and find the
      task to go in front of (the head again, for the end of the list). */
  method SkipEarlier(head: OSTask, time: nat, ghost tired: OSTask, ghost s: seq<OSTask>, ghost q: seq<Sleeper<OSTask>>)
    returns (t: OSTask, left: nat, ghost k: nat, ghost q1: seq<Sleeper<OSTask>>)
    requires Ring(s) && head == s[0] && head.r0 <= time && Holds(s, q)
    modifies (set x | x in s)`r0
    ensures 0 < k <= |s| && t == (if k < |s| then s[k] else s[0]) && Holds(s, q1)
    ensures PlacedAt(q, tired, time, q1, k, left)
  {
    t, left, k, q1 := head, time, 0, q;
    while true
      invariant Ring(s) && k < |s| && t == s[k] && Holds(s, q) && q1 == q
      invariant k == 0 ==> t.r0 <= left
      invariant Reached(q, tired, time, k, left)
      decreases |s| - k
    {
      if t.r0 <= left {
        PassedOrPlaced(q, tired, time, k, left);
        left := left - t.r0;
        t := t.next;
        k := k + 1;
        if left == 0 {
          return;
        }
        if t == head {
          assert k == |q|;
          return;
        }
      } else {
        q1 := WaitsLonger(t, left, s, q, k);
        PlacedBefore(q, tired, time, q1, k, left);
        return;
      }
    }
  }

  /** The other case of put_to_sleep: the head wakes no later than the new task. */
  method PutBehind(head: OSTask, tired: OSTask, ghost s: seq<OSTask>, ghost q: seq<Sleeper<OSTask>>)
    returns (ghost p: nat)
    requires Ring(s) && head == s[0] && Holds(s, q) && Ring([tired]) && tired !in s && head.r0 <= tired.r0
    modifies s, tired
    ensures 0 < p <= |s| && Ring(s[..p] + [tired] + s[p..])
    ensures Holds(s[..p] + [tired] + s[p..], PutToSleep(q, tired, old(tired.r0)))
  {
    var t, left;
    ghost var q1;
    t, left, p, q1 := SkipEarlier(head, tired.r0, tired, s, q);
    tired.r0 := left;
    AttachBefore(tired, t, s, p);
    HoldsInserted(s, q1, p, tired);
  }

  lemma HoldsInserted(s: seq<OSTask>, q: seq<Sleeper<OSTask>>, p: nat, tired: OSTask)
    requires Holds(s, q) && p <= |s|
    ensures Holds(s[..p] + [tired] + s[p..], q[..p] + [Sleeper(tired, tired.r0)] + q[p..])
  {
  }

  /** put_to_sleep */
  method PutTiredToSleep(head: OSTask?, tired: OSTask, ghost s: seq<OSTask>, ghost q: seq<Sleeper<OSTask>>)
    returns (l: OSTask, ghost p: nat)
    requires Heads(head, s) && Holds(s, q) && Ring([tired]) && tired !in s
    modifies s, tired
    ensures p <= |s| && Heads(l, s[..p] + [tired] + s[p..])
    ensures Holds(s[..p] + [tired] + s[p..], PutToSleep(q, tired, old(tired.r0)))
  {
    var time := tired.r0;
    var t := head;
    if t == null {
      l, p := tired, 0;
      assert [tired] == s[..0] + [tired] + s[0..];
    } else if t.r0 > time {
      t.r0 := t.r0 - time;
      l := Attach(tired, head, s);
      p := 0;
      assert [tired] + s == s[..0] + [tired] + s[0..];
    } else {
      p := PutBehind(head, tired, s, q);
      l := head;
    }
  }

  /** wakey_wakey: the woken tasks come back as a ring of their own, or null if
      there are none. */
  method WakeSleeping(head: OSTask?, ghost s: seq<OSTask>, ghost q: seq<Sleeper<OSTask>>)
    returns (l: OSTask?, list: OSTask?, ghost k: nat)
    requires Heads(head, s) && Holds(s, q) && HeadWaits(q)
    modifies s
    ensures k == |WakeyWakey(q).1| <= |s|
    ensures Heads(list, s[..k]) && Heads(l, s[k..])
    ensures Holds(s[..k], WakeyWakey(q).1) && Holds(s[k..], WakeyWakey(q).0)
    ensures forall j :: 0 <= j < k ==> s[j].r0 == 0
  {
    l, list, k := head, null, 0;
    var t := head;
    if t == null {
      return;
    }
    ghost var c := OneTickLess(t, s, q);
    if 0 < t.r0 {
      NoneExpired(q, s);
      return;
    }
    l, k := DetachExpired(head, s, c);
    list := head;
  }

  /** The first task has a tick less to wait. */
  method OneTickLess(t: OSTask, ghost s: seq<OSTask>, ghost q: seq<Sleeper<OSTask>>) returns (ghost c: seq<Sleeper<OSTask>>)
    requires Ring(s) && t == s[0] && Holds(s, q) && HeadWaits(q)
    modifies t`r0
    ensures c == Countdown(q) && Holds(s, c) && WakeyWakey(q) == (c[Expired(c)..], c[..Expired(c)])
  {
    t.r0 := t.r0 - 1;
    c := Countdown(q);
  }

  lemma NoneExpired(q: seq<Sleeper<OSTask>>, s: seq<OSTask>)
    requires s != [] && HeadWaits(q) && Holds(s, Countdown(q)) && s[0].r0 > 0
    ensures WakeyWakey(q) == (Countdown(q), []) && s[..0] == [] && s[0..] == s
  {
    var c := Countdown(q);
    assert c[0].delta > 0 && c[0..] == c;
  }

  /** The tasks with nothing left to wait become a ring of their own. */
  method DetachExpired(head: OSTask, ghost s: seq<OSTask>, ghost c: seq<Sleeper<OSTask>>)
    returns (l: OSTask?, ghost k: nat)
    requires Ring(s) && head == s[0] && Holds(s, c) && head.r0 == 0
    modifies (set x | x in s)`next, (set x | x in s)`prev
    ensures 0 < k == Expired(c) && Heads(head, s[..k]) && Heads(l, s[k..])
    ensures Holds(s[..k], c[..k]) && Holds(s[k..], c[k..])
  {
    var end;
    end, k := LastExpired(head, s, c);
    l := DetachUntil(head, end, s, k - 1);
    assert Holds(s, c);
  }

  /** The loop of wakey_wakey: the last task of those with nothing left to wait. */
  method LastExpired(head: OSTask, ghost s: seq<OSTask>, ghost c: seq<Sleeper<OSTask>>)
    returns (end: OSTask, ghost k: nat)
    requires Ring(s) && head == s[0] && Holds(s, c) && head.r0 == 0
    ensures 0 < k == Expired(c) && end == s[k - 1]
  {
    var t := head;
    end, k := t, 0;
    while true
      invariant k < |s| && t == s[k]
      invariant forall j :: 0 <= j <= k ==> c[j].delta == 0
      decreases |s| - k
    {
      end := t;
      t := t.next;
      if !(t.r0 == 0 && t != head) {
        break;
      }
      k := k + 1;
    }
    k := k + 1;
    assert end.r0 == 0;
    assert k < |s| ==> c[k].delta > 0;
    assert !(Expired(c) < k) && !(k < Expired(c));
  }

  /** add_woken: the list goes after the tasks that are already there. */
  method AddWoken(list: OSTask, head: OSTask?, ghost woken: seq<OSTask>, ghost r: seq<OSTask>) returns (l: OSTask)
    requires Heads(list, woken) && Heads(head, r) && Disjoint(woken, r)
    modifies First(woken)`prev, Last(woken)`next, First(r)`prev, Last(r)`next
    ensures Heads(l, r + woken)
  {
    l := InsertListAtHead(list, head, woken, r);
    if head != null {
      l := head;
      RingTurnsTo(woken + r, |woken|);
      assert (woken + r)[|woken|..] + (woken + r)[..|woken|] == r + woken;
    } else {
      assert woken + r == woken == r + woken;
    }
  }

  /** sleeping_tasks_add, given the heads and contents of the shared lists of sleeping
      and of runnable tasks: nothing happens to the latter. */
  method SleepingTasksAdd(sleeping: OSTask?, tired: OSTask, ghost s: seq<OSTask>, ghost q: seq<Sleeper<OSTask>>)
    returns (l: OSTask, ghost p: nat)
    requires Heads(sleeping, s) && Holds(s, q) && Valid(q) && Ring([tired]) && tired !in s && tired.r0 > 0
    modifies s, tired
    ensures p <= |s| && Heads(l, s[..p] + [tired] + s[p..])
    ensures Holds(s[..p] + [tired] + s[p..], PutToSleep(q, tired, old(tired.r0)))
    ensures Valid(PutToSleep(q, tired, old(tired.r0)))
  {
    AddKeepsValid(q, tired, tired.r0);
    l, p := PutTiredToSleep(sleeping, tired, s, q);
  }

  /** sleeping_tasks_tick: one tick for every sleeping task; those whose time has come
      join the end of the runnable list r, with r[0] nought. */
  method SleepingTasksTick(sleeping: OSTask?, runnable: OSTask?, ghost s: seq<OSTask>,
        ghost q: seq<Sleeper<OSTask>>, ghost r: seq<OSTask>)
    returns (l: OSTask?, m: OSTask?, ghost k: nat)
    requires Heads(sleeping, s) && Holds(s, q) && HeadWaits(q)
    requires Heads(runnable, r) && Disjoint(s, r)
    modifies s, r
    ensures k <= |s| && s[..k] == Tasks(WakeyWakey(q).1)
    ensures Heads(l, s[k..]) && Holds(s[k..], WakeyWakey(q).0)
    ensures Heads(m, r + s[..k])
    ensures forall j :: 0 <= j < k ==> s[j].r0 == 0
  {
    assert forall j :: 0 <= j < |r| ==> r[j] !in s;
    var list;
    l, list, k := WakeSleeping(sleeping, s, q);
    assert Heads(runnable, r);
    m := AppendWoken(list, runnable, l, s, k, r, WakeyWakey(q).0);
  }

  /** The second half of sleeping_tasks_tick */
  method AppendWoken(list: OSTask?, runnable: OSTask?, sleeping: OSTask?, ghost s: seq<OSTask>, ghost k: nat,
        ghost r: seq<OSTask>, ghost q: seq<Sleeper<OSTask>>)
    returns (m: OSTask?)
    requires k <= |s| && Distinct(s) && Disjoint(s, r)
    requires Heads(list, s[..k]) && Heads(sleeping, s[k..]) && Heads(runnable, r)
    requires Holds(s[k..], q)
    modifies First(s[..k])`prev, Last(s[..k])`next, First(r)`prev, Last(r)`next
    ensures Heads(m, r + s[..k]) && Heads(sleeping, s[k..]) && Holds(s[k..], q)
  {
    m := runnable;
    if list != null {
      assert forall j :: k <= j < |s| ==> s[j] != s[0] && s[j] != s[k - 1];
      m := AddWoken(list, runnable, s[..k], r);
    } else {
      assert r == r + s[..k];
    }
  }
}
