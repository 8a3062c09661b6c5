/** The sleep queue (OSTask/sleep.c).

    Sleeping tasks are listed in the order they will wake, each with the number of
    ticks between its wakening and that of the task before it.  The queue stands for
    a plain map from sleeping tasks to the ticks each still has to wait.
 */
module SleepQueue {

  datatype Sleeper<T> = Sleeper(task: T, delta: nat)

  function Tasks<T>(q: seq<Sleeper<T>>): (ts: seq<T>)
    ensures |ts| == |q|
    ensures forall k :: 0 <= k < |q| ==> ts[k] == q[k].task
  {
    seq(|q|, k requires 0 <= k < |q| => q[k].task)
  }

  /** put_to_sleep: add t, to wake n ticks from now. */
  function PutToSleep<T>(q: seq<Sleeper<T>>, t: T, n: nat): seq<Sleeper<T>> {
    if q == [] then
      [Sleeper(t, n)]
    else if q[0].delta > n then
      [Sleeper(t, n), Sleeper(q[0].task, q[0].delta - n)] + q[1..]
    else if q[0].delta == n then
      [q[0], Sleeper(t, 0)] + q[1..]
    else
      [q[0]] + PutToSleep(q[1..], t, n - q[0].delta)
  }

  /** The number of tasks at the front with nothing left to wait. */
  function Expired<T>(q: seq<Sleeper<T>>): (k: nat)
    ensures k <= |q| && (forall j :: 0 <= j < k ==> q[j].delta == 0)
    ensures k < |q| ==> q[k].delta > 0
  {
    if q == [] || q[0].delta > 0 then 0 else 1 + Expired(q[1..])
  }

  function Countdown<T>(q: seq<Sleeper<T>>): seq<Sleeper<T>>
    requires HeadWaits(q)
  {
    if q == [] then q else q[0 := Sleeper(q[0].task, q[0].delta - 1)]
  }

  /** wakey_wakey: one tick passes.  The first part of the result is the queue left
      behind, the second the woken tasks. */
  function WakeyWakey<T>(q: seq<Sleeper<T>>): (seq<Sleeper<T>>, seq<Sleeper<T>>)
    requires HeadWaits(q)
  {
    var k := Expired(Countdown(q));
    (Countdown(q)[k..], Countdown(q)[..k])
  }

  ghost predicate HeadWaits<T>(q: seq<Sleeper<T>>) {
    q != [] ==> q[0].delta > 0
  }

  /** Between operations the first task has at least a tick to wait, so that taking
      one from an unsigned number never wraps, and nobody is listed twice. */
  ghost predicate Valid<T>(q: seq<Sleeper<T>>) {
    HeadWaits(q) && Unique(q)
  }

  ghost predicate Unique<T>(q: seq<Sleeper<T>>) {
    forall j, k :: 0 <= j < k < |q| ==> q[j].task != q[k].task
  }

  ghost function Names<T>(q: seq<Sleeper<T>>): set<T> {
    set k | 0 <= k < |q| :: q[k].task
  }

  ghost predicate Asleep<T>(q: seq<Sleeper<T>>, t: T) {
    t in Names(q)
  }

  // ----- the map the queue stands for

  /** The sum of the first k delays. */
  ghost function Sum<T>(q: seq<Sleeper<T>>, k: nat): nat
    requires k <= |q|
  {
    if k == 0 then 0 else Sum(q, k - 1) + q[k - 1].delta
  }

  /** The ticks each sleeping task still has to wait. */
  ghost function TicksLeft<T>(q: seq<Sleeper<T>>): (m: map<T, nat>)
    ensures m.Keys == Names(q)
  {
    assert q[..|q|] == q;
    Waits(q, |q|)
  }

  ghost function Waits<T>(q: seq<Sleeper<T>>, k: nat): (m: map<T, nat>)
    requires k <= |q|
    ensures m.Keys == Names(q[..k])
  {
    if k == 0 then map[]
    else
      assert Names(q[..k]) == Names(q[..k - 1]) + {q[k - 1].task} by { NamesGrow(q, k); }
      Waits(q, k - 1)[q[k - 1].task := Sum(q, k)]
  }

  lemma NamesGrow<T>(q: seq<Sleeper<T>>, k: nat)
    requires 0 < k <= |q|
    ensures Names(q[..k]) == Names(q[..k - 1]) + {q[k - 1].task}
  {
    forall j | 0 <= j < k ensures q[..k][j].task in Names(q[..k - 1]) + {q[k - 1].task} {
      if j < k - 1 { assert q[..k - 1][j].task == q[j].task; }
    }
    forall t | t in Names(q[..k - 1]) ensures t in Names(q[..k]) {
      var j :| 0 <= j < k - 1 && q[..k - 1][j].task == t;
      assert q[..k][j].task == t;
    }
    assert q[..k][k - 1].task == q[k - 1].task;
  }

  lemma {:induction false} WaitsAt<T>(q: seq<Sleeper<T>>, k: nat, j: nat)
    requires Unique(q) && j < k <= |q|
    ensures q[j].task in Waits(q, k) && Waits(q, k)[q[j].task] == Sum(q, j + 1)
  {
    if j < k - 1 { WaitsAt(q, k - 1, j); }
  }

  lemma TicksAt<T>(q: seq<Sleeper<T>>, j: nat)
    requires Unique(q) && j < |q|
    ensures q[j].task in TicksLeft(q) && TicksLeft(q)[q[j].task] == Sum(q, j + 1)
  {
    WaitsAt(q, |q|, j);
  }

  lemma {:induction false} SumsAgree<T>(q: seq<Sleeper<T>>, r: seq<Sleeper<T>>, k: nat)
    requires k <= |q| && k <= |r| && q[..k] == r[..k]
    ensures Sum(q, k) == Sum(r, k)
  {
    if k > 0 {
      assert q[k - 1] == q[..k][k - 1] == r[..k][k - 1] == r[k - 1];
      assert q[..k - 1] == q[..k][..k - 1] == r[..k - 1];
      SumsAgree(q, r, k - 1);
    }
  }

  lemma {:induction false} SumSplits<T>(q: seq<Sleeper<T>>, k: nat, n: nat)
    requires k + n <= |q|
    ensures Sum(q, k + n) == Sum(q, k) + Sum(q[k..], n)
  {
    if n > 0 {
      SumSplits(q, k, n - 1);
      assert q[k..][n - 1] == q[k + n - 1];
    }
  }

  lemma {:induction false} SumGrows<T>(q: seq<Sleeper<T>>, j: nat, k: nat)
    requires j <= k <= |q|
    ensures Sum(q, j) <= Sum(q, k)
  {
    if j < k { SumGrows(q, j, k - 1); }
  }

  // ----- each operation means what it should on the map

  /** The rest of the queue after a task with delay d has been put before it. */
  function Behind<T>(r: seq<Sleeper<T>>, d: nat): seq<Sleeper<T>>
    requires r != [] ==> d <= r[0].delta
  {
    if r == [] then r else [Sleeper(r[0].task, r[0].delta - d)] + r[1..]
  }

  /** A task that is to wait n ticks belongs at place p, with the part d of its time that those before it do
      not account for: after everybody who wakes before it, and right behind the first of those who wake at
      the same tick. */
  ghost predicate Belongs<T>(q: seq<Sleeper<T>>, n: nat, p: nat, d: nat) {
    && p <= |q| && Sum(q, p) + d == n
    && (p < |q| ==> d <= q[p].delta && (d == q[p].delta ==> p > 0 && d == 0))
    && (n > 0 && d == 0 ==> p > 0 && Sum(q, p - 1) < n)
  }

  lemma {:induction false} PutToSleepShape<T>(q: seq<Sleeper<T>>, t: T, n: nat) returns (p: nat, d: nat)
    ensures Belongs(q, n, p, d)
    ensures PutToSleep(q, t, n) == q[..p] + [Sleeper(t, d)] + Behind(q[p..], d)
    decreases |q|
  {
    if q == [] {
      p, d := 0, n;
    } else if q[0].delta > n {
      p, d := 0, n;
      assert q[0..] == q;
    } else if q[0].delta == n {
      p, d := 1, 0;
      assert Sum(q, 1) == Sum(q, 0) + q[0].delta;
      assert Behind(q[1..], 0) == q[1..];
    } else {
      p, d := PutToSleepShape(q[1..], t, n - q[0].delta);
      BelongsBehind(q, n, p, d);
      assert q[1..][p..] == q[1 + p..];
      assert q[..1 + p] == [q[0]] + q[1..][..p];
      p := p + 1;
    }
  }

  lemma BelongsBehind<T>(q: seq<Sleeper<T>>, n: nat, p: nat, d: nat)
    requires q != [] && q[0].delta < n && Belongs(q[1..], n - q[0].delta, p, d)
    ensures Belongs(q, n, p + 1, d)
  {
    assert Sum(q, 1) == Sum(q, 0) + q[0].delta;
    SumSplits(q, 1, p);
    if d == 0 { SumSplits(q, 1, p - 1); }
  }

  /** r is q with x inserted at p; the one behind has so much less to wait. */
  ghost predicate Inserted<T>(q: seq<Sleeper<T>>, r: seq<Sleeper<T>>, p: nat, x: Sleeper<T>) {
    && p <= |q| && |r| == |q| + 1 && r[p] == x
    && (forall k :: 0 <= k < p ==> r[k] == q[k])
    && (p < |q| ==> r[p + 1].task == q[p].task && r[p + 1].delta + x.delta == q[p].delta)
    && (forall k :: p + 1 < k < |r| ==> r[k] == q[k - 1])
  }

  lemma PutToSleepInserts<T>(q: seq<Sleeper<T>>, t: T, n: nat) returns (p: nat, d: nat)
    ensures Belongs(q, n, p, d) && Inserted(q, PutToSleep(q, t, n), p, Sleeper(t, d))
  {
    p, d := PutToSleepShape(q, t, n);
  }

  /** Inserting a task leaves the time of everybody else as it was. */
  lemma {:induction false} SumsAfterInsert<T>(q: seq<Sleeper<T>>, r: seq<Sleeper<T>>, p: nat, x: Sleeper<T>, k: nat)
    requires Inserted(q, r, p, x) && p < k <= |q|
    ensures Sum(r, k + 1) == Sum(q, k)
  {
    if k == p + 1 {
      SumsBeforeInsert(q, r, p, x, p);
      assert Sum(r, p + 1) == Sum(r, p) + x.delta;
      assert Sum(r, p + 2) == Sum(r, p + 1) + r[p + 1].delta;
    } else {
      SumsAfterInsert(q, r, p, x, k - 1);
      assert r[k] == q[k - 1];
    }
  }

  lemma SumsBeforeInsert<T>(q: seq<Sleeper<T>>, r: seq<Sleeper<T>>, p: nat, x: Sleeper<T>, k: nat)
    requires Inserted(q, r, p, x) && k <= p
    ensures Sum(r, k) == Sum(q, k)
  {
    assert r[..k] == q[..k];
    SumsAgree(r, q, k);
  }

  /** r is q with t inserted at p, as far as the names go. */
  ghost predicate NamesInserted<T>(q: seq<Sleeper<T>>, r: seq<Sleeper<T>>, p: nat, t: T) {
    && p <= |q| && |r| == |q| + 1 && r[p].task == t
    && (forall k :: 0 <= k < p ==> r[k].task == q[k].task)
    && (forall k :: p < k < |r| ==> r[k].task == q[k - 1].task)
  }

  lemma InsertedUnique<T>(q: seq<Sleeper<T>>, r: seq<Sleeper<T>>, p: nat, t: T)
    requires NamesInserted(q, r, p, t) && Unique(q) && !Asleep(q, t)
    ensures Unique(r)
  {
    forall k | 0 <= k < |q| ensures q[k].task != t {
      assert q[k].task in Names(q);
    }
  }

  lemma InsertedNames<T>(q: seq<Sleeper<T>>, r: seq<Sleeper<T>>, p: nat, t: T)
    requires NamesInserted(q, r, p, t)
    ensures Names(r) == Names(q) + {t}
  {
    forall k | 0 <= k < |q| ensures q[k].task in Names(r) {
      assert r[if k < p then k else k + 1].task == q[k].task;
    }
    forall k | 0 <= k < |r| ensures r[k].task in Names(q) + {t} {
      if k != p { assert q[if k < p then k else k - 1].task == r[k].task; }
    }
    assert r[p].task in Names(r);
  }

  /** Having passed k tasks, `left` of the n ticks are still to be accounted for. */
  ghost predicate Reached<T>(q: seq<Sleeper<T>>, t: T, n: nat, k: nat, left: nat) {
    k <= |q| && PutToSleep(q, t, n) == q[..k] + PutToSleep(q[k..], t, left)
  }

  lemma ReachedStep<T>(q: seq<Sleeper<T>>, t: T, n: nat, k: nat, left: nat)
    requires Reached(q, t, n, k, left) && k < |q|
    ensures q[k].delta < left ==> Reached(q, t, n, k + 1, left - q[k].delta)
    ensures q[k].delta == left ==> PutToSleep(q, t, n) == q[..k + 1] + [Sleeper(t, 0)] + q[k + 1..]
    ensures q[k].delta > left ==>
      PutToSleep(q, t, n) == q[..k] + [Sleeper(t, left)] + q[k := Sleeper(q[k].task, q[k].delta - left)][k..]
  {
    var rest := q[k..];
    assert rest[0] == q[k] && rest[1..] == q[k + 1..];
    PutOne(rest, t, left);
    if q[k].delta < left {
      Passed(q, k, PutToSleep(q[k + 1..], t, left - q[k].delta));
    } else if q[k].delta == left {
      Passed(q, k, [Sleeper(t, 0)] + q[k + 1..]);
      assert [q[k], Sleeper(t, 0)] + q[k + 1..] == [q[k]] + ([Sleeper(t, 0)] + q[k + 1..]);
    } else {
      var x := Sleeper(q[k].task, q[k].delta - left);
      assert q[k := x][k..] == [x] + q[k + 1..];
      assert q[..k] + ([Sleeper(t, left), x] + q[k + 1..]) == q[..k] + [Sleeper(t, left)] + ([x] + q[k + 1..]);
    }
  }

  /** The place is at k, with q1 for the queue but for the new task, which waits for `left` more ticks there. */
  ghost predicate PlacedAt<T>(q: seq<Sleeper<T>>, t: T, n: nat, q1: seq<Sleeper<T>>, k: nat, left: nat) {
    k <= |q1| && PutToSleep(q, t, n) == q1[..k] + [Sleeper(t, left)] + q1[k..]
  }

  /** The task at k wakes later than the new one, and then counts from that. */
  lemma PlacedBefore<T>(q: seq<Sleeper<T>>, t: T, n: nat, q1: seq<Sleeper<T>>, k: nat, left: nat)
    requires Reached(q, t, n, k, left) && k < |q| && q[k].delta > left
    requires q1 == q[k := Sleeper(q[k].task, q[k].delta - left)]
    ensures PlacedAt(q, t, n, q1, k, left)
  {
    ReachedStep(q, t, n, k, left);
    assert q1[..k] == q[..k];
  }

  /** Having passed one more task, either the place has been found, or there is more of the time left. */
  lemma PassedOrPlaced<T>(q: seq<Sleeper<T>>, t: T, n: nat, k: nat, left: nat)
    requires Reached(q, t, n, k, left) && k < |q| && q[k].delta <= left
    ensures var rest := left - q[k].delta;
      if rest == 0 || k + 1 == |q| then PlacedAt(q, t, n, q, k + 1, rest) else Reached(q, t, n, k + 1, rest)
  {
    ReachedStep(q, t, n, k, left);
    if k + 1 == |q| { assert q[k + 1..] == [] && q[..k + 1] == q; }
  }

  lemma Passed<T>(q: seq<T>, k: nat, later: seq<T>)
    requires k < |q|
    ensures q[..k] + ([q[k]] + later) == q[..k + 1] + later
  {
    assert q[..k] + [q[k]] == q[..k + 1];
  }

  lemma PutOne<T>(q: seq<Sleeper<T>>, t: T, left: nat)
    requires q != []
    ensures q[0].delta < left ==> PutToSleep(q, t, left) == [q[0]] + PutToSleep(q[1..], t, left - q[0].delta)
    ensures q[0].delta == left ==> PutToSleep(q, t, left) == [q[0], Sleeper(t, 0)] + q[1..]
    ensures q[0].delta > left ==> PutToSleep(q, t, left) == [Sleeper(t, left), Sleeper(q[0].task, q[0].delta - left)] + q[1..]
  {
  }

  /** Adding puts the task somewhere in the list, the others stay as they are. */
  lemma AddTasks<T>(q: seq<Sleeper<T>>, t: T, n: nat) returns (p: nat)
    requires HeadWaits(q)
    ensures p <= |q| && Tasks(PutToSleep(q, t, n)) == Tasks(q)[..p] + [t] + Tasks(q)[p..]
    ensures n > 0 ==> HeadWaits(PutToSleep(q, t, n))
  {
    var d;
    p, d := PutToSleepInserts(q, t, n);
    InsertedTasks(q, PutToSleep(q, t, n), p, t);
    if p > 0 { InsertedHead(q, PutToSleep(q, t, n), p, Sleeper(t, d)); }
  }

  lemma InsertedHead<T>(q: seq<Sleeper<T>>, r: seq<Sleeper<T>>, p: nat, x: Sleeper<T>)
    requires Inserted(q, r, p, x) && p > 0
    ensures r[0] == q[0]
  {
  }

  lemma InsertedTasks<T>(q: seq<Sleeper<T>>, r: seq<Sleeper<T>>, p: nat, t: T)
    requires NamesInserted(q, r, p, t)
    ensures Tasks(r) == Tasks(q)[..p] + [t] + Tasks(q)[p..]
  {
    forall k | 0 <= k < |r| ensures Tasks(r)[k] == (Tasks(q)[..p] + [t] + Tasks(q)[p..])[k] {
      assert Tasks(r)[k] == r[k].task;
    }
  }

  /** A tick splits the list: the woken tasks from the front, the rest stays. */
  lemma TickTasks<T>(q: seq<Sleeper<T>>)
    requires HeadWaits(q)
    ensures Tasks(WakeyWakey(q).1) + Tasks(WakeyWakey(q).0) == Tasks(q)
    ensures HeadWaits(WakeyWakey(q).0)
  {
    var c := Countdown(q);
    var e := Expired(c);
    assert Tasks(c) == Tasks(q);
    assert Tasks(c[..e]) == Tasks(c)[..e] && Tasks(c[e..]) == Tasks(c)[e..];
  }

  /** Adding a task gives it n ticks and changes nobody else's wait. */
  lemma AddRefines<T>(q: seq<Sleeper<T>>, t: T, n: nat)
    requires Valid(q) && !Asleep(q, t) && n > 0
    ensures Valid(PutToSleep(q, t, n))
    ensures TicksLeft(PutToSleep(q, t, n)) == TicksLeft(q)[t := n]
  {
    var p, d := PutToSleepInserts(q, t, n);
    InsertedRefines(q, PutToSleep(q, t, n), p, d, t, n);
  }

  lemma InsertedRefines<T>(q: seq<Sleeper<T>>, r: seq<Sleeper<T>>, p: nat, d: nat, t: T, n: nat)
    requires Valid(q) && !Asleep(q, t) && n > 0 && Belongs(q, n, p, d) && Inserted(q, r, p, Sleeper(t, d))
    ensures Valid(r) && TicksLeft(r) == TicksLeft(q)[t := n]
  {
    InsertedValid(q, r, p, d, t, n);
    forall y | y in Names(r) ensures TicksLeft(r)[y] == TicksLeft(q)[t := n][y] {
      TicksAfterInsert(q, r, p, d, t, n, y);
    }
  }

  lemma InsertedValid<T>(q: seq<Sleeper<T>>, r: seq<Sleeper<T>>, p: nat, d: nat, t: T, n: nat)
    requires Valid(q) && !Asleep(q, t) && n > 0 && Belongs(q, n, p, d) && Inserted(q, r, p, Sleeper(t, d))
    ensures Valid(r) && Names(r) == Names(q) + {t}
  {
    InsertedNames(q, r, p, t);
    InsertedUnique(q, r, p, t);
  }

  lemma TicksAfterInsert<T>(q: seq<Sleeper<T>>, r: seq<Sleeper<T>>, p: nat, d: nat, t: T, n: nat, y: T)
    requires Unique(q) && Unique(r) && !Asleep(q, t) && Belongs(q, n, p, d) && Inserted(q, r, p, Sleeper(t, d))
    requires y in Names(r) && Names(r) == Names(q) + {t}
    ensures TicksLeft(r)[y] == TicksLeft(q)[t := n][y]
  {
    var k :| 0 <= k < |r| && r[k].task == y;
    TicksAt(r, k);
    AddedTime(q, r, p, Sleeper(t, d), n, k);
  }

  lemma AddKeepsValid<T>(q: seq<Sleeper<T>>, t: T, n: nat)
    requires Valid(q) && (forall k :: 0 <= k < |q| ==> q[k].task != t) && n > 0
    ensures Valid(PutToSleep(q, t, n))
  {
    AddRefines(q, t, n);
  }

  lemma AddedTime<T>(q: seq<Sleeper<T>>, r: seq<Sleeper<T>>, p: nat, x: Sleeper<T>, n: nat, k: nat)
    requires Inserted(q, r, p, x) && Sum(q, p) + x.delta == n
    requires Unique(q) && !Asleep(q, x.task) && k < |r|
    ensures Sum(r, k + 1) == TicksLeft(q)[x.task := n][r[k].task]
  {
    if k < p {
      SumsBeforeInsert(q, r, p, x, k + 1);
      OtherTime(q, x.task, n, k);
    } else if k == p {
      SumsBeforeInsert(q, r, p, x, p);
    } else {
      SumsAfterInsert(q, r, p, x, k);
      OtherTime(q, x.task, n, k - 1);
    }
  }

  lemma OtherTime<T>(q: seq<Sleeper<T>>, t: T, n: nat, j: nat)
    requires Unique(q) && !Asleep(q, t) && j < |q|
    ensures TicksLeft(q)[t := n][q[j].task] == Sum(q, j + 1)
  {
    TicksAt(q, j);
  }

  /** One tick, by position: the first e tasks had one tick left, the rest had more. */
  lemma TickByIndex<T>(q: seq<Sleeper<T>>, k: nat)
    requires Valid(q) && k < |q|
    ensures var (e, rest) := (Expired(Countdown(q)), WakeyWakey(q).0);
      if k < e then Sum(q, k + 1) == 1
      else Sum(q, k + 1) > 1 && Sum(rest, k - e + 1) == Sum(q, k + 1) - 1
  {
    var c := Countdown(q);
    var e := Expired(c);
    CountdownSum(q, k);
    ExpiredSum(c, e);
    if k < e {
      SumGrows(c, k + 1, e);
    } else {
      var rest := c[e..];
      SumSplits(c, e, k - e + 1);
      SumGrows(rest, 1, k - e + 1);
      assert Sum(rest, 1) == Sum(rest, 0) + rest[0].delta;
    }
  }

  lemma TickNames<T>(q: seq<Sleeper<T>>)
    requires Valid(q)
    ensures var (rest, woken) := WakeyWakey(q);
      && Valid(rest) && Names(rest) + Names(woken) == Names(q) && Names(rest) !! Names(woken)
      && (forall k :: 0 <= k < |woken| ==> woken[k].delta == 0)
  {
    var c := Countdown(q);
    var e := Expired(c);
    var (rest, woken) := WakeyWakey(q);
    forall k | 0 <= k < |q| ensures c[k].task == q[k].task && c[k] == (if k < e then woken[k] else rest[k - e]) {}
    forall k | 0 <= k < |q| ensures q[k].task in Names(rest) + Names(woken) {
      assert q[k].task == (if k < e then woken[k].task else rest[k - e].task);
    }
    forall k | 0 <= k < |rest| ensures rest[k].task in Names(q) && rest[k].task == q[k + e].task {}
    forall k | 0 <= k < |woken| ensures woken[k].task in Names(q) && woken[k].task == q[k].task {}
  }

  /** The waits after one more tick, of those who have any left. */
  ghost function OneTickLater<T>(m: map<T, nat>): map<T, nat> {
    map t | t in m && m[t] > 1 :: m[t] - 1
  }

  /** A tick takes one from every wait; the tasks that reach nought are exactly those
      woken, each with nothing left in its r[0]. */
  lemma TickRefines<T>(q: seq<Sleeper<T>>)
    requires Valid(q)
    ensures TicksLeft(WakeyWakey(q).0) == OneTickLater(TicksLeft(q))
    ensures Names(WakeyWakey(q).1) == set t | t in TicksLeft(q) && TicksLeft(q)[t] == 1
    ensures forall k :: 0 <= k < |WakeyWakey(q).1| ==> WakeyWakey(q).1[k].delta == 0
  {
    TickPartition(q);
    var (rest, woken) := (Names(WakeyWakey(q).0), Names(WakeyWakey(q).1));
    var m, m' := TicksLeft(q), TicksLeft(WakeyWakey(q).0);
    forall t | t in m
      ensures t in woken <==> m[t] == 1
      ensures t in rest <==> m[t] > 1
      ensures t in rest ==> m'[t] == m[t] - 1
    {
      TickAt(q, t);
    }
    assert m' == OneTickLater(m);
  }

  lemma TickPartition<T>(q: seq<Sleeper<T>>)
    requires Valid(q)
    ensures Names(WakeyWakey(q).0) + Names(WakeyWakey(q).1) == Names(q)
    ensures Names(WakeyWakey(q).0) !! Names(WakeyWakey(q).1)
  {
    TickNames(q);
  }

  lemma TickAt<T>(q: seq<Sleeper<T>>, t: T)
    requires Valid(q) && t in Names(q)
    ensures t in Names(WakeyWakey(q).1) ==> TicksLeft(q)[t] == 1
    ensures t in Names(WakeyWakey(q).0) ==> TicksLeft(q)[t] > 1 && TicksLeft(WakeyWakey(q).0)[t] == TicksLeft(q)[t] - 1
  {
    var (rest, woken) := WakeyWakey(q);
    if t in Names(woken) {
      var k :| 0 <= k < |woken| && woken[k].task == t;
      WokenAt(q, k);
    }
    if t in Names(rest) {
      var k :| 0 <= k < |rest| && rest[k].task == t;
      RestAt(q, k);
    }
  }

  lemma WokenAt<T>(q: seq<Sleeper<T>>, k: nat)
    requires Valid(q) && k < |WakeyWakey(q).1|
    ensures WakeyWakey(q).1[k].task in Names(q) && TicksLeft(q)[WakeyWakey(q).1[k].task] == 1
  {
    assert q[k].task == WakeyWakey(q).1[k].task;
    TicksAt(q, k);
    TickByIndex(q, k);
  }

  lemma RestAt<T>(q: seq<Sleeper<T>>, k: nat)
    requires Valid(q) && k < |WakeyWakey(q).0|
    ensures var (rest, _) := WakeyWakey(q);
      && rest[k].task in Names(q) && TicksLeft(q)[rest[k].task] > 1
      && TicksLeft(rest)[rest[k].task] == TicksLeft(q)[rest[k].task] - 1
  {
    var e := Expired(Countdown(q));
    TickKeepsValid(q);
    TickByIndex(q, k + e);
    TicksShift(q, WakeyWakey(q).0, k + e, k);
  }

  lemma TicksShift<T>(q: seq<Sleeper<T>>, r: seq<Sleeper<T>>, j: nat, k: nat)
    requires Unique(q) && Unique(r) && j < |q| && k < |r| && q[j].task == r[k].task
    requires 1 < Sum(q, j + 1) == Sum(r, k + 1) + 1
    ensures r[k].task in Names(q) && TicksLeft(q)[r[k].task] > 1 && TicksLeft(r)[r[k].task] == TicksLeft(q)[r[k].task] - 1
  {
    TicksAt(q, j);
    TicksAt(r, k);
  }

  lemma TickKeepsValid<T>(q: seq<Sleeper<T>>)
    requires Valid(q)
    ensures Valid(WakeyWakey(q).0)
  {
    TickNames(q);
  }

  lemma {:induction false} CountdownSum<T>(q: seq<Sleeper<T>>, k: nat)
    requires Valid(q) && k < |q|
    ensures Sum(q, k + 1) == Sum(Countdown(q), k + 1) + 1
  {
    if k == 0 {
      assert Sum(q, 1) == Sum(q, 0) + q[0].delta;
      assert Sum(Countdown(q), 1) == Sum(Countdown(q), 0) + q[0].delta - 1;
    } else {
      CountdownSum(q, k - 1);
    }
  }

  lemma {:induction false} ExpiredSum<T>(c: seq<Sleeper<T>>, k: nat)
    requires k <= |c| && forall j :: 0 <= j < k ==> c[j].delta == 0
    ensures Sum(c, k) == 0
  {
    if k > 0 { ExpiredSum(c, k - 1); }
  }

  /** Nobody asleep has nothing left to wait. */
  lemma SomethingLeft<T>(q: seq<Sleeper<T>>, t: T)
    requires Valid(q) && t in Names(q)
    ensures TicksLeft(q)[t] > 0
  {
    var k :| 0 <= k < |q| && q[k].task == t;
    TicksAt(q, k);
    SumGrows(q, 1, k + 1);
    assert Sum(q, 1) == Sum(q, 0) + q[0].delta;
  }

  // ----- whole runs

  datatype Event<T> = Add(task: T, ticks: nat) | Tick

  /** Only a running task goes to sleep, and only for a positive time (a sleep of
      nought ticks is a yield). */
  ghost predicate Enabled<T>(q: seq<Sleeper<T>>, e: Event<T>) {
    e.Add? ==> e.ticks > 0 && !Asleep(q, e.task)
  }

  ghost function Step<T>(q: seq<Sleeper<T>>, e: Event<T>): seq<Sleeper<T>>
    requires Valid(q)
  {
    match e
    case Add(t, n) => PutToSleep(q, t, n)
    case Tick => WakeyWakey(q).0
  }

  ghost predicate IsRun<T>(q: seq<Sleeper<T>>, es: seq<Event<T>>)
    decreases |es|
  {
    Valid(q) && (es == [] || (Enabled(q, es[0]) && IsRun(Step(q, es[0]), es[1..])))
  }

  ghost function Run<T>(q: seq<Sleeper<T>>, es: seq<Event<T>>): seq<Sleeper<T>>
    requires IsRun(q, es)
    decreases |es|
  {
    if es == [] then q else Run(Step(q, es[0]), es[1..])
  }

  ghost function Ticks<T>(es: seq<Event<T>>): nat {
    if es == [] then 0 else (if es[0].Tick? then 1 else 0) + Ticks(es[1..])
  }

  lemma StepKeepsValid<T>(q: seq<Sleeper<T>>, e: Event<T>)
    requires Valid(q) && Enabled(q, e)
    ensures Valid(Step(q, e))
  {
    match e
    case Add(t, n) => AddRefines(q, t, n);
    case Tick => TickKeepsValid(q);
  }

  /** However many other tasks are put to sleep meanwhile, a task is still asleep,
      with exactly the remaining ticks to wait, until its time has passed. */
  lemma {:induction false} StillAsleep<T>(q: seq<Sleeper<T>>, es: seq<Event<T>>, t: T)
    requires IsRun(q, es) && Asleep(q, t) && Ticks(es) < TicksLeft(q)[t]
    ensures Valid(Run(q, es)) && Asleep(Run(q, es), t)
    ensures TicksLeft(Run(q, es))[t] == TicksLeft(q)[t] - Ticks(es)
    decreases |es|
  {
    if es != [] {
      var q' := Step(q, es[0]);
      StepKeepsValid(q, es[0]);
      match es[0] {
        case Add(x, n) => AddRefines(q, x, n);
        case Tick => TickRefines(q);
      }
      assert t in TicksLeft(q');
      StillAsleep(q', es[1..], t);
    }
  }

  /** A task put to sleep for n ticks is woken by the n-th later tick, neither
      sooner nor later, with r[0] nought. */
  lemma WakesAtNthTick<T>(q: seq<Sleeper<T>>, t: T, n: nat, es: seq<Event<T>>)
    requires Valid(q) && !Asleep(q, t) && n > 0
    requires IsRun(PutToSleep(q, t, n), es) && Ticks(es) == n - 1
    ensures var q' := Run(PutToSleep(q, t, n), es);
      && Valid(q')
      && Asleep(q', t)
      && (exists k :: 0 <= k < |WakeyWakey(q').1| && WakeyWakey(q').1[k] == Sleeper(t, 0))
      && !Asleep(WakeyWakey(q').0, t)
  {
    AddRefines(q, t, n);
    var q0 := PutToSleep(q, t, n);
    assert t in TicksLeft(q0);
    StillAsleep(q0, es, t);
    var q' := Run(q0, es);
    TickRefines(q');
    var (rest, woken) := WakeyWakey(q');
    assert t in TicksLeft(q') && TicksLeft(q')[t] == 1;
    assert Asleep(woken, t);
    assert t !in TicksLeft(rest);
    var k :| 0 <= k < |woken| && woken[k].task == t;
    assert woken[k] == Sleeper(t, 0);
  }

  // ----- the order among tasks due at the same tick

  /** u comes before t in the list, and so is woken before it. */
  ghost predicate Before<T>(ts: seq<T>, u: T, t: T) {
    exists i: nat, j: nat :: i < j < |ts| && ts[i] == u && ts[j] == t
  }

  ghost predicate DueIn<T>(q: seq<Sleeper<T>>, u: T, n: nat) {
    u in TicksLeft(q) && TicksLeft(q)[u] == n
  }

  lemma DueAt<T>(q: seq<Sleeper<T>>, n: nat, j: nat)
    requires Unique(q) && j < |q|
    ensures DueIn(q, q[j].task, n) <==> Sum(q, j + 1) == n
  {
    TicksAt(q, j);
  }

  lemma PlaceOf<T>(q: seq<Sleeper<T>>, u: T) returns (j: nat)
    requires u in TicksLeft(q)
    ensures j < |q| && q[j].task == u
  {
    j :| 0 <= j < |q| && q[j].task == u;
  }

  /** After the insertion, a task due at the same tick as t, at place j before, comes before t or behind it. */
  lemma BeforeIff<T>(q: seq<Sleeper<T>>, r: seq<Sleeper<T>>, p: nat, t: T, j: nat)
    requires NamesInserted(q, r, p, t) && Unique(r) && j < |q|
    ensures Before(Tasks(r), q[j].task, t) <==> j < p
  {
    var ts := Tasks(r);
    assert ts[p] == t && ts[if j < p then j else j + 1] == q[j].task;
    if Before(ts, q[j].task, t) {
      var a: nat, b: nat :| a < b < |ts| && ts[a] == q[j].task && ts[b] == t;
      assert r[a].task == r[if j < p then j else j + 1].task && r[b].task == r[p].task;
    }
  }

  /** Before a task that is due where somebody already is, there is just one who is due then. */
  lemma OneDueBefore<T>(q: seq<Sleeper<T>>, p: nat, d: nat, n: nat, j: nat)
    requires Belongs(q, n, p, d) && n > 0 && j < |q|
    ensures d > 0 ==> Sum(q, j + 1) != n
    ensures d == 0 && j < p ==> (Sum(q, j + 1) == n <==> j == p - 1)
  {
    if j < p {
      SumGrows(q, j + 1, p);
      if j + 1 < p { SumGrows(q, j + 1, p - 1); }
    } else {
      SumGrows(q, p + 1, j + 1);
    }
  }

  ghost predicate AtMostOneDue<T(!new)>(q: seq<Sleeper<T>>, n: nat) {
    forall u, v :: DueIn(q, u, n) && DueIn(q, v, n) ==> u == v
  }

  ghost predicate FirstComeFirstWoken<T(!new)>(q: seq<Sleeper<T>>, t: T, n: nat) {
    forall u :: DueIn(q, u, n) ==> Before(Tasks(PutToSleep(q, t, n)), u, t)
  }

  /** A task put to sleep is woken after all those already due at the same tick exactly when there is at most
      one of them. */
  lemma FifoIff<T(!new)>(q: seq<Sleeper<T>>, t: T, n: nat)
    requires Valid(q) && !Asleep(q, t) && n > 0
    ensures FirstComeFirstWoken(q, t, n) <==> AtMostOneDue(q, n)
  {
    var p, d := PutToSleepAmong(q, t, n);
    AllDue(q, p, d, n);
    AllBeforeIff(q, PutToSleep(q, t, n), p, t);
    SameDue(q, PutToSleep(q, t, n), p, d, t, n);
  }

  /** Of those due at the tick of a task that belongs at p, there is one before it, if any; the others come
      behind. */
  ghost predicate OneDue<T>(q: seq<Sleeper<T>>, p: nat, d: nat, n: nat)
    requires p <= |q| && Unique(q)
  {
    && (forall j: nat :: j < |q| && DueIn(q, q[j].task, n) ==> d == 0 && (j == p - 1 || j >= p))
    && (d == 0 ==> p > 0 && DueIn(q, q[p - 1].task, n))
  }

  /** Before t, which is at p in r, are the first p tasks of q. */
  ghost predicate FirstBefore<T>(q: seq<Sleeper<T>>, r: seq<Sleeper<T>>, p: nat, t: T) {
    forall j: nat :: j < |q| ==> (Before(Tasks(r), q[j].task, t) <==> j < p)
  }

  lemma AllDue<T>(q: seq<Sleeper<T>>, p: nat, d: nat, n: nat)
    requires Belongs(q, n, p, d) && Unique(q) && n > 0
    ensures OneDue(q, p, d, n)
  {
    forall j: nat | j < |q| ensures DueIn(q, q[j].task, n) ==> d == 0 && (j == p - 1 || j >= p) {
      DuePlace(q, p, d, n, j);
    }
    if d == 0 { DuePlace(q, p, d, n, p - 1); }
  }

  lemma DuePlace<T>(q: seq<Sleeper<T>>, p: nat, d: nat, n: nat, j: nat)
    requires Belongs(q, n, p, d) && Unique(q) && n > 0 && j < |q|
    ensures DueIn(q, q[j].task, n) ==> d == 0 && (j == p - 1 || j >= p)
    ensures d == 0 && j == p - 1 ==> DueIn(q, q[j].task, n)
  {
    DueAt(q, n, j);
    OneDueBefore(q, p, d, n, j);
  }

  lemma AllBeforeIff<T>(q: seq<Sleeper<T>>, r: seq<Sleeper<T>>, p: nat, t: T)
    requires NamesInserted(q, r, p, t) && Unique(r)
    ensures FirstBefore(q, r, p, t)
  {
    forall j: nat | j < |q| ensures Before(Tasks(r), q[j].task, t) <==> j < p {
      BeforeIff(q, r, p, t, j);
    }
  }

  lemma PutToSleepAmong<T>(q: seq<Sleeper<T>>, t: T, n: nat) returns (p: nat, d: nat)
    requires Valid(q) && !Asleep(q, t) && n > 0
    ensures Belongs(q, n, p, d) && NamesInserted(q, PutToSleep(q, t, n), p, t) && Unique(PutToSleep(q, t, n))
  {
    p, d := PutToSleepInserts(q, t, n);
    InsertedUnique(q, PutToSleep(q, t, n), p, t);
  }

  lemma SameDue<T(!new)>(q: seq<Sleeper<T>>, r: seq<Sleeper<T>>, p: nat, d: nat, t: T, n: nat)
    requires p <= |q| && Unique(q) && r == PutToSleep(q, t, n)
    requires OneDue(q, p, d, n) && FirstBefore(q, r, p, t)
    ensures FirstComeFirstWoken(q, t, n) <==> AtMostOneDue(q, n)
  {
    if FirstComeFirstWoken(q, t, n) {
      forall u, v | DueIn(q, u, n) && DueIn(q, v, n) ensures u == v {
        var i := PlaceOf(q, u);
        var j := PlaceOf(q, v);
      }
    }
    if AtMostOneDue(q, n) {
      forall u | DueIn(q, u, n) ensures Before(Tasks(r), u, t) {
        var j := PlaceOf(q, u);
      }
    }
  }

  /** With two due already, it fails: the third of three tasks comes between them. */
  lemma EqualDeadlinesAreNotFifo<T>(a: T, b: T, c: T)
    ensures Tasks(PutToSleep(PutToSleep(PutToSleep([], a, 5), b, 5), c, 5)) == [a, c, b]
  {
    assert PutToSleep([], a, 5) == [Sleeper(a, 5)];
    assert PutToSleep([Sleeper(a, 5)], b, 5) == [Sleeper(a, 5), Sleeper(b, 0)];
    assert PutToSleep([Sleeper(a, 5), Sleeper(b, 0)], c, 5) == [Sleeper(a, 5), Sleeper(c, 0), Sleeper(b, 0)];
  }
}
