/** Claiming and releasing locks (OSTask/locks.c).

    A lock is a word of memory: nought when idle, else the handle of its owner with
    bit 0 set if somebody wants it.  All tasks waiting for any lock are in one list. */
module Locks {
  import opened Tasks

  /** A blocked task, with the registers it was stopped with: r[0] is the address of
      the lock word, r[1] whatever the program had left there. */
  datatype Waiter = Waiter(task: Task, lock: nat, r1: nat)

  datatype LockState = LockState(words: map<nat, nat>, blocked: seq<Waiter>)

  function Word(l: LockState, a: nat): nat {
    if a in l.words then l.words[a] else 0
  }

  function Owner(word: nat): nat { word - word % 2 }
  predicate Wanted(word: nat) { word % 2 == 1 }

  /** Handles are even and not nought. */
  predicate IsHandle(t: Task) { t > 0 && t % 4 == 0 }

  function Names(ws: seq<Waiter>): (ts: seq<Task>)
    ensures |ts| == |ws| && forall k :: 0 <= k < |ws| ==> ts[k] == ws[k].task
  {
    seq(|ws|, k requires 0 <= k < |ws| => ws[k].task)
  }

  datatype ClaimResult = Claimed | Reclaimed | Blocked

  /** TaskOpLockClaim */
  function Claim(l: LockState, me: Task, a: nat, r1: nat): (LockState, ClaimResult) {
    var word := Word(l, a);
    if word == 0 then
      (l.(words := l.words[a := me]), Claimed)
    else if word / 2 == me / 2 then
      (l, Reclaimed)
    else
      (LockState(l.words[a := word - word % 2 + 1], l.blocked + [Waiter(me, a, r1)]), Blocked)
  }

  datatype ReleaseResult = NotOwner | Freed | HandedTo(task: Task) | Kept

  /** TaskOpLockRelease.  The search for a task waiting for this lock starts, and so
      ends, at the head of the list; the new owner is what that task has in r[1]. */
  function Release(l: LockState, me: Task, a: nat): (LockState, ReleaseResult) {
    if Owner(Word(l, a)) != me then
      (l, NotOwner)
    else if l.blocked == [] then
      (l.(words := l.words[a := 0]), Freed)
    else if l.blocked[0].lock == a then
      var rest := l.blocked[1..];
      var r1 := l.blocked[0].r1;
      var word := if exists w :: w in rest && w.lock == a then r1 - r1 % 2 + 1 else r1;
      (LockState(l.words[a := word], rest), HandedTo(l.blocked[0].task))
    else
      (l, Kept)
  }

  // ----- with one lock

  /** All that happens is about the lock at a: `holders` are the tasks that have been
      told the lock is theirs and have not released it, `waited` and `granted` list
      the tasks that ever had to wait, and those of them that got the lock. */
  datatype Run = Run(l: LockState, holders: set<Task>, waited: seq<Task>, granted: seq<Task>)

  datatype Event = ClaimBy(task: Task) | ReleaseBy(task: Task)

  ghost predicate Init(s: Run) {
    s == Run(LockState(map[], []), {}, [], [])
  }

  /** Only tasks that run claim and release, and each claims with its own handle in
      r[1]. */
  ghost predicate Enabled(s: Run, e: Event) {
    IsHandle(e.task) && e.task !in Names(s.l.blocked)
  }

  ghost function Step(s: Run, a: nat, e: Event): Run {
    match e
    case ClaimBy(t) =>
      var (l, r) := Claim(s.l, t, a, t);
      (match r
       case Claimed => s.(l := l, holders := s.holders + {t})
       case Reclaimed => s.(l := l)
       case Blocked => s.(l := l, waited := s.waited + [t]))
    case ReleaseBy(t) =>
      var (l, r) := Release(s.l, t, a);
      (match r
       case NotOwner => s  // the caller is stopped for good
       case Freed => s.(l := l, holders := s.holders - {t})
       case HandedTo(u) => s.(l := l, holders := s.holders - {t} + {u}, granted := s.granted + [u])
       case Kept => s.(l := l))
  }

  ghost predicate Inv(s: Run, a: nat) {
    var w := Word(s.l, a);
    && (w == 0 <==> s.holders == {})
    && (w != 0 ==> s.holders == {Owner(w)} && IsHandle(Owner(w)))
    && (Wanted(w) <==> s.l.blocked != [])
    && (forall x :: x in s.l.blocked ==> x.lock == a && x.r1 == x.task && IsHandle(x.task) && x.task !in s.holders)
    && Unique(s.l.blocked)
    && s.waited == s.granted + Names(s.l.blocked)
  }

  lemma InitInv(s: Run, a: nat)
    requires Init(s)
    ensures Inv(s, a)
  {
  }

  lemma ClaimKeepsInv(s: Run, a: nat, t: Task)
    requires Inv(s, a) && Enabled(s, ClaimBy(t))
    ensures Inv(Step(s, a, ClaimBy(t)), a)
  {
    var w := Word(s.l, a);
    if w == 0 {
      TakingKeepsInv(s, a, t);
    } else if Owner(w) == t {
      HalfHandles(w, t);
      assert Step(s, a, ClaimBy(t)) == s;
    } else {
      BlockingKeepsInv(s, a, t);
    }
  }

  /** What a claim is answered tells how matters stood: free, its own already, or somebody else's. */
  lemma AnswerIff(s: Run, a: nat, t: Task)
    requires Inv(s, a) && Enabled(s, ClaimBy(t))
    ensures var answer := Claim(s.l, t, a, t).1;
      (answer == Claimed <==> s.holders == {}) &&
      (answer == Reclaimed <==> t in s.holders) &&
      (answer == Blocked <==> exists u :: u in s.holders && u != t)
  {
    HalfHandles(Word(s.l, a), t);
    if Word(s.l, a) != 0 { assert Owner(Word(s.l, a)) in s.holders; }
  }

  /** The lock is free: nobody waits, and the task has it. */
  lemma TakingKeepsInv(s: Run, a: nat, t: Task)
    requires Inv(s, a) && IsHandle(t) && Word(s.l, a) == 0
    ensures Inv(Step(s, a, ClaimBy(t)), a)
  {
    WordOf(t);
    var r := Step(s, a, ClaimBy(t));
    assert r == Run(LockState(s.l.words[a := t], s.l.blocked), s.holders + {t}, s.waited, s.granted);
    assert r.holders == {t} && s.l.blocked == [];
  }

  /** The lock is somebody else's: the task waits, last of all. */
  lemma BlockingKeepsInv(s: Run, a: nat, t: Task)
    requires Inv(s, a) && Enabled(s, ClaimBy(t)) && Word(s.l, a) != 0 && Owner(Word(s.l, a)) != t
    ensures Inv(Step(s, a, ClaimBy(t)), a)
  {
    var w := Word(s.l, a);
    HalfHandles(w, t);
    var b := s.l.blocked + [Waiter(t, a, t)];
    assert Claim(s.l, t, a, t) == (LockState(s.l.words[a := w - w % 2 + 1], b), Blocked);
    assert Names(b) == Names(s.l.blocked) + [t];
    forall k | 0 <= k < |s.l.blocked| ensures s.l.blocked[k].task != t {
      assert Names(s.l.blocked)[k] == s.l.blocked[k].task;
    }
  }

  /** Words are compared without the wanted bit. */
  lemma HalfHandles(w: nat, t: Task)
    requires IsHandle(t)
    ensures w / 2 == t / 2 <==> Owner(w) == t
    ensures Owner(w - w % 2 + 1) == Owner(w) && Wanted(w - w % 2 + 1)
  {
  }

  lemma ReleaseKeepsInv(s: Run, a: nat, t: Task)
    requires Inv(s, a) && Enabled(s, ReleaseBy(t))
    ensures Inv(Step(s, a, ReleaseBy(t)), a)
  {
    if Owner(Word(s.l, a)) == t && s.l.blocked != [] {
      HandingOverKeepsInv(s, a, t);
    }
  }

  lemma HandOver(l: LockState, me: Task, a: nat)
    requires l.blocked != [] && Owner(Word(l, a)) == me
    requires forall x :: x in l.blocked ==> x.lock == a && x.r1 == x.task && IsHandle(x.task)
    ensures var (l', r) := Release(l, me, a);
      && r == HandedTo(l.blocked[0].task) && l'.blocked == l.blocked[1..]
      && Word(l', a) == l.blocked[0].task + (if l'.blocked == [] then 0 else 1)
  {
    var rest := l.blocked[1..];
    assert l.blocked[0] in l.blocked;
    if rest != [] {
      assert rest[0] == l.blocked[1] && rest[0] in l.blocked && rest[0] in rest;
    }
  }

  lemma HandingOverKeepsInv(s: Run, a: nat, t: Task)
    requires Inv(s, a) && IsHandle(t) && Owner(Word(s.l, a)) == t && s.l.blocked != []
    ensures Inv(Step(s, a, ReleaseBy(t)), a)
  {
    var u := s.l.blocked[0].task;
    HandOver(s.l, t, a);
    var l := Release(s.l, t, a).0;
    HeirHolds(s, a, u, l);
    assert Step(s, a, ReleaseBy(t)).holders == {u};
  }

  lemma HeirHolds(s: Run, a: nat, u: Task, l: LockState)
    requires Inv(s, a) && s.l.blocked != [] && s.l.blocked[0].task == u
    requires l.blocked == s.l.blocked[1..] && Word(l, a) == u + (if l.blocked == [] then 0 else 1)
    ensures Inv(Run(l, {u}, s.waited, s.granted + [u]), a)
  {
    var b, rest := s.l.blocked, l.blocked;
    assert b[0] in b && IsHandle(u);
    OthersWait(s, a, rest);
    HeirIsFirst(b, s.granted);
    OwnerAndWaiters(l, a, u, s.waited, s.granted + [u]);
  }

  lemma HeirIsFirst(b: seq<Waiter>, granted: seq<Task>)
    requires b != []
    ensures granted + Names(b) == granted + [b[0].task] + Names(b[1..])
  {
    assert Names(b) == [b[0].task] + Names(b[1..]);
  }

  lemma OwnerAndWaiters(l: LockState, a: nat, u: Task, waited: seq<Task>, granted: seq<Task>)
    requires IsHandle(u) && Word(l, a) == u + (if l.blocked == [] then 0 else 1)
    requires forall x :: x in l.blocked ==> x.lock == a && x.r1 == x.task && IsHandle(x.task) && x.task != u
    requires Unique(l.blocked) && waited == granted + Names(l.blocked)
    ensures Inv(Run(l, {u}, waited, granted), a)
  {
    WordOf(u);
  }

  lemma WordOf(u: Task)
    requires IsHandle(u)
    ensures Owner(u) == u && !Wanted(u) && Owner(u + 1) == u && Wanted(u + 1)
  {
  }

  lemma OthersWait(s: Run, a: nat, rest: seq<Waiter>)
    requires Inv(s, a) && s.l.blocked != [] && rest == s.l.blocked[1..]
    ensures forall x :: x in rest ==> x.lock == a && x.r1 == x.task && IsHandle(x.task) && x.task != s.l.blocked[0].task
    ensures Unique(rest)
  {
    var b := s.l.blocked;
    forall k | 0 <= k < |rest| ensures rest[k] == b[k + 1] && b[k + 1] in b {}
  }

  ghost predicate Unique(ws: seq<Waiter>) {
    forall j, k :: 0 <= j < k < |ws| ==> ws[j].task != ws[k].task
  }

  /** Over any run with one lock: at most one task holds it, the wanted bit tells
      whether anybody waits, an idle lock has no waiters, and those who wait get the
      lock in the order in which they began to. */
  lemma {:induction false} OneLock(s: Run, a: nat, es: seq<Event>) returns (t: Run)
    requires Inv(s, a) && IsRun(s, a, es)
    ensures t == RunOf(s, a, es) && Inv(t, a)
    ensures |t.holders| <= 1
    ensures Wanted(Word(t.l, a)) <==> t.l.blocked != []
    ensures Word(t.l, a) == 0 ==> t.l.blocked == []
    ensures t.granted <= t.waited
    decreases |es|
  {
    if es == [] {
      t := s;
    } else {
      match es[0] {
        case ClaimBy(x) => ClaimKeepsInv(s, a, x);
        case ReleaseBy(x) => ReleaseKeepsInv(s, a, x);
      }
      t := OneLock(Step(s, a, es[0]), a, es[1..]);
    }
  }

  ghost predicate IsRun(s: Run, a: nat, es: seq<Event>)
    decreases |es|
  {
    es == [] || (Enabled(s, es[0]) && IsRun(Step(s, a, es[0]), a, es[1..]))
  }

  ghost function RunOf(s: Run, a: nat, es: seq<Event>): Run
    decreases |es|
  {
    if es == [] then s else RunOf(Step(s, a, es[0]), a, es[1..])
  }

  // ----- claims inside claims

  /** What each task was told by those of its claims that it has not undone yet, the first one first: true when the
      lock was not its own already. */
  datatype Nested = Nested(run: Run, told: map<Task, seq<bool>>)

  function Told(n: Nested, t: Task): seq<bool> {
    if t in n.told then n.told[t] else []
  }

  /** A task claims the lock; or undoes its last claim, which means a release when that one was told that the lock was
      not its own, and nothing otherwise. */
  datatype Move = Enter(task: Task) | Leave(task: Task)

  ghost predicate MayMove(n: Nested, m: Move) {
    IsHandle(m.task) && m.task !in Names(n.run.l.blocked) && (m.Leave? ==> Told(n, m.task) != [])
  }

  /** A task that has to wait is told, when the lock is handed to it, that it was not its own. */
  ghost function Moved(n: Nested, a: nat, m: Move): Nested {
    var t := m.task;
    match m
    case Enter(_) =>
      var answer := Claim(n.run.l, t, a, t).1;
      var told := if answer == Blocked then n.told else n.told[t := Told(n, t) + [answer == Claimed]];
      Nested(Step(n.run, a, ClaimBy(t)), told)
    case Leave(_) =>
      var mine := Told(n, t);
      if mine == [] then n
      else
        var told := n.told[t := mine[..|mine| - 1]];
        if !mine[|mine| - 1] then n.(told := told)
        else
          match Release(n.run.l, t, a).1
          case HandedTo(u) => Nested(Step(n.run, a, ReleaseBy(t)), told[u := [true]])
          case _ => Nested(Step(n.run, a, ReleaseBy(t)), told)
  }

  /** The first of its claims was told that the lock was not its own, and no other. */
  ghost predicate OuterFirst(told: seq<bool>) {
    forall k :: 0 <= k < |told| ==> (told[k] <==> k == 0)
  }

  /** A task has claims that it has not undone exactly while the lock is its own. */
  ghost predicate NestedInv(n: Nested, a: nat) {
    Inv(n.run, a) && forall t :: OuterFirst(Told(n, t)) && (t in n.run.holders <==> Told(n, t) != [])
  }

  lemma EnterKeeps(n: Nested, a: nat, t: Task)
    requires NestedInv(n, a) && MayMove(n, Enter(t))
    ensures NestedInv(Moved(n, a, Enter(t)), a)
  {
    var m := Moved(n, a, Enter(t));
    ClaimKeepsInv(n.run, a, t);
    AnswerIff(n.run, a, t);
    forall u ensures OuterFirst(Told(m, u)) && (u in m.run.holders <==> Told(m, u) != []) {
      assert OuterFirst(Told(n, u)) && (u in n.run.holders <==> Told(n, u) != []);
    }
  }

  lemma LeaveKeeps(n: Nested, a: nat, t: Task)
    requires NestedInv(n, a) && MayMove(n, Leave(t))
    ensures NestedInv(Moved(n, a, Leave(t)), a)
    ensures |Told(n, t)| == 1 <==> t !in Moved(n, a, Leave(t)).run.holders
  {
    var m := Moved(n, a, Leave(t));
    var mine := Told(n, t);
    assert OuterFirst(mine) && t in n.run.holders;
    if |mine| == 1 {
      OutermostLeaves(n, a, t);
    } else {
      forall u ensures OuterFirst(Told(m, u)) && (u in m.run.holders <==> Told(m, u) != []) {
        assert OuterFirst(Told(n, u)) && (u in n.run.holders <==> Told(n, u) != []);
      }
    }
  }

  lemma OutermostLeaves(n: Nested, a: nat, t: Task)
    requires NestedInv(n, a) && MayMove(n, Leave(t)) && |Told(n, t)| == 1
    ensures NestedInv(Moved(n, a, Leave(t)), a) && t !in Moved(n, a, Leave(t)).run.holders
  {
    var m := Moved(n, a, Leave(t));
    assert OuterFirst(Told(n, t)) && Told(n, t)[0];
    ReleaseKeepsInv(n.run, a, t);
    ReleasePasses(n.run, a, t);
    forall u ensures OuterFirst(Told(m, u)) && (u in m.run.holders <==> Told(m, u) != []) {
      assert OuterFirst(Told(n, u)) && (u in n.run.holders <==> Told(n, u) != []);
    }
  }

  /** The owner's release passes the lock to the task that has waited longest, or to nobody. */
  lemma ReleasePasses(s: Run, a: nat, t: Task)
    requires Inv(s, a) && t in s.holders && t !in Names(s.l.blocked)
    ensures s.holders == {t}
    ensures var r := Release(s.l, t, a).1;
      if s.l.blocked == [] then r == Freed && Step(s, a, ReleaseBy(t)).holders == {}
      else r == HandedTo(s.l.blocked[0].task) && s.l.blocked[0].task != t &&
           Step(s, a, ReleaseBy(t)).holders == {s.l.blocked[0].task}
  {
    if s.l.blocked != [] {
      HandOver(s.l, t, a);
      assert Names(s.l.blocked)[0] == s.l.blocked[0].task;
    }
  }

  lemma NestedInit(s: Run, a: nat)
    requires Init(s)
    ensures NestedInv(Nested(s, map[]), a)
  {
    InitInv(s, a);
  }

  ghost predicate IsNestedRun(n: Nested, a: nat, ms: seq<Move>)
    decreases |ms|
  {
    ms == [] || (MayMove(n, ms[0]) && IsNestedRun(Moved(n, a, ms[0]), a, ms[1..]))
  }

  ghost function NestedEnd(n: Nested, a: nat, ms: seq<Move>): Nested
    decreases |ms|
  {
    if ms == [] then n else NestedEnd(Moved(n, a, ms[0]), a, ms[1..])
  }

  /** How deep in its claims the task is after a run, not counting one that waits */
  ghost function Depth(n: Nested, a: nat, ms: seq<Move>, t: Task): nat {
    |Told(NestedEnd(n, a, ms), t)|
  }

  lemma {:induction false} NestedRunKeeps(n: Nested, a: nat, ms: seq<Move>)
    requires NestedInv(n, a) && IsNestedRun(n, a, ms)
    ensures NestedInv(NestedEnd(n, a, ms), a)
    decreases |ms|
  {
    if ms != [] {
      match ms[0] {
        case Enter(t) => EnterKeeps(n, a, t);
        case Leave(t) => LeaveKeeps(n, a, t);
      }
      NestedRunKeeps(Moved(n, a, ms[0]), a, ms[1..]);
    }
  }

  /** Over any run of nested claims by any tasks, each releasing only for a claim that was told that the lock was not
      its own: a task has the lock exactly while it has a claim to undo, and no two tasks have at once. */
  lemma KeptUntilOutermost(n: Nested, a: nat, ms: seq<Move>, t: Task, u: Task)
    requires NestedInv(n, a) && IsNestedRun(n, a, ms)
    ensures t in NestedEnd(n, a, ms).run.holders <==> Depth(n, a, ms, t) > 0
    ensures Depth(n, a, ms, t) > 0 && Depth(n, a, ms, u) > 0 ==> t == u
  {
    NestedRunKeeps(n, a, ms);
    var e := NestedEnd(n, a, ms);
    assert (t in e.run.holders <==> Told(e, t) != []) && (u in e.run.holders <==> Told(e, u) != []);
  }

  // ----- with several locks

  /** An owner's release lets go of the lock exactly when nobody waits for any lock,
      or the longest-waiting task waits for this one (and has not the owner's own
      handle in r[1]). */
  lemma ReleaseLetsGoIff(l: LockState, me: Task, a: nat)
    requires IsHandle(me) && Owner(Word(l, a)) == me
    ensures Owner(Word(Release(l, me, a).0, a)) != me
       <==> l.blocked == [] || (l.blocked[0].lock == a && Owner(l.blocked[0].r1) != me)
    ensures l.blocked != [] && l.blocked[0].lock != a ==> Release(l, me, a).0 == l
  {
    var l' := Release(l, me, a).0;
    if l.blocked == [] {
      assert Word(l', a) == 0;
    } else if l.blocked[0].lock == a {
      var r1 := l.blocked[0].r1;
      HalfHandles(r1, me);
      assert Word(l', a) == r1 || Word(l', a) == r1 - r1 % 2 + 1;
    }
  }

  /** The task woken by a release finds itself the owner exactly when it had its own
      handle in r[1] all along. */
  lemma WokenOwnsIff(l: LockState, me: Task, a: nat, t: Task)
    requires IsHandle(t) && Release(l, me, a).1 == HandedTo(t)
    ensures Owner(Word(Release(l, me, a).0, a)) == t <==> l.blocked[0].r1 == t || l.blocked[0].r1 == t + 1
  {
    var r1 := l.blocked[0].r1;
    OwnsIff(r1, t);
    var word := Word(Release(l, me, a).0, a);
    assert word == r1 || word == r1 - r1 % 2 + 1;
  }

  lemma OwnsIff(r1: nat, t: Task)
    requires IsHandle(t)
    ensures Owner(r1 - r1 % 2 + 1) == Owner(r1)
    ensures Owner(r1) == t <==> r1 == t || r1 == t + 1
  {
  }

  /** Two locks are enough: task 4 holds the lock at 100, 8 that at 200; 12 waits for
      the one, then 16 for the other.  Task 8 releases its lock, in vain. */
  lemma ReleaseInVain()
    ensures var l := LockState(map[100 := 5, 200 := 9], [Waiter(12, 100, 12), Waiter(16, 200, 16)]);
      Release(l, 8, 200) == (l, Kept)
  {
  }
}
