/** The programs that work on shared lists: those of Utilities/mpsafe_dll.h itself, of OSTask/sleep.c and of
    OSTask/ostask.c. Each is shown to do to the ring what it should do to the list. */
module ListUpdates {
  import opened Tasks
  import opened SleepQueue
  import opened ListMachine
  import opened MpsafeList

  // ----- rings

  lemma NameIn(s: seq<Node>, k: nat)
    requires k < |s|
    ensures s[k].task in Names(s)
  {
  }

  lemma RingEnds(m: seq<Cell>, s: seq<Node>)
    requires Ring(m, s) && s != []
    ensures RingAt(m, s, 0) && RingAt(m, s, |s| - 1)
    ensures s[0].task in Names(s) && s[|s| - 1].task in Names(s)
  {
  }

  /** The memory after x has been attached before t, with last before it */
  function Attached(m: seq<Cell>, x: Item, t: Item, last: Item): seq<Cell>
    requires x < |m| && t < |m| && last < |m|
  {
    var m1 := m[x := Cell(t, last, m[x].r0)];
    var m2 := m1[last := m1[last].(next := x)];
    m2[t := m2[t].(prev := x)]
  }

  function Inserting(s: seq<Node>, k: nat, x: Node): seq<Node>
    requires k <= |s|
  {
    s[..k] + [x] + s[k..]
  }

  /** The node before which to attach for place k; for the last place, the head come round again */
  function Behind(s: seq<Node>, k: nat): Item
    requires k <= |s| && s != []
  {
    s[if k < |s| then k else 0].task
  }

  function InFront(s: seq<Node>, k: nat): Item
    requires k <= |s| && s != []
  {
    s[if k > 0 then k - 1 else |s| - 1].task
  }

  lemma AttachedCell(m: seq<Cell>, x: Item, t: Item, last: Item, y: Item)
    requires x < |m| && t < |m| && last < |m| && y < |m| && x != t && x != last
    ensures Attached(m, x, t, last)[y] ==
      if y == x then Cell(t, last, m[x].r0)
      else Cell(if y == last then x else m[y].next, if y == t then x else m[y].prev, m[y].r0)
  {
  }

  lemma AttachedRing(m: seq<Cell>, s: seq<Node>, k: nat, x: Node)
    requires Ring(m, s) && s != [] && k <= |s| && x.task !in Names(s) && x.task < |m| && m[x.task].r0 == x.delta
    ensures Behind(s, k) < |m| && InFront(s, k) < |m| && m[Behind(s, k)].prev == InFront(s, k)
    ensures Behind(s, k) in Names(s) && InFront(s, k) in Names(s)
    ensures Ring(Attached(m, x.task, Behind(s, k), InFront(s, k)), Inserting(s, k, x))
  {
    var t, last := Behind(s, k), InFront(s, k);
    assert RingAt(m, s, if k < |s| then k else 0) && RingAt(m, s, if k > 0 then k - 1 else |s| - 1);
    var r := Inserting(s, k, x);
    assert NamesInserted(s, r, k, x.task);
    InsertedUnique(s, r, k, x.task);
    forall j | 0 <= j < |r| ensures RingAt(Attached(m, x.task, t, last), r, j) {
      AttachedAt(m, s, k, x, j);
    }
  }

  lemma AttachedAt(m: seq<Cell>, s: seq<Node>, k: nat, x: Node, j: nat)
    requires Ring(m, s) && s != [] && k <= |s| && x.task !in Names(s) && x.task < |m| && m[x.task].r0 == x.delta
    requires Behind(s, k) < |m| && InFront(s, k) < |m| && j <= |s|
    requires Behind(s, k) in Names(s) && InFront(s, k) in Names(s)
    ensures RingAt(Attached(m, x.task, Behind(s, k), InFront(s, k)), Inserting(s, k, x), j)
  {
    var r := Inserting(s, k, x);
    if j == k {
      AttachedCell(m, x.task, Behind(s, k), InFront(s, k), x.task);
    } else {
      var i := if j < k then j else j - 1;
      assert r[j] == s[i] && RingAt(m, s, i) && s[i].task in Names(s);
      AttachedCell(m, x.task, Behind(s, k), InFront(s, k), s[i].task);
    }
  }

  /** The memory after x has been taken out from between last and next */
  function Detached(m: seq<Cell>, x: Item, next: Item, last: Item): seq<Cell>
    requires x < |m| && next < |m| && last < |m|
  {
    var m1 := m[last := m[last].(next := next)];
    var m2 := m1[next := m1[next].(prev := last)];
    m2[x := Cell(x, x, m2[x].r0)]
  }

  lemma DetachedCell(m: seq<Cell>, x: Item, next: Item, last: Item, y: Item)
    requires x < |m| && next < |m| && last < |m| && y < |m| && x != next && x != last
    ensures Detached(m, x, next, last)[y] ==
      if y == x then Cell(x, x, m[x].r0)
      else Cell(if y == last then next else m[y].next, if y == next then last else m[y].prev, m[y].r0)
  {
  }

  lemma DetachedRings(m: seq<Cell>, s: seq<Node>, k: nat)
    requires Ring(m, s) && k < |s| && |s| > 1
    ensures Behind(s, k + 1) < |m| && InFront(s, k) < |m| && s[k].task < |m|
    ensures Behind(s, k + 1) in Names(s) && InFront(s, k) in Names(s) && s[k].task in Names(s)
    ensures Behind(s, k + 1) != s[k].task && InFront(s, k) != s[k].task
    ensures m[s[k].task] == Cell(Behind(s, k + 1), InFront(s, k), s[k].delta)
    ensures Ring(Detached(m, s[k].task, Behind(s, k + 1), InFront(s, k)), Without(s, k))
    ensures Ring(Detached(m, s[k].task, Behind(s, k + 1), InFront(s, k)), [s[k]])
  {
    assert RingAt(m, s, k) && RingAt(m, s, if k + 1 < |s| then k + 1 else 0) && RingAt(m, s, if k > 0 then k - 1 else |s| - 1);
    var n, r := Detached(m, s[k].task, Behind(s, k + 1), InFront(s, k)), Without(s, k);
    forall j | 0 <= j < |r| ensures RingAt(n, r, j) { WithoutAt(m, s, k, j); }
    DetachedCell(m, s[k].task, Behind(s, k + 1), InFront(s, k), s[k].task);
    assert RingAt(Detached(m, s[k].task, Behind(s, k + 1), InFront(s, k)), [s[k]], 0);
  }

  lemma WithoutAt(m: seq<Cell>, s: seq<Node>, k: nat, j: nat)
    requires Ring(m, s) && k < |s| && j < |s| - 1 && s[k].task < |m|
    requires Behind(s, k + 1) < |m| && InFront(s, k) < |m| && Behind(s, k + 1) != s[k].task && InFront(s, k) != s[k].task
    ensures RingAt(Detached(m, s[k].task, Behind(s, k + 1), InFront(s, k)), Without(s, k), j)
  {
    var r := Without(s, k);
    var i := if j < k then j else j + 1;
    assert r[j] == s[i] && RingAt(m, s, i) && s[i].task != s[k].task;
    DetachedCell(m, s[k].task, Behind(s, k + 1), InFront(s, k), s[i].task);
  }

  /** In n the links are those of m, but that a leads to b, and c to d. */
  ghost predicate Crossed(m: seq<Cell>, n: seq<Cell>, a: Item, b: Item, c: Item, d: Item) {
    |n| == |m| &&
    forall y :: 0 <= y < |m| ==>
      n[y] == Cell(if y == a then b else if y == c then d else m[y].next,
                   if y == b then a else if y == d then c else m[y].prev, m[y].r0)
  }

  /** One ring becomes two, by crossing the links at two places. */
  lemma SplitRings(m: seq<Cell>, n: seq<Cell>, s: seq<Node>, k: nat)
    requires Ring(m, s) && 0 < k < |s| && Crossed(m, n, s[|s| - 1].task, s[k].task, s[k - 1].task, s[0].task)
    ensures Ring(n, s[..k]) && Ring(n, s[k..])
  {
    forall j | 0 <= j < k ensures RingAt(n, s[..k], j) { assert RingAt(m, s, j); }
    forall j | 0 <= j < |s| - k ensures RingAt(n, s[k..], j) { assert RingAt(m, s, k + j); }
  }

  /** Two rings become one. */
  lemma JoinRings(m: seq<Cell>, n: seq<Cell>, s: seq<Node>, t: seq<Node>)
    requires Ring(m, s) && Ring(m, t) && s != [] && t != [] && Apart(s, t)
    requires Crossed(m, n, t[|t| - 1].task, s[0].task, s[|s| - 1].task, t[0].task)
    ensures Ring(n, s + t)
  {
    AppendedNames(s, t);
    forall j | 0 <= j < |s + t| ensures RingAt(n, s + t, j) { JoinedAt(m, n, s, t, j); }
  }

  lemma JoinedAt(m: seq<Cell>, n: seq<Cell>, s: seq<Node>, t: seq<Node>, j: nat)
    requires Ring(m, s) && Ring(m, t) && s != [] && t != [] && Apart(s, t) && j < |s| + |t|
    requires Crossed(m, n, t[|t| - 1].task, s[0].task, s[|s| - 1].task, t[0].task)
    ensures RingAt(n, s + t, j)
  {
    NameIn(s, 0);
    NameIn(s, |s| - 1);
    NameIn(t, 0);
    NameIn(t, |t| - 1);
    if j < |s| {
      NameIn(s, j);
      assert RingAt(m, s, j);
    } else {
      NameIn(t, j - |s|);
      assert RingAt(m, t, j - |s|);
    }
  }

  // ----- names

  lemma AppendedNames(s: seq<Node>, t: seq<Node>)
    requires Unique(s) && Unique(t) && Apart(s, t)
    ensures Unique(s + t) && Names(s + t) == Names(s) + Names(t)
  {
    forall k | 0 <= k < |s| ensures s[k].task in Names(s + t) { assert (s + t)[k] == s[k]; }
    forall k | 0 <= k < |t| ensures t[k].task in Names(s + t) { assert (s + t)[|s| + k] == t[k]; }
    forall k | 0 <= k < |s + t| ensures (s + t)[k].task in Names(s) + Names(t) {
      if k < |s| { NameIn(s, k); } else { NameIn(t, k - |s|); }
    }
    forall j, k | 0 <= j < k < |s + t| ensures (s + t)[j].task != (s + t)[k].task {
      if j < |s| <= k { NameIn(s, j); NameIn(t, k - |s|); }
    }
  }

  lemma WithoutNames(s: seq<Node>, k: nat)
    requires Unique(s) && k < |s|
    ensures Unique(Without(s, k)) && Apart(Without(s, k), [s[k]]) && Names(Without(s, k)) + Names([s[k]]) <= Names(s)
  {
    var r := Without(s, k);
    forall j | 0 <= j < |r| ensures r[j].task in Names(s) && r[j].task != s[k].task {
      assert r[j] == s[if j < k then j else j + 1];
    }
    assert [s[k]][0].task in Names(s);
  }

  lemma SplitNames(s: seq<Node>, k: nat)
    requires Unique(s) && k <= |s|
    ensures Unique(s[..k]) && Unique(s[k..]) && Apart(s[k..], s[..k]) && Names(s[k..]) + Names(s[..k]) <= Names(s)
  {
    forall j | 0 <= j < k ensures s[..k][j].task in Names(s) {}
    forall j | 0 <= j < |s| - k ensures s[k..][j].task in Names(s) { NameIn(s, k + j); }
  }

  // ----- running a program

  lemma Advances(code: Code, own: set<Item>, c0: Config, n: nat, c: Config, line: Line) returns (d: Config, k: nat)
    requires Leads(code, own, c0, n, c) && code(c.pc) == line && line != Return && Allowed(c, line, own)
    ensures d == Do(c, line) && k == n + 1 && Leads(code, own, c0, k, d)
  {
    Advance(code, own, c0, n, c);
    d, k := Do(c, line), n + 1;
  }

  /** dll_attach: p goes in front of t */
  function AttachLine(i: nat): Line {
    if i == 0 then SetNext(Of(P), Of(T))
    else if i == 1 then SetPrev(Of(P), PrevOf(T))
    else if i == 2 then SetNext(PrevOf(P), Of(P))
    else SetPrev(Of(T), Of(P))
  }

  /** dll_detach of t */
  function DetachLine(i: nat): Line {
    if i == 0 then SetNext(PrevOf(T), NextOf(T))
    else if i == 1 then SetPrev(NextOf(T), PrevOf(T))
    else if i == 2 then SetNext(Of(T), Of(T))
    else SetPrev(Of(T), Of(T))
  }

  lemma RunsAttach(code: Code, own: set<Item>, c0: Config, n: nat, c: Config, x: Item, t: Item, last: Item)
    returns (d: Config, k: nat)
    requires Leads(code, own, c0, n, c) && forall i :: 0 <= i < 4 ==> code(c.pc + i) == AttachLine(i)
    requires c.regs.p == Ptr(x) && c.regs.t == Ptr(t) && x in own && t in own && last in own
    requires x < |c.mem| && t < |c.mem| && last < |c.mem| && x != t && x != last && c.mem[t].prev == last
    ensures d == Config(c.pc + 4, c.regs, Attached(c.mem, x, t, last)) && k == n + 4 && Leads(code, own, c0, k, d)
  {
    assert code(c.pc + 0) == AttachLine(0);
    var c1, k1 := Advances(code, own, c0, n, c, AttachLine(0));
    assert c1 == Config(c.pc + 1, c.regs, c.mem[x := c.mem[x].(next := t)]);
    var c2, k2 := Advances(code, own, c0, k1, c1, AttachLine(1));
    assert c2 == Config(c.pc + 2, c.regs, c.mem[x := Cell(t, last, c.mem[x].r0)]);
    assert code(c.pc + 2) == AttachLine(2) && code(c.pc + 3) == AttachLine(3);
    d, k := RunsAttachRest(code, own, c0, k2, c2, x, t, last);
  }

  lemma RunsAttachRest(code: Code, own: set<Item>, c0: Config, n: nat, c: Config, x: Item, t: Item, last: Item)
    returns (d: Config, k: nat)
    requires Leads(code, own, c0, n, c) && code(c.pc) == AttachLine(2) && code(c.pc + 1) == AttachLine(3)
    requires c.regs.p == Ptr(x) && c.regs.t == Ptr(t) && x in own && t in own && last in own
    requires x < |c.mem| && t < |c.mem| && last < |c.mem| && c.mem[x].prev == last
    ensures var mem := c.mem[last := c.mem[last].(next := x)];
      d == Config(c.pc + 2, c.regs, mem[t := mem[t].(prev := x)]) && k == n + 2 && Leads(code, own, c0, k, d)
  {
    var c1, k1 := Advances(code, own, c0, n, c, AttachLine(2));
    assert c1 == Config(c.pc + 1, c.regs, c.mem[last := c.mem[last].(next := x)]);
    d, k := Advances(code, own, c0, k1, c1, AttachLine(3));
  }

  lemma RunsDetach(code: Code, own: set<Item>, c0: Config, n: nat, c: Config, x: Item, next: Item, last: Item)
    returns (d: Config, k: nat)
    requires Leads(code, own, c0, n, c) && forall i :: 0 <= i < 4 ==> code(c.pc + i) == DetachLine(i)
    requires c.regs.t == Ptr(x) && x in own && next in own && last in own && next != x && last != x
    requires x < |c.mem| && next < |c.mem| && last < |c.mem| && c.mem[x].next == next && c.mem[x].prev == last
    ensures d == Config(c.pc + 4, c.regs, Detached(c.mem, x, next, last)) && k == n + 4 && Leads(code, own, c0, k, d)
  {
    assert code(c.pc + 0) == DetachLine(0);
    var c1, k1 := Advances(code, own, c0, n, c, DetachLine(0));
    assert c1 == Config(c.pc + 1, c.regs, c.mem[last := c.mem[last].(next := next)]);
    var c2, k2 := Advances(code, own, c0, k1, c1, DetachLine(1));
    assert c2 == Config(c.pc + 2, c.regs, c1.mem[next := c1.mem[next].(prev := last)]);
    assert code(c.pc + 2) == DetachLine(2) && code(c.pc + 3) == DetachLine(3);
    d, k := RunsDetachRest(code, own, c0, k2, c2, x);
  }

  lemma RunsDetachRest(code: Code, own: set<Item>, c0: Config, n: nat, c: Config, x: Item) returns (d: Config, k: nat)
    requires Leads(code, own, c0, n, c) && code(c.pc) == DetachLine(2) && code(c.pc + 1) == DetachLine(3)
    requires c.regs.t == Ptr(x) && x in own && x < |c.mem|
    ensures d == Config(c.pc + 2, c.regs, c.mem[x := Cell(x, x, c.mem[x].r0)]) && k == n + 2 && Leads(code, own, c0, k, d)
  {
    var c1, k1 := Advances(code, own, c0, n, c, DetachLine(2));
    assert c1 == Config(c.pc + 1, c.regs, c.mem[x := c.mem[x].(next := x)]);
    d, k := Advances(code, own, c0, k1, c1, DetachLine(3));
    assert d.mem == c.mem[x := Cell(x, x, c.mem[x].r0)];
  }

  // ----- insertion and removal (mpsafe_dll.h)

  /** Of lists of which nothing is known but that they are lists */
  ghost predicate AnyList(kind: Kind) {
    forall l :: kind(l)
  }

  function AtHeadCode(pc: nat): Line {
    if pc == 0 then Set(T, Of(H)) else if pc < 5 then AttachLine(pc - 1) else if pc == 5 then Set(H, Of(P)) else Return
  }

  function AtHead(x: Node): Op {
    Op(AtHeadCode, [x], 0, true, (l: seq<Node>) => Made([x] + l, []), (n: nat) => 6)
  }

  function AfterHeadCode(pc: nat): Line {
    if pc == 0 then Set(T, NextOf(H)) else if pc < 5 then AttachLine(pc - 1) else Return
  }

  function AfterHead(x: Node): Op {
    Op(AfterHeadCode, [x], 0, true, (l: seq<Node>) => Made(if l == [] then [x] else [l[0], x] + l[1..], []), (n: nat) => 5)
  }

  function AtTailCode(pc: nat): Line {
    if pc == 0 then If(IsNull(H), 9)
    else if pc == 1 then Set(T, Of(H))
    else if pc < 6 then AttachLine(pc - 2)
    else if pc == 6 then Set(H, Of(P))
    else if pc == 7 then Set(H, NextOf(H))
    else if pc == 8 then Goto(10)
    else if pc == 9 then Set(H, Of(P))
    else Return
  }

  function AtTail(x: Node): Op {
    Op(AtTailCode, [x], 0, false, (l: seq<Node>) => Made(l + [x], []), (n: nat) => 9)
  }

  function DetachHeadCode(pc: nat): Line {
    if pc == 0 then Set(T, Of(H))
    else if pc == 1 then If(IsNull(T), 11)
    else if pc == 2 then If(Same(NextOf(T), Of(T)), 9)
    else if pc == 3 then Set(H, NextOf(T))
    else if pc < 8 then DetachLine(pc - 4)
    else if pc == 8 then Goto(10)
    else if pc == 9 then Set(H, Null)
    else if pc == 10 then Set(R, Of(T))
    else Return
  }

  function DetachHead(): Op {
    Op(DetachHeadCode, [], 0, false, (l: seq<Node>) => if l == [] then Made([], []) else Made(l[1..], [l[0]]), (n: nat) => 10)
  }

  /** Where each puts its item, or takes it from; all the others stay in order. */
  lemma WhereTheyGo(x: Node, l: seq<Node>)
    requires l != []
    ensures AtHead(x).effect(l).list[..1] == [x] && AtHead(x).effect(l).list[1..] == l && AtHead(x).effect(l).out == []
    ensures var list := AfterHead(x).effect(l).list;
      list[..1] == l[..1] && list[1..2] == [x] && list[2..] == l[1..] && AfterHead(x).effect(l).out == []
    ensures var list := AtTail(x).effect(l).list; list[|list| - 1] == x && list[..|list| - 1] == l && AtTail(x).effect(l).out == []
    ensures DetachHead().effect(l).out + DetachHead().effect(l).list == l && |DetachHead().effect(l).out| == 1
  {
    assert AfterHead(x).effect(l).list == l[..1] + [x] + l[1..];
  }

  /** Where an operation starts, on a list that fits it */
  ghost predicate Begins(op: Op, mem: seq<Cell>, l: seq<Node>, c: Config) {
    && c == Config(0, Start(op, Head(l)), mem) && Ring(mem, l) && Ring(mem, op.given)
    && Unique(op.given) && Apart(l, op.given) && Leads(op.code, Own(op, l), c, 0, c)
  }

  /** Where it has ended */
  lemma Ended(op: Op, l: seq<Node>, c0: Config, n: nat, c: Config, limit: nat)
    requires Leads(op.code, Own(op, l), c0, n, c) && op.code(c.pc) == Return && Finished(op, c, l) && n <= limit
    ensures Works(op, c0, l, limit)
  {
    assert Ends(op, c0, n, l);
  }

  /** dll_attach, of the item in p, at place k of a ring */
  lemma AttachesAt(code: Code, own: set<Item>, c0: Config, n: nat, c: Config, l: seq<Node>, k: nat, x: Node)
    returns (d: Config, m: nat)
    requires Leads(code, own, c0, n, c) && forall i :: 0 <= i < 4 ==> code(c.pc + i) == AttachLine(i)
    requires Ring(c.mem, l) && l != [] && Names(l) <= own && k <= |l| && x.task in own && x.task !in Names(l)
    requires x.task < |c.mem| && c.mem[x.task].r0 == x.delta && c.regs.p == Ptr(x.task) && c.regs.t == Ptr(Behind(l, k))
    ensures Leads(code, own, c0, m, d) && m == n + 4
    ensures d.pc == c.pc + 4 && d.regs == c.regs && Ring(d.mem, Inserting(l, k, x))
  {
    AttachedRing(c.mem, l, k, x);
    d, m := RunsAttach(code, own, c0, n, c, x.task, Behind(l, k), InFront(l, k));
  }

  /** dll_detach, of the item in t, from place k of a ring of several */
  lemma DetachesAt(code: Code, own: set<Item>, c0: Config, n: nat, c: Config, l: seq<Node>, k: nat)
    returns (d: Config, m: nat)
    requires Leads(code, own, c0, n, c) && forall i :: 0 <= i < 4 ==> code(c.pc + i) == DetachLine(i)
    requires Ring(c.mem, l) && |l| > 1 && Names(l) <= own && k < |l| && c.regs.t == Ptr(l[k].task)
    ensures Leads(code, own, c0, m, d) && m == n + 4
    ensures d.pc == c.pc + 4 && d.regs == c.regs && Ring(d.mem, Without(l, k)) && Ring(d.mem, [l[k]])
  {
    DetachedRings(c.mem, l, k);
    d, m := RunsDetach(code, own, c0, n, c, l[k].task, Behind(l, k + 1), InFront(l, k));
  }

  /** x, which the caller has handed over, is on its own, and the list is as it was found. */
  ghost predicate Given(c: Config, own: set<Item>, l: seq<Node>, x: Node) {
    && Ring(c.mem, l) && Names(l) <= own && x.task in own && x.task !in Names(l) && x.task < |c.mem| && c.mem[x.task].r0 == x.delta
    && c.regs.h == Head(l) && c.regs.p == Ptr(x.task) && c.regs.r == Nil
  }

  lemma GivenOne(op: Op, x: Node, mem: seq<Cell>, l: seq<Node>, c: Config)
    requires Begins(op, mem, l, c) && op.given == [x]
    ensures Given(c, Own(op, l), l, x) && RingAt(mem, [x], 0)
  {
    NameIn([x], 0);
    assert RingAt(mem, [x], 0);
  }

  /** ... with what it should have made */
  lemma EndedWith(op: Op, l: seq<Node>, c0: Config, n: nat, c: Config, limit: nat, list: seq<Node>, out: seq<Node>)
    requires Leads(op.code, Own(op, l), c0, n, c) && op.code(c.pc) == Return && n <= limit && op.effect(l) == Made(list, out)
    requires Ring(c.mem, list) && Ring(c.mem, out) && c.regs.h == Head(list) && c.regs.r == Head(out)
    ensures Works(op, c0, l, limit)
  {
    Ended(op, l, c0, n, c, limit);
  }

  lemma AtHeadRuns(own: set<Item>, l: seq<Node>, x: Node, c: Config) returns (d: Config, m: nat)
    requires c.pc == 0 && Given(c, own, l, x) && l != []
    ensures Leads(AtHeadCode, own, c, m, d) && m == 6 && d.pc == 6
    ensures d.regs.h == Ptr(x.task) && d.regs.r == Nil && Ring(d.mem, [x] + l)
  {
    var c1, n1 := Advances(AtHeadCode, own, c, 0, c, Set(T, Of(H)));
    var c2, n2 := AttachesAt(AtHeadCode, own, c, n1, c1, l, 0, x);
    assert Inserting(l, 0, x) == [x] + l;
    d, m := Advances(AtHeadCode, own, c, n2, c2, Set(H, Of(P)));
  }

  lemma AtHeadWorks(x: Node, mem: seq<Cell>, l: seq<Node>, c: Config)
    requires Begins(AtHead(x), mem, l, c) && l != []
    ensures Works(AtHead(x), c, l, 6)
  {
    GivenOne(AtHead(x), x, mem, l, c);
    var d, m := AtHeadRuns(Own(AtHead(x), l), l, x, c);
    EndedWith(AtHead(x), l, c, m, d, 6, [x] + l, []);
  }

  lemma AtHeadSound(x: Node, kind: Kind)
    requires AnyList(kind)
    ensures Sound(AtHead(x), kind)
  {
    var op := AtHead(x);
    assert [x] + [] == [x];
    forall l | FitsList(op, kind, l) ensures Proper(op, kind, l) { AppendedNames([x], l); }
    forall mem, l | FitsList(op, kind, l) && l != [] ensures RunsOn(op, mem, l) {
      if Ring(mem, l) && Ring(mem, op.given) { AtHeadWorks(x, mem, l, Config(0, Start(op, Head(l)), mem)); }
    }
  }

  lemma AfterHeadRuns(own: set<Item>, l: seq<Node>, x: Node, c: Config) returns (d: Config, m: nat)
    requires c.pc == 0 && Given(c, own, l, x) && l != []
    ensures Leads(AfterHeadCode, own, c, m, d) && m == 5 && d.pc == 5
    ensures d.regs.h == Head(l) && d.regs.r == Nil && Ring(d.mem, Inserting(l, 1, x))
  {
    RingEnds(c.mem, l);
    var c1, n1 := Advances(AfterHeadCode, own, c, 0, c, Set(T, NextOf(H)));
    d, m := AttachesAt(AfterHeadCode, own, c, n1, c1, l, 1, x);
  }

  lemma AfterHeadWorks(x: Node, mem: seq<Cell>, l: seq<Node>, c: Config)
    requires Begins(AfterHead(x), mem, l, c) && l != []
    ensures Works(AfterHead(x), c, l, 5)
  {
    GivenOne(AfterHead(x), x, mem, l, c);
    var d, m := AfterHeadRuns(Own(AfterHead(x), l), l, x, c);
    assert Inserting(l, 1, x) == [l[0], x] + l[1..];
    EndedWith(AfterHead(x), l, c, m, d, 5, [l[0], x] + l[1..], []);
  }

  lemma AfterHeadSound(x: Node, kind: Kind)
    requires AnyList(kind)
    ensures Sound(AfterHead(x), kind)
  {
    var op := AfterHead(x);
    forall l | FitsList(op, kind, l) ensures Proper(op, kind, l) {
      if l != [] { InsertingNames(l, 1, x); assert Inserting(l, 1, x) == [l[0], x] + l[1..]; }
    }
    forall mem, l | FitsList(op, kind, l) && l != [] ensures RunsOn(op, mem, l) {
      if Ring(mem, l) && Ring(mem, op.given) { AfterHeadWorks(x, mem, l, Config(0, Start(op, Head(l)), mem)); }
    }
  }

  lemma InsertingNames(l: seq<Node>, k: nat, x: Node)
    requires Unique(l) && Apart(l, [x]) && k <= |l|
    ensures Unique(Inserting(l, k, x)) && Names(Inserting(l, k, x)) == Names(l) + Names([x])
  {
    NameIn([x], 0);
    assert NamesInserted(l, Inserting(l, k, x), k, x.task);
    InsertedUnique(l, Inserting(l, k, x), k, x.task);
    InsertedNames(l, Inserting(l, k, x), k, x.task);
    assert Names([x]) == {x.task};
  }

  lemma AtTailRuns(own: set<Item>, l: seq<Node>, x: Node, c: Config) returns (d: Config, m: nat)
    requires c.pc == 0 && Given(c, own, l, x) && Ring(c.mem, [x])
    ensures Leads(AtTailCode, own, c, m, d) && m <= 9 && d.pc == 10
    ensures d.regs.h == Head(l + [x]) && d.regs.r == Nil && Ring(d.mem, l + [x])
  {
    d, m := Advances(AtTailCode, own, c, 0, c, If(IsNull(H), 9));
    if l == [] {
      d, m := Advances(AtTailCode, own, c, m, d, Set(H, Of(P)));
      assert l + [x] == [x];
    } else {
      d, m := Advances(AtTailCode, own, c, m, d, Set(T, Of(H)));
      d, m := AttachesAt(AtTailCode, own, c, m, d, l, |l|, x);
      assert Inserting(l, |l|, x) == l + [x];
      d, m := TurnsTail(own, l, x, c, m, d);
    }
  }

  /** The new item as head, and then the next one */
  lemma TurnsTail(own: set<Item>, l: seq<Node>, x: Node, c0: Config, n: nat, c: Config) returns (d: Config, m: nat)
    requires Leads(AtTailCode, own, c0, n, c) && c.pc == 6 && l != [] && x.task in own
    requires c.regs.p == Ptr(x.task) && Ring(c.mem, l + [x])
    ensures Leads(AtTailCode, own, c0, m, d) && m == n + 3
    ensures d == Config(10, c.regs.(h := Head(l)), c.mem)
  {
    assert RingAt(c.mem, l + [x], |l|);
    var c1, n1 := Advances(AtTailCode, own, c0, n, c, Set(H, Of(P)));
    var c2, n2 := Advances(AtTailCode, own, c0, n1, c1, Set(H, NextOf(H)));
    d, m := Advances(AtTailCode, own, c0, n2, c2, Goto(10));
  }

  lemma AtTailWorks(x: Node, mem: seq<Cell>, l: seq<Node>, c: Config)
    requires Begins(AtTail(x), mem, l, c)
    ensures Works(AtTail(x), c, l, 9)
  {
    GivenOne(AtTail(x), x, mem, l, c);
    var d, m := AtTailRuns(Own(AtTail(x), l), l, x, c);
    EndedWith(AtTail(x), l, c, m, d, 9, l + [x], []);
  }

  lemma AtTailSound(x: Node, kind: Kind)
    requires AnyList(kind)
    ensures Sound(AtTail(x), kind)
  {
    var op := AtTail(x);
    forall l | FitsList(op, kind, l) ensures Proper(op, kind, l) { AppendedNames(l, [x]); }
    forall mem, l | FitsList(op, kind, l) ensures RunsOn(op, mem, l) {
      if Ring(mem, l) && Ring(mem, op.given) { AtTailWorks(x, mem, l, Config(0, Start(op, Head(l)), mem)); }
    }
  }

  /** What is left of a list from which the k-th has been taken, and that one, which is the result */
  ghost predicate Took(d: Config, l: seq<Node>, k: nat) {
    && k < |l| && d.regs.h == Head(Without(l, k)) && d.regs.r == Ptr(l[k].task)
    && Ring(d.mem, Without(l, k)) && Ring(d.mem, [l[k]])
  }

  lemma DetachesLast(own: set<Item>, l: seq<Node>, c0: Config, n: nat, c: Config) returns (d: Config, m: nat)
    requires |l| == 1 && Ring(c.mem, l) && Leads(DetachHeadCode, own, c0, n, c)
    requires c.pc == 9 && c.regs.t == Head(l)
    ensures Leads(DetachHeadCode, own, c0, m, d) && m == n + 2 && d.pc == 11 && Took(d, l, 0)
  {
    var c1, n1 := Advances(DetachHeadCode, own, c0, n, c, Set(H, Null));
    d, m := Advances(DetachHeadCode, own, c0, n1, c1, Set(R, Of(T)));
    assert l == [l[0]] && Without(l, 0) == [];
  }

  lemma DetachesFirst(own: set<Item>, l: seq<Node>, c0: Config, n: nat, c: Config) returns (d: Config, m: nat)
    requires |l| > 1 && Ring(c.mem, l) && Names(l) <= own && Leads(DetachHeadCode, own, c0, n, c)
    requires c.pc == 3 && c.regs.t == Head(l)
    ensures Leads(DetachHeadCode, own, c0, m, d) && m == n + 7 && d.pc == 11 && Took(d, l, 0)
  {
    RingEnds(c.mem, l);
    var c1, n1 := Advances(DetachHeadCode, own, c0, n, c, Set(H, NextOf(T)));
    var c2, n2 := DetachesAt(DetachHeadCode, own, c0, n1, c1, l, 0);
    d, m := TakesResult(DetachHeadCode, own, c0, n2, c2, 10);
  }

  /** `goto` to where t becomes the result */
  lemma TakesResult(code: Code, own: set<Item>, c0: Config, n: nat, c: Config, to: nat) returns (d: Config, m: nat)
    requires Leads(code, own, c0, n, c) && code(c.pc) == Goto(to) && code(to) == Set(R, Of(T))
    ensures d == Config(to + 1, c.regs.(r := c.regs.t), c.mem) && m == n + 2 && Leads(code, own, c0, m, d)
  {
    var c1, n1 := Advances(code, own, c0, n, c, Goto(to));
    d, m := Advances(code, own, c0, n1, c1, Set(R, Of(T)));
  }

  lemma DetachHeadRuns(own: set<Item>, l: seq<Node>, c: Config) returns (d: Config, m: nat)
    requires c.pc == 0 && c.regs.h == Head(l) && c.regs.r == Nil && Ring(c.mem, l) && Names(l) <= own
    ensures Leads(DetachHeadCode, own, c, m, d) && m <= 10 && d.pc == 11
    ensures if l == [] then d.regs.h == d.regs.r == Nil else Took(d, l, 0)
  {
    var c1, n1 := Advances(DetachHeadCode, own, c, 0, c, Set(T, Of(H)));
    d, m := Advances(DetachHeadCode, own, c, n1, c1, If(IsNull(T), 11));
    if l != [] {
      RingEnds(c.mem, l);
      d, m := Advances(DetachHeadCode, own, c, m, d, If(Same(NextOf(T), Of(T)), 9));
      if |l| == 1 { d, m := DetachesLast(own, l, c, m, d); } else { d, m := DetachesFirst(own, l, c, m, d); }
    }
  }

  lemma DetachHeadWorks(mem: seq<Cell>, l: seq<Node>, c: Config)
    requires Begins(DetachHead(), mem, l, c)
    ensures Works(DetachHead(), c, l, 10)
  {
    var d, m := DetachHeadRuns(Own(DetachHead(), l), l, c);
    if l == [] {
      EndedWith(DetachHead(), l, c, m, d, 10, [], []);
    } else {
      assert Without(l, 0) == l[1..];
      EndedWith(DetachHead(), l, c, m, d, 10, l[1..], [l[0]]);
    }
  }

  lemma DetachHeadSound(kind: Kind)
    requires AnyList(kind)
    ensures Sound(DetachHead(), kind)
  {
    var op := DetachHead();
    forall l | FitsList(op, kind, l) ensures Proper(op, kind, l) {
      if l != [] { WithoutNames(l, 0); assert Without(l, 0) == l[1..]; }
    }
    forall mem, l | FitsList(op, kind, l) ensures RunsOn(op, mem, l) {
      if Ring(mem, l) && Ring(mem, op.given) { DetachHeadWorks(mem, l, Config(0, Start(op, Head(l)), mem)); }
    }
  }

  // ----- add_woken (sleep.c): a whole ring goes behind the list

  function AddWokenCode(pc: nat): Line {
    if pc == 0 then Set(E, Of(H))
    else if pc == 1 then If(IsNull(E), 8)
    else if pc == 2 then Set(T, PrevOf(E))
    else if pc == 3 then Set(L, PrevOf(P))
    else if pc == 4 then SetNext(Of(L), Of(E))
    else if pc == 5 then SetPrev(Of(E), Of(L))
    else if pc == 6 then SetPrev(Of(P), Of(T))
    else if pc == 7 then SetNext(Of(T), Of(P))
    else if pc == 8 then Set(H, Of(P))
    else if pc == 9 then If(IsNull(E), 11)
    else if pc == 10 then Set(H, Of(E))
    else Return
  }

  function AddWoken(woken: seq<Node>): Op {
    Op(AddWokenCode, woken, 0, false, (l: seq<Node>) => Made(l + woken, []), (n: nat) => 11)
  }

  /** The two links at each end */
  lemma LinksRings(code: Code, own: set<Item>, c0: Config, n: nat, c: Config, e: Item, t: Item, p: Item, last: Item)
    returns (d: Config, m: nat)
    requires Leads(code, own, c0, n, c) && code == AddWokenCode && c.pc == 4
    requires c.regs.e == Ptr(e) && c.regs.t == Ptr(t) && c.regs.p == Ptr(p) && c.regs.l == Ptr(last)
    requires e in own && t in own && p in own && last in own && e < |c.mem| && t < |c.mem| && p < |c.mem| && last < |c.mem|
    requires e != p && t != last
    ensures Leads(code, own, c0, m, d) && m == n + 4 && d.pc == 8 && d.regs == c.regs
    ensures Crossed(c.mem, d.mem, last, e, t, p)
  {
    var c1, n1 := Advances(code, own, c0, n, c, SetNext(Of(L), Of(E)));
    var c2, n2 := Advances(code, own, c0, n1, c1, SetPrev(Of(E), Of(L)));
    d, m := LinksOther(code, own, c0, n2, c2, t, p);
  }

  lemma LinksOther(code: Code, own: set<Item>, c0: Config, n: nat, c: Config, t: Item, p: Item)
    returns (d: Config, m: nat)
    requires Leads(code, own, c0, n, c) && code == AddWokenCode && c.pc == 6 && c.regs.t == Ptr(t) && c.regs.p == Ptr(p)
    requires t in own && p in own && t < |c.mem| && p < |c.mem|
    ensures Leads(code, own, c0, m, d) && m == n + 2
    ensures var mem := c.mem[p := c.mem[p].(prev := t)]; d == Config(8, c.regs, mem[t := mem[t].(next := p)])
  {
    var c1, n1 := Advances(code, own, c0, n, c, SetPrev(Of(P), Of(T)));
    d, m := Advances(code, own, c0, n1, c1, SetNext(Of(T), Of(P)));
  }

  lemma RestoresHead(code: Code, own: set<Item>, c0: Config, n: nat, c: Config) returns (d: Config, m: nat)
    requires Leads(code, own, c0, n, c) && code == AddWokenCode && c.pc == 8 && c.regs.e != Nil
    ensures Leads(code, own, c0, m, d) && m == n + 3 && d == Config(11, c.regs.(h := c.regs.e), c.mem)
  {
    var c1, n1 := Advances(code, own, c0, n, c, Set(H, Of(P)));
    var c2, n2 := Advances(code, own, c0, n1, c1, If(IsNull(E), 11));
    d, m := Advances(code, own, c0, n2, c2, Set(H, Of(E)));
  }

  lemma FindsEnds(own: set<Item>, l: seq<Node>, woken: seq<Node>, c0: Config, n: nat, c: Config) returns (d: Config, m: nat)
    requires Leads(AddWokenCode, own, c0, n, c) && c.pc == 2 && Ring(c.mem, l) && Ring(c.mem, woken) && l != [] && woken != []
    requires Names(l) + Names(woken) <= own && c.regs.e == Head(l) && c.regs.p == Head(woken)
    ensures Leads(AddWokenCode, own, c0, m, d) && m == n + 2
    ensures d == Config(4, c.regs.(t := Ptr(l[|l| - 1].task), l := Ptr(woken[|woken| - 1].task)), c.mem)
  {
    RingEnds(c.mem, l);
    RingEnds(c.mem, woken);
    var c1, n1 := Advances(AddWokenCode, own, c0, n, c, Set(T, PrevOf(E)));
    d, m := Advances(AddWokenCode, own, c0, n1, c1, Set(L, PrevOf(P)));
  }

  lemma AddsToSome(own: set<Item>, l: seq<Node>, woken: seq<Node>, c0: Config, n: nat, c: Config) returns (d: Config, m: nat)
    requires Leads(AddWokenCode, own, c0, n, c) && c.pc == 2 && Ring(c.mem, l) && Ring(c.mem, woken) && l != [] && woken != []
    requires Names(l) + Names(woken) <= own && Apart(l, woken) && c.regs.e == Head(l) && c.regs.p == Head(woken)
    ensures Leads(AddWokenCode, own, c0, m, d) && m == n + 6 && d.pc == 8
    ensures d.regs.e == Head(l) && d.regs.r == c.regs.r && Ring(d.mem, l + woken)
  {
    RingEnds(c.mem, l);
    RingEnds(c.mem, woken);
    var c1, n1 := FindsEnds(own, l, woken, c0, n, c);
    d, m := LinksRings(AddWokenCode, own, c0, n1, c1, l[0].task, l[|l| - 1].task, woken[0].task, woken[|woken| - 1].task);
    JoinRings(c.mem, d.mem, l, woken);
  }

  lemma AddWokenRuns(own: set<Item>, l: seq<Node>, woken: seq<Node>, c: Config) returns (d: Config, m: nat)
    requires c.pc == 0 && Ring(c.mem, l) && Ring(c.mem, woken) && woken != [] && Apart(l, woken)
    requires Names(l) + Names(woken) <= own && c.regs.h == Head(l) && c.regs.p == Head(woken) && c.regs.r == Nil
    ensures Leads(AddWokenCode, own, c, m, d) && m <= 11 && d.pc == 11
    ensures d.regs.h == Head(l + woken) && d.regs.r == Nil && Ring(d.mem, l + woken)
  {
    var c1, n1 := Advances(AddWokenCode, own, c, 0, c, Set(E, Of(H)));
    d, m := Advances(AddWokenCode, own, c, n1, c1, If(IsNull(E), 8));
    if l == [] {
      d, m := Advances(AddWokenCode, own, c, m, d, Set(H, Of(P)));
      d, m := Advances(AddWokenCode, own, c, m, d, If(IsNull(E), 11));
      assert l + woken == woken;
    } else {
      d, m := AddsToSome(own, l, woken, c, m, d);
      d, m := RestoresHead(AddWokenCode, own, c, m, d);
    }
  }

  lemma AddWokenWorks(woken: seq<Node>, mem: seq<Cell>, l: seq<Node>, c: Config)
    requires Begins(AddWoken(woken), mem, l, c) && woken != []
    ensures Works(AddWoken(woken), c, l, 11)
  {
    var d, m := AddWokenRuns(Own(AddWoken(woken), l), l, woken, c);
    EndedWith(AddWoken(woken), l, c, m, d, 11, l + woken, []);
  }

  lemma AddWokenSound(woken: seq<Node>, kind: Kind)
    requires AnyList(kind) && woken != []
    ensures Sound(AddWoken(woken), kind)
  {
    var op := AddWoken(woken);
    forall l | FitsList(op, kind, l) ensures Proper(op, kind, l) { AppendedNames(l, woken); }
    forall mem, l | FitsList(op, kind, l) ensures RunsOn(op, mem, l) {
      if Ring(mem, l) && Ring(mem, woken) { AddWokenWorks(woken, mem, l, Config(0, Start(op, Head(l)), mem)); }
    }
  }

  // ----- for_core (ostask.c): the first task for the core, of those moving

  function ForCoreCode(pc: nat): Line {
    if pc == 0 then Set(T, Of(H))
    else if pc == 1 then If(IsNull(T), 16)
    else if pc == 2 then If(Equal(T), 6)
    else if pc == 3 then Set(T, NextOf(T))
    else if pc == 4 then If(Other(Of(T), Of(H)), 2)
    else if pc == 5 then Goto(16)
    else if pc == 6 then If(Same(Of(T), NextOf(T)), 14)
    else if pc == 7 then If(Other(Of(T), Of(H)), 9)
    else if pc == 8 then Set(H, NextOf(H))
    else if pc < 13 then DetachLine(pc - 9)
    else if pc == 13 then Goto(15)
    else if pc == 14 then Set(H, Null)
    else if pc == 15 then Set(R, Of(T))
    else Return
  }

  /** The place of the first node with the number of the core, or the length of the list */
  function FirstFor(l: seq<Node>, core: nat): (k: nat)
    ensures k <= |l| && (k < |l| ==> l[k].delta == core) && forall j :: 0 <= j < k ==> l[j].delta != core
  {
    if l == [] || l[0].delta == core then 0 else 1 + FirstFor(l[1..], core)
  }

  function ForCore(core: nat): Op {
    Op(ForCoreCode, [], core, false,
       (l: seq<Node>) =>
         var k := FirstFor(l, core);
         if k < |l| then Made(Without(l, k), [l[k]]) else Made(l, []),
       (n: nat) => 3 * n + 12)
  }

  lemma FirstIs(l: seq<Node>, core: nat, k: nat)
    requires k <= |l| && (k < |l| ==> l[k].delta == core) && forall j :: 0 <= j < k ==> l[j].delta != core
    ensures FirstFor(l, core) == k
  {
    assert !(FirstFor(l, core) < k);
  }

  /** The search is at the k-th of the list. */
  ghost predicate Searching(c: Config, core: nat, l: seq<Node>, k: nat) {
    k < |l| && c.regs.h == Head(l) && c.regs.t == Ptr(l[k].task) && c.regs.r == Nil && c.regs.n == core && Ring(c.mem, l)
  }

  lemma StepsOn(own: set<Item>, core: nat, l: seq<Node>, c0: Config, n: nat, c: Config, k: nat) returns (d: Config, m: nat)
    requires Leads(ForCoreCode, own, c0, n, c) && c.pc == 3 && Searching(c, core, l, k) && Names(l) <= own
    ensures Leads(ForCoreCode, own, c0, m, d) && m == n + 2
    ensures if k + 1 < |l| then d.pc == 2 && Searching(d, core, l, k + 1) else d.pc == 5 && Searching(d, core, l, 0)
  {
    NameIn(l, k);
    assert RingAt(c.mem, l, k);
    var c1, n1 := Advances(ForCoreCode, own, c0, n, c, Set(T, NextOf(T)));
    d, m := Advances(ForCoreCode, own, c0, n1, c1, If(Other(Of(T), Of(H)), 2));
  }

  lemma {:induction false} Searches(own: set<Item>, core: nat, l: seq<Node>, c0: Config, n: nat, c: Config, k: nat)
    returns (d: Config, m: nat)
    requires Leads(ForCoreCode, own, c0, n, c) && c.pc == 2 && Searching(c, core, l, k) && Names(l) <= own
    requires n <= 3 * k + 2 && forall j :: 0 <= j < k ==> l[j].delta != core
    ensures Leads(ForCoreCode, own, c0, m, d) && m <= 3 * |l| + 2
    ensures if FirstFor(l, core) < |l| then d.pc == 6 && Searching(d, core, l, FirstFor(l, core))
      else d.pc == 5 && Searching(d, core, l, 0)
    decreases |l| - k
  {
    NameIn(l, k);
    assert RingAt(c.mem, l, k);
    d, m := Advances(ForCoreCode, own, c0, n, c, If(Equal(T), 6));
    if l[k].delta == core {
      FirstIs(l, core, k);
    } else {
      d, m := StepsOn(own, core, l, c0, m, d, k);
      if k + 1 < |l| { d, m := Searches(own, core, l, c0, m, d, k + 1); } else { FirstIs(l, core, |l|); }
    }
  }

  lemma TakesOnly(own: set<Item>, core: nat, l: seq<Node>, c0: Config, n: nat, c: Config) returns (d: Config, m: nat)
    requires Leads(ForCoreCode, own, c0, n, c) && c.pc == 14 && Searching(c, core, l, 0) && |l| == 1
    ensures Leads(ForCoreCode, own, c0, m, d) && m == n + 2 && d.pc == 16 && Took(d, l, 0)
  {
    var c1, n1 := Advances(ForCoreCode, own, c0, n, c, Set(H, Null));
    d, m := Advances(ForCoreCode, own, c0, n1, c1, Set(R, Of(T)));
    assert [l[0]] == l && Without(l, 0) == [];
  }

  /** If the head is to go, the next one is the head. */
  lemma NewHead(own: set<Item>, core: nat, l: seq<Node>, c0: Config, n: nat, c: Config, k: nat) returns (d: Config, m: nat)
    requires Leads(ForCoreCode, own, c0, n, c) && c.pc == 7 && Searching(c, core, l, k) && Names(l) <= own && |l| > 1
    ensures Leads(ForCoreCode, own, c0, m, d) && m <= n + 2
    ensures d == Config(9, c.regs.(h := Head(Without(l, k))), c.mem)
  {
    RingEnds(c.mem, l);
    d, m := Advances(ForCoreCode, own, c0, n, c, If(Other(Of(T), Of(H)), 9));
    if k == 0 { d, m := Advances(ForCoreCode, own, c0, m, d, Set(H, NextOf(H))); }
  }

  lemma TakesOne(own: set<Item>, core: nat, l: seq<Node>, c0: Config, n: nat, c: Config, k: nat) returns (d: Config, m: nat)
    requires Leads(ForCoreCode, own, c0, n, c) && c.pc == 7 && Searching(c, core, l, k) && Names(l) <= own && |l| > 1
    ensures Leads(ForCoreCode, own, c0, m, d) && m <= n + 8 && d.pc == 16 && Took(d, l, k)
  {
    var c1, n1 := NewHead(own, core, l, c0, n, c, k);
    var c2, n2 := DetachesAt(ForCoreCode, own, c0, n1, c1, l, k);
    d, m := TakesResult(ForCoreCode, own, c0, n2, c2, 15);
  }

  lemma TakesFound(own: set<Item>, core: nat, l: seq<Node>, c0: Config, n: nat, c: Config, k: nat) returns (d: Config, m: nat)
    requires Leads(ForCoreCode, own, c0, n, c) && c.pc == 6 && Searching(c, core, l, k) && Names(l) <= own
    ensures Leads(ForCoreCode, own, c0, m, d) && m <= n + 9 && d.pc == 16 && Took(d, l, k)
  {
    NameIn(l, k);
    assert RingAt(c.mem, l, k);
    d, m := Advances(ForCoreCode, own, c0, n, c, If(Same(Of(T), NextOf(T)), 14));
    if |l| == 1 { d, m := TakesOnly(own, core, l, c0, m, d); } else { d, m := TakesOne(own, core, l, c0, m, d, k); }
  }

  lemma ForCoreRuns(own: set<Item>, core: nat, l: seq<Node>, c: Config) returns (d: Config, m: nat)
    requires c.pc == 0 && c.regs.h == Head(l) && c.regs.r == Nil && c.regs.n == core && Ring(c.mem, l) && Names(l) <= own
    ensures Leads(ForCoreCode, own, c, m, d) && m <= 3 * |l| + 12 && d.pc == 16
    ensures if FirstFor(l, core) < |l| then Took(d, l, FirstFor(l, core))
      else d.regs.h == Head(l) && d.regs.r == Nil && Ring(d.mem, l)
  {
    var c1, n1 := Advances(ForCoreCode, own, c, 0, c, Set(T, Of(H)));
    d, m := Advances(ForCoreCode, own, c, n1, c1, If(IsNull(T), 16));
    if l != [] {
      d, m := Searches(own, core, l, c, m, d, 0);
      if FirstFor(l, core) < |l| {
        d, m := TakesFound(own, core, l, c, m, d, FirstFor(l, core));
      } else {
        d, m := Advances(ForCoreCode, own, c, m, d, Goto(16));
      }
    }
  }

  lemma ForCoreWorks(core: nat, mem: seq<Cell>, l: seq<Node>, c: Config)
    requires Begins(ForCore(core), mem, l, c)
    ensures Works(ForCore(core), c, l, 3 * |l| + 12)
  {
    var d, m := ForCoreRuns(Own(ForCore(core), l), core, l, c);
    var k := FirstFor(l, core);
    if k < |l| {
      EndedWith(ForCore(core), l, c, m, d, 3 * |l| + 12, Without(l, k), [l[k]]);
    } else {
      EndedWith(ForCore(core), l, c, m, d, 3 * |l| + 12, l, []);
    }
  }

  lemma ForCoreSound(core: nat, kind: Kind)
    requires AnyList(kind)
    ensures Sound(ForCore(core), kind)
  {
    var op := ForCore(core);
    forall l | FitsList(op, kind, l) ensures Proper(op, kind, l) {
      if FirstFor(l, core) < |l| { WithoutNames(l, FirstFor(l, core)); }
    }
    forall mem, l | FitsList(op, kind, l) ensures RunsOn(op, mem, l) {
      if Ring(mem, l) && Ring(mem, op.given) { ForCoreWorks(core, mem, l, Config(0, Start(op, Head(l)), mem)); }
    }
  }

  // ----- wakey_wakey (sleep.c)

  function WakeyWakeyCode(pc: nat): Line {
    if pc == 0 then Set(T, Of(H))
    else if pc == 1 then If(IsNull(T), 18)
    else if pc == 2 then Decrement(T)
    else if pc == 3 then If(Waits(T), 18)
    else if pc == 4 then Set(E, Of(T))
    else if pc == 5 then Set(T, NextOf(T))
    else if pc == 6 then If(Waits(T), 8)
    else if pc == 7 then If(Other(Of(T), Of(H)), 4)
    else if pc == 8 then Set(R, Of(H))
    else if pc == 9 then If(Same(NextOf(E), Of(R)), 17)
    else if pc == 10 then Set(T, NextOf(E))
    else if pc == 11 then Set(H, Of(T))
    else if pc == 12 then SetPrev(Of(T), PrevOf(R))
    else if pc == 13 then SetNext(PrevOf(R), Of(T))
    else if pc == 14 then SetNext(Of(E), Of(R))
    else if pc == 15 then SetPrev(Of(R), Of(E))
    else if pc == 16 then Goto(18)
    else if pc == 17 then Set(H, Null)
    else Return
  }

  /** Of lists of sleeping tasks */
  ghost predicate Sleeping(kind: Kind) {
    forall l :: kind(l) <==> HeadWaits(l)
  }

  ghost function Woken(l: seq<Node>): Made {
    if HeadWaits(l) then Made(WakeyWakey(l).0, WakeyWakey(l).1) else Made(l, [])
  }

  ghost function WakeUp(): Op {
    Op(WakeyWakeyCode, [], 0, false, (l: seq<Node>) => Woken(l), (n: nat) => 4 * n + 14)
  }

  /** The k-th of the list is the last known to have nothing left to wait. */
  ghost predicate Waking(c: Config, l: seq<Node>, k: nat) {
    && k < |l| && c.regs.h == Head(l) && c.regs.r == Nil && Ring(c.mem, l) && (forall j :: 0 <= j <= k ==> l[j].delta == 0)
  }

  lemma ExpiredIs<U>(l: seq<Sleeper<U>>, k: nat)
    requires k <= |l| && (forall j :: 0 <= j < k ==> l[j].delta == 0) && (k < |l| ==> l[k].delta > 0)
    ensures Expired(l) == k
  {
    assert !(Expired(l) < k) && !(k < Expired(l));
  }

  lemma {:induction false} PassesExpired(own: set<Item>, l: seq<Node>, c0: Config, n: nat, c: Config, k: nat)
    returns (d: Config, m: nat)
    requires Leads(WakeyWakeyCode, own, c0, n, c) && c.pc == 4 && Waking(c, l, k) && c.regs.t == Ptr(l[k].task) && Names(l) <= own
    requires n <= 4 * k + 4
    ensures Leads(WakeyWakeyCode, own, c0, m, d) && m <= 4 * |l| + 4 && d.pc == 8
    ensures 0 < Expired(l) && Waking(d, l, Expired(l) - 1) && d.regs.e == Ptr(l[Expired(l) - 1].task)
    decreases |l| - k
  {
    d, m := PassesOne(own, l, c0, n, c, k);
    if k + 1 < |l| && l[k + 1].delta == 0 {
      d, m := PassesExpired(own, l, c0, m, d, k + 1);
    } else {
      ExpiredIs(l, k + 1);
    }
  }

  lemma PassesOne(own: set<Item>, l: seq<Node>, c0: Config, n: nat, c: Config, k: nat) returns (d: Config, m: nat)
    requires Leads(WakeyWakeyCode, own, c0, n, c) && c.pc == 4 && Waking(c, l, k) && c.regs.t == Ptr(l[k].task) && Names(l) <= own
    ensures Leads(WakeyWakeyCode, own, c0, m, d) && m <= n + 4 && Waking(d, l, k) && d.regs.e == Ptr(l[k].task)
    ensures d.pc == (if k + 1 < |l| && l[k + 1].delta == 0 then 4 else 8)
    ensures d.regs.t == Ptr(Behind(l, k + 1))
  {
    NameIn(l, k);
    assert RingAt(c.mem, l, k);
    var c1, n1 := Advances(WakeyWakeyCode, own, c0, n, c, Set(E, Of(T)));
    var c2, n2 := Advances(WakeyWakeyCode, own, c0, n1, c1, Set(T, NextOf(T)));
    assert c2 == Config(6, c.regs.(e := c.regs.t, t := Ptr(Behind(l, k + 1))), c.mem);
    d, m := LooksFurther(own, l, c0, n2, c2, k);
  }

  lemma LooksFurther(own: set<Item>, l: seq<Node>, c0: Config, n: nat, c: Config, k: nat) returns (d: Config, m: nat)
    requires Leads(WakeyWakeyCode, own, c0, n, c) && c.pc == 6 && Waking(c, l, k) && Names(l) <= own
    requires c.regs.t == Ptr(Behind(l, k + 1))
    ensures Leads(WakeyWakeyCode, own, c0, m, d) && m <= n + 2 && d == c.(pc := d.pc)
    ensures d.pc == (if k + 1 < |l| && l[k + 1].delta == 0 then 4 else 8)
  {
    var i := if k + 1 < |l| then k + 1 else 0;
    NameIn(l, i);
    assert RingAt(c.mem, l, i);
    d, m := Advances(WakeyWakeyCode, own, c0, n, c, If(Waits(T), 8));
    if l[i].delta == 0 { d, m := Advances(WakeyWakeyCode, own, c0, m, d, If(Other(Of(T), Of(H)), 4)); }
  }

  /** dll_detach_until */
  lemma CutsAll(own: set<Item>, l: seq<Node>, c0: Config, n: nat, c: Config) returns (d: Config, m: nat)
    requires Leads(WakeyWakeyCode, own, c0, n, c) && c.pc == 17
    ensures Leads(WakeyWakeyCode, own, c0, m, d) && m == n + 1 && d == Config(18, c.regs.(h := Nil), c.mem)
  {
    d, m := Advances(WakeyWakeyCode, own, c0, n, c, Set(H, Null));
  }

  lemma CutsSome(own: set<Item>, l: seq<Node>, c0: Config, n: nat, c: Config, k: nat) returns (d: Config, m: nat)
    requires Leads(WakeyWakeyCode, own, c0, n, c) && c.pc == 10 && 0 < k < |l| && Ring(c.mem, l) && Names(l) <= own
    requires c.regs.r == Head(l) && c.regs.e == Ptr(l[k - 1].task)
    ensures Leads(WakeyWakeyCode, own, c0, m, d) && m == n + 7 && d.pc == 18
    ensures d.regs.h == Ptr(l[k].task) && d.regs.r == c.regs.r && Ring(d.mem, l[..k]) && Ring(d.mem, l[k..])
  {
    d, m := NewFirst(own, l, c0, n, c, k);
    RingEnds(c.mem, l);
    NameIn(l, k);
    NameIn(l, k - 1);
    assert RingAt(c.mem, l, k) && RingAt(c.mem, l, k - 1);
    d, m := CrossesLinks(own, c0, m, d, l[0].task, l[k].task, l[k - 1].task, l[|l| - 1].task);
    SplitRings(c.mem, d.mem, l, k);
    d, m := Advances(WakeyWakeyCode, own, c0, m, d, Goto(18));
  }

  lemma NewFirst(own: set<Item>, l: seq<Node>, c0: Config, n: nat, c: Config, k: nat) returns (d: Config, m: nat)
    requires Leads(WakeyWakeyCode, own, c0, n, c) && c.pc == 10 && 0 < k < |l| && Ring(c.mem, l) && Names(l) <= own
    requires c.regs.e == Ptr(l[k - 1].task)
    ensures Leads(WakeyWakeyCode, own, c0, m, d) && m == n + 2
    ensures d == Config(12, c.regs.(t := Ptr(l[k].task), h := Ptr(l[k].task)), c.mem)
  {
    NameIn(l, k - 1);
    assert RingAt(c.mem, l, k - 1);
    var c1, n1 := Advances(WakeyWakeyCode, own, c0, n, c, Set(T, NextOf(E)));
    d, m := Advances(WakeyWakeyCode, own, c0, n1, c1, Set(H, Of(T)));
  }

  lemma CrossesLinks(own: set<Item>, c0: Config, n: nat, c: Config, first: Item, next: Item, end: Item, last: Item)
    returns (d: Config, m: nat)
    requires Leads(WakeyWakeyCode, own, c0, n, c) && c.pc == 12
    requires c.regs.r == Ptr(first) && c.regs.t == Ptr(next) && c.regs.e == Ptr(end)
    requires first in own && next in own && end in own && last in own
    requires first < |c.mem| && next < |c.mem| && end < |c.mem| && last < |c.mem|
    requires c.mem[first].prev == last && first != next && end != last
    ensures Leads(WakeyWakeyCode, own, c0, m, d) && m == n + 4 && d.pc == 16 && d.regs == c.regs
    ensures Crossed(c.mem, d.mem, last, next, end, first)
  {
    var c1, n1 := Advances(WakeyWakeyCode, own, c0, n, c, SetPrev(Of(T), PrevOf(R)));
    assert c1 == Config(13, c.regs, c.mem[next := c.mem[next].(prev := last)]);
    var c2, n2 := Advances(WakeyWakeyCode, own, c0, n1, c1, SetNext(PrevOf(R), Of(T)));
    assert c2 == Config(14, c.regs, c1.mem[last := c1.mem[last].(next := next)]);
    d, m := CrossesOther(own, c0, n2, c2, first, end);
  }

  lemma CrossesOther(own: set<Item>, c0: Config, n: nat, c: Config, first: Item, end: Item) returns (d: Config, m: nat)
    requires Leads(WakeyWakeyCode, own, c0, n, c) && c.pc == 14 && c.regs.r == Ptr(first) && c.regs.e == Ptr(end)
    requires first in own && end in own && first < |c.mem| && end < |c.mem|
    ensures Leads(WakeyWakeyCode, own, c0, m, d) && m == n + 2
    ensures var mem := c.mem[end := c.mem[end].(next := first)]; d == Config(16, c.regs, mem[first := mem[first].(prev := end)])
  {
    var c1, n1 := Advances(WakeyWakeyCode, own, c0, n, c, SetNext(Of(E), Of(R)));
    d, m := Advances(WakeyWakeyCode, own, c0, n1, c1, SetPrev(Of(R), Of(E)));
  }

  lemma Cuts(own: set<Item>, l: seq<Node>, c0: Config, n: nat, c: Config, k: nat) returns (d: Config, m: nat)
    requires Leads(WakeyWakeyCode, own, c0, n, c) && c.pc == 8 && 0 < k <= |l| && Ring(c.mem, l) && Names(l) <= own
    requires c.regs.h == Head(l) && c.regs.e == Ptr(l[k - 1].task)
    ensures Leads(WakeyWakeyCode, own, c0, m, d) && m <= n + 9 && d.pc == 18
    ensures d.regs.h == Head(l[k..]) && d.regs.r == Head(l[..k]) && Ring(d.mem, l[..k]) && Ring(d.mem, l[k..])
  {
    NameIn(l, k - 1);
    assert RingAt(c.mem, l, k - 1);
    var c1, n1 := Advances(WakeyWakeyCode, own, c0, n, c, Set(R, Of(H)));
    d, m := Advances(WakeyWakeyCode, own, c0, n1, c1, If(Same(NextOf(E), Of(R)), 17));
    if k == |l| {
      d, m := CutsAll(own, l, c0, m, d);
      assert l[..k] == l && l[k..] == [];
    } else {
      d, m := CutsSome(own, l, c0, m, d, k);
    }
  }

  /** The first task's r[0] is one less. */
  lemma CountsDown(mem: seq<Cell>, l: seq<Node>)
    requires Ring(mem, l) && l != [] && HeadWaits(l)
    ensures l[0].task < |mem| && mem[l[0].task].r0 == l[0].delta
    ensures Ring(mem[l[0].task := mem[l[0].task].(r0 := l[0].delta - 1)], Countdown(l)) && Names(Countdown(l)) == Names(l)
  {
    assert RingAt(mem, l, 0);
    WithDelta(mem, l, 0, l[0].delta - 1);
  }

  lemma WithDelta(mem: seq<Cell>, l: seq<Node>, k: nat, n: nat)
    requires Ring(mem, l) && k < |l| && l[k].task < |mem|
    ensures var q := l[k := Sleeper(l[k].task, n)];
      Ring(mem[l[k].task := mem[l[k].task].(r0 := n)], q) && Names(q) == Names(l)
  {
    var q := l[k := Sleeper(l[k].task, n)];
    var m := mem[l[k].task := mem[l[k].task].(r0 := n)];
    SameNames(l, q);
    forall j | 0 <= j < |q| ensures RingAt(m, q, j) { WithDeltaAt(mem, l, k, n, j); }
  }

  lemma WithDeltaAt(mem: seq<Cell>, l: seq<Node>, k: nat, n: nat, j: nat)
    requires Ring(mem, l) && k < |l| && l[k].task < |mem| && j < |l|
    ensures RingAt(mem[l[k].task := mem[l[k].task].(r0 := n)], l[k := Sleeper(l[k].task, n)], j)
  {
    assert RingAt(mem, l, j);
    assert j != k ==> l[j].task != l[k].task;
  }

  lemma SameNames(l: seq<Node>, q: seq<Node>)
    requires |q| == |l| && forall j :: 0 <= j < |l| ==> q[j].task == l[j].task
    ensures Names(q) == Names(l) && (Unique(l) ==> Unique(q))
  {
    forall j | 0 <= j < |l| ensures q[j].task in Names(l) && l[j].task in Names(q) {
      NameIn(l, j);
      NameIn(q, j);
    }
  }

  lemma WakeUpRuns(own: set<Item>, l: seq<Node>, c: Config) returns (d: Config, m: nat)
    requires c.pc == 0 && c.regs.h == Head(l) && c.regs.r == Nil && Ring(c.mem, l) && Names(l) <= own && HeadWaits(l)
    ensures Leads(WakeyWakeyCode, own, c, m, d) && m <= 4 * |l| + 14 && d.pc == 18
    ensures d.regs.h == Head(WakeyWakey(l).0) && d.regs.r == Head(WakeyWakey(l).1)
    ensures Ring(d.mem, WakeyWakey(l).0) && Ring(d.mem, WakeyWakey(l).1)
  {
    var c1, n1 := Advances(WakeyWakeyCode, own, c, 0, c, Set(T, Of(H)));
    d, m := Advances(WakeyWakeyCode, own, c, n1, c1, If(IsNull(T), 18));
    if l != [] {
      NameIn(l, 0);
      CountsDown(c.mem, l);
      d, m := Advances(WakeyWakeyCode, own, c, m, d, Decrement(T));
      d, m := WakesIfDue(own, Countdown(l), c, m, d);
    }
  }

  lemma WakesIfDue(own: set<Item>, q: seq<Node>, c0: Config, n: nat, c: Config) returns (d: Config, m: nat)
    requires Leads(WakeyWakeyCode, own, c0, n, c) && n == 3 && c.pc == 3 && q != [] && Ring(c.mem, q) && Names(q) <= own
    requires c.regs.h == c.regs.t == Head(q) && c.regs.r == Nil
    ensures Leads(WakeyWakeyCode, own, c0, m, d) && m <= 4 * |q| + 14 && d.pc == 18
    ensures var k := Expired(q);
      d.regs.h == Head(q[k..]) && d.regs.r == Head(q[..k]) && Ring(d.mem, q[k..]) && Ring(d.mem, q[..k])
  {
    NameIn(q, 0);
    assert RingAt(c.mem, q, 0);
    d, m := Advances(WakeyWakeyCode, own, c0, n, c, If(Waits(T), 18));
    if q[0].delta == 0 {
      d, m := PassesExpired(own, q, c0, m, d, 0);
      d, m := Cuts(own, q, c0, m, d, Expired(q));
    } else {
      assert q[0..] == q && q[..0] == [];
    }
  }

  lemma WakeUpWorks(mem: seq<Cell>, l: seq<Node>, c: Config)
    requires Begins(WakeUp(), mem, l, c) && HeadWaits(l)
    ensures Works(WakeUp(), c, l, 4 * |l| + 14)
  {
    var d, m := WakeUpRuns(Own(WakeUp(), l), l, c);
    EndedWith(WakeUp(), l, c, m, d, 4 * |l| + 14, WakeyWakey(l).0, WakeyWakey(l).1);
  }

  lemma WakeUpSound(kind: Kind)
    requires Sleeping(kind)
    ensures Sound(WakeUp(), kind)
  {
    var op := WakeUp();
    forall l | FitsList(op, kind, l) ensures Proper(op, kind, l) {
      TickTasks(l);
      SameNames(l, Countdown(l));
      SplitNames(Countdown(l), Expired(Countdown(l)));
    }
    forall mem, l | FitsList(op, kind, l) ensures RunsOn(op, mem, l) {
      if Ring(mem, l) && Ring(mem, op.given) { WakeUpWorks(mem, l, Config(0, Start(op, Head(l)), mem)); }
    }
  }

  // ----- put_to_sleep (sleep.c)

  function PutToSleepCode(pc: nat): Line {
    if pc == 0 then Load(P)
    else if pc == 1 then Set(T, Of(H))
    else if pc == 2 then If(IsNull(T), 22)
    else if pc == 3 then If(More(T), 17)
    else if pc == 4 then If(More(T), 10)
    else if pc == 5 then Pass(T)
    else if pc == 6 then Set(T, NextOf(T))
    else if pc == 7 then If(NoTime, 11)
    else if pc == 8 then If(Same(Of(T), Of(H)), 11)
    else if pc == 9 then Goto(4)
    else if pc == 10 then Lessen(T)
    else if pc == 11 then Store(P)
    else if pc < 16 then AttachLine(pc - 12)
    else if pc == 16 then Goto(23)
    else if pc == 17 then Lessen(T)
    else if pc < 22 then AttachLine(pc - 18)
    else if pc == 22 then Set(H, Of(P))
    else Return
  }

  function PutDown(x: Node): Op {
    Op(PutToSleepCode, [x], 0, false, (l: seq<Node>) => Made(PutToSleep(l, x.task, x.delta), []), (n: nat) => 6 * n + 12)
  }

  /** x, that is to go to sleep, is on its own; the list is as it was found, or nearly so. */
  ghost predicate Tired(c: Config, own: set<Item>, l: seq<Node>, x: Item) {
    && Ring(c.mem, l) && Names(l) <= own && x in own && x !in Names(l) && x < |c.mem|
    && c.regs.h == Head(l) && c.regs.p == Ptr(x) && c.regs.r == Nil
  }

  /** k tasks have been passed. */
  ghost predicate Passing(c: Config, own: set<Item>, l: seq<Node>, x: Item, time: nat, k: nat) {
    && Tired(c, own, l, x) && k < |l| && c.regs.t == Ptr(l[k].task) && (k == 0 ==> l[0].delta <= c.regs.n)
    && Reached(l, x, time, k, c.regs.n)
  }

  /** x belongs at p, with what is left of the time. */
  ghost predicate Placed(d: Config, own: set<Item>, l: seq<Node>, x: Item, time: nat, q: seq<Node>, p: nat) {
    && Tired(d, own, q, x) && 0 < p <= |q| && |q| == |l| && d.regs.t == Ptr(Behind(q, p)) && q[0].task == l[0].task
    && PutToSleep(l, x, time) == Inserting(q, p, Sleeper(x, d.regs.n))
  }

  lemma {:induction false} PassesEarlier(own: set<Item>, l: seq<Node>, x: Item, time: nat, c0: Config, n: nat, c: Config, k: nat)
    returns (d: Config, m: nat, q: seq<Node>, p: nat)
    requires Leads(PutToSleepCode, own, c0, n, c) && c.pc == 4 && Passing(c, own, l, x, time, k) && n <= 6 * k + 4
    ensures Leads(PutToSleepCode, own, c0, m, d) && m <= 6 * |l| + 4 && d.pc == 11 && Placed(d, own, l, x, time, q, p)
    decreases |l| - k
  {
    NameIn(l, k);
    assert RingAt(c.mem, l, k);
    ReachedStep(l, x, time, k, c.regs.n);
    d, m := Advances(PutToSleepCode, own, c0, n, c, If(More(T), 10));
    if l[k].delta > c.regs.n {
      d, m, q, p := StopsBefore(own, l, x, time, c0, m, d, k);
    } else {
      d, m := PassesTask(own, l, x, time, c0, m, d, k);
      if d.pc == 11 {
        q, p := l, k + 1;
      } else {
        d, m, q, p := PassesEarlier(own, l, x, time, c0, m, d, k + 1);
      }
    }
  }

  /** t is going to be waiting longer. */
  lemma StopsBefore(own: set<Item>, l: seq<Node>, x: Item, time: nat, c0: Config, n: nat, c: Config, k: nat)
    returns (d: Config, m: nat, q: seq<Node>, p: nat)
    requires Leads(PutToSleepCode, own, c0, n, c) && c.pc == 10 && 0 < k < |l| && n <= 6 * k + 5
    requires Tired(c, own, l, x) && c.regs.t == Ptr(l[k].task) && l[k].delta > c.regs.n
    requires PutToSleep(l, x, time)
          == l[..k] + [Sleeper(x, c.regs.n)] + l[k := Sleeper(l[k].task, l[k].delta - c.regs.n)][k..]
    ensures Leads(PutToSleepCode, own, c0, m, d) && m <= 6 * |l| + 4 && d.pc == 11 && Placed(d, own, l, x, time, q, p)
  {
    NameIn(l, k);
    assert RingAt(c.mem, l, k);
    p := k;
    q := l[k := Sleeper(l[k].task, l[k].delta - c.regs.n)];
    WithDelta(c.mem, l, k, l[k].delta - c.regs.n);
    d, m := Advances(PutToSleepCode, own, c0, n, c, Lessen(T));
    assert q[..k] == l[..k];
  }

  lemma PassesTask(own: set<Item>, l: seq<Node>, x: Item, time: nat, c0: Config, n: nat, c: Config, k: nat)
    returns (d: Config, m: nat)
    requires Leads(PutToSleepCode, own, c0, n, c) && c.pc == 5 && n <= 6 * k + 5
    requires Passing(c, own, l, x, time, k) && l[k].delta <= c.regs.n
    ensures Leads(PutToSleepCode, own, c0, m, d) && m <= 6 * (k + 1) + 4
    ensures (d.pc == 4 && Passing(d, own, l, x, time, k + 1)) || (d.pc == 11 && Placed(d, own, l, x, time, l, k + 1))
  {
    var left := c.regs.n - l[k].delta;
    PassedOrPlaced(l, x, time, k, c.regs.n);
    d, m := TakesItsTime(own, l, c0, n, c, k);
    d, m := LooksOn(own, l, c0, m, d, k);
    assert d.mem == c.mem && d.regs == c.regs.(n := left, t := Ptr(Behind(l, k + 1)));
  }

  lemma TakesItsTime(own: set<Item>, l: seq<Node>, c0: Config, n: nat, c: Config, k: nat) returns (d: Config, m: nat)
    requires Leads(PutToSleepCode, own, c0, n, c) && c.pc == 5 && Ring(c.mem, l) && Names(l) <= own && k < |l|
    requires c.regs.t == Ptr(l[k].task) && l[k].delta <= c.regs.n
    ensures Leads(PutToSleepCode, own, c0, m, d) && m == n + 2
    ensures d == Config(7, c.regs.(n := c.regs.n - l[k].delta, t := Ptr(Behind(l, k + 1))), c.mem)
  {
    NameIn(l, k);
    assert RingAt(c.mem, l, k);
    var c1, n1 := Advances(PutToSleepCode, own, c0, n, c, Pass(T));
    d, m := Advances(PutToSleepCode, own, c0, n1, c1, Set(T, NextOf(T)));
  }

  /** Any need to look further? */
  lemma LooksOn(own: set<Item>, l: seq<Node>, c0: Config, n: nat, c: Config, k: nat) returns (d: Config, m: nat)
    requires Leads(PutToSleepCode, own, c0, n, c) && c.pc == 7 && k < |l| && Unique(l)
    requires c.regs.h == Head(l) && c.regs.t == Ptr(Behind(l, k + 1))
    ensures Leads(PutToSleepCode, own, c0, m, d) && m <= n + 3
    ensures d == c.(pc := if c.regs.n == 0 || k + 1 == |l| then 11 else 4)
  {
    d, m := Advances(PutToSleepCode, own, c0, n, c, If(NoTime, 11));
    if c.regs.n > 0 {
      d, m := Advances(PutToSleepCode, own, c0, m, d, If(Same(Of(T), Of(H)), 11));
      if k + 1 < |l| { d, m := Advances(PutToSleepCode, own, c0, m, d, Goto(4)); }
    }
  }

  /** tired->r[0] = time, and attach */
  lemma LiesDown(own: set<Item>, l: seq<Node>, x: Item, time: nat, c0: Config, n: nat, c: Config, q: seq<Node>, p: nat)
    returns (d: Config, m: nat)
    requires Leads(PutToSleepCode, own, c0, n, c) && c.pc == 11 && Placed(c, own, l, x, time, q, p) && l != []
    ensures Leads(PutToSleepCode, own, c0, m, d) && m == n + 6 && d.pc == 23
    ensures d.regs.h == Head(PutToSleep(l, x, time)) && d.regs.r == Nil && Ring(d.mem, PutToSleep(l, x, time))
  {
    var c1, n1 := Advances(PutToSleepCode, own, c0, n, c, Store(P));
    RingStays(c.mem, c1.mem, q);
    var c2, n2 := AttachesAt(PutToSleepCode, own, c0, n1, c1, q, p, Sleeper(x, c.regs.n));
    assert Inserting(q, p, Sleeper(x, c.regs.n))[0] == q[0];
    d, m := Advances(PutToSleepCode, own, c0, n2, c2, Goto(23));
  }

  /** Before the first task */
  lemma GoesFirst(own: set<Item>, l: seq<Node>, x: Node, c0: Config, n: nat, c: Config) returns (d: Config, m: nat)
    requires Leads(PutToSleepCode, own, c0, n, c) && c.pc == 17 && l != [] && Tired(c, own, l, x.task)
    requires c.regs.t == Head(l) && c.regs.n == x.delta < l[0].delta && c.mem[x.task].r0 == x.delta
    ensures Leads(PutToSleepCode, own, c0, m, d) && m == n + 6 && d.pc == 23
    ensures d.regs.h == Ptr(x.task) && d.regs.r == Nil && Ring(d.mem, PutToSleep(l, x.task, x.delta))
  {
    NameIn(l, 0);
    assert RingAt(c.mem, l, 0);
    var q := l[0 := Sleeper(l[0].task, l[0].delta - x.delta)];
    WithDelta(c.mem, l, 0, l[0].delta - x.delta);
    FirstOfAll(l, x);
    var c1, n1 := Advances(PutToSleepCode, own, c0, n, c, Lessen(T));
    d, m := BecomesHead(own, q, x, c0, n1, c1);
  }

  lemma FirstOfAll(l: seq<Node>, x: Node)
    requires l != [] && x.delta < l[0].delta
    ensures PutToSleep(l, x.task, x.delta) == Inserting(l[0 := Sleeper(l[0].task, l[0].delta - x.delta)], 0, x)
  {
  }

  lemma BecomesHead(own: set<Item>, q: seq<Node>, x: Node, c0: Config, n: nat, c: Config) returns (d: Config, m: nat)
    requires Leads(PutToSleepCode, own, c0, n, c) && c.pc == 18 && q != [] && Tired(c, own, q, x.task)
    requires c.regs.t == Head(q) && c.mem[x.task].r0 == x.delta
    ensures Leads(PutToSleepCode, own, c0, m, d) && m == n + 5 && d.pc == 23
    ensures d.regs.h == Ptr(x.task) && d.regs.r == Nil && Ring(d.mem, Inserting(q, 0, x))
  {
    var c1, n1 := AttachesAt(PutToSleepCode, own, c0, n, c, q, 0, x);
    d, m := Advances(PutToSleepCode, own, c0, n1, c1, Set(H, Of(P)));
  }

  lemma PutDownRuns(own: set<Item>, l: seq<Node>, x: Node, c: Config) returns (d: Config, m: nat)
    requires c.pc == 0 && Tired(c, own, l, x.task) && Ring(c.mem, [x])
    ensures Leads(PutToSleepCode, own, c, m, d) && m <= 6 * |l| + 12 && d.pc == 23
    ensures d.regs.h == Head(PutToSleep(l, x.task, x.delta)) && d.regs.r == Nil && Ring(d.mem, PutToSleep(l, x.task, x.delta))
  {
    assert RingAt(c.mem, [x], 0);
    var c1, n1 := Advances(PutToSleepCode, own, c, 0, c, Load(P));
    var c2, n2 := Advances(PutToSleepCode, own, c, n1, c1, Set(T, Of(H)));
    d, m := Advances(PutToSleepCode, own, c, n2, c2, If(IsNull(T), 22));
    if l == [] {
      d, m := Advances(PutToSleepCode, own, c, m, d, Set(H, Of(P)));
    } else {
      d, m := JoinsSleepers(own, l, x, c, m, d);
    }
  }

  lemma JoinsSleepers(own: set<Item>, l: seq<Node>, x: Node, c0: Config, n: nat, c: Config) returns (d: Config, m: nat)
    requires Leads(PutToSleepCode, own, c0, n, c) && n == 3 && c.pc == 3 && l != [] && Tired(c, own, l, x.task)
    requires c.regs.t == Head(l) && c.regs.n == x.delta && c.mem[x.task].r0 == x.delta
    ensures Leads(PutToSleepCode, own, c0, m, d) && m <= 6 * |l| + 12 && d.pc == 23
    ensures d.regs.h == Head(PutToSleep(l, x.task, x.delta)) && d.regs.r == Nil && Ring(d.mem, PutToSleep(l, x.task, x.delta))
  {
    NameIn(l, 0);
    assert RingAt(c.mem, l, 0);
    d, m := Advances(PutToSleepCode, own, c0, n, c, If(More(T), 17));
    if l[0].delta > x.delta {
      d, m := GoesFirst(own, l, x, c0, m, d);
    } else {
      assert l[..0] + PutToSleep(l[0..], x.task, x.delta) == PutToSleep(l, x.task, x.delta) by { assert l[0..] == l; }
      var q, p;
      d, m, q, p := PassesEarlier(own, l, x.task, x.delta, c0, m, d, 0);
      d, m := LiesDown(own, l, x.task, x.delta, c0, m, d, q, p);
    }
  }

  lemma PutDownWorks(x: Node, mem: seq<Cell>, l: seq<Node>, c: Config)
    requires Begins(PutDown(x), mem, l, c)
    ensures Works(PutDown(x), c, l, 6 * |l| + 12)
  {
    GivenOne(PutDown(x), x, mem, l, c);
    assert Tired(c, Own(PutDown(x), l), l, x.task);
    var d, m := PutDownRuns(Own(PutDown(x), l), l, x, c);
    EndedWith(PutDown(x), l, c, m, d, 6 * |l| + 12, PutToSleep(l, x.task, x.delta), []);
  }

  lemma PutDownSound(x: Node, kind: Kind)
    requires Sleeping(kind) && x.delta > 0
    ensures Sound(PutDown(x), kind)
  {
    var op := PutDown(x);
    forall l | FitsList(op, kind, l) ensures Proper(op, kind, l) {
      NameIn([x], 0);
      var p, d := PutToSleepAmong(l, x.task, x.delta);
      InsertedNames(l, PutToSleep(l, x.task, x.delta), p, x.task);
      p := AddTasks(l, x.task, x.delta);
    }
    forall mem, l | FitsList(op, kind, l) ensures RunsOn(op, mem, l) {
      if Ring(mem, l) && Ring(mem, op.given) { PutDownWorks(x, mem, l, Config(0, Start(op, Head(l)), mem)); }
    }
  }
}
