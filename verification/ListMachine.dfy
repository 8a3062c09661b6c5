/** What works on a list while it is held (the `update` of Utilities/mpsafe_dll.h): a program of single
    reads and writes, over a memory in which every item has its two links and its saved r[0]. */
module ListMachine {
  import opened SleepQueue

  type Item = nat

  /** An item of a list, with what is in its r[0] */
  type Node = Sleeper<Item>

  datatype Word = Nil | Held | Ptr(item: Item)

  datatype Cell = Cell(next: Item, prev: Item, r0: nat)

  function Head(s: seq<Node>): Word {
    if s == [] then Nil else Ptr(s[0].task)
  }

  // ----- rings

  predicate RingAt(m: seq<Cell>, s: seq<Node>, k: nat)
    requires k < |s|
  {
    s[k].task < |m| &&
    m[s[k].task] == Cell(s[if k + 1 == |s| then 0 else k + 1].task, s[if k == 0 then |s| - 1 else k - 1].task, s[k].delta)
  }

  ghost predicate Ring(m: seq<Cell>, s: seq<Node>) {
    Unique(s) && forall k :: 0 <= k < |s| ==> RingAt(m, s, k)
  }

  ghost predicate Agree(m: seq<Cell>, n: seq<Cell>, own: set<Item>) {
    |m| == |n| && forall x :: 0 <= x < |m| && x in own ==> m[x] == n[x]
  }

  lemma RingStays(m: seq<Cell>, n: seq<Cell>, s: seq<Node>)
    requires Ring(m, s) && Agree(m, n, Names(s))
    ensures Ring(n, s)
  {
    forall k | 0 <= k < |s| ensures RingAt(n, s, k) {
      assert RingAt(m, s, k) && s[k].task in Names(s);
    }
  }

  // ----- programs

  /** H: the head of the list, that will be stored; P: the head of the ring given by the caller; R: the
      result; the others are local. */
  datatype Var = H | T | E | L | P | R

  datatype Ref = Null | Of(v: Var) | NextOf(v: Var) | PrevOf(v: Var)

  /** The last three compare an r[0] with the number that the program keeps. */
  datatype Test =
    | IsNull(v: Var) | Same(a: Ref, b: Ref) | Other(a: Ref, b: Ref)
    | NoTime | Waits(v: Var) | More(v: Var) | Equal(v: Var)

  datatype Line =
    | Set(v: Var, to: Ref)
    | SetNext(of: Ref, to: Ref)
    | SetPrev(of: Ref, to: Ref)
    | Load(v: Var)
    | Store(v: Var)
    | Pass(v: Var)
    | Lessen(v: Var)
    | Decrement(v: Var)
    | If(test: Test, line: nat)
    | Goto(line: nat)
    | Return

  type Code = nat -> Line

  datatype Regs = Regs(h: Word, t: Word, e: Word, l: Word, p: Word, r: Word, n: nat)

  datatype Config = Config(pc: nat, regs: Regs, mem: seq<Cell>)

  function Fetch(g: Regs, v: Var): Word {
    match v case H => g.h case T => g.t case E => g.e case L => g.l case P => g.p case R => g.r
  }

  function Keep(g: Regs, v: Var, w: Word): Regs {
    match v
    case H => g.(h := w)
    case T => g.(t := w)
    case E => g.(e := w)
    case L => g.(l := w)
    case P => g.(p := w)
    case R => g.(r := w)
  }

  function Value(c: Config, r: Ref): Word {
    match r
    case Null => Nil
    case Of(v) => Fetch(c.regs, v)
    case NextOf(v) => var w := Fetch(c.regs, v); if w.Ptr? && w.item < |c.mem| then Ptr(c.mem[w.item].next) else Held
    case PrevOf(v) => var w := Fetch(c.regs, v); if w.Ptr? && w.item < |c.mem| then Ptr(c.mem[w.item].prev) else Held
  }

  function SavedR0(c: Config, v: Var): nat {
    var w := Fetch(c.regs, v);
    if w.Ptr? && w.item < |c.mem| then c.mem[w.item].r0 else 0
  }

  predicate Holds(c: Config, t: Test) {
    match t
    case IsNull(v) => Fetch(c.regs, v) == Nil
    case Same(a, b) => Value(c, a) == Value(c, b)
    case Other(a, b) => Value(c, a) != Value(c, b)
    case NoTime => c.regs.n == 0
    case Waits(v) => SavedR0(c, v) > 0
    case More(v) => SavedR0(c, v) > c.regs.n
    case Equal(v) => SavedR0(c, v) == c.regs.n
  }

  function WithR0(c: Config, v: Var, n: nat): Config {
    var w := Fetch(c.regs, v);
    if w.Ptr? && w.item < |c.mem| then Config(c.pc + 1, c.regs, c.mem[w.item := c.mem[w.item].(r0 := n)]) else c
  }

  /** One line */
  function Do(c: Config, line: Line): (d: Config)
    ensures |d.mem| == |c.mem|
  {
    match line
    case Set(v, to) => Config(c.pc + 1, Keep(c.regs, v, Value(c, to)), c.mem)
    case SetNext(of, to) =>
      var a, b := Value(c, of), Value(c, to);
      if a.Ptr? && a.item < |c.mem| && b.Ptr? then Config(c.pc + 1, c.regs, c.mem[a.item := c.mem[a.item].(next := b.item)]) else c
    case SetPrev(of, to) =>
      var a, b := Value(c, of), Value(c, to);
      if a.Ptr? && a.item < |c.mem| && b.Ptr? then Config(c.pc + 1, c.regs, c.mem[a.item := c.mem[a.item].(prev := b.item)]) else c
    case Load(v) => Config(c.pc + 1, c.regs.(n := SavedR0(c, v)), c.mem)
    case Store(v) => WithR0(c, v, c.regs.n)
    case Pass(v) => Config(c.pc + 1, c.regs.(n := if SavedR0(c, v) <= c.regs.n then c.regs.n - SavedR0(c, v) else 0), c.mem)
    case Lessen(v) => WithR0(c, v, if c.regs.n <= SavedR0(c, v) then SavedR0(c, v) - c.regs.n else 0)
    case Decrement(v) => WithR0(c, v, if 1 <= SavedR0(c, v) then SavedR0(c, v) - 1 else 0)
    case If(test, to) => c.(pc := if Holds(c, test) then to else c.pc + 1)
    case Goto(to) => c.(pc := to)
    case Return => c
  }

  predicate Points(c: Config, w: Word, own: set<Item>) {
    w.Ptr? && w.item in own && w.item < |c.mem|
  }

  predicate Readable(c: Config, r: Ref, own: set<Item>) {
    r.NextOf? || r.PrevOf? ==> Points(c, Fetch(c.regs, r.v), own)
  }

  predicate Testable(c: Config, t: Test, own: set<Item>) {
    match t
    case Same(a, b) => Readable(c, a, own) && Readable(c, b, own)
    case Other(a, b) => Readable(c, a, own) && Readable(c, b, own)
    case Waits(v) => Points(c, Fetch(c.regs, v), own)
    case More(v) => Points(c, Fetch(c.regs, v), own)
    case Equal(v) => Points(c, Fetch(c.regs, v), own)
    case _ => true
  }

  /** The line follows no pointer but to items that the program may use, and takes no more from a number
      than there is. */
  predicate Allowed(c: Config, line: Line, own: set<Item>) {
    match line
    case Set(v, to) => Readable(c, to, own)
    case SetNext(of, to) => Readable(c, of, own) && Readable(c, to, own) && Points(c, Value(c, of), own) && Value(c, to).Ptr?
    case SetPrev(of, to) => Readable(c, of, own) && Readable(c, to, own) && Points(c, Value(c, of), own) && Value(c, to).Ptr?
    case Load(v) => Points(c, Fetch(c.regs, v), own)
    case Store(v) => Points(c, Fetch(c.regs, v), own)
    case Pass(v) => Points(c, Fetch(c.regs, v), own) && SavedR0(c, v) <= c.regs.n
    case Lessen(v) => Points(c, Fetch(c.regs, v), own) && c.regs.n <= SavedR0(c, v)
    case Decrement(v) => Points(c, Fetch(c.regs, v), own) && 1 <= SavedR0(c, v)
    case If(test, _) => Testable(c, test, own)
    case Goto(_) => true
    case Return => true
  }

  function NextConfig(code: Code, c: Config): Config {
    Do(c, code(c.pc))
  }

  function After(code: Code, c: Config, n: nat): Config
    decreases n
  {
    if n == 0 then c else After(code, NextConfig(code, c), n - 1)
  }

  /** The next n lines are there to be done, and allowed. */
  predicate Safe(code: Code, own: set<Item>, c: Config, n: nat)
    decreases n
  {
    n == 0 || (code(c.pc) != Return && Allowed(c, code(c.pc), own) && Safe(code, own, NextConfig(code, c), n - 1))
  }

  /** n lines lead safely from c to d. */
  predicate Leads(code: Code, own: set<Item>, c: Config, n: nat, d: Config) {
    Safe(code, own, c, n) && After(code, c, n) == d
  }

  lemma {:induction false} Advance(code: Code, own: set<Item>, c: Config, n: nat, d: Config)
    requires Leads(code, own, c, n, d) && code(d.pc) != Return && Allowed(d, code(d.pc), own)
    ensures Leads(code, own, c, n + 1, NextConfig(code, d))
    decreases n
  {
    if n > 0 {
      assert Leads(code, own, NextConfig(code, c), n - 1, d);
      Advance(code, own, NextConfig(code, c), n - 1, d);
    } else {
      assert After(code, NextConfig(code, c), 0) == NextConfig(code, c);
    }
  }

  /** A line changes only items that the program may use. */
  lemma OnlyOwn(c: Config, line: Line, own: set<Item>)
    requires Allowed(c, line, own)
    ensures forall x :: 0 <= x < |c.mem| && x !in own ==> Do(c, line).mem[x] == c.mem[x]
  {
  }

  lemma SameValue(c: Config, d: Config, r: Ref, own: set<Item>)
    requires Readable(c, r, own) && Agree(c.mem, d.mem, own) && d.regs == c.regs
    ensures Value(d, r) == Value(c, r) && Readable(d, r, own)
  {
  }

  lemma SameTest(c: Config, d: Config, t: Test, own: set<Item>)
    requires Testable(c, t, own) && Agree(c.mem, d.mem, own) && d.regs == c.regs
    ensures Holds(d, t) == Holds(c, t) && Testable(d, t, own)
  {
    if t.Same? || t.Other? {
      SameValue(c, d, t.a, own);
      SameValue(c, d, t.b, own);
    }
  }

  /** What is in the rest of the memory makes no difference to it. */
  lemma SameLine(c: Config, d: Config, line: Line, own: set<Item>)
    requires Allowed(c, line, own) && Agree(c.mem, d.mem, own) && d.pc == c.pc && d.regs == c.regs
    ensures Allowed(d, line, own)
    ensures var (c', d') := (Do(c, line), Do(d, line));
            Agree(c'.mem, d'.mem, own) && d'.pc == c'.pc && d'.regs == c'.regs
  {
    match line
    case Set(_, to) => SameValue(c, d, to, own);
    case SetNext(of, to) => SameValue(c, d, of, own); SameValue(c, d, to, own);
    case SetPrev(of, to) => SameValue(c, d, of, own); SameValue(c, d, to, own);
    case If(test, _) => SameTest(c, d, test, own);
    case _ =>
  }

  lemma {:induction false} SameRun(code: Code, own: set<Item>, c: Config, d: Config, n: nat)
    requires Safe(code, own, c, n) && Agree(c.mem, d.mem, own) && d.pc == c.pc && d.regs == c.regs
    ensures Safe(code, own, d, n)
    ensures var (c', d') := (After(code, c, n), After(code, d, n));
            Agree(c'.mem, d'.mem, own) && d'.pc == c'.pc && d'.regs == c'.regs
    decreases n
  {
    if n > 0 {
      SameLine(c, d, code(c.pc), own);
      SameRun(code, own, NextConfig(code, c), NextConfig(code, d), n - 1);
    }
  }
}
