/** Utilities/mpsafe_dll.h: lists shared by the cores. The word that holds the head of the list is
    0, a pointer, or 1 while a core works on the list, with any program that is right for a list of which
    nobody else knows. Every read of the word, every compare-and-swap and every line of the program is a
    step, and the steps of any number of cores interleave. */
module MpsafeList {
  import opened SleepQueue
  import opened ListMachine

  // ----- operations

  /** What an operation makes: the new list, and a ring that goes to the caller */
  datatype Made = Made(list: seq<Node>, out: seq<Node>)

  /** given: a ring that the caller hands over; direct: on an empty list, the ring is put there by one
      compare-and-swap of 0 for its head; limit: how many lines are run, at most, on a list of some length */
  datatype Op = Op(code: Code, given: seq<Node>, number: nat, direct: bool, effect: seq<Node> -> Made, limit: nat -> nat)

  /** What is known of any list of its kind, as that the first task asleep has some time left */
  type Kind = seq<Node> -> bool

  ghost function Own(op: Op, l: seq<Node>): set<Item> {
    Names(l) + Names(op.given)
  }

  function Start(op: Op, h: Word): Regs {
    Regs(h, Nil, Nil, Nil, Head(op.given), Nil, op.number)
  }

  ghost predicate Apart(s: seq<Node>, t: seq<Node>) {
    Names(s) !! Names(t)
  }

  ghost predicate FitsList(op: Op, kind: Kind, l: seq<Node>) {
    kind(l) && Unique(l) && Unique(op.given) && Apart(l, op.given)
  }

  /** What the operation makes of the list is a list of the kind, and its items are those there were. */
  ghost predicate Proper(op: Op, kind: Kind, l: seq<Node>) {
    var d := op.effect(l);
    kind(d.list) && Unique(d.list) && Unique(d.out) && Apart(d.list, d.out) && Names(d.list) + Names(d.out) <= Own(op, l)
  }

  /** The program has left rings of what it should make, the head to be stored, and the result. */
  ghost predicate Finished(op: Op, c: Config, l: seq<Node>) {
    var d := op.effect(l);
    Ring(c.mem, d.list) && Ring(c.mem, d.out) && c.regs.h == Head(d.list) && c.regs.r == Head(d.out)
  }

  /** n more lines, and the program is finished. */
  ghost predicate Ends(op: Op, c: Config, n: nat, l: seq<Node>) {
    && Safe(op.code, Own(op, l), c, n)
    && op.code(After(op.code, c, n).pc) == Return && Finished(op, After(op.code, c, n), l)
  }

  ghost predicate Works(op: Op, c: Config, l: seq<Node>, limit: nat) {
    exists n: nat :: n <= limit && Ends(op, c, n, l)
  }

  ghost predicate RunsOn(op: Op, mem: seq<Cell>, l: seq<Node>) {
    Ring(mem, l) && Ring(mem, op.given) ==> Works(op, Config(0, Start(op, Head(l)), mem), l, op.limit(|l|))
  }

  /** All that is asked of an operation: left alone with a list, its program does to the ring what the
      operation means. */
  ghost predicate Sound(op: Op, kind: Kind) {
    && (op.direct ==> op.given != [] && op.effect([]) == Made(op.given, []))
    && (forall l :: FitsList(op, kind, l) ==> Proper(op, kind, l))
    && (forall mem, l :: FitsList(op, kind, l) && (op.direct ==> l != []) ==> RunsOn(op, mem, l))
  }

  // ----- cores

  datatype Core = Idle | Called(op: Op) | HasRead(op: Op, word: Word) | Working(op: Op, pc: nat, regs: Regs)

  datatype Entry = Entry(core: nat, op: Op, result: Word)

  datatype State = State(word: Word, mem: seq<Cell>, cores: seq<Core>, log: seq<Entry>, kind: Kind)

  ghost function Done(s: State, c: nat, op: Op, word: Word, result: Word): State
    requires c < |s.cores|
  {
    s.(word := word, cores := s.cores[c := Idle], log := s.log + [Entry(c, op, result)])
  }

  /** The next step of a core */
  ghost function Go(s: State, c: nat): State
    requires c < |s.cores|
  {
    match s.cores[c]
    case Idle => s
    case Called(op) =>
      if s.word.Held? then s
      else s.(cores := s.cores[c := HasRead(op, s.word)])
    case HasRead(op, w) =>
      if s.word != w then s.(cores := s.cores[c := Called(op)])
      else if w == Nil && op.direct then Done(s, c, op, Head(op.given), Nil)
      else s.(word := Held, cores := s.cores[c := Working(op, 0, Start(op, w))])
    case Working(op, pc, regs) =>
      if op.code(pc) == Return then Done(s, c, op, regs.h, regs.r)
      else
        var d := NextConfig(op.code, Config(pc, regs, s.mem));
        s.(mem := d.mem, cores := s.cores[c := Working(op, d.pc, d.regs)])
  }

  /** The list that the operations in the log make, one after another */
  ghost function Replay(log: seq<Entry>): seq<Node> {
    if log == [] then [] else log[|log| - 1].op.effect(Replay(log[..|log| - 1])).list
  }

  /** The next line would use an item that is neither in the list nor handed over by the caller. */
  ghost predicate Strays(s: State, c: nat)
    requires c < |s.cores|
  {
    var k := s.cores[c];
    k.Working? && !Allowed(Config(k.pc, k.regs, s.mem), k.op.code(k.pc), Own(k.op, Replay(s.log)))
  }

  /** Touch: whoever has an item that is in no list does as he likes with it. */
  datatype Event = Call(core: nat, op: Op) | Next(core: nat) | Touch(item: Item, cell: Cell)

  /** The item is not in the list, and nobody has handed it over to an operation that is not done yet. */
  ghost predicate Spare(s: State, x: Item) {
    x !in Names(Replay(s.log)) && forall d :: 0 <= d < |s.cores| ==> s.cores[d].Idle? || x !in Names(s.cores[d].op.given)
  }

  /** A core calls when it has nothing else to do, and hands over a ring, if anything, of items that are
      its to hand over. */
  ghost predicate Enabled(s: State, e: Event) {
    match e
    case Call(c, op) =>
      c < |s.cores| && s.cores[c].Idle? && Sound(op, s.kind) && Ring(s.mem, op.given) &&
      forall x :: x in Names(op.given) ==> Spare(s, x)
    case Next(c) => c < |s.cores|
    case Touch(x, _) => x < |s.mem| && Spare(s, x)
  }

  ghost function Step(s: State, e: Event): State
    requires Enabled(s, e)
  {
    match e
    case Call(c, op) => s.(cores := s.cores[c := Called(op)])
    case Next(c) => Go(s, c)
    case Touch(x, cell) => s.(mem := s.mem[x := cell])
  }

  // ----- one atomic list

  /** What each operation returned is the head of the ring it was to return. */
  ghost predicate Answers(log: seq<Entry>) {
    forall i :: 0 <= i < |log| ==> log[i].result == Head(log[i].op.effect(Replay(log[..i])).out)
  }

  lemma ReplayOne(log: seq<Entry>, e: Entry)
    requires Answers(log) && e.result == Head(e.op.effect(Replay(log)).out)
    ensures Replay(log + [e]) == e.op.effect(Replay(log)).list && Answers(log + [e])
  {
    var n := log + [e];
    assert n[..|n| - 1] == log;
    forall i | 0 <= i < |n| ensures n[i].result == Head(n[i].op.effect(Replay(n[..i])).out) {
      if i < |log| { assert n[..i] == log[..i]; } else { assert n[..i] == log; }
    }
  }

  // ----- the invariant

  predicate Inside(c: Core) {
    c.Working?
  }

  ghost predicate CoreOk(c: Core, mem: seq<Cell>, kind: Kind, l: seq<Node>) {
    (c.HasRead? ==> c.word != Held) &&
    (!c.Idle? ==> Sound(c.op, kind) && Unique(c.op.given) && Apart(l, c.op.given)) &&
    (!c.Idle? && !Inside(c) ==> Ring(mem, c.op.given))
  }

  ghost predicate Differ(c: Core, d: Core) {
    c.Idle? || d.Idle? || Apart(c.op.given, d.op.given)
  }

  ghost predicate CoresOk(s: State, l: seq<Node>) {
    (forall c :: 0 <= c < |s.cores| ==> CoreOk(s.cores[c], s.mem, s.kind, l)) &&
    (forall c, d :: 0 <= c < d < |s.cores| ==> Differ(s.cores[c], s.cores[d]))
  }

  ghost predicate OnlyInside(s: State, c: nat) {
    c < |s.cores| && Inside(s.cores[c]) && forall d :: 0 <= d < |s.cores| && d != c ==> !Inside(s.cores[d])
  }

  ghost predicate NoneInside(s: State) {
    forall c :: 0 <= c < |s.cores| ==> !Inside(s.cores[c])
  }

  /** Core c lets go of the list after n more lines of its program, with the list as it should be. */
  ghost predicate EndsIn(s: State, c: nat, n: nat, l: seq<Node>) {
    && OnlyInside(s, c) && n <= s.cores[c].op.limit(|l|)
    && Ends(s.cores[c].op, Config(s.cores[c].pc, s.cores[c].regs, s.mem), n, l)
  }

  /** While the word is 1 exactly one core is inside, and what it still has to do will make a ring of
      the list it should; otherwise no core is inside, and there is a ring with the word as its head. */
  ghost predicate Inv(s: State) {
    var l := Replay(s.log);
    Answers(s.log) && s.kind(l) && Unique(l) && CoresOk(s, l) &&
    if s.word.Held? then exists c: nat, n: nat :: EndsIn(s, c, n, l)
    else Ring(s.mem, l) && s.word == Head(l) && NoneInside(s)
  }

  lemma HeldInv(s: State, c: nat, n: nat, l: seq<Node>)
    requires s.word == Held && l == Replay(s.log) && Answers(s.log) && s.kind(l) && Unique(l) && CoresOk(s, l)
    requires EndsIn(s, c, n, l)
    ensures Inv(s)
  {
  }

  lemma LooseInv(s: State, l: seq<Node>)
    requires l == Replay(s.log) && Answers(s.log) && s.kind(l) && Unique(l) && CoresOk(s, l)
    requires Ring(s.mem, l) && s.word == Head(l) && NoneInside(s)
    ensures Inv(s)
  {
  }

  ghost predicate Init(s: State) {
    s.word == Nil && s.log == [] && s.kind([]) && forall c :: 0 <= c < |s.cores| ==> s.cores[c] == Idle
  }

  lemma InitInv(s: State)
    requires Init(s)
    ensures Inv(s)
  {
  }

  // ----- steps outside

  /** Only core c has changed, in a state where the list is the same. */
  lemma OneCoreOk(s: State, t: State, c: nat, l: seq<Node>)
    requires c < |s.cores| == |t.cores| && t.mem == s.mem && t.kind == s.kind && t.cores == s.cores[c := t.cores[c]]
    requires CoresOk(s, l) && CoreOk(t.cores[c], s.mem, s.kind, l)
    requires forall d :: 0 <= d < |s.cores| && d != c ==> Differ(t.cores[c], s.cores[d])
    ensures CoresOk(t, l)
  {
    forall i, j | 0 <= i < j < |t.cores| ensures Differ(t.cores[i], t.cores[j]) {
      assert Differ(s.cores[i], s.cores[j]);
      if i == c { assert Differ(t.cores[c], s.cores[j]); }
      if j == c { assert Differ(t.cores[c], s.cores[i]); }
    }
  }

  lemma SameOpDiffers(s: State, c: nat, k: Core, l: seq<Node>)
    requires CoresOk(s, l) && c < |s.cores| && !s.cores[c].Idle? && (k.Idle? || k.op == s.cores[c].op)
    ensures forall d :: 0 <= d < |s.cores| && d != c ==> Differ(k, s.cores[d])
  {
    forall d | 0 <= d < |s.cores| && d != c ensures Differ(k, s.cores[d]) {
      assert if c < d then Differ(s.cores[c], s.cores[d]) else Differ(s.cores[d], s.cores[c]);
    }
  }

  /** A core that is not inside, and does not get there, changes nothing for the one that is. */
  lemma OutsideInv(s: State, c: nat, k: Core)
    requires Inv(s) && c < |s.cores| && !Inside(s.cores[c]) && !Inside(k)
    requires CoreOk(k, s.mem, s.kind, Replay(s.log))
    requires forall d :: 0 <= d < |s.cores| && d != c ==> Differ(k, s.cores[d])
    ensures Inv(s.(cores := s.cores[c := k]))
  {
    var t := s.(cores := s.cores[c := k]);
    var l := Replay(s.log);
    OneCoreOk(s, t, c, l);
    if s.word.Held? {
      var d: nat, n: nat :| EndsIn(s, d, n, l);
      assert EndsIn(t, d, n, l);
      HeldInv(t, d, n, l);
    } else {
      LooseInv(t, l);
    }
  }

  lemma CallKeepsInv(s: State, c: nat, op: Op)
    requires Inv(s) && Enabled(s, Call(c, op))
    ensures Inv(Step(s, Call(c, op)))
  {
    forall d | 0 <= d < |s.cores| && d != c ensures Differ(Called(op), s.cores[d]) {
      if !s.cores[d].Idle? {
        forall x | x in Names(op.given) ensures x !in Names(s.cores[d].op.given) { assert Spare(s, x); }
      }
    }
    forall x | x in Names(op.given) ensures x !in Names(Replay(s.log)) { assert Spare(s, x); }
    OutsideInv(s, c, Called(op));
  }

  lemma WaitKeepsInv(s: State, c: nat)
    requires Inv(s) && c < |s.cores| && (s.cores[c].Called? || (s.cores[c].HasRead? && s.word != s.cores[c].word))
    ensures Inv(Go(s, c))
  {
    var k := s.cores[c];
    var k' := if k.HasRead? then Called(k.op) else if s.word.Held? then k else HasRead(k.op, s.word);
    SameOpDiffers(s, c, k', Replay(s.log));
    assert CoreOk(k, s.mem, s.kind, Replay(s.log));
    OutsideInv(s, c, k');
    assert s.cores[c := k] == s.cores;
  }

  /** What the owner of a spare item does with it */
  lemma TouchKeepsInv(s: State, x: Item, cell: Cell)
    requires Inv(s) && Enabled(s, Touch(x, cell))
    ensures Inv(Step(s, Touch(x, cell)))
  {
    var t := Step(s, Touch(x, cell));
    var l := Replay(s.log);
    forall c | 0 <= c < |t.cores| ensures CoreOk(t.cores[c], t.mem, t.kind, l) {
      assert CoreOk(s.cores[c], s.mem, s.kind, l);
      if !s.cores[c].Idle? && !Inside(s.cores[c]) { RingStays(s.mem, t.mem, s.cores[c].op.given); }
    }
    forall i, j | 0 <= i < j < |t.cores| ensures Differ(t.cores[i], t.cores[j]) { assert Differ(s.cores[i], s.cores[j]); }
    if s.word.Held? {
      var c: nat, n: nat :| EndsIn(s, c, n, l);
      TouchEndsIn(s, x, cell, c, n);
      HeldInv(t, c, n, l);
    } else {
      RingStays(s.mem, t.mem, l);
      LooseInv(t, l);
    }
  }

  lemma TouchEndsIn(s: State, x: Item, cell: Cell, c: nat, n: nat)
    requires Inv(s) && Enabled(s, Touch(x, cell)) && EndsIn(s, c, n, Replay(s.log))
    ensures EndsIn(Step(s, Touch(x, cell)), c, n, Replay(s.log))
  {
    var l := Replay(s.log);
    var k := s.cores[c];
    assert CoreOk(k, s.mem, s.kind, l);
    assert Proper(k.op, s.kind, l);
    EndsAgree(k.op, Config(k.pc, k.regs, s.mem), Config(k.pc, k.regs, s.mem[x := cell]), n, l);
  }

  lemma EndsAgree(op: Op, c: Config, d: Config, n: nat, l: seq<Node>)
    requires Ends(op, c, n, l) && Agree(c.mem, d.mem, Own(op, l)) && d.pc == c.pc && d.regs == c.regs
    requires Names(op.effect(l).list) + Names(op.effect(l).out) <= Own(op, l)
    ensures Ends(op, d, n, l)
  {
    SameRun(op.code, Own(op, l), c, d, n);
    RingStays(After(op.code, c, n).mem, After(op.code, d, n).mem, op.effect(l).list);
    RingStays(After(op.code, c, n).mem, After(op.code, d, n).mem, op.effect(l).out);
  }

  // ----- steps that take the list, work on it, and give it back

  lemma EnterKeepsInv(s: State, c: nat)
    requires Inv(s) && c < |s.cores| && s.cores[c].HasRead? && s.word == s.cores[c].word
    requires s.word != Nil || !s.cores[c].op.direct
    ensures Inv(Go(s, c))
  {
    var t := Go(s, c);
    var l := Replay(s.log);
    var op := s.cores[c].op;
    assert CoreOk(s.cores[c], s.mem, s.kind, l);
    assert FitsList(op, s.kind, l);
    assert RunsOn(op, s.mem, l);
    var n: nat :| n <= op.limit(|l|) && Ends(op, Config(0, Start(op, Head(l)), s.mem), n, l);
    SameOpDiffers(s, c, t.cores[c], l);
    OneCoreOk(s, t, c, l);
    assert EndsIn(t, c, n, l);
    HeldInv(t, c, n, l);
  }

  /** A core inside changes only what is its to change: the rings that others are about to hand over stay. */
  lemma OthersStay(s: State, c: nat, mem: seq<Cell>, k: Core, l: seq<Node>)
    requires CoresOk(s, l) && OnlyInside(s, c) && k.Working? && k.op == s.cores[c].op && |mem| == |s.mem|
    requires forall x :: 0 <= x < |s.mem| && x !in Own(k.op, l) ==> mem[x] == s.mem[x]
    ensures CoresOk(s.(mem := mem, cores := s.cores[c := k]), l)
  {
    var t := s.(mem := mem, cores := s.cores[c := k]);
    SameOpDiffers(s, c, k, l);
    forall d | 0 <= d < |t.cores| ensures CoreOk(t.cores[d], mem, t.kind, l) {
      assert CoreOk(s.cores[d], s.mem, s.kind, l);
      if d != c && !s.cores[d].Idle? {
        assert Differ(k, s.cores[d]);
        RingStays(s.mem, mem, s.cores[d].op.given);
      }
    }
    forall i, j | 0 <= i < j < |t.cores| ensures Differ(t.cores[i], t.cores[j]) {
      assert Differ(s.cores[i], s.cores[j]);
      if i == c { assert Differ(k, s.cores[j]); }
      if j == c { assert Differ(k, s.cores[i]); }
    }
  }

  lemma WorkKeepsInv(s: State, c: nat, n: nat)
    requires Inv(s) && EndsIn(s, c, n, Replay(s.log)) && n > 0
    ensures Inv(Go(s, c)) && EndsIn(Go(s, c), c, n - 1, Replay(s.log)) && !Strays(s, c) && Go(s, c).word == s.word
  {
    var t := Go(s, c);
    var l := Replay(s.log);
    var k := s.cores[c];
    var d := Config(k.pc, k.regs, s.mem);
    OnlyOwn(d, k.op.code(k.pc), Own(k.op, l));
    OthersStay(s, c, t.mem, t.cores[c], l);
    assert Ends(k.op, NextConfig(k.op.code, d), n - 1, l);
    assert EndsIn(t, c, n - 1, l);
    HeldInv(t, c, n - 1, l);
  }

  /** The operation takes effect: what the other cores hand over is still not in the list. */
  lemma DoneCoresOk(s: State, c: nat, word: Word, result: Word, l: seq<Node>)
    requires c < |s.cores| && !s.cores[c].Idle? && CoresOk(s, l) && Proper(s.cores[c].op, s.kind, l)
    ensures CoresOk(Done(s, c, s.cores[c].op, word, result), s.cores[c].op.effect(l).list)
  {
    var op := s.cores[c].op;
    var t := Done(s, c, op, word, result);
    SameOpDiffers(s, c, s.cores[c], l);
    forall d | 0 <= d < |t.cores| ensures CoreOk(t.cores[d], t.mem, t.kind, op.effect(l).list) {
      if d != c {
        assert CoreOk(s.cores[d], s.mem, s.kind, l);
        assert Differ(s.cores[c], s.cores[d]);
      }
    }
    forall i, j | 0 <= i < j < |t.cores| ensures Differ(t.cores[i], t.cores[j]) {
      assert Differ(s.cores[i], s.cores[j]);
    }
  }

  lemma DoneInv(s: State, c: nat, word: Word, result: Word, l: seq<Node>)
    requires l == Replay(s.log) && Answers(s.log) && CoresOk(s, l) && c < |s.cores| && !s.cores[c].Idle?
    requires Proper(s.cores[c].op, s.kind, l)
    requires forall d :: 0 <= d < |s.cores| && d != c ==> !Inside(s.cores[d])
    requires var d := s.cores[c].op.effect(l); Ring(s.mem, d.list) && word == Head(d.list) && result == Head(d.out)
    ensures Inv(Done(s, c, s.cores[c].op, word, result))
    ensures Replay(Done(s, c, s.cores[c].op, word, result).log) == s.cores[c].op.effect(l).list
  {
    var op := s.cores[c].op;
    DoneCoresOk(s, c, word, result, l);
    ReplayOne(s.log, Entry(c, op, result));
    LooseInv(Done(s, c, op, word, result), op.effect(l).list);
  }

  /** An empty list becomes the ring handed over, by one compare-and-swap. */
  lemma DirectKeepsInv(s: State, c: nat)
    requires Inv(s) && c < |s.cores| && s.cores[c].HasRead? && s.word == s.cores[c].word == Nil && s.cores[c].op.direct
    ensures Inv(Go(s, c)) && Replay(Go(s, c).log) == s.cores[c].op.given
  {
    var op := s.cores[c].op;
    assert Replay(s.log) == [];
    assert CoreOk(s.cores[c], s.mem, s.kind, []);
    assert FitsList(op, s.kind, []);
    DoneInv(s, c, Head(op.given), Nil, []);
  }

  lemma ReleaseKeepsInv(s: State, c: nat)
    requires Inv(s) && EndsIn(s, c, 0, Replay(s.log))
    ensures Inv(Go(s, c)) && Go(s, c).word != Held
    ensures Replay(Go(s, c).log) == s.cores[c].op.effect(Replay(s.log)).list
  {
    var l := Replay(s.log);
    var k := s.cores[c];
    assert CoreOk(k, s.mem, s.kind, l);
    assert FitsList(k.op, s.kind, l);
    DoneInv(s, c, k.regs.h, k.regs.r, l);
  }

  lemma InsideEndsIn(s: State, c: nat) returns (n: nat)
    requires Inv(s) && c < |s.cores| && Inside(s.cores[c])
    ensures EndsIn(s, c, n, Replay(s.log)) && s.word == Held
  {
    var d: nat, m: nat :| EndsIn(s, d, m, Replay(s.log));
    n := m;
  }

  lemma InsideKeepsInv(s: State, c: nat)
    requires Inv(s) && c < |s.cores| && Inside(s.cores[c])
    ensures Inv(Go(s, c)) && !Strays(s, c)
  {
    var n := InsideEndsIn(s, c);
    if n > 0 { WorkKeepsInv(s, c, n); } else { ReleaseKeepsInv(s, c); }
  }

  lemma StepKeepsInv(s: State, e: Event)
    requires Inv(s) && Enabled(s, e)
    ensures Inv(Step(s, e)) && (e.Next? ==> !Strays(s, e.core))
  {
    match e
    case Call(c, op) => CallKeepsInv(s, c, op);
    case Touch(x, cell) => TouchKeepsInv(s, x, cell);
    case Next(c) =>
      match s.cores[c]
      case Idle =>
      case Called(_) => WaitKeepsInv(s, c);
      case HasRead(op, w) =>
        if s.word != w {
          WaitKeepsInv(s, c);
        } else if w == Nil && op.direct {
          DirectKeepsInv(s, c);
        } else {
          EnterKeepsInv(s, c);
        }
      case Working(_, _, _) => InsideKeepsInv(s, c);
  }

  // ----- runs

  ghost predicate IsRun(s: State, es: seq<Event>)
    decreases |es|
  {
    es == [] || (Enabled(s, es[0]) && IsRun(Step(s, es[0]), es[1..]))
  }

  ghost function End(s: State, es: seq<Event>): State
    requires IsRun(s, es)
    decreases |es|
  {
    if es == [] then s else End(Step(s, es[0]), es[1..])
  }

  lemma {:induction false} RunKeepsInv(s: State, es: seq<Event>)
    requires Inv(s) && IsRun(s, es)
    ensures Inv(End(s, es))
    decreases |es|
  {
    if es != [] {
      StepKeepsInv(s, es[0]);
      RunKeepsInv(Step(s, es[0]), es[1..]);
    }
  }

  /** For any number of cores, any operations and any interleaving: the word is 1 exactly while one core, and
      only one, is inside; whenever no core is, there is a ring, with the head the word says, of what the
      operations so far make when each happens at once; and each returned what it then would. */
  lemma OneAtomicList(s: State, es: seq<Event>)
    requires Init(s) && IsRun(s, es)
    ensures var t := End(s, es);
            && (t.word == Held <==> exists c: nat :: OnlyInside(t, c))
            && (t.word != Held ==> NoneInside(t))
            && (t.word != Held ==> Ring(t.mem, Replay(t.log)) && t.word == Head(Replay(t.log)))
            && t.kind(Replay(t.log)) && Answers(t.log)
  {
    InitInv(s);
    RunKeepsInv(s, es);
    var t := End(s, es);
    if t.word == Held {
      var c: nat, n: nat :| EndsIn(t, c, n, Replay(t.log));
      assert OnlyInside(t, c);
    }
  }

  /** The log grows by one entry when an operation returns, the one it was called for, and otherwise stays. */
  lemma EachOnce(s: State, e: Event)
    requires Enabled(s, e)
    ensures var t := Step(s, e);
            if e.Next? && !s.cores[e.core].Idle? && t.cores[e.core].Idle?
            then |t.log| == |s.log| + 1 && t.log[..|s.log|] == s.log &&
                 t.log[|s.log|].core == e.core && t.log[|s.log|].op == s.cores[e.core].op
            else t.log == s.log
  {
  }

  /** What an operation hands back is a ring of items that are the caller's from then on. */
  lemma ReturnsRing(s: State, c: nat)
    requires Inv(s) && c < |s.cores| && Inside(s.cores[c]) && Go(s, c).cores[c].Idle?
    ensures var out := s.cores[c].op.effect(Replay(s.log)).out;
            Ring(Go(s, c).mem, out) && s.cores[c].regs.r == Head(out) && forall x :: x in Names(out) ==> Spare(Go(s, c), x)
  {
    var n := InsideEndsIn(s, c);
    var l := Replay(s.log);
    var op := s.cores[c].op;
    ReleaseKeepsInv(s, c);
    assert CoreOk(s.cores[c], s.mem, s.kind, l);
    assert Proper(op, s.kind, l) by { assert FitsList(op, s.kind, l); }
    var t := Go(s, c);
    SameOpDiffers(s, c, s.cores[c], l);
    forall x, d | x in Names(op.effect(l).out) && 0 <= d < |t.cores|
      ensures t.cores[d].Idle? || x !in Names(t.cores[d].op.given)
    {
      if d != c {
        assert CoreOk(s.cores[d], s.mem, s.kind, l);
        assert Differ(s.cores[c], s.cores[d]);
      }
    }
  }

  // ----- how long a list is held

  /** Core c holds the list, with n lines of its program to go, and the operations done so far are log. */
  ghost predicate Holding(s: State, c: nat, n: nat, log: seq<Entry>) {
    Inv(s) && s.word == Held && s.log == log && EndsIn(s, c, n, Replay(log))
  }

  lemma HolderStep(s: State, e: Event, c: nat, n: nat, log: seq<Entry>)
    requires Holding(s, c, n, log) && Enabled(s, e) && (e == Next(c) ==> n > 0)
    ensures Holding(Step(s, e), c, if e == Next(c) then n - 1 else n, log)
  {
    StepKeepsInv(s, e);
    if e == Next(c) {
      WorkKeepsInv(s, c, n);
    } else if e.Touch? {
      TouchEndsIn(s, e.item, e.cell, c, n);
    } else {
      assert !Inside(Step(s, e).cores[e.core]);
    }
  }

  function Turns(es: seq<Event>, c: nat): nat {
    if es == [] then 0 else (if es[0] == Next(c) then 1 else 0) + Turns(es[1..], c)
  }

  /** A core that takes a list holds it for some number of its own steps, no more than the limit of the
      operation, and whatever the other cores do meanwhile: nobody else takes effect ... */
  lemma {:induction false} HeldUntilDone(s: State, es: seq<Event>, c: nat, n: nat, log: seq<Entry>)
    returns (t: State, left: nat)
    requires IsRun(s, es) && Holding(s, c, n, log) && Turns(es, c) <= n
    ensures t == End(s, es) && left == n - Turns(es, c)
    ensures Holding(t, c, left, log)
    decreases |es|
  {
    if es == [] {
      t, left := s, n;
    } else {
      var s' := FirstStep(s, es);
      HolderStep(s, es[0], c, n, log);
      t, left := HeldUntilDone(s', es[1..], c, if es[0] == Next(c) then n - 1 else n, log);
    }
  }

  lemma FirstStep(s: State, es: seq<Event>) returns (s': State)
    requires IsRun(s, es) && es != []
    ensures Enabled(s, es[0]) && s' == Step(s, es[0]) && IsRun(s', es[1..]) && End(s, es) == End(s', es[1..])
  {
    s' := Step(s, es[0]);
  }

  /** ... and with one more step of its own it is done, and the list is free. */
  lemma ThenLetGo(s: State, c: nat, log: seq<Entry>)
    requires Holding(s, c, 0, log)
    ensures var t := Go(s, c);
            Inv(t) && t.word != Held && t.cores[c].Idle? && Replay(t.log) == s.cores[c].op.effect(Replay(log)).list
  {
    ReleaseKeepsInv(s, c);
  }

  ghost predicate TakenOrDone(s: State, c: nat, limit: nat, log: seq<Entry>) {
    c < |s.cores| && (s.cores[c].Idle? || exists n: nat :: n <= limit && Holding(s, c, n, log))
  }

  lemma NotOvertaken(s: State, c: nat)
    requires Inv(s) && c < |s.cores| && s.cores[c].HasRead? && s.word == s.cores[c].word
    ensures TakenOrDone(Go(s, c), c, s.cores[c].op.limit(|Replay(s.log)|), s.log)
  {
    if s.word != Nil || !s.cores[c].op.direct {
      assert CoreOk(s.cores[c], s.mem, s.kind, Replay(s.log));
      EnterKeepsInv(s, c);
      var n := InsideEndsIn(Go(s, c), c);
      assert Holding(Go(s, c), c, n, s.log);
    }
  }

  lemma ReadsWord(s: State, c: nat)
    requires c < |s.cores| && s.cores[c].Called? && s.word != Held
    ensures var t := Go(s, c); t == s.(cores := s.cores[c := HasRead(s.cores[c].op, s.word)])
  {
  }

  /** A core that finds the list not held, and takes its next two steps before any other core, holds it,
      with no more lines to run than the limit of its operation for the list as it is; or is done. */
  lemma NotHeldIsTaken(s: State, c: nat)
    requires Inv(s) && c < |s.cores| && s.cores[c].Called? && s.word != Held
    ensures TakenOrDone(Go(Go(s, c), c), c, s.cores[c].op.limit(|Replay(s.log)|), s.log)
  {
    WaitKeepsInv(s, c);
    ReadsWord(s, c);
    NotOvertaken(Go(s, c), c);
  }

  /** Where the list is given back by a compare-and-swap of 1 for the head, the word it finds is 1. */
  lemma GivenBackFromOne(s: State, c: nat)
    requires Inv(s) && c < |s.cores| && Inside(s.cores[c])
    ensures s.word == Held
  {
  }
}
