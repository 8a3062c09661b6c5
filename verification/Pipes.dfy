/** What the pipe operations do (OSTask/pipes.c), told in terms of all the data that
    ever went through the pipe.  OSPipes has the in-place version with its wrapping
    32-bit indices and its memory. */
module Pipes {
  import opened Tasks

  /** One end of a pipe: nobody has taken it yet, a task has, or it is done with. */
  datatype End = Nobody | Held(task: Task) | Finished

  /** senderWants (receiverWants) is the amount the task at that end is blocked for,
      nought if it is not blocked; `written` and `read` count every byte so far. */
  datatype Pipe = Pipe(size: nat, sender: End, senderWants: nat, receiver: End, receiverWants: nat, written: nat, read: nat) {
    function Data(): int { written - read }
    function Space(): int { size - Data() }
  }

  datatype Op =
    | WaitForSpace(amount: nat)
    | SpaceFilled(amount: nat)
    | SetSender(to: Option<Task>)
    | UnreadData
    | NoMoreData
    | WaitForData(amount: nat)
    | DataConsumed(amount: nat)
    | SetReceiver(to: Option<Task>)
    | NotListening

  /** Values returned in r[1] and r[2]: an amount, and where in the pipe's memory. */
  datatype Reply = NoReply | Amount(amount: int) | AmountAt(amount: int, at: nat)

  datatype Outcome =
    | Done(pipe: Pipe, reply: Reply)
    | Wakes(pipe: Pipe, reply: Reply, woken: Task, wokenReply: Reply)
    | Refused
    | Blocks(pipe: Pipe)
    | Panics

  /** PipeCreate, for memory owned by the pipe */
  function Create(size: nat, me: Task): Pipe {
    Pipe(size, Held(me), 0, Held(me), 0, 0, 0)
  }

  function FromOption(t: Option<Task>): End {
    match t case None => Nobody case Some(x) => Held(x)
  }

  function Step(p: Pipe, me: Task, op: Op): Outcome
    requires p.size > 0
  {
    match op
    case WaitForSpace(n) =>
      if p.sender != Held(me) && p.sender != Nobody then Refused
      else if p.Space() >= n || p.receiver == Finished then
        Done(p.(sender := Held(me)), AmountAt(p.Space(), p.written % p.size))
      else
        Blocks(p.(sender := Held(me), senderWants := n))
    case SpaceFilled(n) =>
      if p.sender != Held(me) || p.Space() < n then Refused
      else
        var q := p.(written := p.written + n);
        var reply := AmountAt(q.Space(), q.written % q.size);
        if q.receiver == Nobody && q.receiverWants != 0 then Panics
        else if q.receiver == Held(me) && q.receiverWants != 0 then Panics
        else if q.receiverWants > 0 && q.receiverWants <= q.Data() then
          if q.receiver.Held? then
            Wakes(q.(receiverWants := 0), reply, q.receiver.task, AmountAt(q.Data(), q.read % q.size))
          else Panics
        else Done(q, reply)
    case SetSender(t) =>
      if p.sender != Held(me) && p.sender != Nobody then Refused
      else Done(p.(sender := FromOption(t)), NoReply)
    case UnreadData =>
      Done(p, Amount(p.Data()))
    case NoMoreData =>
      if p.receiver != Finished && p.receiverWants != 0 then Panics
      else Done(p.(sender := Finished), NoReply)
    case WaitForData(n) =>
      if p.receiver != Held(me) && p.receiver != Nobody then Refused
      else if p.Data() >= n || p.sender == Finished then
        Done(p.(receiver := Held(me)), AmountAt(p.Data(), p.read % p.size))
      else
        Blocks(p.(receiver := Held(me), receiverWants := n))
    case DataConsumed(n) =>
      if p.receiver != Held(me) || p.Data() < n then Refused
      else
        var q := p.(read := p.read + n);
        var reply := AmountAt(q.Data(), q.read % q.size);
        if q.senderWants > 0 && q.senderWants <= q.Space() then
          if q.sender.Held? then
            Wakes(q.(senderWants := 0), reply, q.sender.task, AmountAt(q.Space(), q.written % q.size))
          else Panics
        else Done(q, reply)
    case SetReceiver(t) =>
      if p.receiver != Held(me) && p.receiver != Nobody then Refused
      else Done(p.(receiver := FromOption(t)), NoReply)
    case NotListening =>
      if p.sender != Finished && p.senderWants != 0 then Panics
      else Done(p.(receiver := Finished), NoReply)
  }

  // ----- no wakeup is lost

  /** Data and space never go out of range; a task is blocked at an end only while
      there is not enough for it, and the other end is not done with. */
  ghost predicate Ok(p: Pipe) {
    && p.size > 0
    && 0 <= p.Data() <= p.size
    && (p.senderWants > 0 ==> p.sender.Held? && p.Space() < p.senderWants && p.receiver != Finished)
    && (p.receiverWants > 0 ==> p.receiver.Held? && p.Data() < p.receiverWants && p.sender != Finished)
  }

  ghost predicate BlockedAt(p: Pipe, t: Task) {
    || (p.senderWants > 0 && p.sender == Held(t))
    || (p.receiverWants > 0 && p.receiver == Held(t))
  }

  /** NoMoreData and NotListening do not look at who calls; an end must not be given
      up while the task holding it is blocked there.  (The holder itself, being able
      to call, is not.) */
  ghost predicate EndIsIdle(p: Pipe, op: Op) {
    && (op.NoMoreData? ==> p.senderWants == 0)
    && (op.NotListening? ==> p.receiverWants == 0)
  }

  function PipeAfter(p: Pipe, o: Outcome): Pipe {
    match o
    case Done(q, _) => q
    case Wakes(q, _, _, _) => q
    case Blocks(q) => q
    case _ => p
  }

  lemma CreateOk(size: nat, me: Task)
    requires size > 0
    ensures Ok(Create(size, me)) && forall t :: !BlockedAt(Create(size, me), t)
  {
  }

  /** Every operation by a running task keeps the pipe so: whoever still waits has
      reason to.  A task is woken only if it was blocked, with at least what it asked
      for, and then waits no more; nobody else starts or ceases to wait except a
      caller that is told to block. */
  lemma StepKeepsOk(p: Pipe, me: Task, op: Op)
    requires Ok(p) && !BlockedAt(p, me) && EndIsIdle(p, op)
    ensures var o := Step(p, me, op);
      && Ok(PipeAfter(p, o))
      && (o.Blocks? ==> BlockedAt(o.pipe, me))
      && (o.Wakes? ==> BlockedAt(p, o.woken) && o.woken != me)
      && (o.Wakes? && op.SpaceFilled? ==> o.wokenReply.amount >= p.receiverWants > 0 == o.pipe.receiverWants)
      && (o.Wakes? && op.DataConsumed? ==> o.wokenReply.amount >= p.senderWants > 0 == o.pipe.senderWants)
  {
  }

  // ----- whose an end is, and what a wait is answered

  /** The sending end is one task's alone: whatever another asks for, short of giving the end up, changes neither whose
      it is, nor how much has been sent, nor what its task waits for, but that the wait may be over. */
  lemma SenderIsPrivate(p: Pipe, me: Task, t: Task, op: Op)
    requires Ok(p) && p.sender == Held(t) && t != me && !BlockedAt(p, me) && EndIsIdle(p, op) && !op.NoMoreData?
    ensures var q := PipeAfter(p, Step(p, me, op));
      q.sender == Held(t) && q.written == p.written && q.senderWants in {p.senderWants, 0}
  {
  }

  lemma ReceiverIsPrivate(p: Pipe, me: Task, t: Task, op: Op)
    requires Ok(p) && p.receiver == Held(t) && t != me && !BlockedAt(p, me) && EndIsIdle(p, op) && !op.NotListening?
    ensures var q := PipeAfter(p, Step(p, me, op));
      q.receiver == Held(t) && q.read == p.read && q.receiverWants in {p.receiverWants, 0}
  {
  }

  /** A wait at an end that is another task's, or done with, is refused. Any other leaves the end with the caller, which
      is answered, with all there is, exactly when that is enough or the other end is done with; so a task never waits
      for a task that is gone. */
  lemma WaitsIff(p: Pipe, me: Task, n: nat)
    requires Ok(p) && !BlockedAt(p, me)
    ensures var o := Step(p, me, WaitForSpace(n));
      && (o == Refused <==> !(p.sender in {Held(me), Nobody}))
      && (o != Refused ==> PipeAfter(p, o).sender == Held(me) && PipeAfter(p, o).written == p.written)
      && (o.Blocks? <==> o != Refused && p.Space() < n && p.receiver != Finished)
      && (o != Refused && !o.Blocks? ==> o.Done? && o.reply.AmountAt? && o.reply.amount == p.Space())
    ensures var o := Step(p, me, WaitForData(n));
      && (o == Refused <==> !(p.receiver in {Held(me), Nobody}))
      && (o != Refused ==> PipeAfter(p, o).receiver == Held(me) && PipeAfter(p, o).read == p.read)
      && (o.Blocks? <==> o != Refused && p.Data() < n && p.sender != Finished)
      && (o != Refused && !o.Blocks? ==> o.Done? && o.reply.AmountAt? && o.reply.amount == p.Data())
  {
  }

  /** The amount told of is added to what has been sent, or read, unless it is more than there is room for, or has
      been sent. */
  lemma AmountsIff(p: Pipe, me: Task, n: nat)
    requires Ok(p) && !BlockedAt(p, me)
    ensures var o := Step(p, me, SpaceFilled(n));
      && (o == Refused <==> p.sender != Held(me) || n > p.Space())
      && (o != Refused ==> PipeAfter(p, o).written == p.written + n && PipeAfter(p, o).read == p.read)
      && (o.Wakes? <==> o != Refused && 0 < p.receiverWants <= p.Data() + n)
      && (o.Wakes? ==> Held(o.woken) == p.receiver)
    ensures var o := Step(p, me, DataConsumed(n));
      && (o == Refused <==> p.receiver != Held(me) || n > p.Data())
      && (o != Refused ==> PipeAfter(p, o).read == p.read + n && PipeAfter(p, o).written == p.written)
      && (o.Wakes? <==> o != Refused && 0 < p.senderWants <= p.Space() + n)
      && (o.Wakes? ==> Held(o.woken) == p.sender)
  {
  }

  /** An end that is handed on is then the other task's, or anyone's, and nothing else changes; it is refused to all
      but the task whose end it is. */
  lemma HandedOn(p: Pipe, me: Task, t: Option<Task>)
    requires p.size > 0
    ensures var o := Step(p, me, SetSender(t));
      if p.sender in {Held(me), Nobody}
      then o == Done(p.(sender := if t.Some? then Held(t.value) else Nobody), NoReply) else o == Refused
    ensures var o := Step(p, me, SetReceiver(t));
      if p.receiver in {Held(me), Nobody}
      then o == Done(p.(receiver := if t.Some? then Held(t.value) else Nobody), NoReply) else o == Refused
  {
  }

  /** The PANICs about inconsistent ends cannot happen: only giving up one end while
      the task at the other waits stops the system. */
  lemma PanicsOnlyIf(p: Pipe, me: Task, op: Op)
    requires Ok(p) && !BlockedAt(p, me) && EndIsIdle(p, op)
    ensures Step(p, me, op) == Panics
       <==> (op.NoMoreData? && p.receiverWants > 0) || (op.NotListening? && p.senderWants > 0)
  {
  }

  /** Giving up the sender's end keeps the pipe in order exactly when no sender is
      blocked there, whoever calls. */
  lemma NoMoreDataIff(p: Pipe, me: Task)
    requires Ok(p) && p.receiverWants == 0
    ensures Ok(PipeAfter(p, Step(p, me, NoMoreData))) <==> p.senderWants == 0
  {
  }

  lemma NotListeningIff(p: Pipe, me: Task)
    requires Ok(p) && p.senderWants == 0
    ensures Ok(PipeAfter(p, Step(p, me, NotListening))) <==> p.receiverWants == 0
  {
  }

  /** An operation, and who calls it: a task that is not blocked there */
  datatype Call = Call(me: Task, op: Op)

  ghost predicate CanCall(p: Pipe, x: Call) {
    p.size > 0 && !BlockedAt(p, x.me) && EndIsIdle(p, x.op) && !Step(p, x.me, x.op).Panics?
  }

  ghost predicate IsRun(p: Pipe, xs: seq<Call>)
    decreases |xs|
  {
    xs == [] || (CanCall(p, xs[0]) && IsRun(PipeAfter(p, Step(p, xs[0].me, xs[0].op)), xs[1..]))
  }

  ghost function EndOf(p: Pipe, xs: seq<Call>): Pipe
    requires IsRun(p, xs)
    decreases |xs|
  {
    if xs == [] then p else EndOf(PipeAfter(p, Step(p, xs[0].me, xs[0].op)), xs[1..])
  }

  lemma {:induction false} RunKeepsOk(p: Pipe, xs: seq<Call>)
    requires Ok(p) && IsRun(p, xs)
    ensures Ok(EndOf(p, xs)) && EndOf(p, xs).size == p.size
    decreases |xs|
  {
    if xs != [] {
      StepKeepsOk(p, xs[0].me, xs[0].op);
      RunKeepsOk(PipeAfter(p, Step(p, xs[0].me, xs[0].op)), xs[1..]);
    }
  }

  ghost predicate BothBlocked(p: Pipe, wantsSpace: nat, wantsData: nat) {
    p.senderWants == wantsSpace && p.receiverWants == wantsData
  }

  /** Whatever is done with a new pipe, by any tasks: both its ends can come to be blocked, for so much, exactly when
      that is at least two bytes more than the pipe holds. */
  lemma BothBlockedIff(size: nat, me: Task, wantsSpace: nat, wantsData: nat)
    requires size > 0 && wantsSpace > 0 && wantsData > 0
    ensures (exists xs :: IsRun(Create(size, me), xs) && BothBlocked(EndOf(Create(size, me), xs), wantsSpace, wantsData))
       <==> wantsSpace + wantsData >= size + 2
  {
    if xs :| IsRun(Create(size, me), xs) && BothBlocked(EndOf(Create(size, me), xs), wantsSpace, wantsData) {
      RunKeepsOk(Create(size, me), xs);
    }
    if wantsSpace + wantsData >= size + 2 {
      var xs := BlockBoth(size, me, wantsSpace, wantsData);
    }
  }

  /** The creator hands on the receiving end, fills the pipe as far as the receiver can bear, and waits for space;
      then the receiver waits for data. */
  lemma BlockBoth(size: nat, me: Task, wantsSpace: nat, wantsData: nat) returns (xs: seq<Call>)
    requires size > 0 && wantsSpace > 0 && wantsData > 0 && wantsSpace + wantsData >= size + 2
    ensures IsRun(Create(size, me), xs) && BothBlocked(EndOf(Create(size, me), xs), wantsSpace, wantsData)
  {
    var other := me + 1;
    var d := if wantsData - 1 <= size then wantsData - 1 else size;
    var p0 := Create(size, me);
    var p1 := p0.(receiver := Held(other));
    var p2 := p1.(written := d);
    var p3 := p2.(senderWants := wantsSpace);
    var p4 := p3.(receiverWants := wantsData);
    xs := OneCall(p3, Call(other, WaitForData(wantsData)), p4, []);
    xs := OneCall(p2, Call(me, WaitForSpace(wantsSpace)), p3, xs);
    xs := OneCall(p1, Call(me, SpaceFilled(d)), p2, xs);
    xs := OneCall(p0, Call(me, SetReceiver(Some(other))), p1, xs);
  }

  lemma OneCall(p: Pipe, x: Call, q: Pipe, rest: seq<Call>) returns (xs: seq<Call>)
    requires CanCall(p, x) && PipeAfter(p, Step(p, x.me, x.op)) == q && IsRun(q, rest)
    ensures IsRun(p, xs) && EndOf(p, xs) == EndOf(q, rest)
  {
    xs := [x] + rest;
    assert xs[1..] == rest;
  }

  // ----- who is blocked

  /** How often t is blocked on the pipe. */
  function BlockedCount(p: Pipe, t: Task): nat {
    (if p.senderWants > 0 && p.sender == Held(t) then 1 else 0)
    + (if p.receiverWants > 0 && p.receiver == Held(t) then 1 else 0)
  }

  lemma StepCounts(p: Pipe, me: Task, op: Op, t: Task)
    requires Ok(p) && !BlockedAt(p, me) && EndIsIdle(p, op)
    ensures var o := Step(p, me, op);
      BlockedCount(PipeAfter(p, o), t)
        == BlockedCount(p, t) + (if o.Blocks? && t == me then 1 else 0) - (if o.Wakes? && t == o.woken then 1 else 0)
  {
  }
}
