/** OSTask/pipes.c in place: the pipe's indices are 32-bit words that wrap, and its memory is mapped
    twice, one copy after the other, at each end. `sent` is every byte the sender ever committed, and
    `got` how many of them the receiver has consumed. */
module OSPipes {
  import opened Tasks
  import opened PipeIndices
  import opened Pipes
  import PipeStreams

  /** What an operation did to its caller, and to a task at the other end of the pipe */
  datatype Answer = Returns(reply: Reply) | WakesOther(reply: Reply, task: Task, other: Reply) | IsRefused | IsStopped | HasPanicked

  function AnswerOf(o: Outcome): Answer {
    match o
    case Done(_, reply) => Returns(reply)
    case Wakes(_, reply, t, other) => WakesOther(reply, t, other)
    case Refused => IsRefused
    case Blocks(_) => IsStopped
    case Panics => HasPanicked
  }

  /** What is in the memory from position n on, going round */
  ghost function WindowOf(mem: seq<Byte>, n: nat, amount: nat): (bytes: seq<Byte>)
    requires |mem| > 0
    ensures |bytes| == amount && forall k :: 0 <= k < amount ==> bytes[k] == mem[(n + k) % |mem|]
  {
    seq(amount, k requires 0 <= k => mem[(n + k) % |mem|])
  }

  lemma WindowPut(mem: seq<Byte>, n: nat, j: nat, b: Byte, amount: nat)
    requires |mem| > 0 && j < |mem| && amount <= |mem|
    ensures WindowOf(mem[(n + j) % |mem| := b], n, amount)
         == if j < amount then WindowOf(mem, n, amount)[j := b] else WindowOf(mem, n, amount)
  {
    ElsewhereSame(mem, n + j, b, n);
    forall k | 0 <= k < amount
      ensures WindowOf(mem[(n + j) % |mem| := b], n, amount)[k] == if k == j then b else WindowOf(mem, n, amount)[k]
    {
    }
  }

  /** In all that can be seen from position n on, byte j is now b, and nothing else has changed. */
  ghost predicate ChangedAt(mem: seq<Byte>, r: seq<Byte>, n: nat, j: nat, b: Byte) {
    0 < |mem| == |r| &&
    forall amount: nat :: amount <= |mem| ==>
      WindowOf(r, n, amount) == if j < amount then WindowOf(mem, n, amount)[j := b] else WindowOf(mem, n, amount)
  }

  lemma WindowsPut(mem: seq<Byte>, n: nat, j: nat, b: Byte)
    requires |mem| > 0 && j < |mem|
    ensures ChangedAt(mem, mem[(n + j) % |mem| := b], n, j, b)
  {
    forall amount: nat | amount <= |mem|
      ensures WindowOf(mem[(n + j) % |mem| := b], n, amount)
        == if j < amount then WindowOf(mem, n, amount)[j := b] else WindowOf(mem, n, amount)
    {
      WindowPut(mem, n, j, b, amount);
    }
  }

  /** A byte put where no unread byte is leaves those as they were. */
  lemma StillHolds(mem: seq<Byte>, sent: seq<Byte>, got: nat, n: nat, b: Byte)
    requires |mem| > 0 && got <= |sent| <= n < got + |mem|
    requires forall k :: got <= k < |sent| ==> mem[k % |mem|] == sent[k]
    ensures forall k :: got <= k < |sent| ==> mem[n % |mem| := b][k % |mem|] == sent[k]
  {
    ElsewhereSame(mem, n, b, got);
  }

  /** From `at` on there are n bytes of the doubled mapping, and they are those that an end sees from its index on. */
  ghost predicate Leads(at: nat, n: nat, index: nat, size: nat)
    requires size > 0
  {
    at + n <= 2 * size && forall k: nat :: k < n ==> PipeStreams.Place(index, size, k) == (at + k) % size
  }

  lemma LocationLeads(index: nat, n: nat, size: nat)
    requires 0 < size && n <= size
    ensures Leads(index % size, n, index, size)
  {
  }

  /** What the sender's call comes to, when it is answered: the pipe, and whether the receiver is due */
  lemma FilledOutcome(p: Pipe, me: Task, n: nat)
    requires Ok(p) && !BlockedAt(p, me) && p.sender == Held(me) && n <= p.Space()
    ensures var q := p.(written := p.written + n);
      var reply := AmountAt(q.Space(), q.written % q.size);
      Step(p, me, Op.SpaceFilled(n)) ==
        if 0 < q.receiverWants <= q.Data()
        then Wakes(q.(receiverWants := 0), reply, q.receiver.task, AmountAt(q.Data(), q.read % q.size))
        else Done(q, reply)
  {
  }

  /** What a wait comes to, for a task whose end it may be */
  lemma WaitOutcome(p: Pipe, me: Task, n: nat)
    requires Ok(p) && !BlockedAt(p, me)
    ensures Ok(PipeAfter(p, Step(p, me, Op.WaitForSpace(n)))) && Ok(PipeAfter(p, Step(p, me, Op.WaitForData(n))))
    ensures Step(p, me, Op.WaitForSpace(n)) ==
      if p.sender != Held(me) && p.sender != Nobody then Refused
      else if p.Space() >= n || p.receiver == Finished
      then Done(p.(sender := Held(me)), AmountAt(p.Space(), p.written % p.size))
      else Blocks(p.(sender := Held(me), senderWants := n))
    ensures Step(p, me, Op.WaitForData(n)) ==
      if p.receiver != Held(me) && p.receiver != Nobody then Refused
      else if p.Data() >= n || p.sender == Finished
      then Done(p.(receiver := Held(me)), AmountAt(p.Data(), p.read % p.size))
      else Blocks(p.(receiver := Held(me), receiverWants := n))
  {
    StepKeepsOk(p, me, Op.WaitForSpace(n));
    StepKeepsOk(p, me, Op.WaitForData(n));
  }

  lemma ConsumedOutcome(p: Pipe, me: Task, n: nat)
    requires Ok(p) && !BlockedAt(p, me) && p.receiver == Held(me) && n <= p.Data()
    ensures var q := p.(read := p.read + n);
      var reply := AmountAt(q.Data(), q.read % q.size);
      Step(p, me, Op.DataConsumed(n)) ==
        if 0 < q.senderWants <= q.Space()
        then Wakes(q.(senderWants := 0), reply, q.sender.task, AmountAt(q.Space(), q.written % q.size))
        else Done(q, reply)
  {
  }

  /** A byte put at position n is at no other position of those that go once round from `start`. */
  lemma ElsewhereSame(mem: seq<Byte>, n: nat, b: Byte, start: nat)
    requires |mem| > 0 && start <= n < start + |mem|
    ensures forall k: nat :: start <= k < start + |mem| && k != n ==> mem[n % |mem| := b][k % |mem|] == mem[k % |mem|]
  {
    forall k: nat | start <= k < start + |mem| && k != n ensures k % |mem| != n % |mem| {
      if k < n { Apart(n, k, |mem|); } else { Apart(k, n, |mem|); }
    }
  }

  class OSPipe {
    const maxBlockSize: nat
    const memory: array<Byte>
    var sender: End
    var senderWaitingFor: nat
    var writeIndex: nat
    var receiver: End
    var receiverWaitingFor: nat
    var readIndex: nat
    ghost var sent: seq<Byte>
    ghost var got: nat

    ghost function Abstract(): Pipe
      reads this
    {
      Pipe(maxBlockSize, sender, senderWaitingFor, receiver, receiverWaitingFor, |sent|, got)
    }

    /** Where indices wrap, they give the right places. */
    ghost predicate Exact()
      reads this
    {
      maxBlockSize > 0 && (WRAP % maxBlockSize == 0 || |sent| < WRAP)
    }

    /** The data not yet consumed is in the memory, going round. */
    ghost predicate Holds()
      reads this, memory
      requires maxBlockSize > 0 && memory.Length == maxBlockSize
    {
      forall k :: got <= k < |sent| ==> memory[k % maxBlockSize] == sent[k]
    }

    ghost predicate Sane()
      reads this, memory
    {
      && 0 < maxBlockSize < WRAP && memory.Length == maxBlockSize
      && 0 <= |sent| - got <= maxBlockSize
      && writeIndex == |sent| % WRAP && readIndex == got % WRAP
      && (Exact() ==> Holds())
    }

    ghost predicate Valid()
      reads this, memory
    {
      Sane() && Ok(Abstract())
    }

    /** The bytes and words there are, without what they stand for */
    ghost function Stream(): PipeStreams.Stream
      reads this, memory
    {
      PipeStreams.Stream(memory[..], writeIndex, readIndex)
    }

    /** What is unread in them is what has been sent and not yet consumed. */
    lemma StreamIs()
      requires Sane() && Exact()
      ensures PipeStreams.Ok(Stream()) && PipeStreams.Unread(Stream()) == sent[got..]
    {
      StreamOk();
      forall k: nat | k < |sent| - got ensures PipeStreams.Unread(Stream())[k] == sent[got..][k] {
        UnreadAt(k);
      }
    }

    lemma StreamOk()
      requires Sane() && Exact()
      ensures PipeStreams.Ok(Stream()) && PipeStreams.Data(Stream()) == |sent| - got
    {
      PipeStreams.FromCounts(memory[..], |sent|, got);
    }

    lemma UnreadAt(k: nat)
      requires Sane() && Exact() && k < |sent| - got
      requires PipeStreams.Ok(Stream()) && PipeStreams.Data(Stream()) == |sent| - got
      ensures PipeStreams.Unread(Stream())[k] == sent[got + k]
    {
      PlaceOf(k);
      assert memory[(got + k) % maxBlockSize] == sent[got + k];
    }

    lemma PlaceOf(k: nat)
      requires Sane() && Exact() && k < |sent| - got
      ensures PipeStreams.Place(readIndex, maxBlockSize, k) == (got + k) % maxBlockSize
    {
      WrapIsHarmless(got, maxBlockSize);
      ModFrom(got, k, maxBlockSize);
    }

    /** The bytes in the memory from position n on, going round */
    ghost function Window(n: nat, amount: nat): (bytes: seq<Byte>)
      reads this, memory
      requires maxBlockSize > 0 && memory.Length == maxBlockSize
      ensures |bytes| == amount
    {
      WindowOf(memory[..], n, amount)
    }

    /** A sender may be told of n bytes at `at`: they are the places after the data, in order, and no unread byte is
        at any of them. */
    ghost predicate SpaceGranted(n: nat, at: nat)
      reads this`sent, this`got, this`writeIndex, this`readIndex
      requires maxBlockSize > 0
    {
      n <= maxBlockSize - (|sent| - got) && Leads(at, n, writeIndex, maxBlockSize) &&
      forall j: nat, k: nat :: j < |sent| - got && k < n ==>
        PipeStreams.Place(writeIndex, maxBlockSize, k) != PipeStreams.Place(readIndex, maxBlockSize, j)
    }

    /** A receiver may be told of n bytes at `at`: they are those sent that it has yet to consume, in order. */
    ghost predicate DataGranted(n: nat, at: nat)
      reads this`sent, this`got, this`readIndex, memory
      requires maxBlockSize > 0 && memory.Length == maxBlockSize && got <= |sent|
    {
      n <= |sent| - got && Leads(at, n, readIndex, maxBlockSize) && InPlace(n)
    }

    ghost predicate InPlace(n: nat)
      reads this`sent, this`got, this`readIndex, memory
      requires maxBlockSize > 0 && memory.Length == maxBlockSize && got + n <= |sent|
    {
      forall k: nat :: k < n ==> memory[PipeStreams.Place(readIndex, maxBlockSize, k)] == sent[got + k]
    }

    /** All the space there is, and all the data, may be told of. */
    ghost predicate TellsSpace(r: Reply)
      reads this`sent, this`got, this`writeIndex, this`readIndex
      requires maxBlockSize > 0
    {
      r.AmountAt? && r.amount == maxBlockSize - (|sent| - got) && r.amount >= 0 && SpaceGranted(r.amount, r.at)
    }

    ghost predicate TellsData(r: Reply)
      reads this`sent, this`got, this`readIndex, memory
      requires maxBlockSize > 0 && memory.Length == maxBlockSize && got <= |sent|
    {
      r.AmountAt? && r.amount == |sent| - got && DataGranted(r.amount, r.at)
    }

    lemma SpaceIsApart(n: nat)
      requires Sane() && Exact() && n <= maxBlockSize - (|sent| - got)
      ensures forall j: nat, k: nat :: j < |sent| - got && k < n ==>
        PipeStreams.Place(writeIndex, maxBlockSize, k) != PipeStreams.Place(readIndex, maxBlockSize, j)
    {
      StreamOk();
      forall j: nat, k: nat | j < |sent| - got && k < n
        ensures PipeStreams.Place(writeIndex, maxBlockSize, k) != PipeStreams.Place(readIndex, maxBlockSize, j)
      {
        PipeStreams.SpaceIsApart(Stream(), j, k);
      }
    }

    /** The space from write_location on */
    lemma SpaceIsThere()
      requires Sane() && Exact()
      ensures TellsSpace(AmountAt(SpaceInPipe(), WriteLocation()))
    {
      SpaceIsApart(SpaceInPipe());
      LocationLeads(writeIndex, SpaceInPipe(), maxBlockSize);
    }

    lemma DataInPlace(n: nat)
      requires Sane() && Exact() && n <= |sent| - got
      ensures InPlace(n)
    {
      forall k: nat | k < n ensures memory[PipeStreams.Place(readIndex, maxBlockSize, k)] == sent[got + k] {
        PlaceOf(k);
        assert memory[(got + k) % maxBlockSize] == sent[got + k];
      }
    }

    /** The data from read_location on */
    lemma DataIsThere()
      requires Sane() && Exact()
      ensures TellsData(AmountAt(DataInPipe(), ReadLocation()))
    {
      DataInPlace(DataInPipe());
      LocationLeads(readIndex, DataInPipe(), maxBlockSize);
    }

    constructor (size: nat, me: Task)
      requires 0 < size < WRAP
      ensures Valid() && fresh(memory) && sent == [] && Abstract() == Create(size, me)
    {
      maxBlockSize := size;
      memory := new Byte[size];
      sender, receiver := Held(me), Held(me);
      senderWaitingFor, receiverWaitingFor := 0, 0;
      writeIndex, readIndex := 0, 0;
      sent, got := [], 0;
    }

    /** data_in_pipe: a subtraction of 32-bit words */
    function DataInPipe(): (d: nat)
      requires Sane()
      reads this, memory
      ensures d == Abstract().Data()
    {
      Difference(|sent|, got);
      (writeIndex - readIndex) % WRAP
    }

    function SpaceInPipe(): (s: nat)
      requires Sane()
      reads this, memory
      ensures s == Abstract().Space()
    {
      maxBlockSize - DataInPipe()
    }

    /** read_location and write_location, counted from the start of the doubled mapping */
    function ReadLocation(): (at: nat)
      requires Sane()
      reads this, memory
      ensures at < maxBlockSize && (Exact() ==> at == got % maxBlockSize)
    {
      ghost var n := got;
      assert Exact() ==> Placed(n, maxBlockSize) by { if Exact() { WrapIsHarmless(n, maxBlockSize); } }
      readIndex % maxBlockSize
    }

    function WriteLocation(): (at: nat)
      requires Sane()
      reads this, memory
      ensures at < maxBlockSize && (Exact() ==> at == |sent| % maxBlockSize)
    {
      assert Exact() ==> Placed(|sent|, maxBlockSize) by { if Exact() { WrapIsHarmless(|sent|, maxBlockSize); } }
      writeIndex % maxBlockSize
    }

    /** Does the answer, with the new state, come of the operation on the pipe without memory? */
    twostate predicate Did(me: Task, op: Op, a: Answer)
      reads this, memory
      requires old(Valid())
    {
      var o := Step(old(Abstract()), me, op);
      Valid() && a == AnswerOf(o) && (a != HasPanicked ==> Abstract() == PipeAfter(old(Abstract()), o))
    }

    /** What the caller, and the task woken, may be told after a change at one end */
    ghost predicate TellsSender(a: Answer)
      reads this, memory
      requires Sane()
    {
      a == IsRefused || (a.Returns? && TellsSpace(a.reply)) ||
      (a.WakesOther? && TellsSpace(a.reply) && receiver == Held(a.task) && TellsData(a.other))
    }

    ghost predicate TellsReceiver(a: Answer)
      reads this, memory
      requires Sane()
    {
      a == IsRefused || (a.Returns? && TellsData(a.reply)) ||
      (a.WakesOther? && TellsData(a.reply) && sender == Held(a.task) && TellsSpace(a.other))
    }

    /** PipeWaitForSpace */
    method WaitForSpace(me: Task, amount: nat) returns (a: Answer)
      requires Valid() && Exact() && !BlockedAt(Abstract(), me)
      modifies this`sender, this`senderWaitingFor
      ensures Did(me, Op.WaitForSpace(amount), a)
      ensures a == IsStopped || TellsSender(a)
    {
      WaitOutcome(Abstract(), me, amount);
      if sender != Held(me) && sender != Nobody { return IsRefused; }
      if sender == Nobody { sender := Held(me); }
      var available := SpaceInPipe();
      if available >= amount || receiver == Finished {
        SpaceIsThere();
        a := Returns(AmountAt(available, WriteLocation()));
      } else {
        senderWaitingFor := amount;
        a := IsStopped;
      }
    }

    method Commit(amount: nat)
      requires Sane() && amount <= Abstract().Space() && (WRAP % maxBlockSize == 0 || |sent| + amount < WRAP)
      modifies this`writeIndex, this`sent
      ensures Sane() && Exact()
      ensures sent == old(sent) + old(Window(|sent|, amount))
      ensures forall n, at :: old(DataGranted(n, at)) ==> DataGranted(n, at)
      ensures Stream() == PipeStreams.Step(old(Stream()), PipeStreams.Filled(amount))
    {
      ModFrom(|sent|, amount, WRAP);
      sent := sent + Window(|sent|, amount);
      writeIndex := (writeIndex + amount) % WRAP;
    }

    method Consume(amount: nat)
      requires Sane() && Exact() && amount <= Abstract().Data()
      modifies this`readIndex, this`got
      ensures Sane() && got == old(got) + amount
      ensures forall n, at :: old(SpaceGranted(n, at)) ==> SpaceGranted(n, at)
      ensures Stream() == PipeStreams.Step(old(Stream()), PipeStreams.Consumed(amount))
    {
      ModFrom(got, amount, WRAP);
      got := got + amount;
      readIndex := (readIndex + amount) % WRAP;
      forall n, at | old(SpaceGranted(n, at)) ensures SpaceGranted(n, at) { SpaceIsApart(n); }
    }

    /** ... and a task blocked at the other end, that now has what it wants, is told so. */
    method WakeReceiver(reply: Reply) returns (a: Answer)
      requires Sane() && Exact() && (receiverWaitingFor > 0 ==> receiver.Held?) && TellsSpace(reply)
      modifies this`receiverWaitingFor
      ensures Sane() && TellsSender(a)
      ensures var p := old(Abstract());
        var due := 0 < p.receiverWants <= p.Data();
        && receiverWaitingFor == (if due then 0 else p.receiverWants)
        && a == if due then WakesOther(reply, receiver.task, AmountAt(p.Data(), got % maxBlockSize)) else Returns(reply)
    {
      if receiverWaitingFor > 0 && receiverWaitingFor <= DataInPipe() {
        receiverWaitingFor := 0;
        DataIsThere();
        a := WakesOther(reply, receiver.task, AmountAt(DataInPipe(), ReadLocation()));
      } else {
        a := Returns(reply);
      }
    }

    method WakeSender(reply: Reply) returns (a: Answer)
      requires Sane() && Exact() && (senderWaitingFor > 0 ==> sender.Held?) && TellsData(reply)
      modifies this`senderWaitingFor
      ensures Sane() && TellsReceiver(a)
      ensures var p := old(Abstract());
        var due := 0 < p.senderWants <= p.Space();
        && senderWaitingFor == (if due then 0 else p.senderWants)
        && a == if due then WakesOther(reply, sender.task, AmountAt(p.Space(), |sent| % maxBlockSize)) else Returns(reply)
    {
      if senderWaitingFor > 0 && senderWaitingFor <= SpaceInPipe() {
        senderWaitingFor := 0;
        SpaceIsThere();
        a := WakesOther(reply, sender.task, AmountAt(SpaceInPipe(), WriteLocation()));
      } else {
        a := Returns(reply);
      }
    }

    /** The amount being there, it is sent. */
    method Fill(available: nat, amount: nat) returns (a: Answer)
      requires Sane() && Exact() && (receiverWaitingFor > 0 ==> receiver.Held?)
      requires amount <= available == Abstract().Space() && (WRAP % maxBlockSize == 0 || |sent| + amount < WRAP)
      modifies this`writeIndex, this`receiverWaitingFor, this`sent
      ensures Sane() && sent == old(sent) + old(Window(|sent|, amount)) && TellsSender(a)
      ensures forall n, at :: old(DataGranted(n, at)) ==> DataGranted(n, at)
      ensures Stream() == PipeStreams.Step(old(Stream()), PipeStreams.Filled(amount))
      ensures var p := old(Abstract());
        var q := p.(written := p.written + amount);
        var due := 0 < q.receiverWants <= q.Data();
        var reply := AmountAt(q.Space(), q.written % q.size);
        && Abstract() == q.(receiverWants := if due then 0 else q.receiverWants)
        && a == if due then WakesOther(reply, q.receiver.task, AmountAt(q.Data(), q.read % q.size)) else Returns(reply)
    {
      Commit(amount);
      SpaceIsThere();
      a := WakeReceiver(AmountAt(available - amount, WriteLocation()));
    }

    /** The amount being there, it is consumed. */
    method Drain(available: nat, amount: nat) returns (a: Answer)
      requires Sane() && Exact() && (senderWaitingFor > 0 ==> sender.Held?)
      requires amount <= available == Abstract().Data()
      modifies this`readIndex, this`senderWaitingFor, this`got
      ensures Sane() && TellsReceiver(a)
      ensures forall n, at :: old(SpaceGranted(n, at)) ==> SpaceGranted(n, at)
      ensures Stream() == PipeStreams.Step(old(Stream()), PipeStreams.Consumed(amount))
      ensures var p := old(Abstract());
        var q := p.(read := p.read + amount);
        var due := 0 < q.senderWants <= q.Space();
        var reply := AmountAt(q.Data(), q.read % q.size);
        && Abstract() == q.(senderWants := if due then 0 else q.senderWants)
        && a == if due then WakesOther(reply, q.sender.task, AmountAt(q.Space(), q.written % q.size)) else Returns(reply)
    {
      Consume(amount);
      DataIsThere();
      a := WakeSender(AmountAt(available - amount, ReadLocation()));
    }

    /** PipeSpaceFilled. What the sender has put in the memory after write_location is now sent. */
    method SpaceFilled(me: Task, amount: nat) returns (a: Answer)
      requires Valid() && Exact() && !BlockedAt(Abstract(), me)
      requires WRAP % maxBlockSize == 0 || |sent| + amount < WRAP
      modifies this`writeIndex, this`receiverWaitingFor, this`sent
      ensures Did(me, Op.SpaceFilled(amount), a) && a != HasPanicked
      ensures sent == old(sent) + (if a == IsRefused then [] else old(Window(|sent|, amount)))
      ensures TellsSender(a)
      ensures forall n, at :: old(DataGranted(n, at)) ==> DataGranted(n, at)
      ensures Stream() == if a == IsRefused then old(Stream()) else PipeStreams.Step(old(Stream()), PipeStreams.Filled(amount))
    {
      StepKeepsOk(Abstract(), me, Op.SpaceFilled(amount));
      if sender != Held(me) { return IsRefused; }
      var available := SpaceInPipe();
      if available < amount { return IsRefused; }
      FilledOutcome(Abstract(), me, amount);
      assert !(receiver == Nobody && receiverWaitingFor != 0);
      assert !(receiver == Held(me) && receiverWaitingFor != 0);
      a := Fill(available, amount);
    }

    /** PipeWaitForData */
    method WaitForData(me: Task, amount: nat) returns (a: Answer)
      requires Valid() && Exact() && !BlockedAt(Abstract(), me)
      modifies this`receiver, this`receiverWaitingFor
      ensures Did(me, Op.WaitForData(amount), a)
      ensures a == IsStopped || TellsReceiver(a)
    {
      WaitOutcome(Abstract(), me, amount);
      if receiver != Held(me) && receiver != Nobody { return IsRefused; }
      if receiver == Nobody { receiver := Held(me); }
      assert receiver == Held(me);
      var available := DataInPipe();
      if available >= amount || sender == Finished {
        DataIsThere();
        a := Returns(AmountAt(available, ReadLocation()));
      } else {
        receiverWaitingFor := amount;
        a := IsStopped;
      }
    }

    /** PipeDataConsumed */
    method DataConsumed(me: Task, amount: nat) returns (a: Answer)
      requires Valid() && Exact() && !BlockedAt(Abstract(), me)
      modifies this`readIndex, this`senderWaitingFor, this`got
      ensures Did(me, Op.DataConsumed(amount), a) && a != HasPanicked
      ensures TellsReceiver(a)
      ensures forall n, at :: old(SpaceGranted(n, at)) ==> SpaceGranted(n, at)
      ensures Stream() == if a == IsRefused then old(Stream()) else PipeStreams.Step(old(Stream()), PipeStreams.Consumed(amount))
    {
      StepKeepsOk(Abstract(), me, Op.DataConsumed(amount));
      if receiver != Held(me) { return IsRefused; }
      var available := DataInPipe();
      if available < amount { return IsRefused; }
      ConsumedOutcome(Abstract(), me, amount);
      a := Drain(available, amount);
    }

    /** PipeSetSender */
    method SetSender(me: Task, to: Option<Task>) returns (a: Answer)
      requires Valid() && Exact() && !BlockedAt(Abstract(), me)
      modifies this`sender
      ensures Did(me, Op.SetSender(to), a)
    {
      StepKeepsOk(Abstract(), me, Op.SetSender(to));
      if sender != Held(me) && sender != Nobody { return IsRefused; }
      sender := FromOption(to);
      a := Returns(NoReply);
    }

    /** PipeSetReceiver */
    method SetReceiver(me: Task, to: Option<Task>) returns (a: Answer)
      requires Valid() && Exact() && !BlockedAt(Abstract(), me)
      modifies this`receiver
      ensures Did(me, Op.SetReceiver(to), a)
    {
      StepKeepsOk(Abstract(), me, Op.SetReceiver(to));
      if receiver != Held(me) && receiver != Nobody { return IsRefused; }
      receiver := FromOption(to);
      a := Returns(NoReply);
    }

    /** PipeUnreadData: how much has been sent, and not yet consumed */
    method UnreadData() returns (a: Answer)
      requires Valid()
      ensures a == Returns(Amount(|sent| - got)) && forall me :: a == AnswerOf(Step(Abstract(), me, Op.UnreadData))
    {
      a := Returns(Amount(DataInPipe()));
    }

    /** PipeNoMoreData: it does not look at who calls. The pipe is in order afterwards exactly when no sender
        was blocked. */
    method NoMoreData(me: Task) returns (a: Answer)
      requires Valid()
      modifies this`sender
      ensures Sane() && a == AnswerOf(Step(old(Abstract()), me, Op.NoMoreData))
      ensures a != HasPanicked ==>
        && Abstract() == PipeAfter(old(Abstract()), Step(old(Abstract()), me, Op.NoMoreData))
        && (Valid() <==> old(senderWaitingFor) == 0)
    {
      var waiting := receiver != Finished && receiverWaitingFor != 0;
      sender := Finished;
      a := if waiting then HasPanicked else Returns(NoReply);
    }

    /** PipeNotListening */
    method NotListening(me: Task) returns (a: Answer)
      requires Valid()
      modifies this`receiver
      ensures Sane() && a == AnswerOf(Step(old(Abstract()), me, Op.NotListening))
      ensures a != HasPanicked ==>
        && Abstract() == PipeAfter(old(Abstract()), Step(old(Abstract()), me, Op.NotListening))
        && (Valid() <==> old(receiverWaitingFor) == 0)
    {
      var waiting := sender != Finished && senderWaitingFor != 0;
      receiver := Finished;
      a := if waiting then HasPanicked else Returns(NoReply);
    }

    /** The task at the sending end writes a byte, anywhere in space that it was told of: it falls in the
        doubled mapping, where no unread byte is, and is what will be sent at that point. */
    method Store(at: nat, b: Byte, ghost n: nat, ghost start: nat)
      requires Valid() && Exact() && SpaceGranted(n, start) && start <= at < start + n
      modifies memory
      ensures Valid() && at < 2 * maxBlockSize && SpaceGranted(n, start)
      ensures forall n, at :: old(DataGranted(n, at)) ==> DataGranted(n, at)
      ensures Stream() == PipeStreams.Step(old(Stream()), PipeStreams.Put(at - start, b))
      ensures ChangedAt(old(memory[..]), memory[..], |sent|, at - start, b)
    {
      ghost var k := at - start;
      ghost var before := memory[..];
      StoresAt(k);
      assert PipeStreams.Place(writeIndex, maxBlockSize, k) == (start + k) % maxBlockSize;
      memory[at % maxBlockSize] := b;
      assert memory[..] == before[(|sent| + k) % maxBlockSize := b];
      WindowsPut(before, |sent|, k, b);
      StillHolds(before, sent, got, |sent| + k, b);
      forall n, at | old(DataGranted(n, at)) ensures DataGranted(n, at) { DataInPlace(n); }
    }

    lemma StoresAt(k: nat)
      requires Sane() && Exact()
      ensures PipeStreams.Place(writeIndex, maxBlockSize, k) == (|sent| + k) % maxBlockSize
    {
      WrapIsHarmless(|sent|, maxBlockSize);
      ModFrom(|sent|, k, maxBlockSize);
    }

    /** The task at the receiving end reads a byte, anywhere in data that it was told of: it falls in the
        doubled mapping, and is the byte that was sent, in its turn. */
    method Load(at: nat, ghost n: nat, ghost start: nat) returns (b: Byte)
      requires Valid() && Exact() && DataGranted(n, start) && start <= at < start + n
      ensures at < 2 * maxBlockSize
      ensures b == sent[got + (at - start)]
    {
      ghost var k := at - start;
      assert PipeStreams.Place(readIndex, maxBlockSize, k) == (start + k) % maxBlockSize;
      b := memory[at % maxBlockSize];
    }
  }
}
