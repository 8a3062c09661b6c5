/** Queues of tasks waiting to be handled, and of handlers waiting for tasks
    (OSTask/queues.c), with the word a task keeps for the purpose (OSTask/ostask.h). */
module Queues {
  import opened Tasks

  datatype Queue = Queue(callers: seq<Task>, handlers: seq<Task>)

  /** The word shared by the swi and handler bit fields. */
  const WORD := 0x1_0000_0000

  function SwiWord(op: nat, core: nat): (w: nat)
    ensures w < WORD
  {
    op % 0x100_0000 + (core % 0x100) * 0x100_0000
  }

  function SwiOffset(w: nat): nat { w % 0x100_0000 }
  function SwiCore(w: nat): nat { w / 0x100_0000 % 0x100 }

  function HandlerOffset(w: nat): nat { w % 0x40 }
  function HandlerCore(w: nat): nat { w / 0x40 % 0x100 }
  predicate MatchSwi(w: nat) { w / 0x4000_0000 % 2 == 1 }
  predicate MatchCore(w: nat) { w / 0x8000_0000 % 2 == 1 }

  /** Whether a handler takes on calls of SWI op from the core. */
  predicate Takes(w: nat, op: nat, core: nat) {
    (!MatchSwi(w) || HandlerOffset(w) == op) && (!MatchCore(w) || HandlerCore(w) == core)
  }

  /** What a caller leaves in its word reads back, for a SWI number below 2^24. */
  lemma SwiWordRoundTrip(op: nat, core: nat)
    requires core < 0x100
    ensures SwiOffset(SwiWord(op, core)) == op <==> op < 0x100_0000
    ensures SwiCore(SwiWord(op, core)) == core
  {
    assert SwiWord(op, core) / 0x100_0000 == core;
  }

  /** The match bits are the top bits of the core number: a word left by a caller lets
      its task, when it handles a queue, take on everything exactly when the call was
      made on one of the first 64 cores. */
  lemma TakesEverythingIff(op: nat, core: nat)
    requires core < 0x100
    ensures (forall op', core' :: Takes(SwiWord(op, core), op', core')) <==> core < 0x40
  {
    var w := SwiWord(op, core);
    assert w / 0x4000_0000 == core / 0x40 by {
      assert w / 0x100_0000 == core;
      assert w / 0x4000_0000 == w / 0x100_0000 / 0x40;
    }
    assert w / 0x8000_0000 == core / 0x80 by {
      assert w / 0x8000_0000 == w / 0x100_0000 / 0x80;
    }
    if core >= 0x40 {
      assert MatchSwi(w) || MatchCore(w);
      assert !Takes(w, HandlerOffset(w) + 1, HandlerCore(w) + 1);
    }
  }

  /** The first handler that takes on the call, or the number of handlers. */
  function FirstTaker(handlers: seq<Task>, words: map<Task, nat>, op: nat, core: nat): (k: nat)
    requires forall h :: h in handlers ==> h in words
    ensures k <= |handlers|
    ensures k < |handlers| ==> Takes(words[handlers[k]], op, core)
    ensures forall j :: 0 <= j < k ==> !Takes(words[handlers[j]], op, core)
  {
    if handlers == [] || Takes(words[handlers[0]], op, core) then 0
    else 1 + FirstTaker(handlers[1..], words, op, core)
  }
}
