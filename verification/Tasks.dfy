/** Tasks, their handles, and how often a task occurs in a list. */
module Tasks {

  datatype Option<+T> = None | Some(value: T)

  /** A task is known by its handle. */
  type Task = nat

  /** How often t occurs in s. */
  function Count(s: seq<Task>, t: Task): nat {
    if s == [] then 0 else (if s[0] == t then 1 else 0) + Count(s[1..], t)
  }

  lemma {:induction false} CountAppend(a: seq<Task>, b: seq<Task>, t: Task)
    ensures Count(a + b, t) == Count(a, t) + Count(b, t)
  {
    if a == [] {
      assert a + b == b;
    } else {
      assert (a + b)[1..] == a[1..] + b;
      CountAppend(a[1..], b, t);
    }
  }

  lemma CountOne(x: Task, t: Task)
    ensures Count([x], t) == if x == t then 1 else 0
  {
    assert [x][1..] == [];
  }

  lemma CountCons(x: Task, s: seq<Task>, t: Task)
    ensures Count([x] + s, t) == (if x == t then 1 else 0) + Count(s, t)
  {
    assert ([x] + s)[1..] == s;
  }

  lemma CountSnoc(s: seq<Task>, x: Task, t: Task)
    ensures Count(s + [x], t) == Count(s, t) + if x == t then 1 else 0
  {
    CountAppend(s, [x], t);
    CountOne(x, t);
  }

  lemma CountWithout(s: seq<Task>, k: nat, t: Task)
    requires k < |s|
    ensures Count(s, t) == (if s[k] == t then 1 else 0) + Count(Without(s, k), t)
  {
    assert s == s[..k] + ([s[k]] + s[k + 1..]);
    CountAppend(s[..k], [s[k]] + s[k + 1..], t);
    CountCons(s[k], s[k + 1..], t);
    CountAppend(s[..k], s[k + 1..], t);
  }

  lemma {:induction false} CountIn(s: seq<Task>, t: Task)
    ensures Count(s, t) > 0 <==> t in s
  {
    if s != [] { CountIn(s[1..], t); }
  }

  function Without<T>(s: seq<T>, k: nat): seq<T>
    requires k < |s|
  {
    s[..k] + s[k + 1..]
  }

  /** Lists with each task at most once have no repetitions. */
  lemma CountDistinct(s: seq<Task>)
    requires forall t :: Count(s, t) <= 1
    ensures forall j, k :: 0 <= j < k < |s| ==> s[j] != s[k]
  {
    forall j, k | 0 <= j < k < |s| ensures s[j] != s[k] {
      CountWithout(s, j, s[j]);
      assert Without(s, j)[k - 1] == s[k];
      CountIn(Without(s, j), s[j]);
    }
  }
}

/** The handles of OSTask/ostask.h: a handle is the address of the structure with a
    constant worked into it by exclusive or.  Tasks, queues and pipes are at least
    4-byte aligned. */
module Handles {

  const TASK_MAGIC: bv32 := 0x4b534154
  const QUEUE_MAGIC: bv32 := 0x55455551

  function FromPointer(magic: bv32, p: bv32): (h: bv32) {
    if p == 0 then 0 else magic ^ p
  }

  function ToPointer(magic: bv32, h: bv32): (p: bv32) {
    if h == 0 then 0 else magic ^ h
  }

  /** A handle leads back to its structure: always, but for a structure placed at the
      very address of the constant, whose handle reads as no structure at all. */
  lemma HandleRoundTrip(magic: bv32, p: bv32)
    requires magic != 0
    ensures ToPointer(magic, FromPointer(magic, p)) == p <==> p != magic
  {
    XorTwice(magic, p);
  }

  lemma XorTwice(m: bv32, p: bv32)
    ensures m ^ (m ^ p) == p
    ensures m ^ p == 0 <==> m == p
  {
  }

  /** The handle of a task leaves bit 0 free, for the "wanted" mark of a lock word. */
  lemma TaskHandleIsEven(p: bv32)
    requires p & 3 == 0
    ensures FromPointer(TASK_MAGIC, p) & 3 == 0
  {
  }

  /** The handle of a queue is odd, so that it cannot be taken for the address of a
      handler routine, which is aligned. */
  lemma QueueHandleIsOdd(p: bv32)
    requires p & 3 == 0 && p != 0
    ensures FromPointer(QUEUE_MAGIC, p) & 1 == 1
  {
  }
}
