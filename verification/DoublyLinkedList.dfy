/** Circular doubly linked lists (Utilities/doubly_linked_list.h).

    The C macros work on any structure with `next` and `prev` fields; the structure
    used here is the task, with the other fields that list-walking code reads.
    A list is a pointer to its head, or null when empty.  The ghost sequences passed
    to the methods name the nodes of the rings involved, in order from the head.
 */
module DoublyLinkedList {

  class OSTask {
    var next: OSTask
    var prev: OSTask
    var r0: nat  // the saved registers r[0] and r[1]
    var r1: nat
    var word: nat  // the union of bit-fields swi and handler

    // dll_new: a list of one item
    constructor ()
      ensures Ring([this])
    {
      next, prev := this, this;
      r0, r1, word := 0, 0, 0;
    }
  }

  /** The nodes of s, in order, form one circular list: each node's next is its
      successor, each node's prev its predecessor, and the ends meet. */
  ghost predicate Ring(s: seq<OSTask>)
    reads s
  {
    && s != []
    && Distinct(s)
    && (forall k {:trigger s[k].next} :: 0 <= k < |s| - 1 ==> s[k].next == s[k + 1])
    && (forall k {:trigger s[k].prev} :: 1 <= k < |s| ==> s[k].prev == s[k - 1])
    && s[|s| - 1].next == s[0]
    && s[0].prev == s[|s| - 1]
  }

  ghost predicate Distinct<T>(s: seq<T>) {
    forall j, k :: 0 <= j < k < |s| ==> s[j] != s[k]
  }

  ghost function First(s: seq<OSTask>): set<OSTask> {
    if s == [] then {} else {s[0]}
  }

  ghost function Last(s: seq<OSTask>): set<OSTask> {
    if s == [] then {} else {s[|s| - 1]}
  }

  ghost predicate Disjoint(a: seq<OSTask>, b: seq<OSTask>) {
    forall j, k :: 0 <= j < |a| && 0 <= k < |b| ==> a[j] != b[k]
  }

  /** head is the list pointer for the (possibly empty) ring s. */
  ghost predicate Heads(head: OSTask?, s: seq<OSTask>)
    reads s
  {
    if s == [] then head == null else head == s[0] && Ring(s)
  }

  /** A ring has no fixed start: advancing the head turns the sequence by one. */
  lemma RingTurns(s: seq<OSTask>)
    requires Ring(s)
    ensures Ring(s[1..] + [s[0]]) && (s[1..] + [s[0]])[0] == s[0].next
  {
    var t := s[1..] + [s[0]];
    forall j, k | 0 <= j < k < |t| ensures t[j] != t[k] {
      assert t[j] == s[j + 1];
    }
    if |s| > 1 {
      assert t[|t| - 1].next == s[0].next == t[0];
      forall k | 0 <= k < |t| - 1 ensures t[k].next == t[k + 1] {
        assert t[k] == s[k + 1];
      }
      forall k | 1 <= k < |t| ensures t[k].prev == t[k - 1] {
        assert t[k - 1] == s[k];
      }
    }
  }

  /** ... so any node of it may serve as the head. */
  lemma {:induction false} RingTurnsTo(s: seq<OSTask>, k: nat)
    requires Ring(s) && k <= |s|
    ensures Ring(s[k..] + s[..k])
  {
    if k == 0 {
      assert s[0..] + s[..0] == s;
    } else {
      var t := s[k - 1..] + s[..k - 1];
      RingTurnsTo(s, k - 1);
      RingTurns(t);
      assert t[1..] + [t[0]] == s[k..] + s[..k];
    }
  }

  /** dll_attach: the new item becomes the head, the old list follows it. */
  method Attach(i: OSTask, head: OSTask?, ghost s: seq<OSTask>) returns (l: OSTask)
    requires Heads(head, s) && Ring([i]) && i !in s
    modifies {i}`next, {i}`prev, First(s)`prev, Last(s)`next
    ensures l == i && Ring([i] + s)
  {
    if head != null {
      i.next := head;
      i.prev := head.prev;
      i.prev.next := i;
      head.prev := i;
    }
    l := i;
  }

  /** Attach, then move the head on by one: the item is appended. */
  method AttachAtTail(i: OSTask, head: OSTask?, ghost s: seq<OSTask>) returns (l: OSTask)
    requires Heads(head, s) && Ring([i]) && i !in s
    modifies {i}`next, {i}`prev, First(s)`prev, Last(s)`next
    ensures Heads(l, s + [i])
  {
    l := Attach(i, head, s);
    ghost var t := [i] + s;
    RingTurns(t);
    assert t[1..] + [t[0]] == s + [i];
    l := l.next;
  }

  /** Attach, given any node of the ring for a head: the item goes in front of it.
      k == |s| stands for the head come round again, so the item goes last. */
  method AttachBefore(i: OSTask, t: OSTask, ghost s: seq<OSTask>, ghost k: nat)
    requires Ring(s) && k <= |s| && t == (if k < |s| then s[k] else s[0])
    requires Ring([i]) && i !in s
    modifies {i}`next, {i}`prev, {t}`prev, {t.prev}`next
    ensures Ring(s[..k] + [i] + s[k..])
  {
    ghost var turned := TurnedTo(s, k, t);
    var l := Attach(i, t, turned);
    TurnedBack(i, s, k);
  }

  /** The ring as seen from node k */
  lemma TurnedTo(s: seq<OSTask>, k: nat, t: OSTask) returns (turned: seq<OSTask>)
    requires Ring(s) && k <= |s| && t == (if k < |s| then s[k] else s[0])
    ensures turned == s[k..] + s[..k] && Ring(turned) && turned[0] == t && turned[|turned| - 1] == t.prev
    ensures forall x :: x in turned ==> x in s
  {
    turned := s[k..] + s[..k];
    RingTurnsTo(s, k);
  }

  lemma TurnedBack(i: OSTask, s: seq<OSTask>, k: nat)
    requires k <= |s| && Ring([i] + (s[k..] + s[..k]))
    ensures Ring(s[..k] + [i] + s[k..])
  {
    var u := [i] + (s[k..] + s[..k]);
    RingTurnsTo(u, 1 + |s| - k);
    assert u[1 + |s| - k..] + u[..1 + |s| - k] == s[..k] + [i] + s[k..];
  }

  /** dll_detach: i leaves its ring and becomes a ring of its own. */
  method Detach(i: OSTask, ghost s: seq<OSTask>, ghost k: nat)
    requires Ring(s) && k < |s| && s[k] == i
    modifies {i}`next, {i}`prev, {i.prev}`next, {i.next}`prev
    ensures Ring([i])
    ensures |s| > 1 ==> Ring(s[..k] + s[k + 1..])
  {
    ghost var t := s[..k] + s[k + 1..];
    i.prev.next := i.next;
    i.next.prev := i.prev;
    i.next := i;
    i.prev := i;
    if |s| > 1 {
      WithoutIsRing(s, t, k);
    }
  }

  /** The links Detach leaves behind make the shorter sequence a ring. */
  lemma WithoutIsRing(s: seq<OSTask>, t: seq<OSTask>, k: nat)
    requires |s| > 1 && Distinct(s) && k < |s| && t == s[..k] + s[k + 1..]
    requires forall j :: 0 <= j < |s| && j != k ==>
      s[j].next == (var n := Succ(j, |s|); if n == k then s[Succ(k, |s|)] else s[n])
    requires forall j :: 0 <= j < |s| && j != k ==>
      s[j].prev == (var n := Pred(j, |s|); if n == k then s[Pred(k, |s|)] else s[n])
    ensures Ring(t)
  {
    forall j | 0 <= j < |t| ensures t[j] == s[if j < k then j else j + 1] {}
    forall j | 0 <= j < |t| - 1 ensures t[j].next == t[j + 1] {}
    forall j | 1 <= j < |t| ensures t[j].prev == t[j - 1] {}
  }

  ghost function Succ(k: nat, n: nat): nat
    requires k < n
  {
    if k == n - 1 then 0 else k + 1
  }

  ghost function Pred(k: nat, n: nat): nat
    requires k < n
  {
    if k == 0 then n - 1 else k - 1
  }

  /** dll_replace: i2 takes the place of i1, also as head. */
  method Replace(i1: OSTask, i2: OSTask, head: OSTask, ghost s: seq<OSTask>, ghost k: nat)
    returns (l: OSTask)
    requires Ring(s) && k < |s| && s[k] == i1 && head == s[0]
    requires Ring([i2]) && i2 !in s
    modifies {i1}`next, {i1}`prev, {i2}`next, {i2}`prev, {i1.prev}`next, {i1.next}`prev
    ensures Ring(s[k := i2]) && l == s[k := i2][0]
    ensures Ring([i1])
  {
    if i1.next == i1 {
      l := i2;
    } else {
      i2.prev := i1.prev;
      i2.next := i1.next;
      i2.prev.next := i2;
      i2.next.prev := i2;
      i1.prev := i1;
      i1.next := i1;
      l := if head == i1 then i2 else head;
    }
  }

  /** dll_detach_s_until: the items from the head up to `last` become a ring of
      their own, the rest stays behind. */
  method DetachUntil(head: OSTask, last: OSTask, ghost s: seq<OSTask>, ghost k: nat)
    returns (l: OSTask?)
    requires Ring(s) && head == s[0] && k < |s| && s[k] == last
    modifies {last}`next, {head}`prev, {head.prev}`next, {last.next}`prev
    ensures Ring(s[..k + 1]) && Heads(l, s[k + 1..])
  {
    var first := head;
    if last.next == first {
      l := null;
      assert k == |s| - 1;
      assert s[..k + 1] == s;
    } else {
      var newHead := last.next;
      l := newHead;
      newHead.prev := first.prev;
      first.prev.next := newHead;
      last.next := first;
      first.prev := last;
    }
  }

  /** dll_insert_list_at_head: the whole of the first ring goes in front. */
  method InsertListAtHead(insert: OSTask, head: OSTask?, ghost a: seq<OSTask>, ghost s: seq<OSTask>)
    returns (l: OSTask)
    requires Ring(a) && insert == a[0] && Heads(head, s) && Disjoint(a, s)
    modifies First(a)`prev, Last(a)`next, First(s)`prev, Last(s)`next
    ensures Ring(a + s) && l == a[0]
  {
    assert Distinct(a + s) by {
      forall j, k | 0 <= j < k < |a + s| ensures (a + s)[j] != (a + s)[k] {
        if j < |a| <= k {
          assert a[j] in a && s[k - |a|] in s;
        }
      }
    }
    var oldHead := head;
    if oldHead != null {
      var oldLast := oldHead.prev;
      var last := insert.prev;
      last.next := oldHead;
      oldHead.prev := last;
      insert.prev := oldLast;
      oldLast.next := insert;
    } else {
      assert a + s == a;
    }
    l := insert;
  }

  /** dll_move as written.  Its last write sends i.next back to i, so it does what
      its comment says exactly when the second list is empty; otherwise the item
      never becomes part of a ring with that list. */
  method Move(i: OSTask, head1: OSTask, head2: OSTask?, ghost s: seq<OSTask>, ghost k: nat, ghost t: seq<OSTask>)
    returns (l1: OSTask?, l2: OSTask)
    requires Ring(s) && head1 == s[0] && k < |s| && s[k] == i
    requires Heads(head2, t) && Disjoint(s, t)
    modifies {i}`next, {i}`prev, {i.prev}`next, {i.next}`prev, First(t)`prev, Last(t)`next
    ensures Heads(l1, s[..k] + s[k + 1..])
    ensures Ring([i] + t) <==> t == []
    ensures l2 == if t == [] then i else t[0]
  {
    ghost var rest := s[..k] + s[k + 1..];
    assert t != [] ==> t[0] in t && t[|t| - 1] in t;
    l1 := head1;
    if l1 == i {
      l1 := i.next;
      if l1 == i {
        l1 := null;
      }
    }
    l2 := if head2 == null then i else head2;
    i.prev.next := i.next;
    i.next.prev := i.prev;
    i.next := l2;
    i.prev := l2.prev;
    l2.prev := i;
    l2.prev.next := i;
    if |s| > 1 {
      WithoutIsRing(s, rest, k);
    }
    if t != [] {
      assert ([i] + t)[1] == t[0] && i.next == i;
    }
  }
}
