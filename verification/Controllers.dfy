/** The array of controllers of a task (OSTask/ostask.h): the current one first, nought after the last. */
module Controllers {
  import opened Tasks
  import Scheduler

  const MAX_CONTROLLERS := 31

  /** The entries in use: those before the first nought */
  function InUse(a: seq<Task>): (cs: seq<Task>)
    ensures |cs| <= |a|
    ensures forall i :: 0 <= i < |cs| ==> cs[i] == a[i] && a[i] != 0
    ensures |cs| < |a| ==> a[|cs|] == 0
  {
    if a == [] || a[0] == 0 then [] else [a[0]] + InUse(a[1..])
  }

  /** Nothing follows the entries in use. */
  ghost predicate Packed(a: seq<Task>) {
    forall i :: |InUse(a)| <= i < |a| ==> a[i] == 0
  }

  lemma {:induction false} InUseIs(a: seq<Task>, n: nat)
    requires n <= |a| && (forall i :: 0 <= i < n ==> a[i] != 0) && (n < |a| ==> a[n] == 0)
    ensures InUse(a) == a[..n]
  {
    if n > 0 {
      InUseIs(a[1..], n - 1);
      assert a[..n] == [a[0]] + a[1..][..n - 1];
    }
  }

  /** RunsOff: the loop goes on past the end of the array. */
  datatype Outcome = Pushed | Full | RunsOff

  /** push_controller. The loop that should make room starts at the first free entry, and runs upward: with
      two or more in use it fills the array with copies of the last of them, and goes on behind it. */
  method PushController(a: array<Task>, controller: Task) returns (o: Outcome)
    requires a.Length == MAX_CONTROLLERS && controller != 0 && Packed(a[..])
    modifies a
    ensures var cs := InUse(old(a[..]));
      && o == (if |cs| == MAX_CONTROLLERS then Full else if |cs| <= 1 then Pushed else RunsOff)
      && (o.Pushed? <==> Scheduler.PushController(cs, controller).Some?)
      && (o.Pushed? ==> Packed(a[..]) && Scheduler.PushController(cs, controller) == Some(InUse(a[..])))
      && (o.Full? ==> a[..] == old(a[..]))
      && (o.RunsOff? ==> forall k :: 0 <= k < MAX_CONTROLLERS ==> a[k] == if k < |cs| then cs[k] else cs[|cs| - 1])
  {
    ghost var cs := InUse(a[..]);
    if a[MAX_CONTROLLERS - 1] != 0 { return Full; }
    var i := 0;
    while a[i] != 0
      invariant 0 <= i < MAX_CONTROLLERS && i <= |cs| && forall j :: 0 <= j < i ==> a[j] != 0
      decreases MAX_CONTROLLERS - i
    {
      i := i + 1;
    }
    assert i == |cs|;
    while i > 1
      invariant |cs| <= i <= MAX_CONTROLLERS && (|cs| <= 1 ==> i == |cs|)
      invariant forall k :: 0 <= k < i ==> a[k] == if k < |cs| then cs[k] else cs[|cs| - 1]
      invariant forall k :: i <= k < MAX_CONTROLLERS ==> a[k] == 0
      decreases MAX_CONTROLLERS - i
    {
      if i == MAX_CONTROLLERS { return RunsOff; }
      a[i] := a[i - 1];
      i := i + 1;
    }
    a[0] := controller;
    InUseIs(a[..], 1);
    assert a[..1] == [controller];
    o := Pushed;
  }

  /** It does what a push is for exactly when there is no controller yet; the only one there is is lost. */
  lemma PushesInFrontIff(cs: seq<Task>, controller: Task)
    ensures Scheduler.PushController(cs, controller) == Some([controller] + cs) <==> cs == []
    ensures |cs| == 1 ==> Scheduler.PushController(cs, controller) == Some([controller])
  {
    assert [controller] + [] == [controller];
    assert |[controller] + cs| == 1 + |cs|;
  }

  /** pop_controller */
  method PopController(a: array<Task>) returns (ok: bool)
    requires a.Length == MAX_CONTROLLERS && Packed(a[..])
    modifies a
    ensures Packed(a[..])
    ensures ok <==> InUse(old(a[..])) != []
    ensures InUse(a[..]) == Scheduler.PopController(InUse(old(a[..])))
  {
    ghost var before := a[..];
    ghost var n := |InUse(before)|;
    if a[0] == 0 { return false; }
    var i := 0;
    var going := true;
    while i < MAX_CONTROLLERS - 1 && going
      invariant 0 <= i <= MAX_CONTROLLERS - 1 && i <= n
      invariant forall j :: 0 <= j < i ==> a[j] == before[j + 1]
      invariant going ==> forall j :: i <= j < MAX_CONTROLLERS ==> a[j] == before[j]
      invariant going ==> i < n
      invariant !going ==> i == n && before[n] == 0 && forall j :: n <= j < MAX_CONTROLLERS ==> a[j] == 0
    {
      a[i] := a[i + 1];
      if a[i] == 0 { going := false; }
      i := i + 1;
    }
    a[MAX_CONTROLLERS - 1] := 0;
    Popped(before, a[..]);
    ok := true;
  }

  lemma Popped(before: seq<Task>, after: seq<Task>)
    requires |before| == |after| > 0 && InUse(before) != []
    requires forall j :: 0 <= j < |InUse(before)| - 1 ==> after[j] == before[j + 1]
    requires forall j :: |InUse(before)| - 1 <= j < |after| ==> after[j] == 0
    ensures Packed(after) && InUse(after) == InUse(before)[1..]
  {
    InUseIs(after, |InUse(before)| - 1);
  }
}
