/** Processor/processor.h: core_claim_lock and core_release_lock. A core that has the lock may claim it
    again; it says so, and the caller then leaves the lock alone at the end of the inner section. */
module CoreLock {

  /** lock: 0, or one more than the number of the core that has it. sections: for each core, the claimed
      sections it is in, outermost first: what core_claim_lock returned for each. */
  datatype State = State(lock: nat, sections: seq<seq<bool>>)

  /** An attempt to claim, by compare-and-swap of nought with core + 1; or the end of the innermost section */
  datatype Event = Claim(core: nat) | Leave(core: nat)

  function Step(s: State, e: Event): State
    requires e.core < |s.sections|
  {
    var c := e.core;
    var mine := s.sections[c];
    match e
    case Claim(_) =>
      if s.lock == 0 then State(c + 1, s.sections[c := mine + [false]])
      else if s.lock == c + 1 then s.(sections := s.sections[c := mine + [true]])
      else s  // wait for event, and try again
    case Leave(_) =>
      if mine == [] then s
      else State(if mine[|mine| - 1] then s.lock else 0, s.sections[c := mine[..|mine| - 1]])
  }

  /** A core leaves only sections it is in. */
  predicate Enabled(s: State, e: Event) {
    e.core < |s.sections| && (e.Leave? ==> s.sections[e.core] != [])
  }

  ghost predicate Outermost(mine: seq<bool>) {
    mine != [] ==> !mine[0] && forall i :: 0 < i < |mine| ==> mine[i]
  }

  /** The lock names the one core that is in a section; only its outermost section gave it the lock. */
  ghost predicate Inv(s: State) {
    s.lock <= |s.sections| &&
    (forall c :: 0 <= c < |s.sections| ==> Outermost(s.sections[c]) && (s.sections[c] != [] <==> s.lock == c + 1))
  }

  lemma StepKeepsInv(s: State, e: Event)
    requires Inv(s) && Enabled(s, e)
    ensures Inv(Step(s, e))
  {
    var c := e.core;
    var t := Step(s, e);
    assert Outermost(s.sections[c]);
    assert Outermost(t.sections[c]);
  }

  ghost predicate IsRun(s: State, es: seq<Event>)
    decreases |es|
  {
    es == [] || (Enabled(s, es[0]) && IsRun(Step(s, es[0]), es[1..]))
  }

  ghost function End(s: State, es: seq<Event>): State
    requires IsRun(s, es)
    decreases |es|
  {
    if es == [] then s else End(Step(s, es[0]), es[1..])
  }

  /** For any number of cores, any nesting and any order of their steps: no two cores are in sections at
      once, and the lock is free exactly when none is. */
  lemma {:induction false} MutualExclusion(s: State, es: seq<Event>)
    requires Inv(s) && IsRun(s, es)
    ensures var t := End(s, es);
            Inv(t) &&
            (forall c, d :: 0 <= c < d < |t.sections| ==> t.sections[c] == [] || t.sections[d] == []) &&
            (t.lock == 0 <==> forall c :: 0 <= c < |t.sections| ==> t.sections[c] == [])
    decreases |es|
  {
    if es == [] {
      if s.lock != 0 { assert s.sections[s.lock - 1] != []; }
    } else {
      StepKeepsInv(s, es[0]);
      MutualExclusion(Step(s, es[0]), es[1..]);
    }
  }

  /** The lock changes hands only through nought, when its owner leaves its outermost section. */
  lemma KeptUntilOutermostLeaves(s: State, e: Event)
    requires Inv(s) && Enabled(s, e) && s.lock != 0
    ensures Step(s, e).lock == (if e == Leave(s.lock - 1) && |s.sections[s.lock - 1]| == 1 then 0 else s.lock)
  {
    assert Outermost(s.sections[e.core]);
  }
}
