/** The `assert:` block of a script (src/ams/mission_script_engine_parser.cpp:3560-3668). */
module Assertions {
  import opened MissionProgram
  import opened GraphAnalysis
  import opened DepthSearch

  /** What an assertion promises about the transition graph. */
  ghost predicate Holds(p: Program, ad: AssertDef) {
    match ad
    case Reachable(name) => FindState(p.states, name) < |p.states| && ReachableState(p, FindState(p.states, name))
    case NoDeadStates => forall s: nat :: s < |p.states| ==> ReachableState(p, s)
    case MaxDepth(limit) => !CycleReachable(p) && forall w: seq<nat> :: Walk(p, w) ==> |w| - 1 < limit
  }

  ghost predicate AllHold(p: Program) {
    forall ad :: ad in p.asserts ==> Holds(p, ad)
  }

  /** The analysis results a check runs on. */
  ghost predicate Analysed(p: Program, reachable: Mask, maxDepth: nat, hasCycle: bool) {
    && (forall t: nat :: t < 16 ==> (Has(reachable, t) <==> t < |p.states| && ReachableState(p, t)))
    && (hasCycle <==> CycleReachable(p))
    && (!hasCycle ==> forall w: seq<nat> :: Walk(p, w) ==> |w| - 1 <= maxDepth)
    && (!hasCycle ==> exists w: seq<nat> :: Walk(p, w) && |w| - 1 == maxDepth)
  }

  // ----- The mask of all states -----

  function AllMask(n: nat): Mask
    requires n <= AMS_MAX_STATES
  {
    ((1 as bv16) << n) - 1
  }

  lemma AllMaskStep(n: nat)
    requires n < AMS_MAX_STATES
    ensures AllMask(n + 1) == Join(AllMask(n), Bit(n))
  {
  }

  lemma CoversJoin(r: Mask, a: Mask, b: Mask)
    ensures And(r, Join(a, b)) == Join(a, b) <==> And(r, a) == a && And(r, b) == b
  {
    hide And, Join;
    if And(r, Join(a, b)) == Join(a, b) {
      CoversLeft(r, a, b);
      JoinCommutes(a, b);
      CoversLeft(r, b, a);
    }
    AndDistributes(r, a, b);
  }

  lemma CoversLeft(r: Mask, a: Mask, b: Mask)
    requires And(r, Join(a, b)) == Join(a, b)
    ensures And(r, a) == a
  {
  }

  lemma JoinCommutes(a: Mask, b: Mask)
    ensures Join(a, b) == Join(b, a)
  {
  }

  lemma AndDistributes(r: Mask, a: Mask, b: Mask)
    ensures And(r, Join(a, b)) == Join(And(r, a), And(r, b))
  {
  }

  lemma CoversBit(r: Mask, s: nat)
    requires s < 16
    ensures And(r, Bit(s)) == Bit(s) <==> Has(r, s)
  {
  }

  lemma CoversNone(r: Mask)
    ensures AllMask(0) == 0 && And(r, 0) == 0
  {
  }

  lemma {:induction false} CoversAll(r: Mask, n: nat)
    requires n <= AMS_MAX_STATES
    ensures And(r, AllMask(n)) == AllMask(n) <==> forall s: nat :: s < n ==> Has(r, s)
    decreases n
  {
    hide And, Join, AllMask, Bit, Has;
    if n == 0 {
      CoversNone(r);
    } else {
      CoversAll(r, n - 1);
      AllMaskStep(n - 1);
      CoversJoin(r, AllMask(n - 1), Bit(n - 1));
      CoversBit(r, n - 1);
    }
  }

  // ----- The checks -----

  method EvaluateOneAssertion(p: Program, ad: AssertDef, reachable: Mask, maxDepth: nat, hasCycle: bool)
      returns (ok: bool)
    requires Bounded(p) && Analysed(p, reachable, maxDepth, hasCycle)
    ensures ok <==> Holds(p, ad)
  {
    hide Has, And, AllMask, CycleReachable, ReachableState, Walk;
    match ad {
      case Reachable(name) =>
        var idx := FindState(p.states, name);
        if idx >= |p.states| { return false; }
        return Has(reachable, idx);
      case NoDeadStates =>
        CoversAll(reachable, |p.states|);
        if And(reachable, AllMask(|p.states|)) != AllMask(|p.states|) {
          var s := 0;
          while s < |p.states|
            invariant s <= |p.states|
            invariant forall t: nat :: t < s ==> Has(reachable, t)
          {
            if !Has(reachable, s) {
              assert !ReachableState(p, s);
              return false;
            }
            s := s + 1;
          }
        }
        return true;
      case MaxDepth(limit) =>
        if hasCycle { return false; }
        return maxDepth < limit;
    }
  }

  /** With the exit from a cycle that the depth search lacks, the checks decide the assertions. */
  method ValidateAssertions(p: Program) returns (ok: bool)
    requires p.states != [] ==> Bounded(p)
    ensures ok <==> p.states == [] || AllHold(p)
  {
    hide Holds, Analysed;
    if |p.asserts| == 0 { return true; }
    if |p.states| == 0 { return true; }
    var reachable := ComputeBfsReachability(p);
    var maxDepth, hasCycle := ComputeDfsMaxDepth(p);
    assert Analysed(p, reachable, maxDepth, hasCycle) by {
      AnalysisResult(p, reachable, maxDepth, hasCycle);
    }
    var i := 0;
    while i < |p.asserts|
      invariant i <= |p.asserts|
      invariant forall k :: 0 <= k < i ==> Holds(p, p.asserts[k])
    {
      var one := EvaluateOneAssertion(p, p.asserts[i], reachable, maxDepth, hasCycle);
      if !one {
        assert p.asserts[i] in p.asserts;
        return false;
      }
      i := i + 1;
    }
    return true;
  }

  lemma AnalysisResult(p: Program, reachable: Mask, maxDepth: nat, hasCycle: bool)
    requires forall t: nat :: t < 16 ==> (Has(reachable, t) <==> t < |p.states| && ReachableState(p, t))
    requires hasCycle <==> CycleReachable(p)
    requires !hasCycle ==> forall w: seq<nat> :: Walk(p, w) ==> |w| - 1 <= maxDepth
    requires !hasCycle ==> exists w: seq<nat> :: Walk(p, w) && |w| - 1 == maxDepth
    ensures Analysed(p, reachable, maxDepth, hasCycle)
  {
    hide Has, CycleReachable, ReachableState, Walk;
  }

  /** As the code stands, the check of a script returns exactly when this holds. */
  ghost predicate CheckReturns(p: Program)
    requires p.states != [] ==> Sized(p)
  {
    p.asserts == [] || p.states == [] || LoopHalts(p)
  }

  /** Any assertion, even one about reachability alone, meets a reachable cycle by not returning. */
  lemma CheckReturnsIff(p: Program)
    requires p.asserts != [] && Bounded(p)
    ensures CheckReturns(p) <==> !CycleReachable(p)
  {
    LoopHaltsIff(p);
  }
}
