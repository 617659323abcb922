/**
 What fires, and when (src/ams/mission_script_engine.cpp:617-775): the first transition of the state that is true and
 whose persistence window (`for Nms`) has passed. A window is open exactly since its compound condition is true on
 every evaluated tick of the stay without a pause; delta baselines and confirm counters follow the stay as well.
 */
module HoldWindows {
  import opened Wrappers
  import opened MissionProgram
  import opened Clock32
  import opened MissionEngine
  import opened EngineSafety

  // ----- Compound conditions -----

  /** The compound condition of a transition, read off its conditions all at once. */
  predicate CompoundTrue(e: Engine, tr: Transition, ti: nat, env: TickEnv)
    requires Sane(e) && ti < AMS_MAX_TRANSITIONS && |tr.conds| <= AMS_MAX_TRANSITION_CONDS
  {
    && |tr.conds| > 0
    && if tr.isAnd then forall i :: 0 <= i < |tr.conds| ==> CondHolds(e, tr.conds[i], Flat(ti, i), env)
       else exists i :: 0 <= i < |tr.conds| && CondHolds(e, tr.conds[i], Flat(ti, i), env)
  }

  /** The engines agree on everything a condition of table slots `from..to` looks at. */
  predicate SameView(e: Engine, f: Engine, lo: nat, hi: nat)
    requires Sane(e) && Sane(f)
  {
    && e.pendingTc == f.pendingTc && e.confirm == f.confirm && e.timers == f.timers
    && forall k :: lo <= k < hi && k < PREV_SLOTS ==>
         e.windows.prevVal[k] == f.windows.prevVal[k] && e.windows.prevValid[k] == f.windows.prevValid[k]
  }

  lemma SameViewSameResult(e: Engine, f: Engine, lo: nat, hi: nat, c: CondExpr, flat: nat, env: TickEnv)
    requires Sane(e) && Sane(f) && SameView(e, f, lo, hi) && lo <= flat < hi && flat < PREV_SLOTS
    ensures CondHolds(e, c, flat, env) == CondHolds(f, c, flat, env)
  {
  }

  /** A telecommand condition from `i` on is true. */
  predicate Matched(e: Engine, tr: Transition, ti: nat, i: nat, env: TickEnv)
    requires Sane(e) && ti < AMS_MAX_TRANSITIONS && |tr.conds| <= AMS_MAX_TRANSITION_CONDS
  {
    exists k :: i <= k < |tr.conds| && tr.conds[k].TcEq? && CondHolds(e, tr.conds[k], Flat(ti, k), env)
  }

  /** Evaluating one condition after another gives the compound condition. */
  lemma {:induction false} EvalCondsMeans(e: Engine, f: Engine, tr: Transition, ti: nat, i: nat,
                                         holds: bool, tcMatch: bool, env: TickEnv)
    requires Sane(e) && Sane(f) && ti < AMS_MAX_TRANSITIONS && i <= |tr.conds| <= AMS_MAX_TRANSITION_CONDS
    requires SameView(e, f, Flat(ti, i), PREV_SLOTS)
    ensures var r := EvalConds(f, tr, ti, i, holds, tcMatch, env);
            && (tr.isAnd ==> (r.holds <==> holds && forall k :: i <= k < |tr.conds| ==>
                              CondHolds(e, tr.conds[k], Flat(ti, k), env)))
            && (!tr.isAnd ==> (r.holds <==>
                               holds || exists k :: i <= k < |tr.conds| && CondHolds(e, tr.conds[k], Flat(ti, k), env)))
            && (r.tcMatch <==> tcMatch || Matched(e, tr, ti, i, env))
            && Sane(r.e) && SameView(e, r.e, Flat(ti, |tr.conds|), PREV_SLOTS)
    decreases |tr.conds| - i
  {
    hide CondHolds, Sane;
    EvalCondsSane(f, tr, ti, i, holds, tcMatch, env);
    if i < |tr.conds| {
      var c, flat := tr.conds[i], Flat(ti, i);
      var r := CondHolds(f, c, flat, env);
      RememberKeeps(f, c, flat, env);
      var next := f.(windows := Remember(f.windows, c, flat, env));
      SameViewSameResult(e, f, flat, PREV_SLOTS, c, flat, env);
      ViewShrinks(e, f, next, flat);
      EvalCondsMeans(e, next, tr, ti, i + 1, if tr.isAnd then holds && r else holds || r,
                     tcMatch || (r && c.TcEq?), env);
    }
  }

  lemma RememberKeeps(f: Engine, c: CondExpr, flat: nat, env: TickEnv)
    requires Sane(f) && flat < PREV_SLOTS
    ensures flat < |f.windows.prevVal| && flat < |f.windows.prevValid|
    ensures Sane(f.(windows := Remember(f.windows, c, flat, env)))
    ensures SameView(f, f.(windows := Remember(f.windows, c, flat, env)), flat + 1, PREV_SLOTS)
  {
  }

  lemma ViewShrinks(e: Engine, f: Engine, g: Engine, flat: nat)
    requires Sane(e) && Sane(f) && Sane(g)
    requires SameView(e, f, flat, PREV_SLOTS) && SameView(f, g, flat + 1, PREV_SLOTS)
    ensures SameView(e, g, flat + 1, PREV_SLOTS)
  {
  }

  // ----- What the delta conditions remember -----

  predicate IsDelta(c: CondExpr) {
    c.DeltaLt? || c.DeltaGt?
  }

  /** The delta baseline of table slot `k` is the sample `last`. */
  predicate Baseline(w: Windows, k: nat, last: Option<real>)
    requires |w.prevVal| == |w.prevValid| == PREV_SLOTS && k < PREV_SLOTS
  {
    (w.prevValid[k] <==> last.Some?) && (last.Some? ==> w.prevVal[k] == last.value)
  }

  /** The baseline after slot `k` was evaluated. */
  predicate Sampled(before: Windows, after: Windows, k: nat, env: TickEnv)
    requires |before.prevVal| == |before.prevValid| == |after.prevVal| == |after.prevValid| == PREV_SLOTS
    requires k < PREV_SLOTS
  {
    && (after.prevValid[k] <==> Seen(env)[k].Some? || before.prevValid[k])
    && (after.prevValid[k] ==>
          after.prevVal[k] == if Seen(env)[k].Some? then Seen(env)[k].value else before.prevVal[k])
  }

  predicate SameBaseline(v: Windows, w: Windows, k: nat)
    requires |v.prevVal| == |v.prevValid| == |w.prevVal| == |w.prevValid| == PREV_SLOTS && k < PREV_SLOTS
  {
    v.prevVal[k] == w.prevVal[k] && v.prevValid[k] == w.prevValid[k]
  }

  /** From `u` to `w` the delta slots of transition `ti` from condition `i` on were sampled, and no others changed. */
  predicate Swept(u: Windows, w: Windows, conds: seq<CondExpr>, ti: nat, i: nat, env: TickEnv)
    requires |u.prevVal| == |u.prevValid| == |w.prevVal| == |w.prevValid| == PREV_SLOTS
    requires ti < AMS_MAX_TRANSITIONS && |conds| <= AMS_MAX_TRANSITION_CONDS
  {
    && (forall k :: i <= k < |conds| && IsDelta(conds[k]) ==> Sampled(u, w, Flat(ti, k), env))
    && (forall k :: 0 <= k < PREV_SLOTS && !(Flat(ti, i) <= k < Flat(ti, |conds|)) ==> SameBaseline(u, w, k))
  }

  lemma SweptOnward(u: Windows, v: Windows, w: Windows, conds: seq<CondExpr>, ti: nat, i: nat, env: TickEnv)
    requires |u.prevVal| == |u.prevValid| == |v.prevVal| == |v.prevValid| == PREV_SLOTS
    requires |w.prevVal| == |w.prevValid| == PREV_SLOTS
    requires ti < AMS_MAX_TRANSITIONS && i < |conds| <= AMS_MAX_TRANSITION_CONDS
    requires IsDelta(conds[i]) ==> Sampled(u, v, Flat(ti, i), env)
    requires forall k :: 0 <= k < PREV_SLOTS && k != Flat(ti, i) ==> SameBaseline(u, v, k)
    requires Swept(v, w, conds, ti, i + 1, env)
    ensures Swept(u, w, conds, ti, i, env)
  {
    hide Sampled, SameBaseline;
    forall k | i <= k < |conds| && IsDelta(conds[k]) ensures Sampled(u, w, Flat(ti, k), env) {
      SampledOnward(u, v, w, Flat(ti, k), env);
    }
    forall k | 0 <= k < PREV_SLOTS && !(Flat(ti, i) <= k < Flat(ti, |conds|)) ensures SameBaseline(u, w, k) {
      SampledOnward(u, v, w, k, env);
    }
  }

  lemma NothingSwept(w: Windows, conds: seq<CondExpr>, ti: nat, env: TickEnv)
    requires |w.prevVal| == |w.prevValid| == PREV_SLOTS
    requires ti < AMS_MAX_TRANSITIONS && |conds| <= AMS_MAX_TRANSITION_CONDS
    ensures Swept(w, w, conds, ti, |conds|, env)
  {
  }

  /** Evaluating the conditions from `i` on samples the slots of the delta conditions and no others. */
  lemma {:induction false} EvalCondsSample(f: Engine, tr: Transition, ti: nat, i: nat, holds: bool, tcMatch: bool,
                                           env: TickEnv)
    requires Sane(f) && ti < AMS_MAX_TRANSITIONS && i <= |tr.conds| <= AMS_MAX_TRANSITION_CONDS
    ensures var r := EvalConds(f, tr, ti, i, holds, tcMatch, env).e;
            Sane(r) && Swept(f.windows, r.windows, tr.conds, ti, i, env)
    decreases |tr.conds| - i
  {
    hide CondHolds, Sane, Remember, Swept, Sampled, SameBaseline;
    EvalCondsSane(f, tr, ti, i, holds, tcMatch, env);
    WindowsSane(f);
    if i < |tr.conds| {
      var c, flat := tr.conds[i], Flat(ti, i);
      var r := CondHolds(f, c, flat, env);
      RememberSane(f, c, ti, i, env);
      var next := f.(windows := Remember(f.windows, c, flat, env));
      RememberSamples(f, c, flat, env);
      var holds', tcMatch' := if tr.isAnd then holds && r else holds || r, tcMatch || (r && c.TcEq?);
      EvalCondsSample(next, tr, ti, i + 1, holds', tcMatch', env);
      var end := EvalConds(f, tr, ti, i, holds, tcMatch, env).e;
      WindowsSane(end);
      WindowsSane(next);
      SweptOnward(f.windows, next.windows, end.windows, tr.conds, ti, i, env);
    } else {
      NothingSwept(f.windows, tr.conds, ti, env);
    }
  }

  lemma WindowsSane(e: Engine)
    requires Sane(e)
    ensures |e.windows.prevVal| == |e.windows.prevValid| == PREV_SLOTS
    ensures |e.windows.holding| == |e.windows.metMs| == AMS_MAX_TRANSITIONS
    ensures forall i :: 0 <= i < AMS_MAX_TRANSITIONS ==> e.windows.metMs[i] < TWO32
  {
  }

  lemma SampledOnward(u: Windows, v: Windows, w: Windows, k: nat, env: TickEnv)
    requires |u.prevVal| == |u.prevValid| == |v.prevVal| == |v.prevValid| == PREV_SLOTS
    requires |w.prevVal| == |w.prevValid| == PREV_SLOTS && k < PREV_SLOTS
    ensures SameBaseline(u, v, k) && SameBaseline(v, w, k) ==> SameBaseline(u, w, k)
    ensures SameBaseline(u, v, k) && Sampled(v, w, k, env) ==> Sampled(u, w, k, env)
    ensures Sampled(u, v, k, env) && SameBaseline(v, w, k) ==> Sampled(u, w, k, env)
  {
  }

  lemma RememberSamples(f: Engine, c: CondExpr, flat: nat, env: TickEnv)
    requires Sane(f) && flat < PREV_SLOTS == |f.windows.prevVal| == |f.windows.prevValid|
    ensures var w := Remember(f.windows, c, flat, env);
            && |w.prevVal| == |w.prevValid| == PREV_SLOTS
            && (IsDelta(c) ==> Sampled(f.windows, w, flat, env))
            && (forall k :: 0 <= k < PREV_SLOTS && k != flat ==> SameBaseline(f.windows, w, k))
  {
  }

  // ----- One pass over the transitions -----

  predicate Held(tr: Transition) {
    tr.holdMs > 0 && !TcOnly(tr)
  }

  /** The compound condition is true, and a window, if there is one, has been open long enough by the clock. */
  predicate ReadyNow(e: Engine, tr: Transition, ti: nat, env: TickEnv)
    requires Sane(e) && ti < AMS_MAX_TRANSITIONS && |tr.conds| <= AMS_MAX_TRANSITION_CONDS
  {
    && CompoundTrue(e, tr, ti, env)
    && (Held(tr) ==> e.windows.holding[ti] && Since(Millis(env.t), e.windows.metMs[ti]) >= tr.holdMs)
  }

  /** What a pass that fires nothing leaves of hold window `j`: open exactly if the condition is true. */
  predicate WindowStep(e: Engine, v: Evaluated, j: nat, now: nat)
    requires Sane(e) && Sane(v.e) && j < AMS_MAX_TRANSITIONS && j < |v.truths|
  {
    && (v.e.windows.holding[j] <==> v.truths[j])
    && (v.truths[j] ==>
          v.e.windows.metMs[j] == if e.windows.holding[j] then e.windows.metMs[j] else now)
  }

  /** Every transition has a condition, as the parser demands. */
  predicate Conditioned(sd: StateDef) {
    forall tr :: tr in sd.transitions ==> |tr.conds| > 0
  }

  /** The delta slots of transition `j` were sampled. */
  predicate SlotsSampled(e: Engine, f: Engine, tr: Transition, j: nat, env: TickEnv)
    requires Sane(e) && Sane(f) && j < AMS_MAX_TRANSITIONS && |tr.conds| <= AMS_MAX_TRANSITION_CONDS
  {
    forall k :: 0 <= k < |tr.conds| && IsDelta(tr.conds[k]) ==> Sampled(e.windows, f.windows, Flat(j, k), env)
  }

  predicate SlotsBelow(e: Engine, f: Engine, hi: nat)
    requires Sane(e) && Sane(f)
  {
    forall k :: 0 <= k < hi && k < PREV_SLOTS ==> SameBaseline(e.windows, f.windows, k)
  }

  /**
   The pass from transition `ti` on: the first transition that is ready fires; if there is none, every window is
   open exactly if its condition is true, and every delta condition has its sample.
   */
  ghost predicate PassOk(e: Engine, sd: StateDef, ti: nat, truths: seq<bool>, env: TickEnv, v: Evaluated)
    requires Sane(e) && Fits(sd) && Sane(v.e)
  {
    && |truths| == ti && ti <= |v.truths| <= |sd.transitions| && v.truths[..ti] == truths
    && (v.fired.None? ==> |v.truths| == |sd.transitions|)
    && (v.fired.Some? ==> ti <= v.fired.value < |sd.transitions| && |v.truths| == v.fired.value + 1)
    && (forall j :: ti <= j < |v.truths| ==>
          && v.truths[j] == CompoundTrue(e, sd.transitions[j], j, env)
          && (v.fired == Some(j) <==> ReadyNow(e, sd.transitions[j], j, env)))
    && (v.fired.Some? ==>
          v.e.pendingTc == if Matched(e, sd.transitions[v.fired.value], v.fired.value, 0, env) then NoTc
                           else e.pendingTc)
    && (v.fired.None? ==>
          && v.e.pendingTc == e.pendingTc && v.e.confirm == e.confirm
          && SlotsBelow(e, v.e, Flat(ti, 0))
          && (forall j :: ti <= j < |v.truths| ==>
                WindowStep(e, v, j, Millis(env.t)) && SlotsSampled(e, v.e, sd.transitions[j], j, env))
          && (forall j :: 0 <= j < AMS_MAX_TRANSITIONS && (j < ti || j >= |sd.transitions|) ==>
                v.e.windows.holding[j] == e.windows.holding[j] && v.e.windows.metMs[j] == e.windows.metMs[j]))
  }

  lemma SettleStep(c: Compound, tr: Transition, ti: nat, env: TickEnv)
    requires Sane(c.e) && ti < AMS_MAX_TRANSITIONS
    ensures var (fires, next) := Settle(c, tr, ti, env);
            && Sane(next) && SameButWindows(c.e, next)
            && next.windows.prevVal == c.e.windows.prevVal && next.windows.prevValid == c.e.windows.prevValid
            && (forall j :: 0 <= j < AMS_MAX_TRANSITIONS && j != ti ==>
                  next.windows.holding[j] == c.e.windows.holding[j] && next.windows.metMs[j] == c.e.windows.metMs[j])
            && (fires <==> c.holds && (Held(tr) ==> c.e.windows.holding[ti]
                                                    && Since(Millis(env.t), c.e.windows.metMs[ti]) >= tr.holdMs))
            && (fires ==> next.pendingTc == if c.tcMatch then NoTc else c.e.pendingTc)
            && (!fires ==>
                  && next.pendingTc == c.e.pendingTc && next.confirm == c.e.confirm
                  && (next.windows.holding[ti] <==> c.holds)
                  && (c.holds ==> next.windows.metMs[ti] ==
                                  if c.e.windows.holding[ti] then c.e.windows.metMs[ti] else Millis(env.t)))
  {
    hide ResetConfirm;
    SettleKeeps(c, tr, ti, env);
  }

  lemma {:induction false} PassMeans(e: Engine, sd: StateDef, ti: nat, truths: seq<bool>, env: TickEnv)
    requires Sane(e) && Fits(sd) && Conditioned(sd) && ti <= |sd.transitions| && |truths| == ti
    ensures Sane(EvalTransitions(e, sd, ti, truths, env).e)
    ensures PassOk(e, sd, ti, truths, env, EvalTransitions(e, sd, ti, truths, env))
    decreases |sd.transitions| - ti
  {
    hide CompoundTrue, Matched, Settle, EvalConds, Sane, PassOk, Settled, SameView, SameButDeltas, SlotsSampled,
         SlotsBelow;
    EvalTransitionsKeeps(e, sd, ti, truths, env);
    if ti < |sd.transitions| {
      var tr := sd.transitions[ti];
      assert tr in sd.transitions;
      EvalCondsSane(e, tr, ti, 0, tr.isAnd, false, env);
      CompoundMeans(e, tr, ti, env);
      var c := EvalConds(e, tr, ti, 0, tr.isAnd, false, env);
      SettleStep(c, tr, ti, env);
      var (fires, next) := Settle(c, tr, ti, env);
      if !fires {
        SettledNow(e, sd, ti, c, env);
        PassMeans(next, sd, ti + 1, truths + [c.holds], env);
        PassOnward(e, next, sd, ti, truths, c.holds, env, EvalTransitions(next, sd, ti + 1, truths + [c.holds], env));
      } else {
        FiresNow(e, sd, ti, truths, c, env);
      }
    } else {
      NothingLeft(e, sd, truths, env);
    }
  }

  lemma NothingLeft(e: Engine, sd: StateDef, truths: seq<bool>, env: TickEnv)
    requires Sane(e) && Fits(sd) && |truths| == |sd.transitions|
    ensures PassOk(e, sd, |truths|, truths, env, Evaluated(e, truths, None))
  {
    assert truths[..|truths|] == truths;
  }

  lemma CompoundMeans(e: Engine, tr: Transition, ti: nat, env: TickEnv)
    requires Sane(e) && ti < AMS_MAX_TRANSITIONS && 0 < |tr.conds| <= AMS_MAX_TRANSITION_CONDS
    ensures var r := EvalConds(e, tr, ti, 0, tr.isAnd, false, env);
            && Sane(r.e) && r.holds == CompoundTrue(e, tr, ti, env) && r.tcMatch == Matched(e, tr, ti, 0, env)
            && SameView(e, r.e, Flat(ti, |tr.conds|), PREV_SLOTS)
            && SlotsSampled(e, r.e, tr, ti, env) && SlotsBelow(e, r.e, Flat(ti, 0))
  {
    hide CondHolds, EvalConds, Sane, Sampled, SameBaseline;
    EvalCondsMeans(e, e, tr, ti, 0, tr.isAnd, false, env);
    EvalCondsSample(e, tr, ti, 0, tr.isAnd, false, env);
  }

  lemma SettledNow(e: Engine, sd: StateDef, ti: nat, c: Compound, env: TickEnv)
    requires Sane(e) && Fits(sd) && ti < |sd.transitions| && Sane(c.e) && SameButDeltas(e, c.e)
    requires sd.transitions[ti] in sd.transitions && c.holds == CompoundTrue(e, sd.transitions[ti], ti, env)
    requires SameView(e, c.e, Flat(ti, |sd.transitions[ti].conds|), PREV_SLOTS)
    requires SlotsSampled(e, c.e, sd.transitions[ti], ti, env) && SlotsBelow(e, c.e, Flat(ti, 0))
    requires !Settle(c, sd.transitions[ti], ti, env).0
    ensures Sane(Settle(c, sd.transitions[ti], ti, env).1)
    ensures Settled(e, Settle(c, sd.transitions[ti], ti, env).1, sd, ti, c.holds, env)
  {
    hide CompoundTrue, Settle, Seen;
    SettleStep(c, sd.transitions[ti], ti, env);
    var next := Settle(c, sd.transitions[ti], ti, env).1;
    assert SlotsBelow(e, next, Flat(ti, 0)) by {
      forall k | 0 <= k < Flat(ti, 0) && k < PREV_SLOTS ensures SameBaseline(e.windows, next.windows, k) {
        assert SameBaseline(e.windows, c.e.windows, k);
      }
    }
    assert SlotsSampled(e, next, sd.transitions[ti], ti, env) by {
      forall k | 0 <= k < |sd.transitions[ti].conds| && IsDelta(sd.transitions[ti].conds[k])
        ensures Sampled(e.windows, next.windows, Flat(ti, k), env)
      {
        assert Sampled(e.windows, c.e.windows, Flat(ti, k), env);
      }
    }
    assert SameView(e, next, Flat(ti + 1, 0), PREV_SLOTS);
    assert !ReadyNow(e, sd.transitions[ti], ti, env);
  }

  lemma FiresNow(e: Engine, sd: StateDef, ti: nat, truths: seq<bool>, c: Compound, env: TickEnv)
    requires Sane(e) && Fits(sd) && ti < |sd.transitions| && |truths| == ti && Sane(c.e) && SameButDeltas(e, c.e)
    requires sd.transitions[ti] in sd.transitions && c.holds == CompoundTrue(e, sd.transitions[ti], ti, env)
    requires c.tcMatch == Matched(e, sd.transitions[ti], ti, 0, env)
    requires Settle(c, sd.transitions[ti], ti, env).0
    ensures Sane(Settle(c, sd.transitions[ti], ti, env).1)
    ensures PassOk(e, sd, ti, truths, env,
                   Evaluated(Settle(c, sd.transitions[ti], ti, env).1, truths + [true], Some(ti)))
  {
    hide CompoundTrue, Matched, Settle;
    SettleStep(c, sd.transitions[ti], ti, env);
    assert (truths + [true])[..ti] == truths;
  }

  /** Transition `ti` was settled without firing: its own window and samples changed, and rightly so. */
  predicate Settled(e: Engine, next: Engine, sd: StateDef, ti: nat, holds: bool, env: TickEnv)
    requires Sane(e) && Sane(next) && Fits(sd) && ti < |sd.transitions| && sd.transitions[ti] in sd.transitions
  {
    && SameView(e, next, Flat(ti + 1, 0), PREV_SLOTS)
    && SlotsSampled(e, next, sd.transitions[ti], ti, env) && SlotsBelow(e, next, Flat(ti, 0))
    && holds == CompoundTrue(e, sd.transitions[ti], ti, env) && !ReadyNow(e, sd.transitions[ti], ti, env)
    && (forall j :: 0 <= j < AMS_MAX_TRANSITIONS && j != ti ==>
          next.windows.holding[j] == e.windows.holding[j] && next.windows.metMs[j] == e.windows.metMs[j])
    && (next.windows.holding[ti] <==> holds)
    && (holds ==> next.windows.metMs[ti] == if e.windows.holding[ti] then e.windows.metMs[ti] else Millis(env.t))
  }

  /** The rest of the pass, seen from before transition `ti` was settled. */
  lemma PassOnward(e: Engine, next: Engine, sd: StateDef, ti: nat, truths: seq<bool>, holds: bool, env: TickEnv,
                   v: Evaluated)
    requires Sane(e) && Sane(next) && Fits(sd) && ti < |sd.transitions| && |truths| == ti
    requires sd.transitions[ti] in sd.transitions && Settled(e, next, sd, ti, holds, env)
    requires Sane(v.e) && PassOk(next, sd, ti + 1, truths + [holds], env, v)
    ensures PassOk(e, sd, ti, truths, env, v)
  {
    hide CompoundTrue, Matched, SameView, SlotsSampled, SlotsBelow, ReadyNow, WindowStep;
    assert v.truths[..ti] == v.truths[..ti + 1][..ti] == truths;
    assert v.truths[ti] == v.truths[..ti + 1][ti] == holds;
    ViewKeeps(e, next, ti);
    forall j | ti < j < |sd.transitions|
      ensures sd.transitions[j] in sd.transitions
      ensures CompoundTrue(e, sd.transitions[j], j, env) == CompoundTrue(next, sd.transitions[j], j, env)
      ensures ReadyNow(e, sd.transitions[j], j, env) == ReadyNow(next, sd.transitions[j], j, env)
      ensures Matched(e, sd.transitions[j], j, 0, env) == Matched(next, sd.transitions[j], j, 0, env)
    {
      assert sd.transitions[j] in sd.transitions;
      SameCompound(e, next, sd.transitions[j], ti, j, env);
      SameReady(e, next, sd.transitions[j], j, env);
    }
    if v.fired.None? {
      forall j | ti <= j < |v.truths|
        ensures WindowStep(e, v, j, Millis(env.t)) && SlotsSampled(e, v.e, sd.transitions[j], j, env)
      {
        if j > ti {
          WindowOnward(e, next, v, j, Millis(env.t));
          SampledLater(e, next, v.e, sd.transitions[j], ti, j, env);
        } else {
          WindowSettled(e, next, v, ti, holds, Millis(env.t));
          SampledEarlier(e, next, v.e, sd.transitions[ti], ti, env);
        }
      }
      BelowOnward(e, next, v.e, ti);
    }
  }

  lemma SameReady(e: Engine, f: Engine, tr: Transition, j: nat, env: TickEnv)
    requires Sane(e) && Sane(f) && j < AMS_MAX_TRANSITIONS && |tr.conds| <= AMS_MAX_TRANSITION_CONDS
    requires CompoundTrue(e, tr, j, env) == CompoundTrue(f, tr, j, env)
    requires f.windows.holding[j] == e.windows.holding[j] && f.windows.metMs[j] == e.windows.metMs[j]
    ensures ReadyNow(e, tr, j, env) == ReadyNow(f, tr, j, env)
  {
    hide CompoundTrue;
  }

  lemma WindowOnward(e: Engine, f: Engine, v: Evaluated, j: nat, now: nat)
    requires Sane(e) && Sane(f) && Sane(v.e) && j < AMS_MAX_TRANSITIONS && j < |v.truths|
    requires f.windows.holding[j] == e.windows.holding[j] && f.windows.metMs[j] == e.windows.metMs[j]
    requires WindowStep(f, v, j, now)
    ensures WindowStep(e, v, j, now)
  {
  }

  lemma WindowSettled(e: Engine, f: Engine, v: Evaluated, j: nat, holds: bool, now: nat)
    requires Sane(e) && Sane(f) && Sane(v.e) && j < AMS_MAX_TRANSITIONS && j < |v.truths| && v.truths[j] == holds
    requires v.e.windows.holding[j] == f.windows.holding[j] && v.e.windows.metMs[j] == f.windows.metMs[j]
    requires f.windows.holding[j] <==> holds
    requires holds ==> f.windows.metMs[j] == if e.windows.holding[j] then e.windows.metMs[j] else now
    ensures WindowStep(e, v, j, now)
  {
  }

  lemma ViewKeeps(e: Engine, f: Engine, ti: nat)
    requires Sane(e) && Sane(f) && ti < AMS_MAX_TRANSITIONS && SameView(e, f, Flat(ti + 1, 0), PREV_SLOTS)
    ensures e.pendingTc == f.pendingTc && e.confirm == f.confirm
  {
  }

  lemma SampledLater(e: Engine, next: Engine, end: Engine, tr: Transition, ti: nat, j: nat, env: TickEnv)
    requires Sane(e) && Sane(next) && Sane(end) && ti < j < AMS_MAX_TRANSITIONS
    requires |tr.conds| <= AMS_MAX_TRANSITION_CONDS
    requires SameView(e, next, Flat(ti + 1, 0), PREV_SLOTS) && SlotsSampled(next, end, tr, j, env)
    ensures SlotsSampled(e, end, tr, j, env)
  {
    hide Sampled;
    forall k | 0 <= k < |tr.conds| && IsDelta(tr.conds[k])
      ensures Sampled(e.windows, end.windows, Flat(j, k), env)
    {
      assert SameBaseline(e.windows, next.windows, Flat(j, k));
      SampledOnward(e.windows, next.windows, end.windows, Flat(j, k), env);
    }
  }

  lemma SampledEarlier(e: Engine, next: Engine, end: Engine, tr: Transition, ti: nat, env: TickEnv)
    requires Sane(e) && Sane(next) && Sane(end) && ti < AMS_MAX_TRANSITIONS
    requires |tr.conds| <= AMS_MAX_TRANSITION_CONDS
    requires SlotsSampled(e, next, tr, ti, env) && SlotsBelow(next, end, Flat(ti + 1, 0))
    ensures SlotsSampled(e, end, tr, ti, env)
  {
    hide Sampled, SameBaseline;
    forall k | 0 <= k < |tr.conds| && IsDelta(tr.conds[k])
      ensures Sampled(e.windows, end.windows, Flat(ti, k), env)
    {
      assert SameBaseline(next.windows, end.windows, Flat(ti, k));
      SampledOnward(e.windows, next.windows, end.windows, Flat(ti, k), env);
    }
  }

  lemma BelowOnward(e: Engine, next: Engine, end: Engine, ti: nat)
    requires Sane(e) && Sane(next) && Sane(end)
    requires SlotsBelow(e, next, Flat(ti, 0)) && SlotsBelow(next, end, Flat(ti + 1, 0))
    ensures SlotsBelow(e, end, Flat(ti, 0))
  {
    forall k | 0 <= k < Flat(ti, 0) && k < PREV_SLOTS
      ensures SameBaseline(e.windows, end.windows, k)
    {
      assert SameBaseline(e.windows, next.windows, k) && SameBaseline(next.windows, end.windows, k);
    }
  }

  lemma SameCompound(e: Engine, f: Engine, tr: Transition, ti: nat, j: nat, env: TickEnv)
    requires Sane(e) && Sane(f) && ti < j < AMS_MAX_TRANSITIONS && |tr.conds| <= AMS_MAX_TRANSITION_CONDS
    requires SameView(e, f, Flat(ti + 1, 0), PREV_SLOTS)
    ensures CompoundTrue(e, tr, j, env) == CompoundTrue(f, tr, j, env)
    ensures Matched(e, tr, j, 0, env) == Matched(f, tr, j, 0, env)
  {
    hide CondHolds, Sane;
    forall i | 0 <= i < |tr.conds|
      ensures CondHolds(e, tr.conds[i], Flat(j, i), env) == CondHolds(f, tr.conds[i], Flat(j, i), env)
    {
      SameViewSameResult(e, f, Flat(ti + 1, 0), PREV_SLOTS, tr.conds[i], Flat(j, i), env);
    }
  }

  // ----- What the stay says about windows, baselines and counters -----

  predicate TrueAt(s: StayEvent, ti: nat) {
    s.Ticked? && ti < |s.truths| && s.truths[ti]
  }

  /** From entry `k` on, the stay holds evaluated ticks only, all with compound condition `ti` true. */
  predicate TrueSince(stay: seq<StayEvent>, ti: nat, k: nat) {
    k < |stay| && forall j :: k <= j < |stay| ==> TrueAt(stay[j], ti)
  }

  /** Where the unbroken true stretch at the end of the stay begins; the length of the stay if there is none. */
  function TrueFrom(stay: seq<StayEvent>, ti: nat): (k: nat)
    ensures k <= |stay|
    ensures k < |stay| ==> TrueSince(stay, ti, k)
    ensures 0 < k ==> !TrueAt(stay[k - 1], ti)
    decreases |stay|
  {
    if stay == [] || !TrueAt(stay[|stay| - 1], ti) then |stay|
    else
      var k := TrueFrom(stay[..|stay| - 1], ti);
      assert forall j :: k <= j < |stay| - 1 ==> stay[..|stay| - 1][j] == stay[j];
      k
  }

  lemma TrueFromGrows(stay: seq<StayEvent>, ti: nat, next: StayEvent)
    ensures TrueFrom(stay + [next], ti) == if TrueAt(next, ti) then TrueFrom(stay, ti) else |stay| + 1
  {
    assert (stay + [next])[..|stay|] == stay;
  }

  /** The last sample that condition slot `k` saw during the stay. */
  function LastSeen(stay: seq<StayEvent>, k: nat): Option<real>
    decreases |stay|
  {
    if stay == [] then None
    else
      var s := stay[|stay| - 1];
      if s.Ticked? && k < |s.seen| && s.seen[k].Some? then s.seen[k] else LastSeen(stay[..|stay| - 1], k)
  }

  function CountOf(tcs: seq<TcCommand>, tc: TcCommand): nat
    decreases |tcs|
  {
    if tcs == [] then 0 else CountOf(tcs[..|tcs| - 1], tc) + if tcs[|tcs| - 1] == tc then 1 else 0
  }

  predicate AllConditioned(p: Program) {
    forall sd :: sd in p.states ==> Conditioned(sd)
  }

  /** The window of transition `ti` is open exactly since its condition is true without a break. */
  predicate WindowExact(e: Engine, sd: StateDef, ti: nat)
    requires Sane(e) && ti < AMS_MAX_TRANSITIONS
  {
    var stay := e.history.stay;
    var k := TrueFrom(stay, ti);
    && (e.windows.holding[ti] <==> ti < |sd.transitions| && k < |stay|)
    && (e.windows.holding[ti] ==> e.windows.metMs[ti] == Millis(stay[k].t))
  }

  /** The baselines of the delta conditions are the last samples of the stay. */
  predicate BaselinesExact(e: Engine, sd: StateDef, ti: nat)
    requires Sane(e) && ti < AMS_MAX_TRANSITIONS && ti < |sd.transitions|
    requires |sd.transitions[ti].conds| <= AMS_MAX_TRANSITION_CONDS
  {
    forall k :: 0 <= k < |sd.transitions[ti].conds| && IsDelta(sd.transitions[ti].conds[k]) ==>
      Baseline(e.windows, Flat(ti, k), LastSeen(e.history.stay, Flat(ti, k)))
  }

  /** The confirm counters count the telecommands since the state was entered, up to 255. */
  predicate CountersExact(e: Engine)
    requires Sane(e)
  {
    forall tc: TcCommand :: TcIndex(tc) < CONFIRM_SLOTS ==>
      e.confirm[TcIndex(tc)] == if CountOf(e.history.tcs, tc) < 255 then CountOf(e.history.tcs, tc) else 255
  }

  ghost predicate StayExact(e: Engine)
    requires Sane(e)
  {
    && e.current < |e.program.states| && Fits(e.program.states[e.current])
    && CountersExact(e)
    && (forall ti: nat :: ti < AMS_MAX_TRANSITIONS ==> WindowExact(e, e.program.states[e.current], ti))
    && (forall ti: nat :: ti < |e.program.states[e.current].transitions| ==>
          SlotsFit(e.program.states[e.current], ti) && BaselinesExact(e, e.program.states[e.current], ti))
  }

  predicate SlotsFit(sd: StateDef, ti: nat) {
    && ti < |sd.transitions| && ti < AMS_MAX_TRANSITIONS
    && |sd.transitions[ti].conds| <= AMS_MAX_TRANSITION_CONDS
  }

  ghost predicate HoldInv(e: Engine, last: nat) {
    && Safe(e)
    && (forall i :: 0 <= i < |e.history.stay| ==> e.history.stay[i].t <= last)
    && (forall i, j :: 0 <= i < j < |e.history.stay| ==> e.history.stay[i].t <= e.history.stay[j].t)
    && (e.running ==> AllConditioned(e.program) && StayExact(e))
  }

  /** The engine between the transitions and the rest of the tick. */
  lemma NotedHolds(e: Engine, last: nat, env: TickEnv)
    requires HoldInv(e, last) && last <= env.t && e.running && e.current < |e.program.states|
    requires Fits(e.program.states[e.current])
    requires EvalTransitions(e, e.program.states[e.current], 0, [], env).fired.None?
    ensures Safe(Noted(EvalTransitions(e, e.program.states[e.current], 0, [], env), env))
    ensures HoldInv(Noted(EvalTransitions(e, e.program.states[e.current], 0, [], env), env), env.t)
  {
    hide EvalTransitions, CompoundTrue, WindowExact, BaselinesExact, SlotsSampled, WindowStep;
    var sd := e.program.states[e.current];
    assert sd in e.program.states;
    var v := EvalTransitions(e, sd, 0, [], env);
    EvalTransitionsKeeps(e, sd, 0, [], env);
    PassMeans(e, sd, 0, [], env);
    var f := Noted(v, env);
    assert Safe(f);
    hide Lifecycle, Targets, NoDangling, TrueFrom, LastSeen, Seen, CountOf;
    forall ti: nat | ti < AMS_MAX_TRANSITIONS
      ensures WindowExact(f, sd, ti)
    {
      WindowStays(e, sd, v, ti, env);
    }
    forall ti: nat | ti < |sd.transitions|
      ensures SlotsFit(sd, ti) && BaselinesExact(f, sd, ti)
    {
      assert sd.transitions[ti] in sd.transitions;
      BaselinesStay(e, sd, v, ti, env);
    }
  }

  lemma WindowStays(e: Engine, sd: StateDef, v: Evaluated, ti: nat, env: TickEnv)
    requires Sane(e) && Sane(v.e) && Fits(sd) && ti < AMS_MAX_TRANSITIONS && WindowExact(e, sd, ti)
    requires SameButWindows(e, v.e) && |v.truths| == |sd.transitions|
    requires if ti < |sd.transitions| then WindowStep(e, v, ti, Millis(env.t))
             else v.e.windows.holding[ti] == e.windows.holding[ti]
    ensures Sane(Noted(v, env)) && WindowExact(Noted(v, env), sd, ti)
  {
    hide Seen;
    TrueFromGrows(e.history.stay, ti, Ticked(env.t, v.truths, Seen(env)));
  }

  lemma BaselinesStay(e: Engine, sd: StateDef, v: Evaluated, ti: nat, env: TickEnv)
    requires Sane(e) && Sane(v.e) && SlotsFit(sd, ti) && BaselinesExact(e, sd, ti) && SameButWindows(e, v.e)
    requires SlotsSampled(e, v.e, sd.transitions[ti], ti, env)
    ensures Sane(Noted(v, env)) && BaselinesExact(Noted(v, env), sd, ti)
  {
    hide Seen;
    var stay, tick := e.history.stay, Ticked(env.t, v.truths, Seen(env));
    assert (stay + [tick])[..|stay|] == stay;
  }

  lemma EnterHolds(e: Engine, idx: nat, env: TickEnv, last: nat)
    requires Safe(e.(current := idx)) && e.running && idx < |e.program.states| && AllConditioned(e.program)
    ensures HoldInv(Enter(e, idx, env), last)
  {
    EnterSafe(e, idx, env);
    EnterPlaces(e, idx, env);
    EnterClears(e, idx, env);
    hide Enter, Lifecycle, Targets, NoDangling;
    var r := Enter(e, idx, env);
    if r.running {
      StartsExact(r);
    }
  }

  /** A stay that has just begun. */
  predicate Begun(e: Engine) {
    && e.history.stay == [] && e.history.tcs == [] && e.windows == NoWindows()
    && e.confirm == Fill(CONFIRM_SLOTS, 0)
  }

  lemma StartsExact(e: Engine)
    requires Sane(e) && Begun(e) && e.current < |e.program.states|
    ensures StayExact(e)
  {
    assert e.program.states[e.current] in e.program.states;
  }

  lemma EnterClears(e: Engine, idx: nat, env: TickEnv)
    requires Sane(e) && idx < |e.program.states|
    ensures Begun(Enter(e, idx, env))
  {
    hide Fill, NoWindows;
  }

  lemma TickHolds(e: Engine, last: nat, env: TickEnv)
    requires HoldInv(e, last) && last <= env.t
    ensures HoldInv(Tick(e, env), env.t)
  {
    hide EvalTransitions, Idling, Enter, StayExact, AllConditioned;
    TickSafe(e, env);
    if e.running && e.status == Running && e.enabled {
      var sd := e.program.states[e.current];
      assert sd in e.program.states;
      var v := EvalTransitions(e, sd, 0, [], env);
      EvalTransitionsKeeps(e, sd, 0, [], env);
      var f := Noted(v, env);
      assert Safe(f);
      if v.fired.Some? {
        assert sd.transitions[v.fired.value] in sd.transitions;
        EnterHolds(f, sd.transitions[v.fired.value].targetIndex, env, env.t);
      } else {
        NotedHolds(e, last, env);
        IdlingHolds(f, sd, env);
      }
    }
  }

  lemma IdlingHolds(e: Engine, sd: StateDef, env: TickEnv)
    requires HoldInv(e, env.t) && e.running && sd in e.program.states
    ensures HoldInv(Idling(e, sd, env), env.t)
  {
    assert Sane(e) && e.timers.enterMs < TWO32;
    hide Enter, Acting, AnyViolation, StayExact, AllConditioned, Sane, NoWindows, Fill;
    IdlingSafe(e, sd, env);
    forall idx: nat | idx < |e.program.states|
      ensures Safe(e.(current := idx))
    {
      ElsewhereSafe(e, idx);
    }
    if JumpDue(e, sd.onTimeout, sd.onTimeoutMs, env) {
      EnterHolds(e, sd.onTimeout.value.index, env, env.t);
    } else if JumpDue(e, sd.fallback, sd.fallbackAfterMs, env) {
      EnterHolds(e, sd.fallback.value.index, env, env.t);
    } else if e.pendingTc == Abort {
    } else if AnyViolation(e, sd, env) {
      if sd.onError.Some? && sd.onError.value.resolved {
        EnterHolds(e, sd.onError.value.index, env, env.t);
      }
    } else {
      ActingKeeps(e, sd, env);
      ActingStays(e, sd, env);
      SameStayExact(e, Acting(e, sd, env));
    }
  }

  lemma ActingStays(e: Engine, sd: StateDef, env: TickEnv)
    requires Safe(e) && e.running && sd in e.program.states
    ensures SameStay(e, Acting(e, sd, env))
  {
    hide ExecuteDueActions, RunTasks, TaskActive, Terminal;
    ActionsKeep(e, sd, Millis(env.t));
  }

  /** Nothing that the conditions look at has changed. */
  predicate SameStay(e: Engine, f: Engine) {
    && f.program == e.program && f.current == e.current && f.windows == e.windows && f.confirm == e.confirm
    && f.history.stay == e.history.stay && f.history.tcs == e.history.tcs
  }

  lemma SameStayExact(e: Engine, f: Engine)
    requires Sane(e) && Sane(f) && SameStay(e, f) && StayExact(e)
    ensures StayExact(f)
  {
    hide TrueFrom, LastSeen, CountOf;
    forall ti: nat | ti < AMS_MAX_TRANSITIONS ensures WindowExact(f, f.program.states[f.current], ti) {
      assert WindowExact(e, e.program.states[e.current], ti);
    }
    forall ti: nat | ti < |f.program.states[f.current].transitions|
      ensures SlotsFit(f.program.states[f.current], ti) && BaselinesExact(f, f.program.states[f.current], ti)
    {
      assert BaselinesExact(e, e.program.states[e.current], ti);
    }
  }

  // ----- Runs -----

  /** The time of an operation, if it has one. */
  function TimeOf(op: Op, last: nat): nat {
    match op
    case OpTick(env) => env.t
    case OpActivate(file, load, env) => env.t
    case OpArm(env) => env.t
    case OpSetExecution(on, env) => env.t
    case _ => last
  }

  /** The true time after a run. */
  function Clock(ops: seq<Op>, last: nat): nat {
    if ops == [] then last else TimeOf(ops[|ops| - 1], Clock(ops[..|ops| - 1], last))
  }

  predicate InOrder(ops: seq<Op>, last: nat) {
    ops != [] ==> && InOrder(ops[..|ops| - 1], last)
                  && Clock(ops[..|ops| - 1], last) <= TimeOf(ops[|ops| - 1], Clock(ops[..|ops| - 1], last))
  }

  lemma ApplyHolds(e: Engine, last: nat, op: Op)
    requires HoldInv(e, last) && Allowed(op) && last <= TimeOf(op, last)
    ensures HoldInv(Apply(e, op), TimeOf(op, last))
  {
    ApplySafe(e, op);
    hide Safe, StayExact, Tick, Activate, Inject, Arm, SetExecution, SetInterval;
    match op
    case OpTick(env) => TickHolds(e, last, env);
    case OpActivate(file, load, env) => ActivateHolds(e, last, file, load, env);
    case OpDeactivate =>
    case OpInject(tc) => InjectHolds(e, last, tc);
    case OpArm(env) => ArmHolds(e, last, env);
    case OpSetExecution(on, env) => PauseHolds(e, last, on, env);
    case OpSetInterval(ms) => IntervalHolds(e, last, ms);
  }

  lemma InjectHolds(e: Engine, last: nat, tc: TcCommand)
    requires HoldInv(e, last)
    ensures HoldInv(Inject(e, tc), last)
  {
    InjectSafe(e, tc);
    hide Lifecycle, Targets, NoDangling;
    if e.running {
      var f := Inject(e, tc);
      assert f.history.tcs[..|f.history.tcs| - 1] == e.history.tcs;
      CountersCount(e, tc);
      hide Inject, Sane, CountersExact;
      forall ti: nat | ti < AMS_MAX_TRANSITIONS ensures WindowExact(f, f.program.states[f.current], ti) {
        assert WindowExact(e, e.program.states[e.current], ti);
      }
      forall ti: nat | ti < |f.program.states[f.current].transitions|
        ensures SlotsFit(f.program.states[f.current], ti) && BaselinesExact(f, f.program.states[f.current], ti)
      {
        assert BaselinesExact(e, e.program.states[e.current], ti);
      }
    }
  }

  lemma CountersCount(e: Engine, tc: TcCommand)
    requires Sane(e) && CountersExact(e)
    ensures Sane(Inject(e, tc)) && CountersExact(Inject(e, tc))
    ensures var f := Inject(e, tc);
            && f.program == e.program && f.current == e.current && f.windows == e.windows
            && f.history.stay == e.history.stay && f.running == e.running
  {
    var f := Inject(e, tc);
    assert f.history.tcs[..|f.history.tcs| - 1] == e.history.tcs;
    forall c: TcCommand, d: TcCommand ensures TcIndex(c) == TcIndex(d) ==> c == d {
    }
  }

  lemma ArmHolds(e: Engine, last: nat, env: TickEnv)
    requires HoldInv(e, last) && last <= env.t
    ensures HoldInv(Arm(e, env), env.t)
  {
    ArmSafe(e, env);
    hide Lifecycle, Targets, NoDangling, StayExact;
    if e.running {
      SameStayExact(e, Arm(e, env));
    }
  }

  lemma PauseHolds(e: Engine, last: nat, on: bool, env: TickEnv)
    requires HoldInv(e, last) && last <= env.t
    ensures HoldInv(SetExecution(e, on, env), env.t)
  {
    SetExecutionSafe(e, on, env);
    PauseSets(e, on, env);
    hide Lifecycle, Targets, NoDangling, SetExecution, Fill, StayExact, Sane;
    var r := SetExecution(e, on, env);
    if e.running && !on && e.status == Running {
      PausedExact(e, r, env);
    } else if e.running {
      SameStayExact(e, r);
    }
  }

  lemma PausedExact(e: Engine, r: Engine, env: TickEnv)
    requires Sane(e) && Sane(r) && StayExact(e)
    requires r.program == e.program && r.current == e.current && r.confirm == e.confirm
    requires r.history == e.history.(stay := e.history.stay + [Paused(env.t)])
    requires r.windows.prevVal == e.windows.prevVal && r.windows.prevValid == e.windows.prevValid
    requires forall ti :: 0 <= ti < AMS_MAX_TRANSITIONS ==> !r.windows.holding[ti]
    ensures StayExact(r)
  {
    var sd := e.program.states[e.current];
    assert r.history.stay[..|r.history.stay| - 1] == e.history.stay;
    forall ti: nat | ti < AMS_MAX_TRANSITIONS ensures WindowExact(r, sd, ti) {
      TrueFromGrows(e.history.stay, ti, Paused(env.t));
    }
    forall ti: nat | ti < |sd.transitions| ensures SlotsFit(sd, ti) && BaselinesExact(r, sd, ti) {
      assert BaselinesExact(e, sd, ti);
    }
  }

  /** A pause closes every hold window and keeps the baselines; otherwise windows and stay are untouched. */
  lemma PauseSets(e: Engine, on: bool, env: TickEnv)
    requires Sane(e)
    ensures var r := SetExecution(e, on, env);
            && r.program == e.program && r.current == e.current && r.running == e.running && r.confirm == e.confirm
            && if !on && e.status == Running then
                 && r.history == e.history.(stay := e.history.stay + [Paused(env.t)])
                 && |r.windows.metMs| == |r.windows.holding| == AMS_MAX_TRANSITIONS
                 && r.windows.prevVal == e.windows.prevVal && r.windows.prevValid == e.windows.prevValid
                 && forall ti :: 0 <= ti < AMS_MAX_TRANSITIONS ==> !r.windows.holding[ti]
               else r.windows == e.windows && r.history == e.history
  {
    hide Sane;
  }

  lemma ActivateHolds(e: Engine, last: nat, file: string, load: Load, env: TickEnv)
    requires HoldInv(e, last) && Allowed(OpActivate(file, load, env)) && last <= env.t
    ensures HoldInv(Activate(e, file, load, env), env.t)
  {
    ActivateSafe(e, file, load, env);
    match load
    case Broken(partial) =>
      hide Enter, StayExact;
    case Compiled(p) =>
      var zero := Fill(AMS_MAX_HK_SLOTS, 0);
      var ready := e.(program := p, file := ActiveName(file), reason := NoReason, status := Loaded, running := true,
                      enabled := false, pendingTc := NoTc, pendingEvent := false,
                      timers := e.timers.(hkMs := zero, logMs := zero),
                      history := e.history.(trail := []));
      ReadySafe(e, ready, p);
      WellFormedConditioned(p);
      hide Enter, WellFormed, AllConditioned, Safe, StayExact;
      EnterHolds(ready, StartState(p), env, env.t);
  }

  /** The tables of a loaded script are safe to start from. */
  lemma ReadySafe(e: Engine, ready: Engine, p: Program)
    requires Safe(e) && WellFormed(p) && ready.file != ""
    requires ready == e.(program := p, file := ready.file, reason := NoReason, status := Loaded, running := true,
                         enabled := false, pendingTc := NoTc, pendingEvent := false,
                         timers := e.timers.(hkMs := ready.timers.hkMs, logMs := ready.timers.logMs),
                         history := e.history.(trail := []))
    requires ready.timers.hkMs == ready.timers.logMs == Fill(AMS_MAX_HK_SLOTS, 0)
    ensures StartState(p) < |p.states| && Safe(ready.(current := StartState(p)))
  {
    WellFormedTargets(p);
    hide Leads, StateOk, FindState;
  }

  lemma WellFormedConditioned(p: Program)
    requires WellFormed(p)
    ensures AllConditioned(p)
  {
    forall sd, tr | sd in p.states && tr in sd.transitions
      ensures |tr.conds| > 0
    {
      assert StateOk(p, sd) && TransitionOk(p, tr);
    }
  }

  lemma IntervalHolds(e: Engine, last: nat, ms: nat)
    requires HoldInv(e, last)
    ensures HoldInv(SetInterval(e, ms), last)
  {
    SetIntervalSafe(e, ms);
    hide Lifecycle, Targets, NoDangling, LastReports, Fill;
    if e.running {
      var sd := e.program.states[e.current];
      assert sd in e.program.states && Conditioned(sd);
      var f := SetInterval(e, ms);
      forall s | s in f.program.states
        ensures Conditioned(s)
      {
        assert s in e.program.states || s.transitions == sd.transitions;
      }
      var after := f.program.states[f.current];
      assert after in f.program.states && after.transitions == sd.transitions;
      hide SetInterval, TrueFrom, LastSeen, CountOf;
      forall ti: nat | ti < AMS_MAX_TRANSITIONS ensures WindowExact(f, after, ti) {
        assert WindowExact(e, sd, ti);
      }
      forall ti: nat | ti < |after.transitions| ensures SlotsFit(after, ti) && BaselinesExact(f, after, ti) {
        assert BaselinesExact(e, sd, ti);
      }
    }
  }

  lemma {:induction false} RunHolds(e: Engine, last: nat, ops: seq<Op>)
    requires HoldInv(e, last) && InOrder(ops, last) && forall op :: op in ops ==> Allowed(op)
    ensures HoldInv(Run(e, ops), Clock(ops, last))
    decreases |ops|
  {
    hide Apply, HoldInv, Safe;
    if ops != [] {
      SafeOfHold(e, last);
      RunHolds(e, last, ops[..|ops| - 1]);
      ApplyHolds(Run(e, ops[..|ops| - 1]), Clock(ops[..|ops| - 1], last), ops[|ops| - 1]);
    }
  }

  lemma SafeOfHold(e: Engine, last: nat)
    requires HoldInv(e, last)
    ensures Safe(e)
  {
  }

  // ----- What fires -----

  /** A tick evaluates the transitions. */
  predicate Active(e: Engine) {
    e.running && e.status == Running && e.enabled
  }

  predicate HasTransition(e: Engine, f: nat) {
    && e.current < |e.program.states| && Fits(e.program.states[e.current])
    && SlotsFit(e.program.states[e.current], f)
  }

  /**
   Transition `f` of the current state is ready: its compound condition is true, and if it has a window, the
   stretch of evaluated ticks without a pause on which it was true goes back that far on the 32-bit clock.
   */
  predicate Ready(e: Engine, f: nat, env: TickEnv)
    requires Sane(e) && HasTransition(e, f)
  {
    var tr, stay := e.program.states[e.current].transitions[f], e.history.stay;
    && CompoundTrue(e, tr, f, env)
    && (Held(tr) ==> TrueFrom(stay, f) < |stay| && Millis(env.t - stay[TrueFrom(stay, f)].t) >= tr.holdMs)
  }

  /** The next tick fires transition `f` of the current state. */
  predicate Fires(e: Engine, env: TickEnv, f: nat)
    requires Sane(e)
  {
    && Active(e) && HasTransition(e, f)
    && EvalTransitions(e, e.program.states[e.current], 0, [], env).fired == Some(f)
  }

  /**
   Exactly what fires, after any run and whatever was paused, armed, injected or re-activated in it: the first
   transition of the state that is ready, and none if none is.
   */
  lemma FiresIffFirstReady(boot: Engine, ops: seq<Op>, last: nat, env: TickEnv, f: nat)
    requires HoldInv(boot, last) && InOrder(ops, last) && forall op :: op in ops ==> Allowed(op)
    requires Clock(ops, last) <= env.t && Safe(boot)
    requires Active(Run(boot, ops)) && HasTransition(Run(boot, ops), f)
    ensures var e := Run(boot, ops);
            Fires(e, env, f)
            <==> Ready(e, f, env) && forall j :: 0 <= j < f ==> HasTransition(e, j) && !Ready(e, j, env)
  {
    hide Fires, Ready, Sane, Run, HasTransition;
    RunHolds(boot, last, ops);
    FirstReadyFires(Run(boot, ops), Clock(ops, last), env, f);
  }

  lemma FirstReadyFires(e: Engine, last: nat, env: TickEnv, f: nat)
    requires HoldInv(e, last) && last <= env.t && Active(e) && HasTransition(e, f)
    ensures Fires(e, env, f)
       <==> Ready(e, f, env) && forall j :: 0 <= j < f ==> HasTransition(e, j) && !Ready(e, j, env)
  {
    hide EvalTransitions, CompoundTrue, ReadyNow;
    var sd := e.program.states[e.current];
    assert sd in e.program.states;
    var v := EvalTransitions(e, sd, 0, [], env);
    EvalTransitionsKeeps(e, sd, 0, [], env);
    PassMeans(e, sd, 0, [], env);
    forall j: nat | j < |sd.transitions|
      ensures HasTransition(e, j) && (ReadyNow(e, sd.transitions[j], j, env) <==> Ready(e, j, env))
    {
      assert sd.transitions[j] in sd.transitions;
      ReadyByHistory(e, last, env, j);
    }
    hide Ready, HoldInv;
  }

  /** The open window is as old as the true stretch. */
  lemma ReadyByHistory(e: Engine, last: nat, env: TickEnv, f: nat)
    requires HoldInv(e, last) && last <= env.t && Active(e) && HasTransition(e, f)
    ensures ReadyNow(e, e.program.states[e.current].transitions[f], f, env) <==> Ready(e, f, env)
  {
    hide CompoundTrue;
    var sd, stay := e.program.states[e.current], e.history.stay;
    assert WindowExact(e, sd, f);
    var k := TrueFrom(stay, f);
    if k < |stay| {
      ClockUnderstates(env.t, stay[k].t);
    }
  }

  /** A transition without a window, or on a telecommand alone, is ready whenever its condition is true. */
  lemma ReadyAtOnce(e: Engine, f: nat, env: TickEnv)
    requires Sane(e) && HasTransition(e, f)
    requires var tr := e.program.states[e.current].transitions[f];
             tr.holdMs == 0 || (|tr.conds| == 1 && tr.conds[0].TcEq?)
    ensures Ready(e, f, env) <==> CompoundTrue(e, e.program.states[e.current].transitions[f], f, env)
  {
    hide CompoundTrue;
  }

  /** Its condition is true now, and was on every evaluated tick since one that lies the window back. */
  ghost predicate TrueForTheWindow(e: Engine, env: TickEnv, f: nat)
    requires Sane(e) && HasTransition(e, f)
  {
    var tr, stay := e.program.states[e.current].transitions[f], e.history.stay;
    && CompoundTrue(e, tr, f, env)
    && exists k: nat :: TrueSince(stay, f, k) && env.t - stay[k].t >= tr.holdMs
  }

  /** The true stretch is younger than the range of the clock. */
  predicate Young(e: Engine, env: TickEnv, f: nat) {
    var k := TrueFrom(e.history.stay, f);
    k < |e.history.stay| ==> env.t - e.history.stay[k].t < TWO32
  }

  /**
   A held transition that fires was true for its window in true time; and one that was true for its window is ready,
   unless the stretch is older than the clock can tell.
   */
  lemma ReadyIffHeld(e: Engine, last: nat, env: TickEnv, f: nat)
    requires HoldInv(e, last) && last <= env.t && HasTransition(e, f)
    requires Held(e.program.states[e.current].transitions[f])
    ensures Ready(e, f, env) ==> TrueForTheWindow(e, env, f)
    ensures TrueForTheWindow(e, env, f) && Young(e, env, f) ==> Ready(e, f, env)
  {
    hide CompoundTrue, StayExact, Lifecycle, Targets, NoDangling, Sane;
    var tr, stay := e.program.states[e.current].transitions[f], e.history.stay;
    var from := TrueFrom(stay, f);
    if from < |stay| {
      assert TrueSince(stay, f, from) && stay[from].t <= last;
      ClockUnderstates(env.t, stay[from].t);
    }
    if TrueForTheWindow(e, env, f) {
      var k: nat :| TrueSince(stay, f, k) && env.t - stay[k].t >= tr.holdMs;
      FromIsFirst(stay, f, k);
      assert from == k || stay[from].t <= stay[k].t;
    }
  }

  lemma FromIsFirst(stay: seq<StayEvent>, ti: nat, k: nat)
    requires TrueSince(stay, ti, k)
    ensures TrueFrom(stay, ti) <= k
  {
    var from := TrueFrom(stay, ti);
    assert from == 0 || !TrueAt(stay[from - 1], ti);
  }

  /**
   After any run: when the next tick fires a transition with a hold window, its compound condition is true now, and
   there is an evaluated tick of the current stay, at least the window ago in true time, since which it was true on
   every evaluated tick without a pause.
   */
  lemma HeldTransitionWasTrue(boot: Engine, ops: seq<Op>, last: nat, env: TickEnv, f: nat)
    requires HoldInv(boot, last) && InOrder(ops, last) && forall op :: op in ops ==> Allowed(op)
    requires Clock(ops, last) <= env.t && Safe(boot) && Fires(Run(boot, ops), env, f)
    requires Held(Run(boot, ops).program.states[Run(boot, ops).current].transitions[f])
    ensures TrueForTheWindow(Run(boot, ops), env, f)
  {
    hide TrueForTheWindow, Sane, Ready, Run, Held, Young;
    RunHolds(boot, last, ops);
    FiresIffFirstReady(boot, ops, last, env, f);
    ReadyIffHeld(Run(boot, ops), Clock(ops, last), env, f);
  }

  /** The converse: a transition that was true for its window fires, unless an earlier one does. */
  lemma HeldLongEnoughFires(boot: Engine, ops: seq<Op>, last: nat, env: TickEnv, f: nat)
    requires HoldInv(boot, last) && InOrder(ops, last) && forall op :: op in ops ==> Allowed(op)
    requires Clock(ops, last) <= env.t && Safe(boot)
    requires Active(Run(boot, ops)) && HasTransition(Run(boot, ops), f)
    requires Held(Run(boot, ops).program.states[Run(boot, ops).current].transitions[f])
    requires TrueForTheWindow(Run(boot, ops), env, f) && Young(Run(boot, ops), env, f)
    requires forall j :: 0 <= j < f ==> HasTransition(Run(boot, ops), j) && !Ready(Run(boot, ops), j, env)
    ensures Fires(Run(boot, ops), env, f)
  {
    hide TrueForTheWindow, Sane, Ready, Run, Held, Young, Active, HasTransition;
    RunHolds(boot, last, ops);
    FiresIffFirstReady(boot, ops, last, env, f);
    ReadyIffHeld(Run(boot, ops), Clock(ops, last), env, f);
  }

  // ----- From power-on -----

  /** A start-up opens no window. */
  lemma HoldsAtPowerOn(stored: Stored, env: TickEnv)
    requires Restorable(stored) && Lawful(stored)
    ensures HoldInv(Begin(stored, env), env.t)
  {
    BeginSafeIff(stored, env);
    hide Sane, Lifecycle, Targets, NoDangling, Resume, NoWindows, Fill, StayExact;
    if stored.Found? && stored.load.Compiled? && stored.record.state < |stored.load.p.states| {
      WellFormedConditioned(stored.load.p);
      ResumeSets(Boot(true).(program := stored.load.p, file := ActiveName(stored.file)), stored.record, env);
      StartsExact(Begin(stored, env));
    }
  }

  /** The same for every run of the firmware, whatever storage held when it started. */
  lemma HeldSincePowerOn(stored: Stored, start: TickEnv, ops: seq<Op>, env: TickEnv, f: nat)
    requires Restorable(stored) && Lawful(stored)
    requires InOrder(ops, start.t) && Clock(ops, start.t) <= env.t && forall op :: op in ops ==> Allowed(op)
    requires Safe(Begin(stored, start))
    requires Active(Run(Begin(stored, start), ops)) && HasTransition(Run(Begin(stored, start), ops), f)
    ensures var e := Run(Begin(stored, start), ops);
            Fires(e, env, f)
            <==> Ready(e, f, env) && forall j :: 0 <= j < f ==> HasTransition(e, j) && !Ready(e, j, env)
  {
    hide Fires, Ready, Sane, Begin, HoldInv, InOrder, Clock, Run, Active, HasTransition;
    HoldsAtPowerOn(stored, start);
    FiresIffFirstReady(Begin(stored, start), ops, start.t, env, f);
  }
}
