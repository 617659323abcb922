/**
 The bound on runs is exact for the graph: every route that the analysis sees is taken by some run of a script with
 that graph. The script asks one sensor per transition; the readings choose the way.
 */
module Steering {
  import opened Wrappers
  import opened Clock32
  import opened MissionProgram
  import opened GraphAnalysis
  import opened MissionEngine
  import opened EngineSafety

  const PATIENCE := 1000

  /** The same names and targets; each transition waits for its own sensor, each recovery for a guard. */
  function SteerState(sd: StateDef): StateDef {
    StateDef(sd.name,
             seq(|sd.transitions|, i requires 0 <= i < |sd.transitions| => SteerTransition(sd.transitions[i])),
             if sd.onError.Some? then [SensorGuard] else [],
             sd.fallback, PATIENCE, sd.onError, None, 0, [], [], false, 0, 4, 2, 1, 2)
  }

  function SteerTransition(tr: Transition): Transition {
    Transition([SensorLt], true, tr.target, tr.targetIndex, tr.resolved, 0)
  }

  function Steer(p: Program): Program {
    Program(seq(|p.states|, i requires 0 <= i < |p.states| => SteerState(p.states[i])), [], [], [])
  }

  lemma SteerEdges(p: Program, s: nat, t: nat)
    ensures Edge(Steer(p), s, t) <==> Edge(p, s, t)
  {
    if s < |p.states| {
      var sd := p.states[s];
      assert forall c: nat :: Successor(SteerState(sd), c) == Successor(sd, c);
    }
  }

  lemma {:induction false} SteerNames(states: seq<StateDef>, steered: seq<StateDef>, name: string)
    requires |steered| == |states| && forall i :: 0 <= i < |states| ==> steered[i].name == states[i].name
    ensures FindState(steered, name) == FindState(states, name)
  {
    if states != [] {
      SteerNames(states[1..], steered[1..], name);
    }
  }

  lemma SteerWellFormed(p: Program)
    requires WellFormed(p)
    ensures WellFormed(Steer(p)) && StartState(Steer(p)) == StartState(p)
  {
    hide FindState;
    var q := Steer(p);
    forall name: string ensures FindState(q.states, name) == FindState(p.states, name) {
      SteerNames(p.states, q.states, name);
    }
    hide StateOk;
    forall sd | sd in q.states ensures StateOk(q, sd) {
      var i :| 0 <= i < |q.states| && q.states[i] == sd;
      SteerStateOk(p, q, p.states[i]);
    }
  }

  lemma SteerStateOk(p: Program, q: Program, sd: StateDef)
    requires StateOk(p, sd) && |q.states| == |p.states|
    requires forall name: string :: FindState(q.states, name) == FindState(p.states, name)
    ensures StateOk(q, SteerState(sd))
  {
    hide FindState;
    var r := SteerState(sd);
    forall tr | tr in r.transitions ensures TransitionOk(q, tr) {
      var i :| 0 <= i < |r.transitions| && r.transitions[i] == tr;
      assert TransitionOk(p, sd.transitions[i]);
    }
  }

  // ----- The readings that choose a transition -----

  /** Only the sensor of table slot `flat` reads below its threshold. */
  function Pick(t: nat, flat: nat): TickEnv {
    EnvAt(t).(reading := i => if i == flat then Some(0.0) else None, threshold := _ => Some(1.0))
  }

  function Disturb(t: nat): TickEnv {
    EnvAt(t).(guardHolds := _ => false)
  }

  predicate Steered(sd: StateDef) {
    && Fits(sd)
    && forall i :: 0 <= i < |sd.transitions| ==> sd.transitions[i].conds == [SensorLt]
                                                 && sd.transitions[i].isAnd && sd.transitions[i].holdMs == 0
  }

  predicate Chosen(env: TickEnv, ti: nat) {
    Read(env, Flat(ti, 0)) && env.reading(Flat(ti, 0)).value < env.threshold(Flat(ti, 0)).value
  }

  lemma OneCondition(e: Engine, tr: Transition, ti: nat, env: TickEnv)
    requires Sane(e) && ti < AMS_MAX_TRANSITIONS && tr.conds == [SensorLt] && tr.isAnd
    ensures EvalConds(e, tr, ti, 0, true, false, env) == Compound(e, Chosen(env, ti), false)
  {
    var next := e.(windows := Remember(e.windows, SensorLt, Flat(ti, 0), env));
    assert next == e;
    assert EvalConds(e, tr, ti, 1, Chosen(env, ti), false, env) == Compound(e, Chosen(env, ti), false);
  }

  /** Without a hold window a true condition fires at once. */
  lemma SettleAtOnce(e: Engine, holds: bool, tr: Transition, ti: nat, env: TickEnv)
    requires Sane(e) && ti < AMS_MAX_TRANSITIONS && tr.holdMs == 0
    ensures Settle(Compound(e, holds, false), tr, ti, env).0 == holds
  {
  }

  /** The transitions from `ti` on fire `c`, if that is the only one chosen, or none. */
  lemma {:induction false} FiresChosen(e: Engine, sd: StateDef, ti: nat, truths: seq<bool>, env: TickEnv,
                                       c: Option<nat>)
    requires Sane(e) && Steered(sd) && ti <= |sd.transitions|
    requires c.Some? ==> ti <= c.value < |sd.transitions|
    requires forall i: nat :: ti <= i < |sd.transitions| ==> (Chosen(env, i) <==> c == Some(i))
    ensures EvalTransitions(e, sd, ti, truths, env).fired == c
    decreases |sd.transitions| - ti
  {
    hide Sane, EvalConds, Settle, Chosen;
    if ti < |sd.transitions| {
      var tr := sd.transitions[ti];
      EvalCondsSane(e, tr, ti, 0, tr.isAnd, false, env);
      OneCondition(e, tr, ti, env);
      var k := Compound(e, Chosen(env, ti), false);
      SettleKeeps(k, tr, ti, env);
      SettleAtOnce(e, Chosen(env, ti), tr, ti, env);
      if !Chosen(env, ti) {
        FiresChosen(Settle(k, tr, ti, env).1, sd, ti + 1, truths + [false], env, c);
      }
    }
  }

  // ----- One move -----

  /** Under way in state `s` since true time `t`, with no abort pending. */
  predicate Aloft(e: Engine, p: Program, s: nat, t: nat) {
    && Safe(e) && e.program == Steer(p) && e.running && e.status == Running && e.enabled
    && e.current == s < |p.states| && e.timers.enterMs == Millis(t) && e.pendingTc != Abort
  }

  lemma EnterAloft(e: Engine, p: Program, u: nat, env: TickEnv)
    requires Safe(e) && e.program == Steer(p) && e.running && e.status == Running && e.enabled && e.pendingTc != Abort
    requires u < |p.states|
    ensures Aloft(Enter(e, u, env), p, u, env.t)
    ensures Enter(e, u, env).history.trail == e.history.trail + [u]
  {
    hide Safe, Fill, NoWindows;
    assert e.checkpointMs < TWO32 && Safe(e.(current := u)) by { SafeElsewhere(e, u); }
    EnterSafe(e, u, env);
    assert e.program.states[u].pulseCount == 0;
  }

  lemma SafeElsewhere(e: Engine, u: nat)
    requires Safe(e) && u < |e.program.states|
    ensures e.checkpointMs < TWO32 && Safe(e.(current := u))
  {
  }

  /** The engine once its transitions were evaluated and none fired. */
  lemma NotedAloft(e: Engine, p: Program, s: nat, t: nat, env: TickEnv)
    requires Aloft(e, p, s, t)
    ensures s < |e.program.states| && Sane(e) && Fits(e.program.states[s])
    ensures Steered(e.program.states[s]) && e.program.states[s] == SteerState(p.states[s])
    ensures var v := EvalTransitions(e, e.program.states[s], 0, [], env);
            var f := Noted(v, env);
            && Safe(f) && f.program == Steer(p) && f.running && f.status == Running && f.enabled
            && f.timers == e.timers && f.history.trail == e.history.trail && f.current == s
            && (v.fired.None? ==> f.pendingTc == e.pendingTc || f.pendingTc == NoTc)
            && f.pendingTc != Abort
  {
    var sd := e.program.states[s];
    assert sd in e.program.states;
    EvalTransitionsKeeps(e, sd, 0, [], env);
    assert Steered(sd);
    hide EvalTransitions, EvalConds, Settle;
    KeepsTc(e, sd, 0, [], env);
  }

  lemma SettleKeepsTc(e: Engine, holds: bool, tr: Transition, ti: nat, env: TickEnv)
    requires Sane(e) && ti < AMS_MAX_TRANSITIONS
    ensures Settle(Compound(e, holds, false), tr, ti, env).1.pendingTc == e.pendingTc
  {
  }

  lemma {:induction false} KeepsTc(e: Engine, sd: StateDef, ti: nat, truths: seq<bool>, env: TickEnv)
    requires Sane(e) && Steered(sd) && ti <= |sd.transitions|
    ensures EvalTransitions(e, sd, ti, truths, env).e.pendingTc == e.pendingTc
    decreases |sd.transitions| - ti
  {
    hide Sane, EvalConds, Settle, Chosen;
    if ti < |sd.transitions| {
      var tr := sd.transitions[ti];
      EvalCondsSane(e, tr, ti, 0, tr.isAnd, false, env);
      OneCondition(e, tr, ti, env);
      var k := Compound(e, Chosen(env, ti), false);
      SettleKeeps(k, tr, ti, env);
      SettleAtOnce(e, Chosen(env, ti), tr, ti, env);
      SettleKeepsTc(e, Chosen(env, ti), tr, ti, env);
      if !Chosen(env, ti) {
        KeepsTc(Settle(k, tr, ti, env).1, sd, ti + 1, truths + [false], env);
      }
    }
  }

  lemma TickPicks(e: Engine, p: Program, s: nat, t: nat, c: nat)
    requires Aloft(e, p, s, t) && c < |p.states[s].transitions| && p.states[s].transitions[c].resolved
    requires p.states[s].transitions[c].targetIndex < |p.states|
    ensures var u := p.states[s].transitions[c].targetIndex;
            var r := Tick(e, Pick(t, Flat(c, 0)));
            Aloft(r, p, u, t) && r.history.trail == e.history.trail + [u]
  {
    hide EvalTransitions, Enter, Aloft, Safe, Steered;
    var env := Pick(t, Flat(c, 0));
    NotedAloft(e, p, s, t, env);
    AloftMeans(e, p, s, t);
    var sd := e.program.states[s];
    FiresChosen(e, sd, 0, [], env, Some(c));
    EvalTransitionsKeeps(e, sd, 0, [], env);
    var f := Noted(EvalTransitions(e, sd, 0, [], env), env);
    EnterAloft(f, p, p.states[s].transitions[c].targetIndex, env);
  }

  lemma AloftMeans(e: Engine, p: Program, s: nat, t: nat)
    requires Aloft(e, p, s, t)
    ensures Sane(e) && e.program == Steer(p) && e.running && e.status == Running && e.enabled
    ensures e.current == s < |p.states| && e.timers.enterMs == Millis(t) && e.pendingTc != Abort
  {
  }

  lemma TickFallsBack(e: Engine, p: Program, s: nat, t: nat)
    requires Aloft(e, p, s, t) && p.states[s].fallback.Some? && p.states[s].fallback.value.resolved
    requires p.states[s].fallback.value.index < |p.states|
    ensures var u := p.states[s].fallback.value.index;
            var r := Tick(e, EnvAt(t + PATIENCE));
            Aloft(r, p, u, t + PATIENCE) && r.history.trail == e.history.trail + [u]
  {
    hide EvalTransitions, Enter, Aloft, Safe, Steered, Acting;
    var env := EnvAt(t + PATIENCE);
    NotedAloft(e, p, s, t, env);
    AloftMeans(e, p, s, t);
    var sd := e.program.states[s];
    FiresChosen(e, sd, 0, [], env, None);
    EvalTransitionsKeeps(e, sd, 0, [], env);
    var f := Noted(EvalTransitions(e, sd, 0, [], env), env);
    ClockUnderstates(t + PATIENCE, t);
    EnterAloft(f, p, p.states[s].fallback.value.index, env);
  }

  lemma TickRecovers(e: Engine, p: Program, s: nat, t: nat)
    requires Aloft(e, p, s, t) && p.states[s].onError.Some? && p.states[s].onError.value.resolved
    requires p.states[s].onError.value.index < |p.states|
    ensures var u := p.states[s].onError.value.index;
            var r := Tick(e, Disturb(t));
            Aloft(r, p, u, t) && r.history.trail == e.history.trail + [u]
  {
    hide EvalTransitions, Enter, Aloft, Safe, Steered, Acting;
    var env := Disturb(t);
    NotedAloft(e, p, s, t, env);
    AloftMeans(e, p, s, t);
    var sd := e.program.states[s];
    FiresChosen(e, sd, 0, [], env, None);
    EvalTransitionsKeeps(e, sd, 0, [], env);
    var f := Noted(EvalTransitions(e, sd, 0, [], env), env);
    ClockUnderstates(t, t);
    assert sd.guards == [SensorGuard] && !GuardOk(f, sd.guards[0], 0, env);
    assert AnyViolation(f, sd, env);
    EnterAloft(f, p, p.states[s].onError.value.index, env);
  }

  /** Every edge of the graph is one tick of the steered script. */
  lemma EdgeIsTick(e: Engine, p: Program, s: nat, t: nat, u: nat) returns (env: TickEnv)
    requires Aloft(e, p, s, t) && Edge(p, s, u) && |p.states| <= AMS_MAX_STATES
    ensures Sane(e) && Aloft(Tick(e, env), p, u, env.t) && Tick(e, env).history.trail == e.history.trail + [u]
  {
    hide Tick, Aloft;
    AloftMeans(e, p, s, t);
    var sd := p.states[s];
    var c: nat :| c < SlotCount(sd) && Successor(sd, c) == u;
    if c < |sd.transitions| {
      env := Pick(t, Flat(c, 0));
      TickPicks(e, p, s, t, c);
    } else if c == |sd.transitions| {
      env := EnvAt(t + PATIENCE);
      TickFallsBack(e, p, s, t);
    } else {
      env := Disturb(t);
      TickRecovers(e, p, s, t);
    }
  }

  // ----- Whole routes -----

  lemma {:induction false} RouteIsRun(e: Engine, p: Program, t: nat, w: seq<nat>) returns (ops: seq<Op>, last: nat)
    requires w != [] && Aloft(e, p, w[0], t) && Route(p, w) && |p.states| <= AMS_MAX_STATES
    ensures forall op :: op in ops ==> op.OpTick?
    ensures Safe(e) && Run(e, ops).history.trail == e.history.trail + w[1..]
    ensures Aloft(Run(e, ops), p, w[|w| - 1], last)
    decreases |w|
  {
    hide Tick, Safe, Edge;
    if |w| == 1 {
      ops, last := [], t;
      assert e.history.trail + w[1..] == e.history.trail;
    } else {
      var n := |w| - 1;
      var h := w[..n];
      assert Route(p, h) by {
        forall i | 0 <= i < |h| - 1 ensures Edge(p, h[i], h[i + 1]) {
          assert Edge(p, w[i], w[i + 1]);
        }
      }
      var before, t1 := RouteIsRun(e, p, t, h);
      assert Edge(p, w[n - 1], w[n - 1 + 1]);
      var env := EdgeIsTick(Run(e, before), p, h[n - 1], t1, w[n]);
      ops, last := before + [OpTick(env)], env.t;
      assert ops[..|ops| - 1] == before;
      assert (e.history.trail + h[1..]) + [w[n]] == e.history.trail + w[1..];
    }
  }

  /** A fresh activation of the steered script, armed, is under way in its start state. */
  lemma ArmedAloft(boot: Engine, p: Program)
    requires Safe(boot) && WellFormed(p)
    ensures WellFormed(Steer(p)) && Safe(Activate(boot, "m", Compiled(Steer(p)), EnvAt(0)))
    ensures var armed := Arm(Activate(boot, "m", Compiled(Steer(p)), EnvAt(0)), EnvAt(0));
            Aloft(armed, p, StartState(p), 0) && armed.history.trail == [StartState(p)]
  {
    hide Safe, WellFormed, Activate;
    SteerWellFormed(p);
    SafeIsSane(boot);
    ActivateSafe(boot, "m", Compiled(Steer(p)), EnvAt(0));
    SafeIsSane(Activate(boot, "m", Compiled(Steer(p)), EnvAt(0)));
    ArmedAt(boot, Steer(p));
    ArmSafe(Activate(boot, "m", Compiled(Steer(p)), EnvAt(0)), EnvAt(0));
    StartInRange(p);
    ArmSetsLaunch(boot, Steer(p));
  }

  lemma StartInRange(p: Program)
    requires WellFormed(p)
    ensures StartState(p) < |p.states| <= AMS_MAX_STATES
  {
  }

  lemma ArmSetsLaunch(boot: Engine, p: Program)
    requires Safe(boot) && WellFormed(p) && Safe(Activate(boot, "m", Compiled(p), EnvAt(0)))
    ensures Arm(Activate(boot, "m", Compiled(p), EnvAt(0)), EnvAt(0)).pendingTc == Launch
  {
    StatesNonEmpty(p);
    hide Safe, WellFormed, Fill, NoWindows;
    SafeIsSane(boot);
  }

  lemma SafeIsSane(e: Engine)
    requires Safe(e)
    ensures Sane(e) && e.checkpointMs < TWO32
  {
  }

  /** All routes from the start of `p` have at most `limit` states. */
  ghost predicate RoutesWithin(p: Program, limit: nat) {
    forall w: seq<nat> :: Route(p, w) && w[0] == StartState(p) ==> |w| <= limit
  }

  /** All runs of the steered script enter at most `limit` states. */
  ghost predicate RunsWithin(boot: Engine, p: Program, limit: nat)
    requires Safe(boot) && WellFormed(p) && Safe(Activate(boot, "m", Compiled(Steer(p)), EnvAt(0)))
  {
    forall ops: seq<Op> | (forall op :: op in ops ==> !op.OpActivate?) ::
      |Run(Activate(boot, "m", Compiled(Steer(p)), EnvAt(0)), ops).history.trail| <= limit
  }

  /**
   The longest route from the start is exactly what bounds the runs: no analysis that looks at names and targets
   alone can promise less.
   */
  lemma LongestRouteIsExact(boot: Engine, p: Program, limit: nat)
    requires Safe(boot) && WellFormed(p)
    ensures Safe(Activate(boot, "m", Compiled(Steer(p)), EnvAt(0)))
    ensures RoutesWithin(p, limit) <==> RunsWithin(boot, p, limit)
  {
    hide Safe, WellFormed, Activate, Aloft, Arm, Run, Edge;
    ArmedAloft(boot, p);
    SafeIsSane(boot);
    var e := Activate(boot, "m", Compiled(Steer(p)), EnvAt(0));
    if RoutesWithin(p, limit) {
      forall ops: seq<Op> | (forall op :: op in ops ==> !op.OpActivate?)
        ensures |Run(e, ops).history.trail| <= limit
      {
        RunStaysOnRoute(boot, p, ops);
      }
    }
    if RunsWithin(boot, p, limit) {
      forall w: seq<nat> | Route(p, w) && w[0] == StartState(p)
        ensures |w| <= limit
      {
        var ops := RunAlong(boot, p, w);
      }
    }
  }

  lemma RunStaysOnRoute(boot: Engine, p: Program, ops: seq<Op>)
    requires Safe(boot) && WellFormed(p) && forall op :: op in ops ==> !op.OpActivate?
    requires Safe(Activate(boot, "m", Compiled(Steer(p)), EnvAt(0)))
    ensures var w := Run(Activate(boot, "m", Compiled(Steer(p)), EnvAt(0)), ops).history.trail;
            Route(p, w) && w[0] == StartState(p)
  {
    hide Safe, Activate, Run, OnRoute;
    var q := Steer(p);
    SafeIsSane(boot);
    SteerWellFormed(p);
    ActivateOnRoute(boot, "m", q, EnvAt(0));
    NoTimeoutSteered(p);
    RunsAreRoutes(q, StartState(p), Activate(boot, "m", Compiled(q), EnvAt(0)), ops);
    SteerRoutes(p, Run(Activate(boot, "m", Compiled(q), EnvAt(0)), ops).history.trail);
  }

  lemma NoTimeoutSteered(p: Program)
    ensures NoTimeoutFrom(Steer(p), StartState(p))
  {
  }

  lemma SteerRoutes(p: Program, w: seq<nat>)
    ensures Route(Steer(p), w) <==> Route(p, w)
  {
    forall s: nat, t: nat ensures Edge(Steer(p), s, t) <==> Edge(p, s, t) {
      SteerEdges(p, s, t);
    }
    hide Edge;
    if Route(p, w) {
      forall i | 0 <= i < |w| - 1 ensures Edge(Steer(p), w[i], w[i + 1]) {
        assert Edge(p, w[i], w[i + 1]);
      }
    }
    if Route(Steer(p), w) {
      forall i | 0 <= i < |w| - 1 ensures Edge(p, w[i], w[i + 1]) {
        assert Edge(Steer(p), w[i], w[i + 1]);
      }
    }
  }

  /** Arm, then one tick per edge. */
  lemma RunAlong(boot: Engine, p: Program, w: seq<nat>) returns (ops: seq<Op>)
    requires Safe(boot) && WellFormed(p) && Route(p, w) && w[0] == StartState(p)
    requires Safe(Activate(boot, "m", Compiled(Steer(p)), EnvAt(0)))
    ensures forall op :: op in ops ==> !op.OpActivate?
    ensures Run(Activate(boot, "m", Compiled(Steer(p)), EnvAt(0)), ops).history.trail == w
  {
    hide Safe, Activate, Run, Aloft, Arm, Route;
    ArmedAloft(boot, p);
    StartInRange(p);
    SafeIsSane(boot);
    var e := Activate(boot, "m", Compiled(Steer(p)), EnvAt(0));
    SafeIsSane(e);
    ArmSafe(e, EnvAt(0));
    RouteNotEmpty(p, w);
    var ticks, last := RouteIsRun(Arm(e, EnvAt(0)), p, 0, w);
    ops := [OpArm(EnvAt(0))] + ticks;
    RunFirst(e, OpArm(EnvAt(0)), ticks);
    assert [w[0]] + w[1..] == w;
  }

  lemma {:induction false} RunFirst(e: Engine, op: Op, ops: seq<Op>)
    requires Safe(e) && Allowed(op) && forall o :: o in ops ==> Allowed(o)
    ensures Safe(Apply(e, op)) && Run(e, [op] + ops) == Run(Apply(e, op), ops)
    decreases |ops|
  {
    hide Safe, Apply;
    ApplySafe(e, op);
    if ops == [] {
      assert [op] + ops == [op] && [op][..0] == [];
    } else {
      var n := |ops| - 1;
      RunFirst(e, op, ops[..n]);
      assert ([op] + ops)[..n + 1] == [op] + ops[..n];
    }
  }
}
