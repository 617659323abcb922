/**
 What every run of the engine keeps: table sanity, the lifecycle, no dangling targets, and the link
 to the static analysis.
 */
module EngineSafety {
  import opened Wrappers
  import opened MissionProgram
  import opened Clock32
  import opened GraphAnalysis
  import opened Assertions
  import opened MissionEngine

  // ----- Lifecycle -----

  predicate Lifecycle(e: Engine) {
    && (e.running <==> e.status == Loaded || e.status == Running)
    && (e.status == Running ==> e.enabled)
    && (e.status == Loaded ==> !e.enabled)
    && (e.running ==> e.current < |e.program.states|)
    && (e.checkpoint ==> e.running)
    && (e.running ==> e.file != "")
  }

  /** The runtime errors that a compiled script rules out. */
  predicate NoDangling(e: Engine) {
    e.reason != StateOutOfRange && e.reason != InvalidTarget && e.reason != EnterOutOfRange
  }

  predicate Targets(e: Engine) {
    e.running ==> forall sd :: sd in e.program.states ==> TargetsOk(e.program, sd)
  }

  predicate TargetsOk(p: Program, sd: StateDef) {
    && (forall tr :: tr in sd.transitions ==> tr.resolved && tr.targetIndex < |p.states|)
    && IndexOk(p, sd.fallback) && IndexOk(p, sd.onError) && IndexOk(p, sd.onTimeout)
  }

  predicate IndexOk(p: Program, j: Option<Jump>) {
    j.Some? ==> j.value.index < |p.states|
  }

  predicate Safe(e: Engine) {
    Sane(e) && Lifecycle(e) && Targets(e) && NoDangling(e)
  }

  lemma SaveKeeps(e: Engine, now: nat, force: bool, ok: bool)
    requires Sane(e) && now < TWO32
    ensures Sane(Save(e, now, force, ok))
    ensures Save(e, now, force, ok) == e.(checkpoint := Save(e, now, force, ok).checkpoint,
                                          checkpointMs := Save(e, now, force, ok).checkpointMs)
    ensures Save(e, now, force, ok).checkpoint ==> e.checkpoint || e.running
  {
  }

  lemma ElsewhereSafe(e: Engine, idx: nat)
    requires Safe(e) && idx < |e.program.states|
    ensures Safe(e.(current := idx))
  {
  }

  lemma EnterSafe(e: Engine, idx: nat, env: TickEnv)
    requires Safe(e.(current := idx)) && e.running && idx < |e.program.states|
    ensures Safe(Enter(e, idx, env))
    ensures Enter(e, idx, env).history.trail == e.history.trail + [idx]
    ensures Enter(e, idx, env).program == e.program
  {
    hide FirePulses;
    var now, sd := Millis(env.t), e.program.states[idx];
    var moved := e.(current := idx,
                    timers := Timers(now, Fill(AMS_MAX_HK_SLOTS, now), Fill(AMS_MAX_HK_SLOTS, now), e.timers.taskMs),
                    windows := NoWindows(),
                    confirm := Fill(CONFIRM_SLOTS, 0),
                    history := NewStay(e.history.trail + [idx], env.t));
    assert Safe(moved);
    FirePulsesSafe(moved, sd, env);
    var fired := FirePulses(moved, sd, env);
    SaveKeeps(fired.(pendingEvent := sd.hasOnEnterEvent || e.pendingEvent), now, true, env.storageOk);
  }

  lemma FirePulsesSafe(e: Engine, sd: StateDef, env: TickEnv)
    requires Safe(e)
    ensures Safe(FirePulses(e, sd, env))
    ensures FirePulses(e, sd, env).history == e.history && FirePulses(e, sd, env).program == e.program
  {
  }

  // ----- One operation keeps everything -----

  lemma TickSafe(e: Engine, env: TickEnv)
    requires Safe(e)
    ensures Safe(Tick(e, env))
  {
    hide EvalTransitions, Acting, Enter;
    if e.running && e.status == Running && e.enabled && e.current < |e.program.states| {
      var sd := e.program.states[e.current];
      assert sd in e.program.states;
      var v := EvalTransitions(e, sd, 0, [], env);
      EvalTransitionsKeeps(e, sd, 0, [], env);
      var f := Noted(v, env);
      assert Safe(f);
      if v.fired.Some? {
        assert sd.transitions[v.fired.value] in sd.transitions;
        EnterSafe(f, sd.transitions[v.fired.value].targetIndex, env);
      } else {
        IdlingSafe(f, sd, env);
      }
    }
  }

  lemma IdlingSafe(e: Engine, sd: StateDef, env: TickEnv)
    requires Safe(e) && e.running && sd in e.program.states
    ensures Safe(Idling(e, sd, env))
  {
    hide Enter, Acting, AnyViolation;
    if JumpDue(e, sd.onTimeout, sd.onTimeoutMs, env) {
      EnterSafe(e, sd.onTimeout.value.index, env);
    } else if JumpDue(e, sd.fallback, sd.fallbackAfterMs, env) {
      EnterSafe(e, sd.fallback.value.index, env);
    } else if e.pendingTc == Abort {
    } else if AnyViolation(e, sd, env) {
      if sd.onError.Some? && sd.onError.value.resolved {
        EnterSafe(e, sd.onError.value.index, env);
      }
    } else {
      ActingKeeps(e, sd, env);
    }
  }

  lemma ActingKeeps(e: Engine, sd: StateDef, env: TickEnv)
    requires Safe(e) && e.running && sd in e.program.states
    ensures Safe(Acting(e, sd, env))
    ensures Acting(e, sd, env).program == e.program
    ensures Acting(e, sd, env).history.trail == e.history.trail
    ensures Acting(e, sd, env).current == e.current
    ensures Acting(e, sd, env).windows == e.windows
    ensures Acting(e, sd, env).history.stay == e.history.stay
  {
    hide ExecuteDueActions, Finish, Save, TaskActive;
    var now := Millis(env.t);
    ActionsKeep(e, sd, now);
    var acted := ExecuteDueActions(e, sd, now);
    ReportsSafe(e, acted);
    var taskMs := RunTasks(e.program.tasks, acted.timers.taskMs, e.current, now);
    var tasked := acted.(timers := acted.timers.(taskMs := taskMs));
    TasksSafe(acted, taskMs, now);
    SaveKeeps(tasked, now, false, env.storageOk);
    FinishSafe(Save(tasked, now, false, env.storageOk), sd);
  }

  lemma ReportsSafe(e: Engine, f: Engine)
    requires Safe(e) && Sane(f) && SameButReports(e, f)
    ensures Safe(f)
  {
  }

  lemma TasksSafe(e: Engine, taskMs: seq<nat>, now: nat)
    requires Safe(e) && now < TWO32 && |taskMs| == AMS_MAX_TASKS
    requires forall i :: 0 <= i < AMS_MAX_TASKS ==> taskMs[i] == now || taskMs[i] == e.timers.taskMs[i]
    ensures Safe(e.(timers := e.timers.(taskMs := taskMs)))
  {
  }

  lemma FinishSafe(e: Engine, sd: StateDef)
    requires Safe(e)
    ensures Safe(Finish(e, sd))
    ensures Finish(e, sd).program == e.program && Finish(e, sd).history == e.history
    ensures Finish(e, sd).current == e.current && Finish(e, sd).windows == e.windows
  {
    hide Terminal;
  }

  lemma ApplySafe(e: Engine, op: Op)
    requires Safe(e) && Allowed(op)
    ensures Safe(Apply(e, op))
  {
    match op
    case OpTick(env) => TickSafe(e, env);
    case OpActivate(file, load, env) => ActivateSafe(e, file, load, env);
    case OpDeactivate =>
    case OpInject(tc) => InjectSafe(e, tc);
    case OpArm(env) => ArmSafe(e, env);
    case OpSetExecution(on, env) => SetExecutionSafe(e, on, env);
    case OpSetInterval(ms) => SetIntervalSafe(e, ms);
  }

  lemma InjectSafe(e: Engine, tc: TcCommand)
    requires Safe(e)
    ensures Safe(Inject(e, tc))
  {
  }

  lemma ArmSafe(e: Engine, env: TickEnv)
    requires Safe(e)
    ensures Safe(Arm(e, env))
  {
    if e.status == Loaded {
      SaveKeeps(e.(enabled := true, status := Running, pendingTc := Launch), Millis(env.t), true, env.storageOk);
    }
  }

  lemma SetExecutionSafe(e: Engine, on: bool, env: TickEnv)
    requires Safe(e)
    ensures Safe(SetExecution(e, on, env))
  {
  }

  lemma SetIntervalSafe(e: Engine, ms: nat)
    requires Safe(e)
    ensures Safe(SetInterval(e, ms))
  {
    if e.current < |e.program.states| {
      var sd := e.program.states[e.current];
      assert sd in e.program.states;
      var p := SetInterval(e, ms).program;
      forall s | s in p.states
        ensures Fits(s) && (e.running ==> TargetsOk(p, s))
      {
        if s !in e.program.states {
          assert s.transitions == sd.transitions;
          assert TargetsOk(e.program, sd) ==> TargetsOk(p, s);
        } else {
          assert TargetsOk(e.program, s) ==> TargetsOk(p, s);
        }
      }
    }
  }

  lemma ActivateSafe(e: Engine, file: string, load: Load, env: TickEnv)
    requires Safe(e) && Allowed(OpActivate(file, load, env))
    ensures Safe(Activate(e, file, load, env))
  {
    hide Enter, Leads;
    match load
    case Broken(partial) =>
    case Compiled(p) =>
      var start := if FindState(p.states, "WAIT") < |p.states| then FindState(p.states, "WAIT") else 0;
      var zero := Fill(AMS_MAX_HK_SLOTS, 0);
      WellFormedTargets(p);
      EnterSafe(e.(program := p, file := ActiveName(file), reason := NoReason, status := Loaded, running := true,
                   enabled := false, pendingTc := NoTc, pendingEvent := false,
                   timers := e.timers.(hkMs := zero, logMs := zero),
                   history := e.history.(trail := [])), start, env);
  }

  lemma WellFormedTargets(p: Program)
    requires WellFormed(p)
    ensures forall sd :: sd in p.states ==> Fits(sd) && TargetsOk(p, sd)
  {
    forall sd | sd in p.states
      ensures Fits(sd) && TargetsOk(p, sd)
    {
      assert StateOk(p, sd);
      assert forall tr :: tr in sd.transitions ==> TransitionOk(p, tr);
    }
  }

  // ----- Runs -----

  /** Any interleaving of public calls on an engine, with any oracles. */
  function Run(e: Engine, ops: seq<Op>): (r: Engine)
    requires Safe(e) && forall op :: op in ops ==> Allowed(op)
    ensures Safe(r)
    decreases |ops|
  {
    hide Apply, Sane, Lifecycle, Targets, NoDangling;
    if ops == [] then e
    else
      var before := Run(e, ops[..|ops| - 1]);
      ApplySafe(before, ops[|ops| - 1]);
      Apply(before, ops[|ops| - 1])
  }

  // ----- Resuming -----

  /** The record that `saveResumePointLocked` writes, as far as it decides the lifecycle. */
  function RecordOf(e: Engine, now: nat): Record
    requires Sane(e) && now < TWO32
  {
    Record(e.current, e.enabled, e.running, StatusCode(e.status), Since(now, e.timers.enterMs),
           Elapsed(e.timers.hkMs, now), Elapsed(e.timers.logMs, now))
  }

  function Elapsed(lastMs: seq<nat>, now: nat): seq<nat>
    requires now < TWO32 && forall i :: 0 <= i < |lastMs| ==> lastMs[i] < TWO32
  {
    seq(|lastMs|, i requires 0 <= i < |lastMs| => Since(now, lastMs[i]))
  }

  /** The flags of a record agree with its status. */
  predicate Consistent(r: Record) {
    match StatusOf(r.status)
    case None => !r.running
    case Some(s) => && (r.running <==> s == Loaded || s == Running)
                    && (s == Running ==> r.exec)
                    && (s == Loaded ==> !r.exec)
  }

  predicate Restorable(stored: Stored) {
    stored.Found? ==> && |stored.record.hkElapsed| == |stored.record.logElapsed| == AMS_MAX_HK_SLOTS
                      && RecordSane(stored.record)
                      && Allowed(OpActivate(stored.file, stored.load, AnyEnv()))
  }

  function AnyEnv(): TickEnv {
    TickEnv(0, _ => None, _ => None, _ => true, true, true, true)
  }

  /** Storage holds no record that names a valid state and contradicts itself about the status. */
  predicate Lawful(stored: Stored) {
    stored.Found? && stored.load.Compiled? && stored.record.state < |stored.load.p.states| ==> Consistent(stored.record)
  }

  /**
   Starting up restores a lawful engine from every storage content except one kind: a record that
   names a valid state but whose running flag, execution flag and status disagree.
   */
  lemma BeginSafeIff(stored: Stored, env: TickEnv)
    requires Restorable(stored)
    ensures Safe(Begin(stored, env)) <==> Lawful(stored)
  {
    hide Fill, NoWindows, Millis, NewStay, Resume;
    BootSane(stored != Nothing);
    if stored.Found? && stored.load.Compiled? {
      var loaded := Boot(true).(program := stored.load.p, file := ActiveName(stored.file));
      WellFormedTargets(stored.load.p);
      ResumeSets(loaded, stored.record, env);
      ResumeSane(loaded, stored.record, env);
    }
  }

  /** What a record decides, and that the tables keep their shape. */
  lemma ResumeSets(e: Engine, r: Record, env: TickEnv)
    requires RecordSane(r) && e.checkpointMs < TWO32
    ensures var b := Resume(e, r, env);
            && b == e.(current := r.state, running := r.running, enabled := r.exec, status := b.status,
                       timers := b.timers, history := b.history, checkpoint := b.checkpoint,
                       checkpointMs := b.checkpointMs)
            && b.history.trail == [r.state] && b.history.stay == [] && b.history.tcs == []
            && b.timers.enterMs == Since(Millis(env.t), r.stateElapsed)
            && b.status == (if StatusOf(r.status).Some? then StatusOf(r.status).value else e.status)
            && if r.running && r.exec && StatusOf(r.status) == Some(Running) then
                 && b.timers.hkMs == Ago(Millis(env.t), r.hkElapsed)
                 && b.timers.logMs == Ago(Millis(env.t), r.logElapsed)
               else !b.checkpoint
  {
    hide TrueAgo, Ago, RecordSane, Fill;
  }

  lemma ResumeSane(e: Engine, r: Record, env: TickEnv)
    requires Sane(e) && RecordSane(r) && |r.hkElapsed| == |r.logElapsed| == AMS_MAX_HK_SLOTS
    ensures Sane(Resume(e, r, env))
  {
    var placed, now := Placed(e, r, env), Millis(env.t);
    PlacedSane(e, r, env);
    if StatusOf(r.status).Some? {
      var known := placed.(status := StatusOf(r.status).value, checkpointMs := now);
      assert Sane(known);
      BackSane(known, r, env);
      SaveKeeps(SlotsBack(known, r, env), now, true, env.storageOk);
      hide Fits, Placed, SlotsBack, RecordSane, Save;
    }
  }

  lemma PlacedSane(e: Engine, r: Record, env: TickEnv)
    requires Sane(e) && RecordSane(r)
    ensures Sane(Placed(e, r, env))
  {
    hide Fits, Millis, Since;
  }

  lemma BackSane(e: Engine, r: Record, env: TickEnv)
    requires Sane(e) && RecordSane(r) && |r.hkElapsed| == |r.logElapsed| == AMS_MAX_HK_SLOTS
    ensures Sane(SlotsBack(e, r, env))
  {
    hide Fits, Millis, Since;
  }

  lemma BootSane(checkpoint: bool)
    ensures Sane(Boot(checkpoint))
  {
  }

  /** Every record the engine writes is of the lawful kind. */
  lemma SavedIsConsistent(e: Engine, now: nat)
    requires Safe(e) && e.running && now < TWO32
    ensures Consistent(RecordOf(e, now)) && RecordOf(e, now).state < |e.program.states|
  {
  }

  // ----- The trail of a run is a route through the graph -----

  predicate TimeoutEdge(p: Program, s: nat, t: nat) {
    && s < |p.states| && t < |p.states| && p.states[s].onTimeout.Some?
    && p.states[s].onTimeout.value.resolved && p.states[s].onTimeout.value.index == t
  }

  predicate Move(p: Program, s: nat, t: nat) {
    Edge(p, s, t) || TimeoutEdge(p, s, t)
  }

  /** Changing report intervals leaves the graph alone. */
  predicate SameGraph(p: Program, q: Program) {
    && |p.states| == |q.states|
    && forall i :: 0 <= i < |p.states| ==>
         && p.states[i].transitions == q.states[i].transitions
         && p.states[i].fallback == q.states[i].fallback
         && p.states[i].onError == q.states[i].onError
         && p.states[i].onTimeout == q.states[i].onTimeout
  }

  /** The trail is a route from `start`, and the engine stands at its end while it runs. */
  predicate OnRoute(p: Program, start: nat, e: Engine) {
    && e.history.trail != [] && e.history.trail[0] == start
    && (forall i :: 0 <= i < |e.history.trail| ==> e.history.trail[i] < |p.states|)
    && (forall i :: 0 <= i < |e.history.trail| - 1 ==> Move(p, e.history.trail[i], e.history.trail[i + 1]))
    && (e.running ==> SameGraph(p, e.program) && e.history.trail[|e.history.trail| - 1] == e.current)
  }

  lemma EnterOnRoute(p: Program, start: nat, e: Engine, idx: nat, env: TickEnv)
    requires Safe(e) && OnRoute(p, start, e) && e.running && idx < |e.program.states| && Move(p, e.current, idx)
    ensures OnRoute(p, start, Enter(e, idx, env))
  {
    hide Move;
    EnterSafe(e, idx, env);
    EnterPlaces(e, idx, env);
    var trail := Enter(e, idx, env).history.trail;
    forall i | 0 <= i < |trail| - 1
      ensures Move(p, trail[i], trail[i + 1])
    {
    }
  }

  lemma EnterPlaces(e: Engine, idx: nat, env: TickEnv)
    requires Sane(e) && idx < |e.program.states|
    ensures Enter(e, idx, env).current == idx && Enter(e, idx, env).program == e.program
  {
  }

  lemma TickOnRoute(p: Program, start: nat, e: Engine, env: TickEnv)
    requires Safe(e) && OnRoute(p, start, e)
    ensures OnRoute(p, start, Tick(e, env))
  {
    hide EvalTransitions, Idling, Enter, Edge, TimeoutEdge;
    if e.running && e.status == Running && e.enabled && e.current < |e.program.states| {
      var sd := e.program.states[e.current];
      assert sd in e.program.states;
      var v := EvalTransitions(e, sd, 0, [], env);
      EvalTransitionsKeeps(e, sd, 0, [], env);
      var f := Noted(v, env);
      assert Safe(f) && OnRoute(p, start, f);
      if v.fired.Some? {
        var ti := v.fired.value;
        assert sd.transitions[ti] in sd.transitions;
        SlotMove(p, e.current, ti, sd.transitions[ti].targetIndex);
        EnterOnRoute(p, start, f, sd.transitions[ti].targetIndex, env);
      } else {
        IdlingOnRoute(p, start, f, sd, env);
      }
    }
  }

  lemma SlotMove(p: Program, s: nat, slot: nat, t: nat)
    requires s < |p.states|
    requires slot < SlotCount(p.states[s]) && Successor(p.states[s], slot) == t && t < |p.states|
    ensures Edge(p, s, t)
  {
  }

  lemma IdlingOnRoute(p: Program, start: nat, e: Engine, sd: StateDef, env: TickEnv)
    requires Safe(e) && OnRoute(p, start, e) && e.running && sd == e.program.states[e.current]
    ensures Fits(sd) && OnRoute(p, start, Idling(e, sd, env))
  {
    hide Acting, Enter, Edge, AnyViolation;
    assert sd in e.program.states;
    var n := |sd.transitions|;
    if JumpDue(e, sd.onTimeout, sd.onTimeoutMs, env) {
      EnterOnRoute(p, start, e, sd.onTimeout.value.index, env);
    } else if JumpDue(e, sd.fallback, sd.fallbackAfterMs, env) {
      SlotMove(p, e.current, n, sd.fallback.value.index);
      EnterOnRoute(p, start, e, sd.fallback.value.index, env);
    } else if e.pendingTc == Abort {
    } else if AnyViolation(e, sd, env) {
      if sd.onError.Some? && sd.onError.value.resolved {
        SlotMove(p, e.current, n + 1, sd.onError.value.index);
        EnterOnRoute(p, start, e, sd.onError.value.index, env);
      }
    } else {
      ActingKeeps(e, sd, env);
    }
  }

  lemma ApplyOnRoute(p: Program, start: nat, e: Engine, op: Op)
    requires Safe(e) && OnRoute(p, start, e) && !op.OpActivate?
    ensures OnRoute(p, start, Apply(e, op))
  {
    hide Move, Sane, SameGraph, SetInterval;
    match op
    case OpTick(env) => TickOnRoute(p, start, e, env);
    case OpDeactivate =>
    case OpInject(tc) =>
    case OpArm(env) =>
    case OpSetExecution(on, env) =>
    case OpSetInterval(ms) => IntervalOnRoute(p, start, e, ms);
  }

  lemma IntervalOnRoute(p: Program, start: nat, e: Engine, ms: nat)
    requires OnRoute(p, start, e)
    ensures OnRoute(p, start, SetInterval(e, ms))
  {
    hide Move, Fill, LastReports;
  }

  lemma {:induction false} RunOnRoute(p: Program, start: nat, e: Engine, ops: seq<Op>)
    requires Safe(e) && OnRoute(p, start, e)
    requires forall op :: op in ops ==> !op.OpActivate?
    ensures OnRoute(p, start, Run(e, ops))
    decreases |ops|
  {
    hide Apply, Sane, Lifecycle, Targets, NoDangling, OnRoute;
    if ops != [] {
      RunOnRoute(p, start, e, ops[..|ops| - 1]);
      ApplyOnRoute(p, start, Run(e, ops[..|ops| - 1]), ops[|ops| - 1]);
    }
  }

  function StartState(p: Program): nat {
    if FindState(p.states, "WAIT") < |p.states| then FindState(p.states, "WAIT") else 0
  }

  lemma ActivateOnRoute(e: Engine, file: string, p: Program, env: TickEnv)
    requires Safe(e) && file != "" && WellFormed(p)
    ensures OnRoute(p, StartState(p), Activate(e, file, Compiled(p), env))
  {
  }

  // ----- What the analysis accepts bounds every run -----

  /** A route over the edges that the analysis sees, from any state. */
  predicate Route(p: Program, w: seq<nat>) {
    && w != []
    && (forall i :: 0 <= i < |w| ==> w[i] < |p.states|)
    && (forall i :: 0 <= i < |w| - 1 ==> Edge(p, w[i], w[i + 1]))
  }

  ghost predicate InSight(p: Program, start: nat, s: nat) {
    exists w: seq<nat> :: Route(p, w) && w[0] == start && w[|w| - 1] == s
  }

  /** No state to which a route from `start` leads has an on_timeout handler. */
  ghost predicate NoTimeoutFrom(p: Program, start: nat) {
    forall s: nat :: InSight(p, start, s) && s < |p.states| ==> p.states[s].onTimeout.None?
  }

  lemma NoTimeoutAnywhere(p: Program, start: nat)
    requires forall i :: 0 <= i < |p.states| ==> p.states[i].onTimeout.None?
    ensures NoTimeoutFrom(p, start)
  {
  }

  /** The longest route from `start` has at most `limit` states, and none comes back to a state. */
  ghost predicate BoundedFrom(p: Program, start: nat, limit: nat) {
    forall w: seq<nat> :: Route(p, w) && w[0] == start ==> |w| <= limit && Simple(w)
  }

  lemma RouteExtends(p: Program, w: seq<nat>, t: nat)
    requires Route(p, w) && Edge(p, w[|w| - 1], t)
    ensures Route(p, w + [t])
  {
    var v := w + [t];
    forall i | 0 <= i < |v| - 1 ensures Edge(p, v[i], v[i + 1]) {
      assert i < |w| - 1 ==> Edge(p, w[i], w[i + 1]);
    }
  }

  lemma {:induction false} MovesAreRoute(p: Program, trail: seq<nat>)
    requires trail != [] && NoTimeoutFrom(p, trail[0])
    requires forall i :: 0 <= i < |trail| ==> trail[i] < |p.states|
    requires forall i :: 0 <= i < |trail| - 1 ==> Move(p, trail[i], trail[i + 1])
    ensures Route(p, trail)
    decreases |trail|
  {
    hide Edge;
    if |trail| > 1 {
      var n := |trail| - 1;
      var h := trail[..n];
      forall i | 0 <= i < |h| - 1 ensures Move(p, h[i], h[i + 1]) {
        assert Move(p, trail[i], trail[i + 1]);
      }
      MovesAreRoute(p, h);
      assert InSight(p, trail[0], h[n - 1]);
      assert Move(p, trail[n - 1], trail[n - 1 + 1]);
      RouteExtends(p, h, trail[n]);
      assert h + [trail[n]] == trail;
    }
  }

  /**
   Whatever happens to a mission, the states it enters form a route of the analysed graph from where it started,
   be that an activation or a resume.
   */
  lemma RunsAreRoutes(p: Program, start: nat, e: Engine, ops: seq<Op>)
    requires Safe(e) && OnRoute(p, start, e) && NoTimeoutFrom(p, start)
    requires forall op :: op in ops ==> !op.OpActivate?
    ensures var trail := Run(e, ops).history.trail;
            Route(p, trail) && trail[0] == start
  {
    hide Apply, Safe, Move, Route, NoTimeoutFrom;
    RunOnRoute(p, start, e, ops);
    MovesAreRoute(p, Run(e, ops).history.trail);
  }

  /** From a reachable state no route is longer than an accepted depth, and none returns. */
  lemma AssertedBoundsRoutes(p: Program, start: nat, limit: nat)
    requires AllHold(p) && MaxDepth(limit) in p.asserts && ReachableState(p, start)
    ensures BoundedFrom(p, start, limit)
  {
    hide Edge;
    assert Holds(p, MaxDepth(limit));
    var v: seq<nat> :| Walk(p, v) && v[|v| - 1] == start;
    forall w: seq<nat> | Route(p, w) && w[0] == start
      ensures |w| <= limit && Simple(w)
    {
      var pre := v[..|v| - 1];
      WalkThenRoute(p, v, w);
      assert Simple(pre + w);
      assert forall i :: 0 <= i < |w| ==> (pre + w)[|pre| + i] == w[i];
    }
  }

  /** A walk that ends where a route begins goes on along it. */
  lemma WalkThenRoute(p: Program, v: seq<nat>, w: seq<nat>)
    requires Walk(p, v) && Route(p, w) && v[|v| - 1] == w[0]
    ensures Walk(p, v[..|v| - 1] + w)
  {
    hide Edge;
    var pre := v[..|v| - 1];
    var u := pre + w;
    forall i | 0 <= i < |u| - 1 ensures Edge(p, u[i], u[i + 1]) {
      if i < |pre| {
        assert u[i] == v[i] && u[i + 1] == v[i + 1];
      } else {
        assert Edge(p, w[i - |pre|], w[i - |pre| + 1]);
      }
    }
    if pre == [] {
      assert u[0] == w[0] == v[0];
    }
  }

  lemma RouteInSight(p: Program, start: nat, w: seq<nat>)
    requires ReachableState(p, start) && Route(p, w) && w[0] == start
    ensures forall i :: 0 <= i < |w| ==> ReachableState(p, w[i])
  {
    hide Edge;
    var v: seq<nat> :| Walk(p, v) && v[|v| - 1] == start;
    forall i | 0 <= i < |w| ensures ReachableState(p, w[i]) {
      var h := w[..i + 1];
      assert Route(p, h) by {
        forall j | 0 <= j < |h| - 1 ensures Edge(p, h[j], h[j + 1]) {
          assert Edge(p, w[j], w[j + 1]);
        }
      }
      WalkThenRoute(p, v, h);
      var u := v[..|v| - 1] + h;
      assert u[|u| - 1] == w[i];
    }
  }

  /**
   The bound for any start: a mission that starts in `start`, at an activation or a resume, enters at most as many
   states as the longest route from there has, and none twice.
   */
  lemma StartBoundsEveryRun(p: Program, start: nat, e: Engine, ops: seq<Op>, limit: nat)
    requires Safe(e) && OnRoute(p, start, e) && NoTimeoutFrom(p, start) && BoundedFrom(p, start, limit)
    requires forall op :: op in ops ==> !op.OpActivate?
    ensures var trail := Run(e, ops).history.trail;
            0 < |trail| <= limit && Simple(trail) && trail[0] == start
  {
    hide Apply, Safe, Route, Simple, OnRoute, NoTimeoutFrom;
    RunsAreRoutes(p, start, e, ops);
    var trail := Run(e, ops).history.trail;
    assert trail != [] by { RouteNotEmpty(p, trail); }
  }

  lemma RouteNotEmpty(p: Program, w: seq<nat>)
    requires Route(p, w)
    ensures w != []
  {
  }

  /**
   Load time bounds run time: when `max_transition_depth < limit` was accepted, the analysis can reach the
   state the mission starts in, and no state in sight has an on_timeout handler, then no run of any length,
   with any readings, telecommands and pauses, enters `limit` further states or leaves the reachable set.
   The mission may have been activated or resumed.
   */
  lemma AnalysisBoundsEveryRun(p: Program, start: nat, e: Engine, ops: seq<Op>, limit: nat)
    requires Safe(e) && OnRoute(p, start, e)
    requires AllHold(p) && MaxDepth(limit) in p.asserts
    requires ReachableState(p, start) && NoTimeoutFrom(p, start)
    requires forall op :: op in ops ==> !op.OpActivate?
    ensures var trail := Run(e, ops).history.trail;
            && 0 < |trail| <= limit
            && Simple(trail)
            && forall i :: 0 <= i < |trail| ==> ReachableState(p, trail[i])
  {
    hide Apply, Safe, Route, Simple, OnRoute, NoTimeoutFrom, ReachableState, AllHold, BoundedFrom;
    AssertedBoundsRoutes(p, start, limit);
    StartBoundsEveryRun(p, start, e, ops, limit);
    RunsAreRoutes(p, start, e, ops);
    RouteInSight(p, start, Run(e, ops).history.trail);
  }

  /** A resume stands on a route too, in the state of the record. */
  lemma BeginOnRoute(stored: Stored, env: TickEnv)
    requires Restorable(stored) && stored.Found? && stored.load.Compiled?
    requires stored.record.state < |stored.load.p.states|
    ensures OnRoute(stored.load.p, stored.record.state, Begin(stored, env))
  {
    var loaded := Boot(true).(program := stored.load.p, file := ActiveName(stored.file));
    ResumeSets(loaded, stored.record, env);
    hide Resume, NoWindows, Fill, NewStay, RecordSane;
  }

  /** What a script can say to put its start in sight: no other WAIT state, or an assertion that covers it. */
  lemma StartInSight(p: Program)
    requires WellFormed(p) && AllHold(p)
    requires StartState(p) == 0 || NoDeadStates in p.asserts || Reachable("WAIT") in p.asserts
    ensures ReachableState(p, StartState(p))
  {
    hide ReachableState;
    StatesNonEmpty(p);
    if StartState(p) == 0 {
      WalkOfOne(p);
    } else if NoDeadStates in p.asserts {
      assert Holds(p, NoDeadStates);
    } else {
      assert Holds(p, Reachable("WAIT"));
    }
  }

  lemma WalkOfOne(p: Program)
    requires |p.states| > 0
    ensures ReachableState(p, 0)
  {
    assert Walk(p, [0]);
  }

  // ----- Both conditions are needed -----

  function Plain(name: string): StateDef {
    StateDef(name, [], [], None, 0, None, None, 0, [], [], false, 0, 4, 2, 1, 2)
  }

  /** A times out to B; nothing else. */
  function TimeoutScript(): Program {
    Program([Plain("A").(onTimeout := Some(Jump("B", 1, true)), onTimeoutMs := 5), Plain("B")],
            [], [], [MaxDepth(1)])
  }

  /** The mission starts in WAIT, which falls back to A; the analysis starts in A. */
  function WaitScript(): Program {
    Program([Plain("A"), Plain("WAIT").(fallback := Some(Jump("A", 0, true)), fallbackAfterMs := 5)],
            [], [], [MaxDepth(1)])
  }

  function EnvAt(t: nat): TickEnv {
    TickEnv(t, _ => None, _ => None, _ => true, true, true, true)
  }

  function Mission(): seq<Op> {
    [OpArm(EnvAt(0)), OpTick(EnvAt(5))]
  }

  lemma RunTwo(e: Engine, a: Op, b: Op)
    requires Safe(e) && Allowed(a) && Allowed(b)
    ensures Safe(Apply(e, a)) && Run(e, [a, b]) == Apply(Apply(e, a), b)
  {
    hide Apply, Sane, Lifecycle, Targets, NoDangling;
    var ops := [a, b];
    assert ops[..1] == [a] && ops[..1][..0] == [];
    ApplySafe(e, a);
    assert Run(e, ops[..1][..0]) == e;
    assert Run(e, ops[..1]) == Apply(e, a);
  }

  lemma NoEdgesNoDepth(p: Program, limit: nat)
    requires |p.states| >= 1 && limit >= 1
    requires forall t: nat :: !Edge(p, 0, t)
    ensures Holds(p, MaxDepth(limit))
  {
    forall w: seq<nat> | Walk(p, w)
      ensures |w| == 1
    {
      var t := if |w| > 1 then w[1] else 0;
      assert !Edge(p, w[0], t);
    }
  }

  lemma FindSecond(a: StateDef, b: StateDef, name: string)
    requires a.name != name
    ensures FindState([a, b], name) == if b.name == name then 1 else 2
  {
    assert [a, b][1..] == [b];
    assert [b][1..] == [];
  }

  /**
   An on_timeout handler in the tables takes an accepted mission past the asserted depth: the analysis does not
   look at it. No script produces such tables (Compiler.TimeoutNeverCompiles).
   */
  lemma TimeoutEscapesTheBound(boot: Engine)
    requires Safe(boot)
    ensures WellFormed(TimeoutScript()) && AllHold(TimeoutScript()) && StartState(TimeoutScript()) == 0
    ensures Safe(Activate(boot, "m", Compiled(TimeoutScript()), EnvAt(0)))
    ensures Run(Activate(boot, "m", Compiled(TimeoutScript()), EnvAt(0)), Mission()).history.trail == [0, 1]
  {
    hide Safe, WellFormed, AllHold;
    TimeoutScriptAccepted();
    MissionRuns(boot, TimeoutScript(), 0, 1);
  }

  lemma TimeoutScriptAccepted()
    ensures WellFormed(TimeoutScript()) && AllHold(TimeoutScript()) && StartState(TimeoutScript()) == 0
  {
    var p := TimeoutScript();
    FindSecond(p.states[0], p.states[1], "B");
    FindSecond(p.states[0], p.states[1], "WAIT");
    NoEdgesNoDepth(p, 1);
    hide Holds;
  }

  /** A WAIT state out of the analysis' sight does the same. */
  lemma WaitEscapesTheBound(boot: Engine)
    requires Safe(boot)
    ensures WellFormed(WaitScript()) && AllHold(WaitScript()) && NoTimeoutFrom(WaitScript(), 1)
    ensures !ReachableState(WaitScript(), StartState(WaitScript()))
    ensures Safe(Activate(boot, "m", Compiled(WaitScript()), EnvAt(0)))
    ensures Run(Activate(boot, "m", Compiled(WaitScript()), EnvAt(0)), Mission()).history.trail == [1, 0]
  {
    hide Safe, WellFormed, AllHold, NoTimeoutFrom, ReachableState;
    WaitScriptAccepted();
    MissionRuns(boot, WaitScript(), 1, 0);
  }

  lemma WaitScriptAccepted()
    ensures WellFormed(WaitScript()) && AllHold(WaitScript()) && NoTimeoutFrom(WaitScript(), 1)
    ensures StartState(WaitScript()) == 1 && !ReachableState(WaitScript(), 1)
  {
    var p := WaitScript();
    FindSecond(p.states[0], p.states[1], "WAIT");
    NoEdgesNoDepth(p, 1);
    hide Holds;
  }

  /** Arming and one tick five milliseconds later move from `start` to `next`. */
  lemma MissionRuns(boot: Engine, p: Program, start: nat, next: nat)
    requires Safe(boot) && WellFormed(p) && StartState(p) == start && start < |p.states| && next < |p.states|
    requires |p.states[start].transitions| == 0
    requires JumpTo(p.states[start], next)
    ensures Safe(Activate(boot, "m", Compiled(p), EnvAt(0)))
    ensures Run(Activate(boot, "m", Compiled(p), EnvAt(0)), Mission()).history.trail == [start, next]
  {
    hide Sane, Lifecycle, Targets, NoDangling, Activate, Arm, Tick;
    ActivateSafe(boot, "m", Compiled(p), EnvAt(0));
    var e := Activate(boot, "m", Compiled(p), EnvAt(0));
    ArmedAt(boot, p);
    RunTwo(e, OpArm(EnvAt(0)), OpTick(EnvAt(5)));
    ArmSafe(e, EnvAt(0));
    TickJumps(Arm(e, EnvAt(0)), next);
  }

  lemma ArmedAt(boot: Engine, p: Program)
    requires Safe(boot) && WellFormed(p)
    ensures Safe(Activate(boot, "m", Compiled(p), EnvAt(0)))
    ensures var armed := Arm(Activate(boot, "m", Compiled(p), EnvAt(0)), EnvAt(0));
            && armed.running && armed.status == Running && armed.enabled
            && armed.current == StartState(p) && armed.program == p
            && armed.history.trail == [StartState(p)] && armed.timers.enterMs == 0
  {
    hide Lifecycle, Targets, NoDangling, WellFormed;
    ActivateSafe(boot, "m", Compiled(p), EnvAt(0));
    assert |p.states| > 0 by {
      StatesNonEmpty(p);
    }
  }

  lemma StatesNonEmpty(p: Program)
    requires WellFormed(p)
    ensures |p.states| > 0
  {
  }

  lemma TickJumps(e: Engine, next: nat)
    requires Safe(e) && e.running && e.status == Running && e.enabled && e.timers.enterMs == 0
    requires e.current < |e.program.states| && next < |e.program.states|
    requires |e.program.states[e.current].transitions| == 0 && JumpTo(e.program.states[e.current], next)
    ensures Tick(e, EnvAt(5)).history.trail == e.history.trail + [next]
  {
    hide Enter, Acting;
    var sd := e.program.states[e.current];
    assert sd in e.program.states;
    var v := EvalTransitions(e, sd, 0, [], EnvAt(5));
    assert v == Evaluated(e, [], None);
    var f := Noted(v, EnvAt(5));
    assert Safe(f);
    assert Tick(e, EnvAt(5)) == Enter(f, next, EnvAt(5));
    EnterSafe(f, next, EnvAt(5));
  }

  /** The only way out is a timeout or fallback of five milliseconds. */
  predicate JumpTo(sd: StateDef, next: nat) {
    || (sd.onTimeout.Some? && sd.onTimeout.value.resolved && sd.onTimeout.value.index == next && sd.onTimeoutMs == 5)
    || (sd.onTimeout.None? && sd.fallback.Some? && sd.fallback.value.resolved && sd.fallback.value.index == next
        && sd.fallbackAfterMs == 5)
  }
}
