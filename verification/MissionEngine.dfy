/**
 The runtime of a mission script as functions on its state (src/ams/mission_script_engine.cpp).
 Each function is one member of the engine; the class of MissionScriptEngine.dfy runs them in place.

 Sensor readings, thresholds, guards, storage and the pulse driver are oracles of a tick. Time is the
 true time in milliseconds; the code sees it modulo 2^32.
 */
module MissionEngine {
  import opened Wrappers
  import opened MissionProgram
  import opened Clock32

  const CHECKPOINT_INTERVAL_MS := 1000
  const CONFIRM_SLOTS := 4
  const PREV_SLOTS := AMS_MAX_TRANSITIONS * AMS_MAX_TRANSITION_CONDS

  datatype Status = Idle | Running | Error | Complete | Loaded

  datatype Reason =
    | NoReason
    | LoadFailed
    | StateOutOfRange
    | InvalidTarget
    | EnterOutOfRange
    | ResumeOutOfRange
    | GuardViolated
    | PulseRejected

  datatype TickEnv = TickEnv(
    t: nat,
    reading: nat -> Option<real>,
    threshold: nat -> Option<real>,
    guardHolds: nat -> bool,
    storageOk: bool,
    pulseFitted: bool,
    pulseOk: bool)

  /**
   What happened during the current stay: evaluated ticks with their compound results and the readings of
   each condition slot, and pauses.
   */
  datatype StayEvent = Ticked(t: nat, truths: seq<bool>, seen: seq<Option<real>>) | Paused(t: nat)

  /** Hold windows and delta baselines, one entry per table slot of the code. */
  datatype Windows = Windows(holding: seq<bool>, metMs: seq<nat>, prevVal: seq<real>, prevValid: seq<bool>)

  /** Report and task timers. */
  datatype Timers = Timers(enterMs: nat, hkMs: seq<nat>, logMs: seq<nat>, taskMs: seq<nat>)

  /**
   Observations about the run that the code does not store. `tcs`: telecommands since the state was entered.
   Of each report slot: the true time its beat starts
   from (the entry, the restored last report, or the last report before a change of period) and the reports since.
   */
  datatype History = History(
    trail: seq<nat>,
    stay: seq<StayEvent>,
    tcs: seq<TcCommand>,
    enterT: int,
    hkFrom: seq<int>,
    hkCount: seq<nat>,
    logFrom: seq<int>,
    logCount: seq<nat>)

  datatype Engine = Engine(
    program: Program,
    status: Status,
    file: string,
    running: bool,
    enabled: bool,
    current: nat,
    timers: Timers,
    windows: Windows,
    pendingEvent: bool,
    pendingTc: TcCommand,
    confirm: seq<nat>,
    checkpoint: bool,
    checkpointMs: nat,
    reason: Reason,
    history: History)

  function Fill<T>(n: nat, x: T): (s: seq<T>)
    ensures |s| == n && forall i :: 0 <= i < n ==> s[i] == x
  {
    seq(n, _ => x)
  }

  function NoWindows(): Windows {
    Windows(Fill(AMS_MAX_TRANSITIONS, false), Fill(AMS_MAX_TRANSITIONS, 0),
            Fill(PREV_SLOTS, 0.0), Fill(PREV_SLOTS, false))
  }

  /** The history of a stay that begins at true time `t`. */
  function NewStay(trail: seq<nat>, t: nat): History {
    var from: seq<int>, none: seq<nat> := Fill(AMS_MAX_HK_SLOTS, t), Fill(AMS_MAX_HK_SLOTS, 0);
    History(trail, [], [], t, from, none, from, none)
  }

  /** The engine object as the constructor leaves it; `checkpoint` is what storage still holds. */
  function Boot(checkpoint: bool): Engine {
    Engine(NO_PROGRAM, Idle, "", false, false, 0,
           Timers(0, Fill(AMS_MAX_HK_SLOTS, 0), Fill(AMS_MAX_HK_SLOTS, 0), Fill(AMS_MAX_TASKS, 0)),
           NoWindows(), false, NoTc, Fill(CONFIRM_SLOTS, 0), checkpoint, 0, NoReason, NewStay([], 0))
  }

  /** Table sizes and word widths. */
  predicate Sane(e: Engine) {
    && |e.windows.holding| == |e.windows.metMs| == AMS_MAX_TRANSITIONS
    && |e.windows.prevVal| == |e.windows.prevValid| == PREV_SLOTS
    && |e.timers.hkMs| == |e.timers.logMs| == AMS_MAX_HK_SLOTS
    && |e.timers.taskMs| == AMS_MAX_TASKS
    && |e.confirm| == CONFIRM_SLOTS
    && |e.history.hkFrom| == |e.history.hkCount| == AMS_MAX_HK_SLOTS
    && |e.history.logFrom| == |e.history.logCount| == AMS_MAX_HK_SLOTS
    && e.timers.enterMs < TWO32 && e.checkpointMs < TWO32
    && (forall i :: 0 <= i < AMS_MAX_TRANSITIONS ==> e.windows.metMs[i] < TWO32)
    && (forall i :: 0 <= i < AMS_MAX_HK_SLOTS ==> e.timers.hkMs[i] < TWO32 && e.timers.logMs[i] < TWO32)
    && (forall i :: 0 <= i < AMS_MAX_TASKS ==> e.timers.taskMs[i] < TWO32)
    && (forall sd :: sd in e.program.states ==> Fits(sd))
    && |e.program.tasks| <= AMS_MAX_TASKS
  }

  /** The array bounds of a state definition. */
  predicate Fits(sd: StateDef) {
    && |sd.transitions| <= AMS_MAX_TRANSITIONS
    && (forall tr :: tr in sd.transitions ==> |tr.conds| <= AMS_MAX_TRANSITION_CONDS)
    && |sd.hkSlots| <= AMS_MAX_HK_SLOTS && |sd.logSlots| <= AMS_MAX_HK_SLOTS
  }

  // ----- Checkpoint bookkeeping and errors -----

  function Clear(e: Engine): Engine {
    e.(checkpoint := false)
  }

  function SetError(e: Engine, reason: Reason): Engine {
    Clear(e.(running := false, status := Error, reason := reason))
  }

  function Save(e: Engine, now: nat, force: bool, storageOk: bool): Engine
    requires e.checkpointMs < TWO32 && now < TWO32
  {
    if !e.running || e.file == "" then e
    else if !force && Since(now, e.checkpointMs) < CHECKPOINT_INTERVAL_MS then e
    else if e.current >= |e.program.states| || !storageOk then e
    else e.(checkpoint := true, checkpointMs := now)
  }

  function Deactivate(e: Engine): Engine {
    Clear(e.(running := false, enabled := false, status := Idle, program := NO_PROGRAM, file := "",
             reason := NoReason, pendingTc := NoTc, pendingEvent := false, windows := NoWindows(),
             timers := e.timers.(taskMs := Fill(AMS_MAX_TASKS, 0)),
             history := e.history.(stay := [])))
  }

  // ----- Entering a state -----

  /** `executePulseActionsLocked` together with the error it may raise. */
  function FirePulses(e: Engine, sd: StateDef, env: TickEnv): Engine {
    if sd.pulseCount == 0 || !env.pulseFitted || !e.enabled || e.status != Running || env.pulseOk then e
    else SetError(e, PulseRejected)
  }

  function Enter(e: Engine, idx: nat, env: TickEnv): Engine
    requires e.checkpointMs < TWO32
  {
    if idx >= |e.program.states| then SetError(e, EnterOutOfRange)
    else
      var now, sd := Millis(env.t), e.program.states[idx];
      var moved := e.(current := idx,
                      timers := Timers(now, Fill(AMS_MAX_HK_SLOTS, now), Fill(AMS_MAX_HK_SLOTS, now), e.timers.taskMs),
                      windows := NoWindows(),
                      confirm := Fill(CONFIRM_SLOTS, 0),
                      history := NewStay(e.history.trail + [idx], env.t));
      var fired := FirePulses(moved, sd, env);
      Save(fired.(pendingEvent := sd.hasOnEnterEvent || e.pendingEvent), now, true, env.storageOk)
  }

  // ----- Transition conditions -----

  /** The table index of condition `i` of transition `ti`. */
  function Flat(ti: nat, i: nat): nat {
    ti * AMS_MAX_TRANSITION_CONDS + i
  }

  function TcIndex(tc: TcCommand): nat {
    match tc
    case NoTc => 0
    case Launch => 1
    case Abort => 2
    case Reset => 3
    case ResetAbnormal => 4
  }

  predicate CondHolds(e: Engine, c: CondExpr, flat: nat, env: TickEnv)
    requires Sane(e) && flat < PREV_SLOTS
  {
    match c
    case TcEq(tc, confirm, n) =>
      if confirm then TcIndex(tc) < CONFIRM_SLOTS && e.confirm[TcIndex(tc)] >= n else e.pendingTc == tc
    case TimeGt(ms) => Since(Millis(env.t), e.timers.enterMs) > ms
    case SensorLt => Read(env, flat) && env.reading(flat).value < env.threshold(flat).value
    case SensorGt => Read(env, flat) && env.reading(flat).value > env.threshold(flat).value
    case DeltaLt =>
      && Read(env, flat) && e.windows.prevValid[flat]
      && env.reading(flat).value - e.windows.prevVal[flat] < env.threshold(flat).value
    case DeltaGt =>
      && Read(env, flat) && e.windows.prevValid[flat]
      && env.reading(flat).value - e.windows.prevVal[flat] > env.threshold(flat).value
  }

  predicate Read(env: TickEnv, flat: nat) {
    env.reading(flat).Some? && env.threshold(flat).Some?
  }

  function Seen(env: TickEnv): (s: seq<Option<real>>)
    ensures |s| == PREV_SLOTS
  {
    seq(PREV_SLOTS, k requires 0 <= k => if Read(env, k) then env.reading(k) else None)
  }

  /** A delta condition remembers the value it read. */
  function Remember(w: Windows, c: CondExpr, flat: nat, env: TickEnv): Windows
    requires flat < |w.prevVal| && flat < |w.prevValid|
  {
    if (c.DeltaLt? || c.DeltaGt?) && Read(env, flat) then
      w.(prevVal := w.prevVal[flat := env.reading(flat).value], prevValid := w.prevValid[flat := true])
    else w
  }

  datatype Compound = Compound(e: Engine, holds: bool, tcMatch: bool)

  /** Conditions from `i` on, all evaluated, joined to what came before. */
  function EvalConds(e: Engine, tr: Transition, ti: nat, i: nat, holds: bool, tcMatch: bool, env: TickEnv): Compound
    requires Sane(e) && ti < AMS_MAX_TRANSITIONS && i <= |tr.conds| <= AMS_MAX_TRANSITION_CONDS
    decreases |tr.conds| - i
  {
    if i == |tr.conds| then Compound(e, holds, tcMatch)
    else
      var c, flat := tr.conds[i], Flat(ti, i);
      var r := CondHolds(e, c, flat, env);
      EvalConds(e.(windows := Remember(e.windows, c, flat, env)), tr, ti, i + 1,
                if tr.isAnd then holds && r else holds || r,
                tcMatch || (r && c.TcEq?), env)
  }

  predicate TcOnly(tr: Transition) {
    |tr.conds| == 1 && tr.conds[0].TcEq?
  }

  /** `applyTransitionHoldLocked` */
  function ApplyHold(w: Windows, tr: Transition, ti: nat, now: nat): (bool, Windows)
    requires ti < |w.holding| && ti < |w.metMs| && w.metMs[ti] < TWO32 && now < TWO32
  {
    if tr.holdMs == 0 || TcOnly(tr) then (true, w)
    else if !w.holding[ti] then (false, w.(holding := w.holding[ti := true], metMs := w.metMs[ti := now]))
    else if Since(now, w.metMs[ti]) < tr.holdMs then (false, w)
    else (true, w.(holding := w.holding[ti := false]))
  }

  /** `consumeMatchedTransitionTcLocked`: the confirm counters named from condition `i` on. */
  function ResetConfirm(confirm: seq<nat>, conds: seq<CondExpr>): (r: seq<nat>)
    ensures |r| == |confirm|
  {
    if conds == [] then confirm
    else
      var c := conds[|conds| - 1];
      var rest := ResetConfirm(confirm, conds[..|conds| - 1]);
      if c.TcEq? && c.confirm && TcIndex(c.tc) < |confirm| then rest[TcIndex(c.tc) := 0] else rest
  }

  function Consume(e: Engine, tr: Transition): Engine {
    e.(pendingTc := NoTc, confirm := ResetConfirm(e.confirm, tr.conds))
  }

  datatype Evaluated = Evaluated(e: Engine, truths: seq<bool>, fired: Option<nat>)

  /** What a compound result does: reset the hold window, wait in it, or fire and consume the telecommand. */
  function Settle(c: Compound, tr: Transition, ti: nat, env: TickEnv): (bool, Engine)
    requires Sane(c.e) && ti < AMS_MAX_TRANSITIONS
  {
    if !c.holds then (false, c.e.(windows := c.e.windows.(holding := c.e.windows.holding[ti := false])))
    else
      var (fires, w) := ApplyHold(c.e.windows, tr, ti, Millis(env.t));
      var held := c.e.(windows := w);
      (fires, if fires && c.tcMatch then Consume(held, tr) else held)
  }

  lemma SettleKeeps(c: Compound, tr: Transition, ti: nat, env: TickEnv)
    requires Sane(c.e) && ti < AMS_MAX_TRANSITIONS
    ensures Sane(Settle(c, tr, ti, env).1) && SameButWindows(c.e, Settle(c, tr, ti, env).1)
    ensures Settle(c, tr, ti, env).0 ==> c.holds
  {
    hide ResetConfirm;
    ResetConfirmLength(c.e.confirm, tr.conds);
  }

  lemma ResetConfirmLength(confirm: seq<nat>, conds: seq<CondExpr>)
    ensures |ResetConfirm(confirm, conds)| == |confirm|
  {
  }

  /** Transitions from `ti` on in declaration order; `truths` collects their compound results. */
  function EvalTransitions(e: Engine, sd: StateDef, ti: nat, truths: seq<bool>, env: TickEnv): Evaluated
    requires Sane(e) && Fits(sd) && ti <= |sd.transitions|
    decreases |sd.transitions| - ti
  {
    if ti == |sd.transitions| then Evaluated(e, truths, None)
    else
      var tr := sd.transitions[ti];
      if |tr.conds| == 0 then EvalTransitions(e, sd, ti + 1, truths + [false], env)
      else
        EvalCondsSane(e, tr, ti, 0, tr.isAnd, false, env);
        var c := EvalConds(e, tr, ti, 0, tr.isAnd, false, env);
        SettleKeeps(c, tr, ti, env);
        var (fires, next) := Settle(c, tr, ti, env);
        if fires then Evaluated(next, truths + [true], Some(ti))
        else EvalTransitions(next, sd, ti + 1, truths + [c.holds], env)
  }

  lemma SameTransitive(e: Engine, f: Engine, g: Engine)
    requires SameButWindows(e, f) && SameButWindows(f, g)
    ensures SameButWindows(e, g)
  {
  }

  lemma DeltasAreWindows(e: Engine, f: Engine)
    requires SameButDeltas(e, f)
    ensures SameButWindows(e, f)
  {
  }

  lemma RememberSane(e: Engine, c: CondExpr, ti: nat, i: nat, env: TickEnv)
    requires Sane(e) && ti < AMS_MAX_TRANSITIONS && i < AMS_MAX_TRANSITION_CONDS
    ensures Flat(ti, i) < PREV_SLOTS == |e.windows.prevVal| == |e.windows.prevValid|
    ensures var f := e.(windows := Remember(e.windows, c, Flat(ti, i), env));
            Sane(f) && SameButDeltas(e, f)
  {
    hide Fits;
  }

  lemma {:induction false} EvalCondsSane(e: Engine, tr: Transition, ti: nat, i: nat, holds: bool, tcMatch: bool,
                                         env: TickEnv)
    requires Sane(e) && ti < AMS_MAX_TRANSITIONS && i <= |tr.conds| <= AMS_MAX_TRANSITION_CONDS
    ensures Sane(EvalConds(e, tr, ti, i, holds, tcMatch, env).e)
    ensures SameButDeltas(e, EvalConds(e, tr, ti, i, holds, tcMatch, env).e)
    decreases |tr.conds| - i
  {
    hide CondHolds, Remember, Sane;
    if i < |tr.conds| {
      RememberSane(e, tr.conds[i], ti, i, env);
      var c, flat := tr.conds[i], Flat(ti, i);
      var r := CondHolds(e, c, flat, env);
      EvalCondsSane(e.(windows := Remember(e.windows, c, flat, env)), tr, ti, i + 1,
                    if tr.isAnd then holds && r else holds || r, tcMatch || (r && c.TcEq?), env);
    }
  }

  /** Only delta baselines may differ. */
  predicate SameButDeltas(e: Engine, f: Engine) {
    && f == e.(windows := f.windows)
    && f.windows == e.windows.(prevVal := f.windows.prevVal, prevValid := f.windows.prevValid)
  }

  // ----- Guards -----

  predicate GuardOk(e: Engine, g: Guard, i: nat, env: TickEnv)
    requires e.timers.enterMs < TWO32
  {
    match g
    case TimeGuard(ms) => Since(Millis(env.t), e.timers.enterMs) <= ms
    case SensorGuard => env.guardHolds(i)
  }

  predicate AnyViolation(e: Engine, sd: StateDef, env: TickEnv)
    requires e.timers.enterMs < TWO32
  {
    exists i :: 0 <= i < |sd.guards| && !GuardOk(e, sd.guards[i], i, env)
  }

  // ----- Scheduled actions -----

  predicate SlotDue(slot: Slot, lastMs: nat, now: nat)
    requires lastMs < TWO32 && now < TWO32
  {
    slot.everyMs > 0 && slot.fieldCount > 0 && Since(now, lastMs) >= slot.everyMs
  }

  /** One report of every due slot: the timestamp advances by the period, not to the present. */
  function Advance(slots: seq<Slot>, lastMs: seq<nat>, now: nat): seq<nat>
    requires |slots| <= |lastMs| && now < TWO32 && forall i :: 0 <= i < |lastMs| ==> lastMs[i] < TWO32
  {
    seq(|lastMs|, i requires 0 <= i < |lastMs| =>
      if i < |slots| && SlotDue(slots[i], lastMs[i], now) then (lastMs[i] + slots[i].everyMs) % TWO32 else lastMs[i])
  }

  function CountUp(slots: seq<Slot>, lastMs: seq<nat>, now: nat, counts: seq<nat>): seq<nat>
    requires |slots| <= |lastMs| && now < TWO32 && forall i :: 0 <= i < |lastMs| ==> lastMs[i] < TWO32
  {
    seq(|counts|, i requires 0 <= i < |counts| =>
      if i < |slots| && i < |lastMs| && SlotDue(slots[i], lastMs[i], now) then counts[i] + 1 else counts[i])
  }

  predicate AnyDue(slots: seq<Slot>, lastMs: seq<nat>, now: nat)
    requires |slots| <= |lastMs| && now < TWO32 && forall i :: 0 <= i < |lastMs| ==> lastMs[i] < TWO32
  {
    exists i :: 0 <= i < |slots| && SlotDue(slots[i], lastMs[i], now)
  }

  function ClampBudget(budget: nat): nat {
    if budget == 0 then 1 else if budget > 3 then 3 else budget
  }

  /** Which of event, HK and LOG goes next: the first of highest priority among those due. */
  function PickBest(eventP: nat, hkP: nat, logP: nat, due: (bool, bool, bool)): Option<nat> {
    if due.0 && (!due.1 || eventP >= hkP) && (!due.2 || eventP >= logP) then Some(0)
    else if due.1 && (!due.2 || hkP >= logP) then Some(1)
    else if due.2 then Some(2)
    else None
  }

  function FireHk(e: Engine, sd: StateDef, now: nat): Engine
    requires Sane(e) && Fits(sd) && now < TWO32
  {
    e.(timers := e.timers.(hkMs := Advance(sd.hkSlots, e.timers.hkMs, now)),
       history := e.history.(hkCount := CountUp(sd.hkSlots, e.timers.hkMs, now, e.history.hkCount)))
  }

  function FireLog(e: Engine, sd: StateDef, now: nat): Engine
    requires Sane(e) && Fits(sd) && now < TWO32
  {
    e.(timers := e.timers.(logMs := Advance(sd.logSlots, e.timers.logMs, now)),
       history := e.history.(logCount := CountUp(sd.logSlots, e.timers.logMs, now, e.history.logCount)))
  }

  /** `steps` rounds of the action budget; each kind of action runs at most once. */
  function RunActions(e: Engine, sd: StateDef, now: nat, due: (bool, bool, bool), steps: nat): Engine
    requires Sane(e) && Fits(sd) && now < TWO32
    decreases steps
  {
    if steps == 0 then e
    else match PickBest(sd.eventPriority, sd.hkPriority, sd.logPriority, due)
      case None => e
      case Some(k) =>
        if k == 0 then RunActions(e.(pendingEvent := false), sd, now, (false, due.1, due.2), steps - 1)
        else if k == 1 then RunActions(FireHk(e, sd, now), sd, now, (due.0, false, due.2), steps - 1)
        else RunActions(FireLog(e, sd, now), sd, now, (due.0, due.1, false), steps - 1)
  }

  function ExecuteDueActions(e: Engine, sd: StateDef, now: nat): Engine
    requires Sane(e) && Fits(sd) && now < TWO32
  {
    RunActions(e, sd, now,
               (e.pendingEvent, AnyDue(sd.hkSlots, e.timers.hkMs, now), AnyDue(sd.logSlots, e.timers.logMs, now)),
               ClampBudget(sd.actionBudget))
  }

  predicate TaskActive(td: TaskDef, current: nat) {
    td.filter.Some? ==> current in td.active
  }

  /** Task timers after `runTasksLocked`. */
  function RunTasks(tasks: seq<TaskDef>, taskMs: seq<nat>, current: nat, now: nat): seq<nat>
    requires |tasks| <= |taskMs| && now < TWO32 && forall i :: 0 <= i < |taskMs| ==> taskMs[i] < TWO32
  {
    seq(|taskMs|, i requires 0 <= i < |taskMs| =>
      if i < |tasks| && tasks[i].everyMs > 0
         && (!TaskActive(tasks[i], current) || Since(now, taskMs[i]) >= tasks[i].everyMs)
      then now else taskMs[i])
  }

  predicate Terminal(e: Engine, sd: StateDef) {
    && |sd.transitions| == 0 && sd.fallback.None? && sd.onTimeout.None?
    && !e.pendingEvent && |sd.hkSlots| == 0 && |sd.logSlots| == 0
  }

  function Finish(e: Engine, sd: StateDef): Engine {
    if Terminal(e, sd) && e.status == Running then Clear(e.(running := false, status := Complete)) else e
  }

  // ----- The tick -----

  predicate JumpDue(e: Engine, j: Option<Jump>, afterMs: nat, env: TickEnv)
    requires e.timers.enterMs < TWO32
  {
    j.Some? && j.value.resolved && Since(Millis(env.t), e.timers.enterMs) >= afterMs
  }

  function Fire(e: Engine, tr: Transition, env: TickEnv): Engine
    requires e.checkpointMs < TWO32
  {
    if !tr.resolved || tr.targetIndex >= |e.program.states| then SetError(e, InvalidTarget)
    else Enter(e, tr.targetIndex, env)
  }

  /** The engine after the transitions of the current state were evaluated, with the tick noted. */
  function Noted(v: Evaluated, env: TickEnv): Engine {
    v.e.(history := v.e.history.(stay := v.e.history.stay + [Ticked(env.t, v.truths, Seen(env))]))
  }

  /** What a tick does when no transition fires. */
  function Idling(e: Engine, sd: StateDef, env: TickEnv): Engine
    requires Sane(e) && Fits(sd)
  {
    if JumpDue(e, sd.onTimeout, sd.onTimeoutMs, env) then Enter(e, sd.onTimeout.value.index, env)
    else if JumpDue(e, sd.fallback, sd.fallbackAfterMs, env) then Enter(e, sd.fallback.value.index, env)
    else if e.pendingTc == Abort then Deactivate(e)
    else if AnyViolation(e, sd, env) then
      if sd.onError.Some? && sd.onError.value.resolved then Enter(e, sd.onError.value.index, env)
      else SetError(e, GuardViolated)
    else Acting(e, sd, env)
  }

  /** Reports, background tasks, the periodic checkpoint and the end of the mission. */
  function Acting(e: Engine, sd: StateDef, env: TickEnv): Engine
    requires Sane(e) && Fits(sd)
  {
    var now := Millis(env.t);
    var acted := ExecuteDueActions(e, sd, now);
    ActionsKeep(e, sd, now);
    var taskMs := RunTasks(e.program.tasks, acted.timers.taskMs, e.current, now);
    var tasked := acted.(timers := acted.timers.(taskMs := taskMs));
    Finish(Save(tasked, now, false, env.storageOk), sd)
  }

  function Tick(e: Engine, env: TickEnv): Engine
    requires Sane(e)
  {
    if !e.running || e.status != Running || !e.enabled then e
    else if e.current >= |e.program.states| then SetError(e, StateOutOfRange)
    else
      var sd := e.program.states[e.current];
      var v := EvalTransitions(e, sd, 0, [], env);
      EvalTransitionsKeeps(e, sd, 0, [], env);
      if v.fired.Some? then Fire(Noted(v, env), sd.transitions[v.fired.value], env)
      else Idling(Noted(v, env), sd, env)
  }

  /** Only windows and telecommand bookkeeping may differ. */
  predicate SameButWindows(e: Engine, f: Engine) {
    f == e.(windows := f.windows, pendingTc := f.pendingTc, confirm := f.confirm)
  }

  lemma {:induction false} EvalTransitionsKeeps(e: Engine, sd: StateDef, ti: nat, truths: seq<bool>, env: TickEnv)
    requires Sane(e) && Fits(sd) && ti <= |sd.transitions|
    ensures Sane(EvalTransitions(e, sd, ti, truths, env).e)
    ensures SameButWindows(e, EvalTransitions(e, sd, ti, truths, env).e)
    ensures EvalTransitions(e, sd, ti, truths, env).fired.Some? ==>
              ti <= EvalTransitions(e, sd, ti, truths, env).fired.value < |sd.transitions|
    decreases |sd.transitions| - ti
  {
    hide EvalConds, Settle, Sane, SameButWindows, SameButDeltas;
    if ti < |sd.transitions| {
      var tr := sd.transitions[ti];
      if |tr.conds| == 0 {
        EvalTransitionsKeeps(e, sd, ti + 1, truths + [false], env);
      } else {
        EvalCondsSane(e, tr, ti, 0, tr.isAnd, false, env);
        var c := EvalConds(e, tr, ti, 0, tr.isAnd, false, env);
        SettleKeeps(c, tr, ti, env);
        var (fires, next) := Settle(c, tr, ti, env);
        DeltasAreWindows(e, c.e);
        SameTransitive(e, c.e, next);
        if !fires {
          EvalTransitionsKeeps(next, sd, ti + 1, truths + [c.holds], env);
          SameTransitive(e, next, EvalTransitions(e, sd, ti, truths, env).e);
        }
      }
    } else {
      SameRefl(e);
    }
  }

  lemma SameRefl(e: Engine)
    ensures SameButWindows(e, e)
  {
  }

  /** Actions move report timers and counters and may clear the pending event. */
  predicate SameButReports(e: Engine, f: Engine) {
    && f == e.(pendingEvent := f.pendingEvent, timers := f.timers, history := f.history)
    && f.timers == e.timers.(hkMs := f.timers.hkMs, logMs := f.timers.logMs)
    && f.history == e.history.(hkCount := f.history.hkCount, logCount := f.history.logCount)
  }

  lemma {:induction false} RunActionsKeep(e: Engine, sd: StateDef, now: nat, due: (bool, bool, bool), steps: nat)
    requires Sane(e) && Fits(sd) && now < TWO32
    ensures Sane(RunActions(e, sd, now, due, steps)) && SameButReports(e, RunActions(e, sd, now, due, steps))
    decreases steps
  {
    hide PickBest, FireHk, FireLog, Sane, SameButReports;
    ReportsRefl(e);
    if steps > 0 {
      match PickBest(sd.eventPriority, sd.hkPriority, sd.logPriority, due)
      case None =>
      case Some(k) =>
        FireKeeps(e, sd, now);
        var next, left := e.(pendingEvent := false), (false, due.1, due.2);
        if k == 1 {
          next, left := FireHk(e, sd, now), (due.0, false, due.2);
        } else if k != 0 {
          next, left := FireLog(e, sd, now), (due.0, due.1, false);
        }
        RunActionsKeep(next, sd, now, left, steps - 1);
        ReportsTransitive(e, next, RunActions(next, sd, now, left, steps - 1));
    }
  }

  lemma FireKeeps(e: Engine, sd: StateDef, now: nat)
    requires Sane(e) && Fits(sd) && now < TWO32
    ensures Sane(e.(pendingEvent := false)) && SameButReports(e, e.(pendingEvent := false))
    ensures Sane(FireHk(e, sd, now)) && SameButReports(e, FireHk(e, sd, now))
    ensures Sane(FireLog(e, sd, now)) && SameButReports(e, FireLog(e, sd, now))
  {
    hide SlotDue;
  }

  lemma ReportsRefl(e: Engine)
    ensures SameButReports(e, e)
  {
  }

  lemma ReportsTransitive(e: Engine, f: Engine, g: Engine)
    requires SameButReports(e, f) && SameButReports(f, g)
    ensures SameButReports(e, g)
  {
  }

  lemma ActionsKeep(e: Engine, sd: StateDef, now: nat)
    requires Sane(e) && Fits(sd) && now < TWO32
    ensures Sane(ExecuteDueActions(e, sd, now)) && SameButReports(e, ExecuteDueActions(e, sd, now))
  {
    hide RunActions, AnyDue;
    RunActionsKeep(e, sd, now,
                   (e.pendingEvent, AnyDue(sd.hkSlots, e.timers.hkMs, now), AnyDue(sd.logSlots, e.timers.logMs, now)),
                   ClampBudget(sd.actionBudget));
  }

  // ----- The other public calls -----

  /** A script file read and compiled, or what a failed compilation left in the tables. */
  datatype Load = Compiled(p: Program) | Broken(partial: Program)

  function Activate(e: Engine, file: string, load: Load, env: TickEnv): Engine
    requires Sane(e)
  {
    match load
    case Broken(partial) => SetError(e.(program := partial), LoadFailed)
    case Compiled(p) =>
      var start := if FindState(p.states, "WAIT") < |p.states| then FindState(p.states, "WAIT") else 0;
      var zero := Fill(AMS_MAX_HK_SLOTS, 0);
      Enter(e.(program := p, file := ActiveName(file), reason := NoReason, status := Loaded, running := true,
               enabled := false, pendingTc := NoTc, pendingEvent := false,
               timers := e.timers.(hkMs := zero, logMs := zero),
               history := e.history.(trail := [])),
            start, env)
  }

  function Inject(e: Engine, tc: TcCommand): Engine
    requires Sane(e)
  {
    var k := TcIndex(tc);
    e.(pendingTc := tc,
       confirm := if k < CONFIRM_SLOTS && e.confirm[k] < 255 then e.confirm[k := e.confirm[k] + 1] else e.confirm,
       history := e.history.(tcs := e.history.tcs + [tc]))
  }

  function Arm(e: Engine, env: TickEnv): Engine
    requires Sane(e)
  {
    if e.status != Loaded then e
    else Save(e.(enabled := true, status := Running, pendingTc := Launch), Millis(env.t), true, env.storageOk)
  }

  function SetExecution(e: Engine, on: bool, env: TickEnv): Engine
    requires Sane(e)
  {
    var f := e.(enabled := on);
    var g := if on && e.status == Loaded then f.(status := Running)
             else if !on && e.status == Running then
               f.(status := Loaded,
                  windows := f.windows.(holding := Fill(AMS_MAX_TRANSITIONS, false),
                                        metMs := Fill(AMS_MAX_TRANSITIONS, 0)),
                  history := f.history.(stay := f.history.stay + [Paused(env.t)]))
             else f;
    Save(g, Millis(env.t), true, env.storageOk)
  }

  /** The true times of the last reports. */
  function LastReports(slots: seq<Slot>, from: seq<int>, counts: seq<nat>): seq<int> {
    seq(|from|, i requires 0 <= i < |from| =>
      if i < |slots| && i < |counts| then from[i] + counts[i] * slots[i].everyMs else from[i])
  }

  /** SET_TELEM_INTERVAL: every HK slot of the current state takes the new period. */
  function SetInterval(e: Engine, ms: nat): Engine {
    if e.current >= |e.program.states| then e
    else
      var sd := e.program.states[e.current];
      var slots := seq(|sd.hkSlots|, i requires 0 <= i < |sd.hkSlots| => sd.hkSlots[i].(everyMs := ms));
      e.(program := e.program.(states := e.program.states[e.current := sd.(hkSlots := slots)]),
         history := e.history.(hkFrom := LastReports(sd.hkSlots, e.history.hkFrom, e.history.hkCount),
                               hkCount := Fill(AMS_MAX_HK_SLOTS, 0)))
  }

  /** The values of a parsed checkpoint record that decide whether the mission goes on. */
  datatype Record = Record(state: nat, exec: bool, running: bool, status: nat,
                           stateElapsed: nat, hkElapsed: seq<nat>, logElapsed: seq<nat>)

  /** What `begin` finds in storage. */
  datatype Stored = Nothing | Unreadable | Found(file: string, record: Record, load: Load)

  function StatusOf(n: nat): Option<Status> {
    if n == 0 then Some(Idle) else if n == 1 then Some(Running) else if n == 2 then Some(Error)
    else if n == 3 then Some(Complete) else if n == 4 then Some(Loaded) else None
  }

  function StatusCode(s: Status): nat {
    match s
    case Idle => 0
    case Running => 1
    case Error => 2
    case Complete => 3
    case Loaded => 4
  }

  /** `tryRestoreResumePointLocked`, run once on a fresh engine. */
  function Begin(stored: Stored, env: TickEnv): Engine
    requires stored.Found? ==> |stored.record.hkElapsed| == |stored.record.logElapsed| == AMS_MAX_HK_SLOTS
                               && RecordSane(stored.record)
  {
    var boot := Boot(stored != Nothing);
    match stored
    case Nothing => boot
    case Unreadable => Clear(boot)
    case Found(file, r, Broken(partial)) => SetError(boot.(program := partial), LoadFailed)
    case Found(file, r, Compiled(p)) =>
      var loaded := boot.(program := p, file := ActiveName(file));
      if r.state >= |p.states| then SetError(loaded, ResumeOutOfRange)
      else Resume(loaded, r, env)
  }

  predicate RecordSane(r: Record) {
    && r.stateElapsed < TWO32
    && (forall i :: 0 <= i < |r.hkElapsed| ==> r.hkElapsed[i] < TWO32)
    && (forall i :: 0 <= i < |r.logElapsed| ==> r.logElapsed[i] < TWO32)
  }

  /** The first part of `applyCheckpointStateLocked`. */
  function Placed(e: Engine, r: Record, env: TickEnv): Engine
    requires RecordSane(r)
  {
    var now := Millis(env.t);
    e.(current := r.state, running := r.running, enabled := r.exec,
       timers := e.timers.(enterMs := Since(now, r.stateElapsed),
                           hkMs := Fill(AMS_MAX_HK_SLOTS, now), logMs := Fill(AMS_MAX_HK_SLOTS, now)),
       history := NewStay([r.state], env.t).(enterT := env.t - r.stateElapsed))
  }

  /** The report timers as `restoreCheckpointSlots` sets them. */
  function SlotsBack(e: Engine, r: Record, env: TickEnv): Engine
    requires RecordSane(r)
  {
    var now := Millis(env.t);
    e.(timers := e.timers.(hkMs := Ago(now, r.hkElapsed), logMs := Ago(now, r.logElapsed)),
       history := e.history.(hkFrom := TrueAgo(env.t, r.hkElapsed), logFrom := TrueAgo(env.t, r.logElapsed)))
  }

  function Resume(e: Engine, r: Record, env: TickEnv): Engine
    requires RecordSane(r) && e.checkpointMs < TWO32
  {
    var placed := Placed(e, r, env);
    match StatusOf(r.status)
    case None => Clear(placed)
    case Some(s) =>
      var known := placed.(status := s, checkpointMs := Millis(env.t));
      if !r.running || !r.exec || s != Running then Clear(known)
      else Save(SlotsBack(known, r, env), Millis(env.t), true, env.storageOk)
  }

  function Ago(now: nat, elapsed: seq<nat>): seq<nat>
    requires now < TWO32 && forall i :: 0 <= i < |elapsed| ==> elapsed[i] < TWO32
  {
    seq(|elapsed|, i requires 0 <= i < |elapsed| => Since(now, elapsed[i]))
  }

  /** The same in true time. */
  function TrueAgo(t: nat, elapsed: seq<nat>): seq<int> {
    seq(|elapsed|, i requires 0 <= i < |elapsed| => t - elapsed[i])
  }

  // ----- Runs -----

  datatype Op =
    | OpTick(env: TickEnv)
    | OpActivate(file: string, load: Load, env: TickEnv)
    | OpDeactivate
    | OpInject(tc: TcCommand)
    | OpArm(env: TickEnv)
    | OpSetExecution(on: bool, env: TickEnv)
    | OpSetInterval(ms: nat)

  /** What the file system and the compiler guarantee about an activation. */
  predicate Allowed(op: Op) {
    match op
    case OpActivate(file, Compiled(p), env) => file != "" && WellFormed(p)
    case OpActivate(file, Broken(p), env) => |p.tasks| <= AMS_MAX_TASKS && forall sd :: sd in p.states ==> Fits(sd)
    case _ => true
  }

  function Apply(e: Engine, op: Op): Engine
    requires Sane(e)
  {
    match op
    case OpTick(env) => Tick(e, env)
    case OpActivate(file, load, env) => Activate(e, file, load, env)
    case OpDeactivate => Deactivate(e)
    case OpInject(tc) => Inject(e, tc)
    case OpArm(env) => Arm(e, env)
    case OpSetExecution(on, env) => SetExecution(e, on, env)
    case OpSetInterval(ms) => SetInterval(e, ms)
  }
}
