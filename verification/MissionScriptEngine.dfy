/**
 The engine object of src/ams/mission_script_engine.cpp. Every method works in place on the fields and
 is proved to do what the function of the same step in MissionEngine does.
 */
module MissionScriptEngine {
  import opened Wrappers
  import opened MissionProgram
  import opened Clock32
  import opened MissionEngine
  import opened EngineSafety
  import opened Scheduling

  class ScriptEngine {
    var program: Program
    var status: Status
    var activeFile: string
    var running: bool
    var executionEnabled: bool
    var currentState: nat
    var timers: Timers
    var windows: Windows
    var pendingOnEnterEvent: bool
    var pendingTc: TcCommand
    var tcConfirmCount: seq<nat>
    /** Storage holds a resume record. */
    var checkpoint: bool
    var lastCheckpointMs: nat
    var lastError: Reason
    ghost var history: History

    ghost function Now(): Engine
      reads this
    {
      Engine(program, status, activeFile, running, executionEnabled, currentState, timers, windows,
             pendingOnEnterEvent, pendingTc, tcConfirmCount, checkpoint, lastCheckpointMs, lastError, history)
    }

    ghost predicate Valid()
      reads this
    {
      Safe(Now())
    }

    // ----- Checkpoints and errors -----

    method ClearResumePoint()
      modifies this
      ensures Now() == Clear(old(Now()))
    {
      checkpoint := false;
    }

    method SetErrorLocked(reason: Reason)
      modifies this
      ensures Now() == SetError(old(Now()), reason)
    {
      running := false;
      status := Error;
      lastError := reason;
      ClearResumePoint();
    }

    method SaveResumePoint(now: nat, force: bool, storageOk: bool)
      requires lastCheckpointMs < TWO32 && now < TWO32
      modifies this
      ensures Now() == Save(old(Now()), now, force, storageOk)
    {
      if !running || activeFile == "" { return; }
      if !force && Since(now, lastCheckpointMs) < CHECKPOINT_INTERVAL_MS { return; }
      if currentState >= |program.states| { return; }
      if !storageOk { return; }
      checkpoint := true;
      lastCheckpointMs := now;
    }

    method DeactivateLocked()
      modifies this
      ensures Now() == Deactivate(old(Now()))
    {
      hide NoWindows, Fill, Clear;
      ghost var e := Now();
      running, executionEnabled, status, lastError := false, false, Idle, NoReason;
      program, activeFile := NO_PROGRAM, "";
      pendingTc, pendingOnEnterEvent, windows := NoTc, false, NoWindows();
      timers := timers.(taskMs := Fill(AMS_MAX_TASKS, 0));
      history := history.(stay := []);
      ghost var f := Now();
      assert f == e.(running := false, enabled := false, status := Idle, program := NO_PROGRAM, file := "",
                     reason := NoReason, pendingTc := NoTc, pendingEvent := false, windows := NoWindows(),
                     timers := e.timers.(taskMs := Fill(AMS_MAX_TASKS, 0)),
                     history := e.history.(stay := []));
      ClearResumePoint();
      assert Now() == Clear(f);
    }

    // ----- Entering a state -----

    method ExecutePulseActions(sd: StateDef, env: TickEnv)
      modifies this
      ensures Now() == FirePulses(old(Now()), sd, env)
    {
      if !env.pulseFitted || !executionEnabled || status != Running { return; }
      var i := 0;
      while i < sd.pulseCount
        invariant i <= sd.pulseCount
        invariant Now() == if i == 0 || env.pulseOk then old(Now()) else SetError(old(Now()), PulseRejected)
      {
        if !env.pulseOk {
          SetErrorLocked(PulseRejected);
        }
        i := i + 1;
      }
    }

    /** The field resets of `enterStateLocked`. */
    method MoveTo(idx: nat, env: TickEnv)
      modifies this
      ensures Now() == Moved(old(Now()), idx, env)
    {
      hide NoWindows, Fill;
      ghost var e := Now();
      var now := Millis(env.t);
      currentState, windows := idx, NoWindows();
      timers := Timers(now, Fill(AMS_MAX_HK_SLOTS, now), Fill(AMS_MAX_HK_SLOTS, now), timers.taskMs);
      tcConfirmCount := Fill(CONFIRM_SLOTS, 0);
      history := NewStay(history.trail + [idx], env.t);
    }

    static ghost function Moved(e: Engine, idx: nat, env: TickEnv): Engine {
      e.(current := idx,
         timers := Timers(Millis(env.t), Fill(AMS_MAX_HK_SLOTS, Millis(env.t)),
                          Fill(AMS_MAX_HK_SLOTS, Millis(env.t)), e.timers.taskMs),
         windows := NoWindows(),
         confirm := Fill(CONFIRM_SLOTS, 0),
         history := NewStay(e.history.trail + [idx], env.t))
    }

    static lemma EnterMoves(e: Engine, idx: nat, env: TickEnv)
      requires e.checkpointMs < TWO32 && idx < |e.program.states|
      ensures var sd := e.program.states[idx];
              var fired := FirePulses(Moved(e, idx, env), sd, env);
              && fired.checkpointMs < TWO32 && fired.pendingEvent == e.pendingEvent
              && Enter(e, idx, env)
                 == Save(fired.(pendingEvent := sd.hasOnEnterEvent || e.pendingEvent), Millis(env.t), true,
                         env.storageOk)
    {
      hide Save;
      PulsesKeepClock(Moved(e, idx, env), e.program.states[idx], env);
    }

    method EnterState(idx: nat, env: TickEnv)
      requires lastCheckpointMs < TWO32
      modifies this
      ensures Now() == Enter(old(Now()), idx, env)
    {
      hide FirePulses, Save, Moved, SetError;
      if idx >= |program.states| {
        SetErrorLocked(EnterOutOfRange);
        return;
      }
      var sd := program.states[idx];
      EnterMoves(Now(), idx, env);
      hide Enter;
      MoveTo(idx, env);
      ExecutePulseActions(sd, env);
      ghost var fired := Now();
      pendingOnEnterEvent := sd.hasOnEnterEvent || pendingOnEnterEvent;
      assert Now() == fired.(pendingEvent := sd.hasOnEnterEvent || fired.pendingEvent);
      SaveResumePoint(Millis(env.t), true, env.storageOk);
    }

    static lemma PulsesKeepClock(e: Engine, sd: StateDef, env: TickEnv)
      ensures FirePulses(e, sd, env).checkpointMs == e.checkpointMs
      ensures FirePulses(e, sd, env).pendingEvent == e.pendingEvent
    {
    }

    // ----- Transitions -----

    /** One condition: its result, its note of a matching telecommand, its remembered value. */
    method EvaluateCondition(c: CondExpr, flat: nat, env: TickEnv) returns (result: bool)
      requires Sane(Now()) && flat < PREV_SLOTS
      modifies this
      ensures result == CondHolds(old(Now()), c, flat, env)
      ensures Now() == old(Now()).(windows := Remember(old(Now()).windows, c, flat, env))
    {
      result := false;
      match c {
        case TcEq(tc, confirm, n) =>
          if confirm {
            result := TcIndex(tc) < CONFIRM_SLOTS && tcConfirmCount[TcIndex(tc)] >= n;
          } else {
            result := pendingTc == tc;
          }
        case TimeGt(ms) =>
          result := Since(Millis(env.t), timers.enterMs) > ms;
        case SensorLt =>
          if env.threshold(flat).Some? && env.reading(flat).Some? {
            result := env.reading(flat).value < env.threshold(flat).value;
          }
        case SensorGt =>
          if env.threshold(flat).Some? && env.reading(flat).Some? {
            result := env.reading(flat).value > env.threshold(flat).value;
          }
        case DeltaLt =>
          result := EvaluateDelta(true, flat, env);
        case DeltaGt =>
          result := EvaluateDelta(false, flat, env);
      }
    }

    method EvaluateDelta(below: bool, flat: nat, env: TickEnv) returns (result: bool)
      requires Sane(Now()) && flat < PREV_SLOTS
      modifies this
      ensures result == CondHolds(old(Now()), if below then DeltaLt else DeltaGt, flat, env)
      ensures Now() == old(Now()).(windows :=
                         Remember(old(Now()).windows, if below then DeltaLt else DeltaGt, flat, env))
    {
      result := false;
      if env.reading(flat).Some? && env.threshold(flat).Some? {
        var cur, thr := env.reading(flat).value, env.threshold(flat).value;
        if windows.prevValid[flat] {
          var delta := cur - windows.prevVal[flat];
          result := if below then delta < thr else delta > thr;
        }
        windows := windows.(prevVal := windows.prevVal[flat := cur], prevValid := windows.prevValid[flat := true]);
      }
    }

    method EvaluateConds(tr: Transition, ti: nat, env: TickEnv) returns (compound: bool, tcPendingMatch: bool)
      requires Sane(Now()) && ti < AMS_MAX_TRANSITIONS && |tr.conds| <= AMS_MAX_TRANSITION_CONDS
      modifies this
      ensures Compound(Now(), compound, tcPendingMatch) == EvalConds(old(Now()), tr, ti, 0, tr.isAnd, false, env)
    {
      hide CondHolds, Remember, Sane, SameButDeltas;
      compound, tcPendingMatch := tr.isAnd, false;
      var i := 0;
      while i < |tr.conds|
        invariant i <= |tr.conds|
        invariant Sane(Now())
        invariant EvalConds(Now(), tr, ti, i, compound, tcPendingMatch, env)
               == EvalConds(old(Now()), tr, ti, 0, tr.isAnd, false, env)
      {
        RememberSane(Now(), tr.conds[i], ti, i, env);
        var condResult := EvaluateCondition(tr.conds[i], ti * AMS_MAX_TRANSITION_CONDS + i, env);
        if condResult && tr.conds[i].TcEq? {
          tcPendingMatch := true;
        }
        if tr.isAnd {
          compound := compound && condResult;
        } else {
          compound := compound || condResult;
        }
        i := i + 1;
      }
    }

    method ApplyTransitionHold(tr: Transition, ti: nat, now: nat) returns (fires: bool)
      requires Sane(Now()) && ti < AMS_MAX_TRANSITIONS && now < TWO32
      modifies this
      ensures fires == ApplyHold(old(Now()).windows, tr, ti, now).0
      ensures Now() == old(Now()).(windows := ApplyHold(old(Now()).windows, tr, ti, now).1)
    {
      var isTcOnly := |tr.conds| == 1 && tr.conds[0].TcEq?;
      if tr.holdMs == 0 || isTcOnly { return true; }
      if !windows.holding[ti] {
        windows := windows.(holding := windows.holding[ti := true], metMs := windows.metMs[ti := now]);
        return false;
      }
      if Since(now, windows.metMs[ti]) < tr.holdMs { return false; }
      windows := windows.(holding := windows.holding[ti := false]);
      return true;
    }

    method ConsumeMatchedTc(tr: Transition)
      modifies this
      ensures Now() == Consume(old(Now()), tr)
    {
      pendingTc := NoTc;
      var ci := 0;
      while ci < |tr.conds|
        invariant ci <= |tr.conds|
        invariant Now() == old(Now()).(pendingTc := NoTc, confirm := ResetConfirm(old(Now()).confirm, tr.conds[..ci]))
      {
        assert tr.conds[..ci + 1][..ci] == tr.conds[..ci];
        var c := tr.conds[ci];
        if c.TcEq? && c.confirm && TcIndex(c.tc) < |tcConfirmCount| {
          tcConfirmCount := tcConfirmCount[TcIndex(c.tc) := 0];
        }
        ci := ci + 1;
      }
      assert tr.conds[..ci] == tr.conds;
    }

    /** Compound result of one transition: window, firing, telecommand. */
    method SettleTransition(compound: bool, tcPendingMatch: bool, tr: Transition, ti: nat, env: TickEnv)
        returns (fires: bool)
      requires Sane(Now()) && ti < AMS_MAX_TRANSITIONS
      modifies this
      ensures (fires, Now()) == Settle(Compound(old(Now()), compound, tcPendingMatch), tr, ti, env)
    {
      hide ApplyHold, Consume;
      if !compound {
        windows := windows.(holding := windows.holding[ti := false]);
        return false;
      }
      fires := ApplyTransitionHold(tr, ti, Millis(env.t));
      if fires && tcPendingMatch {
        ConsumeMatchedTc(tr);
      }
    }

    /** The loop over the transitions of a state, up to the first that fires. */
    method EvaluateTransitions(sd: StateDef, env: TickEnv) returns (fired: Option<nat>)
      requires Sane(Now()) && Fits(sd)
      modifies this
      ensures var v := EvalTransitions(old(Now()), sd, 0, [], env);
              fired == v.fired && Now() == Noted(v, env)
    {
      hide EvalConds, Settle;
      ghost var truths: seq<bool> := [];
      ghost var v := EvalTransitions(Now(), sd, 0, [], env);
      fired := None;
      var ti := 0;
      while ti < |sd.transitions| && fired.None?
        invariant ti <= |sd.transitions| && Sane(Now())
        invariant fired.None? ==> EvalTransitions(Now(), sd, ti, truths, env) == v
        invariant fired.Some? ==> Evaluated(Now(), truths, fired) == v
        decreases |sd.transitions| - ti, fired.None?
      {
        var tr := sd.transitions[ti];
        if |tr.conds| == 0 {
          truths := truths + [false];
          ti := ti + 1;
        } else {
          EvalCondsSane(Now(), tr, ti, 0, tr.isAnd, false, env);
          var compound, tcPendingMatch := EvaluateConds(tr, ti, env);
          SettleKeeps(Compound(Now(), compound, tcPendingMatch), tr, ti, env);
          var fires := SettleTransition(compound, tcPendingMatch, tr, ti, env);
          truths := truths + [compound];
          if fires {
            fired := Some(ti);
          } else {
            ti := ti + 1;
          }
        }
      }
      history := history.(stay := history.stay + [Ticked(env.t, truths, Seen(env))]);
    }

    // ----- The rest of a tick -----

    method CheckOnTimeout(sd: StateDef, env: TickEnv) returns (left: bool)
      requires Sane(Now())
      modifies this
      ensures left == JumpDue(old(Now()), sd.onTimeout, sd.onTimeoutMs, env)
      ensures Now() == if left then Enter(old(Now()), sd.onTimeout.value.index, env) else old(Now())
    {
      hide Enter;
      if sd.onTimeout.None? || !sd.onTimeout.value.resolved { return false; }
      if Since(Millis(env.t), timers.enterMs) < sd.onTimeoutMs { return false; }
      EnterState(sd.onTimeout.value.index, env);
      return true;
    }

    /** All guards are looked at; one violation is enough. */
    method EvaluateGuards(sd: StateDef, env: TickEnv) returns (anyViolation: bool)
      requires Sane(Now())
      ensures anyViolation == AnyViolation(Now(), sd, env)
    {
      anyViolation := false;
      var i := 0;
      while i < |sd.guards|
        invariant i <= |sd.guards|
        invariant anyViolation == exists k :: 0 <= k < i && !GuardOk(Now(), sd.guards[k], k, env)
      {
        if !GuardHolds(sd.guards[i], i, env) {
          anyViolation := true;
        }
        i := i + 1;
      }
    }

    function GuardHolds(g: Guard, i: nat, env: TickEnv): (r: bool)
      requires timers.enterMs < TWO32
      reads this
      ensures r == GuardOk(Now(), g, i, env)
    {
      match g
      case TimeGuard(ms) => Since(Millis(env.t), timers.enterMs) <= ms
      case SensorGuard => env.guardHolds(i)
    }

    method ApplyGuardError(sd: StateDef, env: TickEnv)
      requires lastCheckpointMs < TWO32
      modifies this
      ensures Now() == if sd.onError.Some? && sd.onError.value.resolved
                       then Enter(old(Now()), sd.onError.value.index, env) else SetError(old(Now()), GuardViolated)
    {
      hide Enter, SetError;
      if sd.onError.Some? && sd.onError.value.resolved {
        EnterState(sd.onError.value.index, env);
      } else {
        SetErrorLocked(GuardViolated);
      }
    }

    /** One round of reports over the slots of one kind: which are due, and where their timers move. */
    static method SendDue(slots: seq<Slot>, lastMs: seq<nat>, now: nat) returns (moved: seq<nat>)
      requires |slots| <= |lastMs| && now < TWO32 && forall i :: 0 <= i < |lastMs| ==> lastMs[i] < TWO32
      ensures moved == Advance(slots, lastMs, now)
    {
      moved := lastMs;
      var s := 0;
      while s < |slots|
        invariant s <= |slots| && |moved| == |lastMs|
        invariant forall k :: 0 <= k < s ==> moved[k] == Advance(slots, lastMs, now)[k]
        invariant forall k :: s <= k < |lastMs| ==> moved[k] == lastMs[k]
      {
        if slots[s].everyMs > 0 && slots[s].fieldCount > 0 && Since(now, lastMs[s]) >= slots[s].everyMs {
          moved := moved[s := (lastMs[s] + slots[s].everyMs) % TWO32];
        }
        s := s + 1;
      }
    }

    static method SomeDue(slots: seq<Slot>, lastMs: seq<nat>, now: nat) returns (due: bool)
      requires |slots| <= |lastMs| && now < TWO32 && forall i :: 0 <= i < |lastMs| ==> lastMs[i] < TWO32
      ensures due == AnyDue(slots, lastMs, now)
    {
      hide SlotDue;
      var s := 0;
      due := false;
      while s < |slots| && !due
        invariant s <= |slots|
        invariant due ==> AnyDue(slots, lastMs, now)
        invariant !due ==> forall k :: 0 <= k < s ==> !SlotDue(slots[k], lastMs[k], now)
        decreases |slots| - s, !due
      {
        if SlotDue(slots[s], lastMs[s], now) {
          due := true;
        } else {
          s := s + 1;
        }
      }
    }

    /** `pickBestDueActionIndex`: the loop over the three kinds of action. */
    static method PickBestDue(priorities: seq<nat>, due: seq<bool>) returns (best: Option<nat>)
      requires |priorities| == |due| == 3
      ensures best == PickBest(priorities[0], priorities[1], priorities[2], (due[0], due[1], due[2]))
      ensures best.Some? ==> best.value < 3 && due[best.value]
    {
      best := None;
      var bestPriority := 0;
      var i := 0;
      while i < 3
        invariant i <= 3
        invariant best.None? ==> forall k :: 0 <= k < i ==> !due[k]
        invariant best.Some? ==> best.value < i && due[best.value] && bestPriority == priorities[best.value]
        invariant best.Some? ==> forall k :: 0 <= k < i && due[k] ==>
                    priorities[k] < bestPriority || (priorities[k] == bestPriority && best.value <= k)
      {
        if due[i] {
          if best.None? || priorities[i] > bestPriority {
            best := Some(i);
            bestPriority := priorities[i];
          }
        }
        i := i + 1;
      }
    }

    /** The chosen action: the entry event, the HK reports or the log rows. */
    method Report(kind: nat, sd: StateDef, now: nat)
      requires Sane(Now()) && Fits(sd) && now < TWO32
      modifies this
      ensures Now() == Reported(old(Now()), kind, sd, now)
    {
      hide Advance, CountUp;
      if kind == 0 {
        pendingOnEnterEvent := false;
      } else if kind == 1 {
        history := history.(hkCount := CountUp(sd.hkSlots, timers.hkMs, now, history.hkCount));
        var moved := SendDue(sd.hkSlots, timers.hkMs, now);
        timers := timers.(hkMs := moved);
      } else {
        history := history.(logCount := CountUp(sd.logSlots, timers.logMs, now, history.logCount));
        var moved := SendDue(sd.logSlots, timers.logMs, now);
        timers := timers.(logMs := moved);
      }
    }

    static ghost function Reported(e: Engine, kind: nat, sd: StateDef, now: nat): Engine
      requires Sane(e) && Fits(sd) && now < TWO32
    {
      if kind == 0 then e.(pendingEvent := false) else if kind == 1 then FireHk(e, sd, now) else FireLog(e, sd, now)
    }

    static lemma OneReport(e: Engine, sd: StateDef, now: nat, due: seq<bool>, steps: nat)
      requires Sane(e) && Fits(sd) && now < TWO32 && |due| == 3 && steps > 0
      ensures var best := PickBest(sd.eventPriority, sd.hkPriority, sd.logPriority, (due[0], due[1], due[2]));
              var all := RunActions(e, sd, now, (due[0], due[1], due[2]), steps);
              && (best.None? ==> all == e)
              && (best.Some? && best.value < 3 ==>
                    var next, left := Reported(e, best.value, sd, now), due[best.value := false];
                    && Sane(next)
                    && all == RunActions(next, sd, now, (left[0], left[1], left[2]), steps - 1))
    {
      hide FireHk, FireLog, PickBest, Sane;
      FireKeeps(e, sd, now);
    }

    static lemma BudgetSpent(e: Engine, sd: StateDef, now: nat, due: (bool, bool, bool))
      requires Sane(e) && Fits(sd) && now < TWO32
      ensures RunActions(e, sd, now, due, 0) == e
    {
    }

    static lemma TimersInRange(e: Engine)
      requires Sane(e)
      ensures |e.timers.hkMs| == |e.timers.logMs| == AMS_MAX_HK_SLOTS
      ensures forall i :: 0 <= i < AMS_MAX_HK_SLOTS ==> e.timers.hkMs[i] < TWO32 && e.timers.logMs[i] < TWO32
    {
    }

    method ExecuteDue(sd: StateDef, now: nat)
      requires Sane(Now()) && Fits(sd) && now < TWO32
      modifies this
      ensures Now() == ExecuteDueActions(old(Now()), sd, now)
    {
      hide Reported, RunActions, PickBest, AnyDue, Sane;
      TimersInRange(Now());
      var hkDue := SomeDue(sd.hkSlots, timers.hkMs, now);
      var logDue := SomeDue(sd.logSlots, timers.logMs, now);
      var due := [pendingOnEnterEvent, hkDue, logDue];
      var budget := ClampBudget(sd.actionBudget);
      var step, stop := 0, false;
      while step < budget && !stop
        invariant step <= budget && |due| == 3
        invariant Sane(Now())
        invariant ExecuteDueActions(old(Now()), sd, now)
               == if stop then Now() else RunActions(Now(), sd, now, (due[0], due[1], due[2]), budget - step)
        decreases budget - step, !stop
      {
        var best := PickBestDue([sd.eventPriority, sd.hkPriority, sd.logPriority], due);
        OneReport(Now(), sd, now, due, budget - step);
        if best.None? {
          stop := true;
        } else {
          Report(best.value, sd, now);
          due := due[best.value := false];
          step := step + 1;
        }
      }
      BudgetSpent(Now(), sd, now, (due[0], due[1], due[2]));
    }

    method RunTasksLocked(now: nat)
      requires Sane(Now()) && now < TWO32
      modifies this`timers
      ensures Now() == old(Now()).(timers := old(Now()).timers.(taskMs :=
                         RunTasks(old(program.tasks), old(timers.taskMs), old(currentState), now)))
    {
      ghost var before := timers.taskMs;
      assert |program.tasks| <= |before| && forall k :: 0 <= k < |before| ==> before[k] < TWO32;
      hide TaskActive, Sane, Since;
      ghost var after := RunTasks(program.tasks, before, currentState, now);
      var i := 0;
      while i < |program.tasks|
        invariant i <= |program.tasks|
        invariant |timers.taskMs| == |before|
        invariant timers == old(timers).(taskMs := timers.taskMs)
        invariant forall k :: 0 <= k < i ==> timers.taskMs[k] == after[k]
        invariant forall k :: i <= k < |before| ==> timers.taskMs[k] == before[k]
      {
        var td := program.tasks[i];
        if td.everyMs > 0 {
          if !TaskActive(td, currentState) || Since(now, timers.taskMs[i]) >= td.everyMs {
            timers := timers.(taskMs := timers.taskMs[i := now]);
          }
        }
        i := i + 1;
      }
      assert timers.taskMs == after;
    }

    method Act(sd: StateDef, env: TickEnv)
      requires Sane(Now()) && Fits(sd)
      modifies this
      ensures Now() == Acting(old(Now()), sd, env)
    {
      hide ExecuteDueActions, RunTasks, Save;
      var now := Millis(env.t);
      ActionsKeep(Now(), sd, now);
      ExecuteDue(sd, now);
      RunTasksLocked(now);
      SaveResumePoint(now, false, env.storageOk);
      if |sd.transitions| == 0 && sd.fallback.None? && sd.onTimeout.None? && !pendingOnEnterEvent
         && |sd.hkSlots| == 0 && |sd.logSlots| == 0 {
        if status == Running {
          running := false;
          status := Complete;
          ClearResumePoint();
        }
      }
    }

    method FireTransition(tr: Transition, env: TickEnv)
      requires lastCheckpointMs < TWO32
      modifies this
      ensures Now() == Fire(old(Now()), tr, env)
    {
      hide Enter, SetError;
      if !tr.resolved || tr.targetIndex >= |program.states| {
        SetErrorLocked(InvalidTarget);
        return;
      }
      EnterState(tr.targetIndex, env);
    }

    method TickEngine(env: TickEnv)
      requires Valid()
      modifies this
      ensures Valid() && Now() == Tick(old(Now()), env)
    {
      hide EvalTransitions, Enter, Acting, AnyViolation, SetError, Deactivate;
      TickSafe(Now(), env);
      if !running || status != Running || !executionEnabled { return; }
      if currentState >= |program.states| {
        assert false;
      }
      var sd := program.states[currentState];
      assert sd in program.states;
      EvalTransitionsKeeps(Now(), sd, 0, [], env);
      var fired := EvaluateTransitions(sd, env);
      if fired.Some? {
        FireTransition(sd.transitions[fired.value], env);
        return;
      }
      var left := CheckOnTimeout(sd, env);
      if left { return; }
      if sd.fallback.Some? && sd.fallback.value.resolved {
        if Since(Millis(env.t), timers.enterMs) >= sd.fallbackAfterMs {
          EnterState(sd.fallback.value.index, env);
          return;
        }
      }
      if pendingTc == Abort {
        DeactivateLocked();
        return;
      }
      var violated := EvaluateGuards(sd, env);
      if violated {
        ApplyGuardError(sd, env);
        return;
      }
      Act(sd, env);
    }

    // ----- The other public calls -----

    constructor (stored: bool)
      ensures Now() == Boot(stored)
    {
      program := NO_PROGRAM;
      status := Idle;
      activeFile := "";
      running := false;
      executionEnabled := false;
      currentState := 0;
      timers := Timers(0, Fill(AMS_MAX_HK_SLOTS, 0), Fill(AMS_MAX_HK_SLOTS, 0), Fill(AMS_MAX_TASKS, 0));
      windows := NoWindows();
      pendingOnEnterEvent := false;
      pendingTc := NoTc;
      tcConfirmCount := Fill(CONFIRM_SLOTS, 0);
      checkpoint := stored;
      lastCheckpointMs := 0;
      lastError := NoReason;
      history := NewStay([], 0);
    }

    method ActivateScript(file: string, load: Load, env: TickEnv)
      requires Valid() && Allowed(OpActivate(file, load, env))
      modifies this
      ensures Valid() && Now() == Activate(old(Now()), file, load, env)
    {
      hide Enter, WellFormed, Targets, NoDangling;
      ActivateSafe(Now(), file, load, env);
      match load {
        case Broken(partial) =>
          program := partial;
          SetErrorLocked(LoadFailed);
        case Compiled(p) =>
          StartMission(file, p);
          var startIdx := 0;
          var waitIdx := FindState(program.states, "WAIT");
          if waitIdx < |program.states| {
            startIdx := waitIdx;
          }
          EnterState(startIdx, env);
      }
    }

    /** The runtime fields of a mission that is loaded but not armed. */
    method StartMission(file: string, p: Program)
      modifies this
      ensures Now() == Started(old(Now()), file, p)
    {
      hide Fill, ActiveName;
      LoadTables(file, p);
      ghost var f := Now();
      pendingTc, pendingOnEnterEvent := NoTc, false;
      timers := timers.(hkMs := Fill(AMS_MAX_HK_SLOTS, 0), logMs := Fill(AMS_MAX_HK_SLOTS, 0));
      history := history.(trail := []);
      assert Now() == Fresh(f);
      StartedInSteps(old(Now()), file, p);
    }

    method LoadTables(file: string, p: Program)
      modifies this
      ensures Now() == Loading(old(Now()), file, p)
    {
      hide ActiveName;
      program, activeFile, lastError := p, ActiveName(file), NoReason;
      status, running, executionEnabled := Loaded, true, false;
    }

    static ghost function Loading(e: Engine, file: string, p: Program): Engine {
      e.(program := p, file := ActiveName(file), reason := NoReason, status := Loaded, running := true,
         enabled := false)
    }

    static ghost function Fresh(e: Engine): Engine {
      var zero := Fill(AMS_MAX_HK_SLOTS, 0);
      e.(pendingTc := NoTc, pendingEvent := false,
         timers := e.timers.(hkMs := zero, logMs := zero), history := e.history.(trail := []))
    }

    static ghost function Started(e: Engine, file: string, p: Program): Engine {
      var zero := Fill(AMS_MAX_HK_SLOTS, 0);
      e.(program := p, file := ActiveName(file), reason := NoReason, status := Loaded, running := true,
         enabled := false, pendingTc := NoTc, pendingEvent := false,
         timers := e.timers.(hkMs := zero, logMs := zero),
         history := e.history.(trail := []))
    }

    static lemma StartedInSteps(e: Engine, file: string, p: Program)
      ensures Fresh(Loading(e, file, p)) == Started(e, file, p)
    {
      hide Fill, ActiveName;
    }

    method DeactivateEngine()
      requires Valid()
      modifies this
      ensures Valid() && Now() == Deactivate(old(Now()))
    {
      DeactivateLocked();
    }

    method InjectTc(tc: TcCommand)
      requires Valid()
      modifies this
      ensures Valid() && Now() == Inject(old(Now()), tc)
    {
      InjectSafe(Now(), tc);
      hide Lifecycle, Targets, NoDangling;
      pendingTc := tc;
      var k := TcIndex(tc);
      if k < CONFIRM_SLOTS && tcConfirmCount[k] < 255 {
        tcConfirmCount := tcConfirmCount[k := tcConfirmCount[k] + 1];
      }
      history := history.(tcs := history.tcs + [tc]);
    }

    method ArmEngine(env: TickEnv) returns (ok: bool)
      requires Valid()
      modifies this
      ensures Valid() && Now() == Arm(old(Now()), env)
      ensures ok <==> old(status) == Loaded
    {
      hide Save, Targets, NoDangling;
      ArmSafe(Now(), env);
      if status != Loaded { return false; }
      executionEnabled := true;
      status := Running;
      pendingTc := Launch;
      SaveResumePoint(Millis(env.t), true, env.storageOk);
      return true;
    }

    method SetExecutionEnabled(on: bool, env: TickEnv)
      requires Valid()
      modifies this
      ensures Valid() && Now() == SetExecution(old(Now()), on, env)
    {
      hide Save, Safe, Switched;
      SafeClock(Now());
      SetExecutionSafe(Now(), on, env);
      SetExecutionSaves(Now(), on, env);
      hide SetExecution;
      Switch(on, env);
      SaveResumePoint(Millis(env.t), true, env.storageOk);
    }

    method Switch(on: bool, env: TickEnv)
      modifies this
      ensures Now() == Switched(old(Now()), on, env)
    {
      hide Fill;
      executionEnabled := on;
      if on && status == Loaded {
        status := Running;
      } else if !on && status == Running {
        status := Loaded;
        PauseHolds(env);
      }
    }

    static ghost function Switched(e: Engine, on: bool, env: TickEnv): Engine {
      if on && e.status == Loaded then e.(enabled := on, status := Running)
      else if !on && e.status == Running then Held(e.(enabled := on, status := Loaded), env)
      else e.(enabled := on)
    }

    static ghost function Held(e: Engine, env: TickEnv): Engine {
      e.(windows := e.windows.(holding := Fill(AMS_MAX_TRANSITIONS, false), metMs := Fill(AMS_MAX_TRANSITIONS, 0)),
         history := e.history.(stay := e.history.stay + [Paused(env.t)]))
    }

    static lemma SetExecutionSaves(e: Engine, on: bool, env: TickEnv)
      requires Sane(e)
      ensures Switched(e, on, env).checkpointMs < TWO32
      ensures SetExecution(e, on, env) == Save(Switched(e, on, env), Millis(env.t), true, env.storageOk)
    {
      hide Save, Fill;
    }

    /** `memset` of the hold windows, and the note that the mission paused. */
    method PauseHolds(env: TickEnv)
      modifies this
      ensures Now() == Held(old(Now()), env)
    {
      hide Fill;
      windows := windows.(holding := Fill(AMS_MAX_TRANSITIONS, false), metMs := Fill(AMS_MAX_TRANSITIONS, 0));
      history := history.(stay := history.stay + [Paused(env.t)]);
    }

    static lemma SafeClock(e: Engine)
      requires Safe(e)
      ensures Sane(e) && e.checkpointMs < TWO32
    {
    }

    method SetTelemInterval(ms: nat) returns (updated: bool)
      requires Valid()
      modifies this
      ensures Valid() && Now() == SetInterval(old(Now()), ms)
      ensures updated <==>
                old(currentState) < |old(program).states| && |old(program).states[old(currentState)].hkSlots| > 0
    {
      hide Safe;
      SetIntervalSafe(Now(), ms);
      if currentState >= |program.states| { return false; }
      var sd := program.states[currentState];
      var slots := sd.hkSlots;
      updated := false;
      var i := 0;
      while i < |sd.hkSlots|
        invariant i <= |sd.hkSlots| && |slots| == |sd.hkSlots|
        invariant updated <==> i > 0
        invariant forall k :: 0 <= k < i ==> slots[k] == sd.hkSlots[k].(everyMs := ms)
        invariant forall k :: i <= k < |slots| ==> slots[k] == sd.hkSlots[k]
      {
        slots := slots[i := slots[i].(everyMs := ms)];
        updated := true;
        i := i + 1;
      }
      assert slots == seq(|sd.hkSlots|, k requires 0 <= k < |sd.hkSlots| => sd.hkSlots[k].(everyMs := ms));
      program := program.(states := program.states[currentState := sd.(hkSlots := slots)]);
      history := history.(hkFrom := LastReports(sd.hkSlots, history.hkFrom, history.hkCount),
                          hkCount := Fill(AMS_MAX_HK_SLOTS, 0));
    }

    // ----- Resuming after a restart -----

    method PlaceRecord(r: Record, env: TickEnv)
      modifies this
      requires RecordSane(r)
      ensures Now() == Placed(old(Now()), r, env)
    {
      hide Fill, NewStay;
      var now := Millis(env.t);
      currentState, running, executionEnabled := r.state, r.running, r.exec;
      timers := timers.(enterMs := Since(now, r.stateElapsed),
                        hkMs := Fill(AMS_MAX_HK_SLOTS, now), logMs := Fill(AMS_MAX_HK_SLOTS, now));
      history := NewStay([r.state], env.t).(enterT := env.t - r.stateElapsed);
    }

    method RestoreSlots(r: Record, env: TickEnv)
      modifies this
      requires RecordSane(r)
      ensures Now() == SlotsBack(old(Now()), r, env) && lastCheckpointMs == old(lastCheckpointMs)
    {
      hide Ago, TrueAgo;
      var now := Millis(env.t);
      timers := timers.(hkMs := Ago(now, r.hkElapsed), logMs := Ago(now, r.logElapsed));
      history := history.(hkFrom := TrueAgo(env.t, r.hkElapsed), logFrom := TrueAgo(env.t, r.logElapsed));
    }

    method ResumeFrom(r: Record, env: TickEnv)
      requires RecordSane(r) && lastCheckpointMs < TWO32
      modifies this
      ensures Now() == Resume(old(Now()), r, env)
    {
      hide Placed, SlotsBack, Clear, Save;
      PlaceRecord(r, env);
      var known := StatusOf(r.status);
      if known.None? {
        ClearResumePoint();
        return;
      }
      status, lastCheckpointMs := known.value, Millis(env.t);
      if !r.running || !r.exec || status != Running {
        ClearResumePoint();
        return;
      }
      RestoreSlots(r, env);
      SaveResumePoint(Millis(env.t), true, env.storageOk);
    }

    /** `begin`: whatever storage holds, the engine ends up as BeginSafeIff describes. */
    method BeginEngine(stored: Stored, env: TickEnv)
      requires stored.Found? ==> |stored.record.hkElapsed| == |stored.record.logElapsed| == AMS_MAX_HK_SLOTS
                                 && RecordSane(stored.record)
      requires Now() == Boot(stored != Nothing)
      modifies this
      ensures Now() == Begin(stored, env)
    {
      hide Resume, NoWindows, Fill, Clear, SetError;
      match stored {
        case Nothing =>
        case Unreadable => ClearResumePoint();
        case Found(file, r, Broken(partial)) =>
          program := partial;
          SetErrorLocked(LoadFailed);
        case Found(file, r, Compiled(p)) =>
          program, activeFile := p, ActiveName(file);
          if r.state >= |program.states| {
            SetErrorLocked(ResumeOutOfRange);
            return;
          }
          ResumeFrom(r, env);
      }
    }

    // ----- Wake-up times -----

    static method DueFromSlots(slots: seq<Slot>, lastMs: seq<nat>, cur: nat) returns (next: nat)
      requires |slots| <= |lastMs|
      ensures next == Earliest(cur, SlotDues(slots, lastMs))
    {
      hide SlotDues, Earliest;
      next := cur;
      NoDues(cur, lastMs, 0);
      var i := 0;
      while i < |slots|
        invariant i <= |slots|
        invariant next == Earliest(cur, SlotDues(slots[..i], lastMs))
      {
        OneMoreSlot(slots, lastMs, i, cur);
        if slots[i].everyMs > 0 {
          var due := (lastMs[i] + slots[i].everyMs) % TWO32;
          if due < next { next := due; }
        }
        i := i + 1;
      }
      assert slots[..i] == slots;
    }

    static lemma NoDues(cur: nat, lastMs: seq<nat>, current: nat)
      ensures Earliest(cur, SlotDues([], lastMs)) == cur && Earliest(cur, TaskDues([], lastMs, current)) == cur
    {
    }

    static lemma OneMoreSlot(slots: seq<Slot>, lastMs: seq<nat>, i: nat, cur: nat)
      requires i < |slots| <= |lastMs|
      ensures var due := (lastMs[i] + slots[i].everyMs) % TWO32;
              var sofar := Earliest(cur, SlotDues(slots[..i], lastMs));
              Earliest(cur, SlotDues(slots[..i + 1], lastMs))
              == if slots[i].everyMs > 0 && due < sofar then due else sofar
    {
      hide Earliest;
      var dues := SlotDues(slots[..i], lastMs);
      assert slots[..i + 1][..i] == slots[..i];
      EarliestOfOneMore(cur, dues, (lastMs[i] + slots[i].everyMs) % TWO32);
      assert dues + [] == dues;
    }

    static method DueFromTasks(tasks: seq<TaskDef>, taskMs: seq<nat>, current: nat, cur: nat) returns (next: nat)
      requires |tasks| <= |taskMs|
      ensures next == Earliest(cur, TaskDues(tasks, taskMs, current))
    {
      hide TaskActive, TaskDues, Earliest;
      next := cur;
      NoDues(cur, taskMs, current);
      var i := 0;
      while i < |tasks|
        invariant i <= |tasks|
        invariant next == Earliest(cur, TaskDues(tasks[..i], taskMs, current))
      {
        OneMoreTask(tasks, taskMs, current, i, cur);
        if tasks[i].everyMs > 0 && TaskActive(tasks[i], current) {
          var due := (taskMs[i] + tasks[i].everyMs) % TWO32;
          if due < next { next := due; }
        }
        i := i + 1;
      }
      assert tasks[..i] == tasks;
    }

    static lemma OneMoreTask(tasks: seq<TaskDef>, taskMs: seq<nat>, current: nat, i: nat, cur: nat)
      requires i < |tasks| <= |taskMs|
      ensures var due := (taskMs[i] + tasks[i].everyMs) % TWO32;
              var sofar := Earliest(cur, TaskDues(tasks[..i], taskMs, current));
              Earliest(cur, TaskDues(tasks[..i + 1], taskMs, current))
              == if tasks[i].everyMs > 0 && TaskActive(tasks[i], current) && due < sofar then due else sofar
    {
      hide Earliest, TaskActive;
      var dues := TaskDues(tasks[..i], taskMs, current);
      assert tasks[..i + 1][..i] == tasks[..i];
      EarliestOfOneMore(cur, dues, (taskMs[i] + tasks[i].everyMs) % TWO32);
      assert dues + [] == dues;
    }

    static lemma EarliestOfOneMore(cur: nat, dues: seq<nat>, d: nat)
      ensures Earliest(cur, dues + [d]) == if d < Earliest(cur, dues) then d else Earliest(cur, dues)
    {
      assert (dues + [d])[..|dues|] == dues;
    }

    static lemma {:induction false} EarliestOfMore(cur: nat, a: seq<nat>, b: seq<nat>)
      ensures Earliest(cur, a + b) == Earliest(Earliest(cur, a), b)
      decreases |b|
    {
      if b == [] {
        assert a + b == a;
      } else {
        var n := |b| - 1;
        EarliestOfMore(cur, a, b[..n]);
        EarliestOfOneMore(cur, a + b[..n], b[n]);
        assert a + b == (a + b[..n]) + [b[n]];
      }
    }

    method NextWakeupMs(now: nat) returns (wake: nat)
      requires Valid() && now < TWO32
      ensures Quiet(Now()) ==> Fits(program.states[currentState])
      ensures wake == NextWakeup(Now(), now)
    {
      hide SlotDues, TaskDues, Earliest;
      if !running || status != Running {
        return (now + SENSOR_RATE_MS) % TWO32;
      }
      assert program.states[currentState] in program.states;
      if pendingOnEnterEvent {
        return (now + SENSOR_RATE_MS) % TWO32;
      }
      var s := program.states[currentState];
      if |s.transitions| > 0 || |s.guards| > 0 {
        return (now + SENSOR_RATE_MS) % TWO32;
      }
      var cap := (now + RADIO_MAX_SLEEP_MS) % TWO32;
      var hk, log := SlotDues(s.hkSlots, timers.hkMs), SlotDues(s.logSlots, timers.logMs);
      ghost var tasks := TaskDues(program.tasks, timers.taskMs, currentState);
      var next := DueFromSlots(s.hkSlots, timers.hkMs, cap);
      next := DueFromSlots(s.logSlots, timers.logMs, next);
      EarliestOfMore(cap, hk, log);
      next := DueFromTasks(program.tasks, timers.taskMs, currentState, next);
      EarliestOfMore(cap, hk + log, tasks);
      ghost var sofar := hk + log + tasks;
      ghost var more: seq<nat> := [];
      if s.onTimeout.Some? {
        var due := (timers.enterMs + s.onTimeoutMs) % TWO32;
        EarliestOfOneMore(cap, sofar, due);
        more := [due];
        if due < next { next := due; }
      }
      assert next == Earliest(cap, sofar + more) by {
        if s.onTimeout.None? { assert sofar + more == sofar; }
      }
      if s.fallback.Some? {
        var due := (timers.enterMs + s.fallbackAfterMs) % TWO32;
        EarliestOfOneMore(cap, sofar + more, due);
        assert sofar + (more + [due]) == (sofar + more) + [due];
        more := more + [due];
        if due < next { next := due; }
      }
      assert more == DeadlineDues(s, timers.enterMs);
      return if next > now then next else (now + 1) % TWO32;
    }
  }
}
