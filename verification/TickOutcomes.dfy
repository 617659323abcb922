/**
 What one tick of a running mission does (src/ams/mission_script_engine.cpp:510-597), told from the history of the
 stay, the readings and true time alone, after any run of the engine.
 */
module TickOutcomes {
  import opened Wrappers
  import opened MissionProgram
  import opened Clock32
  import opened MissionEngine
  import opened EngineSafety
  import opened HoldWindows
  import opened Scheduling

  // ----- Conditions -----

  /** The value that slot `k` reads, with the threshold it is compared to. */
  function Sample(env: TickEnv, k: nat): Option<(real, real)> {
    match (env.reading(k), env.threshold(k))
    case (Some(v), Some(x)) => Some((v, x))
    case _ => None
  }

  /** Milliseconds in the state, on the 32-bit clock. */
  function InState(h: History, env: TickEnv): nat {
    Millis(env.t - h.enterT)
  }

  /**
   What a condition means: a telecommand is pending, or came often enough since the state was entered; the time in the
   state; the value now, or its change since the last sample of the stay. RESET_ABNORMAL has no confirm counter.
   */
  predicate Holds(h: History, pending: TcCommand, c: CondExpr, k: nat, env: TickEnv) {
    match c
    case TcEq(tc, confirm, n) =>
      if confirm then tc != ResetAbnormal && (n <= CountOf(h.tcs, tc) && n <= 255) else pending == tc
    case TimeGt(ms) => ms < InState(h, env)
    case SensorLt => Sample(env, k).Some? && Sample(env, k).value.0 < Sample(env, k).value.1
    case SensorGt => Sample(env, k).Some? && Sample(env, k).value.1 < Sample(env, k).value.0
    case DeltaLt =>
      && Sample(env, k).Some? && LastSeen(h.stay, k).Some?
      && Sample(env, k).value.0 < LastSeen(h.stay, k).value + Sample(env, k).value.1
    case DeltaGt =>
      && Sample(env, k).Some? && LastSeen(h.stay, k).Some?
      && LastSeen(h.stay, k).value + Sample(env, k).value.1 < Sample(env, k).value.0
  }

  /** What every run keeps. */
  ghost predicate Known(e: Engine, last: nat) {
    HoldInv(e, last) && BeatInv(e, last)
  }

  lemma ConditionMeans(e: Engine, last: nat, f: nat, i: nat, env: TickEnv)
    requires Known(e, last) && e.running && HasTransition(e, f)
    requires i < |e.program.states[e.current].transitions[f].conds|
    ensures Flat(f, i) < PREV_SLOTS
    ensures var c := e.program.states[e.current].transitions[f].conds[i];
            CondHolds(e, c, Flat(f, i), env) <==> Holds(e.history, e.pendingTc, c, Flat(f, i), env)
  {
    hide LastSeen, CountOf, TrueFrom, Lifecycle, Targets, NoDangling, BothOnBeat, WindowExact;
    var sd := e.program.states[e.current];
    var c := sd.transitions[f].conds[i];
    assert BaselinesExact(e, sd, f);
    ClockDifference(env.t, e.history.enterT);
  }

  lemma ClockDifference(a: int, b: int)
    ensures Since(Millis(a), Millis(b)) == Millis(a - b)
  {
  }

  /** The compound condition of transition `f`, from the history. */
  predicate TrueNow(e: Engine, f: nat, env: TickEnv)
    requires HasTransition(e, f)
  {
    var tr := e.program.states[e.current].transitions[f];
    && |tr.conds| > 0
    && if tr.isAnd then forall i :: 0 <= i < |tr.conds| ==> Holds(e.history, e.pendingTc, tr.conds[i], Flat(f, i), env)
       else exists i :: 0 <= i < |tr.conds| && Holds(e.history, e.pendingTc, tr.conds[i], Flat(f, i), env)
  }

  lemma CompoundIsTrueNow(e: Engine, last: nat, f: nat, env: TickEnv)
    requires Known(e, last) && e.running && HasTransition(e, f)
    ensures CompoundTrue(e, e.program.states[e.current].transitions[f], f, env) <==> TrueNow(e, f, env)
  {
    hide CondHolds, Holds;
    assert Safe(e) && Sane(e);
    var tr := e.program.states[e.current].transitions[f];
    forall i | 0 <= i < |tr.conds|
      ensures Flat(f, i) < PREV_SLOTS
      ensures CondHolds(e, tr.conds[i], Flat(f, i), env)
         <==> Holds(e.history, e.pendingTc, tr.conds[i], Flat(f, i), env)
    {
      ConditionMeans(e, last, f, i, env);
    }
    hide Known;
  }

  /** Transition `f` is true now and, if it has a window, has been so for long enough. */
  predicate Due(e: Engine, f: nat, env: TickEnv)
    requires HasTransition(e, f)
  {
    var tr, stay := e.program.states[e.current].transitions[f], e.history.stay;
    && TrueNow(e, f, env)
    && (Held(tr) ==> TrueFrom(stay, f) < |stay| && Millis(env.t - stay[TrueFrom(stay, f)].t) >= tr.holdMs)
  }

  predicate FirstDue(e: Engine, f: nat, env: TickEnv) {
    && HasTransition(e, f) && Due(e, f, env)
    && forall j :: 0 <= j < f ==> HasTransition(e, j) && !Due(e, j, env)
  }

  predicate NoneDue(e: Engine, env: TickEnv)
    requires e.current < |e.program.states|
  {
    forall j :: 0 <= j < |e.program.states[e.current].transitions| ==> HasTransition(e, j) && !Due(e, j, env)
  }

  lemma FiresIsFirstDue(e: Engine, last: nat, env: TickEnv)
    requires Known(e, last) && last <= env.t && Active(e)
    ensures var sd := e.program.states[e.current];
            var fired := EvalTransitions(e, sd, 0, [], env).fired;
            match fired
            case None =>
              && NoneDue(e, env)
              && EvalTransitions(e, sd, 0, [], env).e.pendingTc == e.pendingTc
              && EvalTransitions(e, sd, 0, [], env).e.confirm == e.confirm
            case Some(f) =>
              FirstDue(e, f, env) && EvalTransitions(e, sd, 0, [], env).e.pendingTc == Left(e, f, env)
  {
    hide EvalTransitions, CompoundTrue, ReadyNow, TrueNow;
    var sd := e.program.states[e.current];
    assert sd in e.program.states;
    var v := EvalTransitions(e, sd, 0, [], env);
    EvalTransitionsKeeps(e, sd, 0, [], env);
    PassMeans(e, sd, 0, [], env);
    forall j: nat | j < |sd.transitions|
      ensures HasTransition(e, j) && (ReadyNow(e, sd.transitions[j], j, env) <==> Due(e, j, env))
    {
      assert sd.transitions[j] in sd.transitions;
      ReadyByHistory(e, last, env, j);
      CompoundIsTrueNow(e, last, j, env);
      MatchedIsLeft(e, last, j, env);
    }
    hide Due, Known, Matched, Left;
  }

  /** What the tick leaves of the pending telecommand: a transition that fires on one takes it. */
  function Left(e: Engine, f: nat, env: TickEnv): TcCommand
    requires HasTransition(e, f)
  {
    var tr := e.program.states[e.current].transitions[f];
    if exists i :: 0 <= i < |tr.conds| && tr.conds[i].TcEq?
                   && Holds(e.history, e.pendingTc, tr.conds[i], Flat(f, i), env)
    then NoTc else e.pendingTc
  }

  lemma MatchedIsLeft(e: Engine, last: nat, f: nat, env: TickEnv)
    requires Known(e, last) && e.running && HasTransition(e, f)
    ensures Left(e, f, env)
         == if Matched(e, e.program.states[e.current].transitions[f], f, 0, env) then NoTc else e.pendingTc
  {
    hide CondHolds, Holds;
    assert Safe(e) && Sane(e);
    var tr := e.program.states[e.current].transitions[f];
    forall i | 0 <= i < |tr.conds|
      ensures Flat(f, i) < PREV_SLOTS
      ensures CondHolds(e, tr.conds[i], Flat(f, i), env)
         <==> Holds(e.history, e.pendingTc, tr.conds[i], Flat(f, i), env)
    {
      ConditionMeans(e, last, f, i, env);
    }
    hide Known;
  }

  // ----- Reports -----

  /** Its last report, or the beginning of its beat, lies a period or more back on the 32-bit clock. */
  predicate Overdue(slot: Slot, from: int, n: nat, t: int) {
    slot.everyMs > 0 && slot.fieldCount > 0 && Millis(t - (from + n * slot.everyMs)) >= slot.everyMs
  }

  predicate SomeOverdue(slots: seq<Slot>, from: seq<int>, counts: seq<nat>, t: int)
    requires |slots| <= |from| && |slots| <= |counts|
  {
    exists s :: 0 <= s < |slots| && Overdue(slots[s], from[s], counts[s], t)
  }

  lemma DueIsOverdue(slot: Slot, lastMs: nat, n: nat, from: int, t: nat)
    requires Beat(slot.everyMs, lastMs, n, from, t)
    ensures SlotDue(slot, lastMs, Millis(t)) <==> Overdue(slot, from, n, t)
  {
    ClockDifference(t, from + n * slot.everyMs);
  }

  /** 0 is the entry event, 1 the HK reports, 2 the log rows. */
  function Priority(sd: StateDef, kind: nat): nat {
    if kind == 0 then sd.eventPriority else if kind == 1 then sd.hkPriority else sd.logPriority
  }

  /** A higher priority goes first; between equals the event, then HK. */
  predicate Outranks(sd: StateDef, j: nat, k: nat) {
    Priority(sd, j) > Priority(sd, k) || (Priority(sd, j) == Priority(sd, k) && j < k)
  }

  function One(b: bool): nat {
    if b then 1 else 0
  }

  /** How many of the other due kinds go first. */
  function Ahead(sd: StateDef, due: (bool, bool, bool), kind: nat): nat {
    One(due.0 && Outranks(sd, 0, kind)) + One(due.1 && Outranks(sd, 1, kind)) + One(due.2 && Outranks(sd, 2, kind))
  }

  /** A due kind is served unless the budget is used up before; a budget of zero counts as one. */
  predicate Served(sd: StateDef, due: (bool, bool, bool), kind: nat) {
    && (if kind == 0 then due.0 else if kind == 1 then due.1 else due.2)
    && (Ahead(sd, due, kind) == 0 || Ahead(sd, due, kind) < sd.actionBudget)
  }

  function ServedIn(sd: StateDef, due: (bool, bool, bool), kind: nat, steps: nat): bool {
    (if kind == 0 then due.0 else if kind == 1 then due.1 else due.2) && Ahead(sd, due, kind) < steps
  }

  /** The reports after `steps` rounds of the budget. */
  predicate ReportsAre(e: Engine, r: Engine, sd: StateDef, now: nat, due: (bool, bool, bool), steps: nat)
    requires Sane(e) && Fits(sd) && now < TWO32
  {
    && r.pendingEvent == (e.pendingEvent && !ServedIn(sd, due, 0, steps))
    && (if ServedIn(sd, due, 1, steps) then
          && r.timers.hkMs == Advance(sd.hkSlots, e.timers.hkMs, now)
          && r.history.hkCount == CountUp(sd.hkSlots, e.timers.hkMs, now, e.history.hkCount)
        else r.timers.hkMs == e.timers.hkMs && r.history.hkCount == e.history.hkCount)
    && (if ServedIn(sd, due, 2, steps) then
          && r.timers.logMs == Advance(sd.logSlots, e.timers.logMs, now)
          && r.history.logCount == CountUp(sd.logSlots, e.timers.logMs, now, e.history.logCount)
        else r.timers.logMs == e.timers.logMs && r.history.logCount == e.history.logCount)
  }

  function Without(due: (bool, bool, bool), kind: nat): (bool, bool, bool) {
    (due.0 && kind != 0, due.1 && kind != 1, due.2 && kind != 2)
  }

  /** The pick is the due kind that nothing outranks; one round later the others have one less ahead. */
  lemma PickServes(sd: StateDef, due: (bool, bool, bool), steps: nat)
    requires steps > 0
    ensures match PickBest(sd.eventPriority, sd.hkPriority, sd.logPriority, due)
            case None => forall j: nat :: j < 3 ==> !ServedIn(sd, due, j, steps)
            case Some(k) =>
              && k < 3
              && forall j: nat :: j < 3 ==>
                   && (ServedIn(sd, due, j, steps) <==> j == k || ServedIn(sd, Without(due, k), j, steps - 1))
                   && (j == k ==> !ServedIn(sd, Without(due, k), j, steps - 1))
  {
    forall j: nat | j < 3
      ensures match PickBest(sd.eventPriority, sd.hkPriority, sd.logPriority, due)
              case None => !ServedIn(sd, due, j, steps)
              case Some(k) =>
                && k < 3
                && (ServedIn(sd, due, j, steps) <==> j == k || ServedIn(sd, Without(due, k), j, steps - 1))
                && (j == k ==> !ServedIn(sd, Without(due, k), j, steps - 1))
    {
    }
  }

  lemma NoneServed(sd: StateDef, due: (bool, bool, bool), kind: nat)
    ensures !ServedIn(sd, due, kind, 0)
  {
  }

  lemma {:induction false} RoundsServe(e: Engine, sd: StateDef, now: nat, due: (bool, bool, bool), steps: nat)
    requires Sane(e) && Fits(sd) && now < TWO32
    ensures ReportsAre(e, RunActions(e, sd, now, due, steps), sd, now, due, steps)
    decreases steps
  {
    hide Advance, CountUp, Sane, Fits, PickBest, ServedIn;
    if steps == 0 {
      NoneServed(sd, due, 0);
      NoneServed(sd, due, 1);
      NoneServed(sd, due, 2);
    } else {
      PickServes(sd, due, steps);
      match PickBest(sd.eventPriority, sd.hkPriority, sd.logPriority, due)
      case None =>
      case Some(k) =>
        FireKeeps(e, sd, now);
        var next := if k == 0 then e.(pendingEvent := false) else if k == 1 then FireHk(e, sd, now)
                    else FireLog(e, sd, now);
        assert Without(due, k) == if k == 0 then (false, due.1, due.2) else if k == 1 then (due.0, false, due.2)
                                  else (due.0, due.1, false);
        RoundsServe(next, sd, now, Without(due, k), steps - 1);
    }
  }

  /** The kinds due in this tick: the entry event, any HK slot, any log slot. */
  function DueKinds(e: Engine, sd: StateDef, env: TickEnv): (bool, bool, bool)
    requires Sane(e) && Fits(sd)
  {
    (e.pendingEvent, SomeOverdue(sd.hkSlots, e.history.hkFrom, e.history.hkCount, env.t),
     SomeOverdue(sd.logSlots, e.history.logFrom, e.history.logCount, env.t))
  }

  /** Every served overdue slot has sent one more report, and no other slot has. */
  predicate Counted(slots: seq<Slot>, from: seq<int>, before: seq<nat>, after: seq<nat>, served: bool, t: int)
    requires |slots| <= |from| && |slots| <= |before| && |slots| <= |after|
  {
    forall s :: 0 <= s < |slots| ==>
      after[s] == if served && Overdue(slots[s], from[s], before[s], t) then before[s] + 1 else before[s]
  }

  predicate Reported(e: Engine, r: Engine, sd: StateDef, env: TickEnv)
    requires Sane(e) && Sane(r) && Fits(sd)
  {
    var due := DueKinds(e, sd, env);
    && r.pendingEvent == (e.pendingEvent && !Served(sd, due, 0))
    && SameBeats(e.history, r.history)
    && Counted(sd.hkSlots, e.history.hkFrom, e.history.hkCount, r.history.hkCount, Served(sd, due, 1), env.t)
    && Counted(sd.logSlots, e.history.logFrom, e.history.logCount, r.history.logCount, Served(sd, due, 2), env.t)
  }

  lemma CountsAre(slots: seq<Slot>, lastMs: seq<nat>, from: seq<int>, counts: seq<nat>, after: seq<nat>,
                  served: bool, t: nat)
    requires OnBeat(slots, lastMs, counts, from, t) && |after| == |counts|
    requires forall i :: 0 <= i < |lastMs| ==> lastMs[i] < TWO32
    requires after == if served then CountUp(slots, lastMs, Millis(t), counts) else counts
    ensures Counted(slots, from, counts, after, served, t)
    ensures AnyDue(slots, lastMs, Millis(t)) <==> SomeOverdue(slots, from, counts, t)
  {
    hide SlotDue, Beat, Millis;
    forall s | 0 <= s < |slots|
      ensures SlotDue(slots[s], lastMs[s], Millis(t)) <==> Overdue(slots[s], from[s], counts[s], t)
    {
      assert Beat(slots[s].everyMs, lastMs[s], counts[s], from[s], t);
      DueIsOverdue(slots[s], lastMs[s], counts[s], from[s], t);
    }
    forall s | 0 <= s < |slots|
      ensures after[s] == if served && Overdue(slots[s], from[s], counts[s], t) then counts[s] + 1 else counts[s]
    {
      assert SlotDue(slots[s], lastMs[s], Millis(t)) <==> Overdue(slots[s], from[s], counts[s], t);
    }
  }

  lemma BudgetServes(sd: StateDef, due: (bool, bool, bool), kind: nat)
    requires kind < 3
    ensures ServedIn(sd, due, kind, ClampBudget(sd.actionBudget)) <==> Served(sd, due, kind)
  {
  }

  lemma ActionsReport(e: Engine, sd: StateDef, env: TickEnv)
    requires Sane(e) && Fits(sd) && BothOnBeat(e, sd, env.t)
    ensures var r := ExecuteDueActions(e, sd, Millis(env.t));
            Sane(r) && Reported(e, r, sd, env)
  {
    var now := Millis(env.t);
    ActionsKeep(e, sd, now);
    var due := (e.pendingEvent, AnyDue(sd.hkSlots, e.timers.hkMs, now), AnyDue(sd.logSlots, e.timers.logMs, now));
    hide RunActions, AnyDue, ReportsAre, Served, ServedIn, Reported, Sane, BothOnBeat;
    RoundsServe(e, sd, now, due, ClampBudget(sd.actionBudget));
    ServedReport(e, ExecuteDueActions(e, sd, now), sd, env, due);
  }

  lemma ServedReport(e: Engine, r: Engine, sd: StateDef, env: TickEnv, due: (bool, bool, bool))
    requires Sane(e) && Sane(r) && Fits(sd) && BothOnBeat(e, sd, env.t) && SameButReports(e, r)
    requires due == (e.pendingEvent, AnyDue(sd.hkSlots, e.timers.hkMs, Millis(env.t)),
                     AnyDue(sd.logSlots, e.timers.logMs, Millis(env.t)))
    requires ReportsAre(e, r, sd, Millis(env.t), due, ClampBudget(sd.actionBudget))
    ensures Reported(e, r, sd, env)
  {
    hide Ahead, Counted, OnBeat, AnyDue, SomeOverdue, Served, ServedIn, CountUp, Advance;
    BudgetServes(sd, due, 0);
    BudgetServes(sd, due, 1);
    BudgetServes(sd, due, 2);
    CountsAre(sd.hkSlots, e.timers.hkMs, e.history.hkFrom, e.history.hkCount, r.history.hkCount,
              Served(sd, due, 1), env.t);
    CountsAre(sd.logSlots, e.timers.logMs, e.history.logFrom, e.history.logCount, r.history.logCount,
              Served(sd, due, 2), env.t);
  }

  // ----- The outcomes of a tick -----

  /** The mission has entered state `idx`; only rejected pulses stop it there. */
  predicate Entered(e: Engine, r: Engine, idx: nat, pending: TcCommand, env: TickEnv) {
    && idx < |e.program.states| && r.program == e.program && r.current == idx
    && r.history == NewStay(e.history.trail + [idx], env.t) && Begun(r)
    && r.timers.enterMs == Millis(env.t)
    && r.pendingTc == pending && r.pendingEvent == (e.pendingEvent || e.program.states[idx].hasOnEnterEvent)
    && if e.program.states[idx].pulseCount > 0 && env.pulseFitted && !env.pulseOk then
         r.status == Error && r.reason == PulseRejected && !r.running && !r.checkpoint
       else
         && r.status == Running && r.running && r.enabled && r.reason == e.reason
         && (env.storageOk ==> r.checkpoint && r.checkpointMs == Millis(env.t))
         && (!env.storageOk ==> r.checkpoint == e.checkpoint && r.checkpointMs == e.checkpointMs)
  }

  /** The mission is over and leaves nothing to resume. */
  predicate Stopped(r: Engine, status: Status) {
    r.status == status && !r.running && !r.checkpoint
  }

  /** A guard of the state is violated. */
  predicate GuardBroken(e: Engine, sd: StateDef, env: TickEnv) {
    exists i :: 0 <= i < |sd.guards| && !GuardMet(e, sd.guards[i], i, env)
  }

  predicate GuardMet(e: Engine, g: Guard, i: nat, env: TickEnv) {
    match g
    case TimeGuard(ms) => !(ms < InState(e.history, env))
    case SensorGuard => env.guardHolds(i)
  }

  /** A timeout or fallback of the state has come. */
  predicate Ripe(e: Engine, j: Option<Jump>, afterMs: nat, env: TickEnv) {
    j.Some? && j.value.resolved && !(InState(e.history, env) < afterMs)
  }

  predicate NothingToWaitFor(sd: StateDef) {
    && sd.transitions == [] && sd.fallback.None? && sd.onTimeout.None? && sd.hkSlots == [] && sd.logSlots == []
  }

  /** Task `i` runs when its period is over; outside its states it only keeps up with the clock. */
  predicate TaskAt(e: Engine, taskMs: seq<nat>, i: nat, env: TickEnv)
    requires Sane(e) && |taskMs| == AMS_MAX_TASKS && i < |e.program.tasks|
  {
    var td, now := e.program.tasks[i], Millis(env.t);
    var away := td.filter.Some? && e.current !in td.active;
    taskMs[i] == if td.everyMs > 0 && (away || !(Since(now, e.timers.taskMs[i]) < td.everyMs)) then now
                 else e.timers.taskMs[i]
  }

  /** A checkpoint is written once the last one is a second old. */
  predicate CheckpointKept(e: Engine, r: Engine, env: TickEnv)
    requires Sane(e)
  {
    if env.storageOk && Since(Millis(env.t), e.checkpointMs) >= 1000 then
      r.checkpoint && r.checkpointMs == Millis(env.t)
    else r.checkpoint == e.checkpoint && r.checkpointMs == e.checkpointMs
  }

  /** The mission stays in its state: reports, tasks, the checkpoint, and the end if there is nothing to wait for. */
  predicate Stayed(e: Engine, r: Engine, sd: StateDef, env: TickEnv)
    requires Sane(e) && Sane(r) && Fits(sd)
  {
    && r.program == e.program && r.current == e.current && r.history.trail == e.history.trail
    && r.pendingTc == e.pendingTc && r.confirm == e.confirm && r.reason == e.reason
    && Reported(e, r, sd, env)
    && (forall i :: 0 <= i < |e.program.tasks| ==> TaskAt(e, r.timers.taskMs, i, env))
    && if NothingToWaitFor(sd) && !r.pendingEvent then Stopped(r, Complete)
       else r.status == Running && r.running && r.enabled && CheckpointKept(e, r, env)
  }

  /** Everything a tick of a running mission can do, and when it does it. */
  ghost predicate Outcome(e: Engine, r: Engine, env: TickEnv)
    requires Sane(e) && Sane(r) && e.current < |e.program.states| && Fits(e.program.states[e.current])
  {
    var sd := e.program.states[e.current];
    if exists f: nat :: FirstDue(e, f, env) then
      exists f: nat :: FirstDue(e, f, env) && Entered(e, r, sd.transitions[f].targetIndex, Left(e, f, env), env)
    else if Ripe(e, sd.onTimeout, sd.onTimeoutMs, env) then
      Entered(e, r, sd.onTimeout.value.index, e.pendingTc, env)
    else if Ripe(e, sd.fallback, sd.fallbackAfterMs, env) then
      Entered(e, r, sd.fallback.value.index, e.pendingTc, env)
    else if e.pendingTc == Abort then Stopped(r, Idle) && !r.enabled && r.program == NO_PROGRAM && r.pendingTc == NoTc
    else if GuardBroken(e, sd, env) then
      if sd.onError.Some? && sd.onError.value.resolved then Entered(e, r, sd.onError.value.index, e.pendingTc, env)
      else Stopped(r, Error) && r.reason == GuardViolated
    else Stayed(e, r, sd, env)
  }

  lemma EnterMeans(e: Engine, idx: nat, env: TickEnv)
    requires Safe(e) && Active(e) && idx < |e.program.states|
    ensures Entered(e, Enter(e, idx, env), idx, e.pendingTc, env)
  {
    EnterClears(e, idx, env);
    hide NoWindows, Fill, Targets, NoDangling, NewStay, Begun;
  }

  /** The engines differ in windows, counters and the note of this tick only. */
  predicate Apart(e: Engine, f: Engine) {
    && f == e.(windows := f.windows, pendingTc := f.pendingTc, confirm := f.confirm, history := f.history)
    && f.history == e.history.(stay := f.history.stay)
  }

  lemma EnteredFrom(e: Engine, f: Engine, r: Engine, idx: nat, env: TickEnv)
    requires Apart(e, f) && Entered(f, r, idx, f.pendingTc, env)
    ensures Entered(e, r, idx, f.pendingTc, env)
  {
    hide NewStay, Begun;
  }

  lemma ActingMeans(e: Engine, sd: StateDef, env: TickEnv)
    requires Safe(e) && Active(e) && sd in e.program.states && sd == e.program.states[e.current]
    requires BothOnBeat(e, sd, env.t)
    ensures Sane(Acting(e, sd, env)) && Stayed(e, Acting(e, sd, env), sd, env)
  {
    var now := Millis(env.t);
    ActingKeeps(e, sd, env);
    ActionsReport(e, sd, env);
    ActionsKeep(e, sd, now);
    var acted := ExecuteDueActions(e, sd, now);
    var r := Acting(e, sd, env);
    assert acted.timers.taskMs == e.timers.taskMs;
    FinishMeans(e, acted, sd, env);
    hide ExecuteDueActions, Reported, BothOnBeat, Finish, Save, RunTasks;
    ReportedSame(e, acted, r, sd, env);
  }

  /** The rest of the tick after the reports. */
  lemma FinishMeans(e: Engine, acted: Engine, sd: StateDef, env: TickEnv)
    requires Safe(e) && Active(e) && sd == e.program.states[e.current] && Sane(acted) && SameButReports(e, acted)
    ensures var r := Finish(Save(acted.(timers := acted.timers.(taskMs :=
                                   RunTasks(e.program.tasks, acted.timers.taskMs, e.current, Millis(env.t)))),
                                 Millis(env.t), false, env.storageOk), sd);
            && r.history == acted.history && r.pendingEvent == acted.pendingEvent
            && r.program == e.program && r.current == e.current
            && r.pendingTc == e.pendingTc && r.confirm == e.confirm && r.reason == e.reason
            && |r.timers.taskMs| == AMS_MAX_TASKS
            && (forall i :: 0 <= i < |e.program.tasks| ==> TaskAt(e, r.timers.taskMs, i, env))
            && if NothingToWaitFor(sd) && !r.pendingEvent then Stopped(r, Complete)
               else r.status == Running && r.running && r.enabled && CheckpointKept(e, r, env)
  {
    hide Targets, NoDangling;
  }

  lemma ReportedSame(e: Engine, acted: Engine, r: Engine, sd: StateDef, env: TickEnv)
    requires Sane(e) && Sane(acted) && Sane(r) && Fits(sd) && Reported(e, acted, sd, env)
    requires r.history == acted.history && r.pendingEvent == acted.pendingEvent
    ensures Reported(e, r, sd, env)
  {
    hide Counted, Served;
  }

  lemma StayedFrom(e: Engine, f: Engine, r: Engine, sd: StateDef, env: TickEnv)
    requires Sane(e) && Sane(f) && Sane(r) && Fits(sd) && Apart(e, f)
    requires f.pendingTc == e.pendingTc && f.confirm == e.confirm
    requires Stayed(f, r, sd, env)
    ensures Stayed(e, r, sd, env)
  {
    assert |r.timers.taskMs| == AMS_MAX_TASKS;
    hide Sane;
    assert DueKinds(e, sd, env) == DueKinds(f, sd, env);
    assert Reported(e, r, sd, env) by {
      hide Counted, Served;
    }
    forall i | 0 <= i < |e.program.tasks| ensures TaskAt(e, r.timers.taskMs, i, env) {
      assert TaskAt(f, r.timers.taskMs, i, env);
    }
    assert CheckpointKept(f, r, env) ==> CheckpointKept(e, r, env);
    hide Reported;
  }

  /** The clock conditions of the state, read off the entry timer. */
  lemma TimersMean(e: Engine, last: nat, f: Engine, sd: StateDef, env: TickEnv)
    requires Known(e, last) && e.running && Apart(e, f)
    ensures f.timers.enterMs < TWO32
    ensures forall j: Option<Jump>, afterMs: nat :: JumpDue(f, j, afterMs, env) <==> Ripe(e, j, afterMs, env)
    ensures AnyViolation(f, sd, env) <==> GuardBroken(e, sd, env)
  {
    ClockDifference(env.t, e.history.enterT);
    assert Since(Millis(env.t), f.timers.enterMs) == InState(e.history, env);
    hide HoldInv, BeatInv, InState, Since;
    forall i | 0 <= i < |sd.guards|
      ensures GuardOk(f, sd.guards[i], i, env) <==> GuardMet(e, sd.guards[i], i, env)
    {
    }
  }

  lemma IdlingMeans(e: Engine, f: Engine, last: nat, env: TickEnv)
    requires Known(e, last) && last <= env.t && Active(e) && Safe(f) && Apart(e, f)
    requires f.pendingTc == e.pendingTc && f.confirm == e.confirm
    requires !exists k: nat :: FirstDue(e, k, env)
    ensures var sd := e.program.states[e.current];
            && Fits(sd) && Sane(Idling(f, sd, env)) && Outcome(e, Idling(f, sd, env), env)
  {
    var sd := e.program.states[e.current];
    assert sd in e.program.states && Active(f) && TargetsOk(e.program, sd) && Fits(sd);
    BothLater(e, sd, last, env.t);
    assert BothOnBeat(f, sd, env.t) by {
      hide OnBeat;
    }
    TimersMean(e, last, f, sd, env);
    IdlingSafe(f, sd, env);
    var r := Idling(f, sd, env);
    hide Enter, Acting, JumpDue, AnyViolation, Ripe, GuardBroken, FirstDue, Entered, Stayed, Known, Lifecycle, Targets,
         NoDangling, BothOnBeat, Sane, NoWindows, Fill;
    if Ripe(e, sd.onTimeout, sd.onTimeoutMs, env) {
      RipeJump(e, sd.onTimeout, sd.onTimeoutMs, env);
      EnterMeans(f, sd.onTimeout.value.index, env);
      EnteredFrom(e, f, r, sd.onTimeout.value.index, env);
    } else if Ripe(e, sd.fallback, sd.fallbackAfterMs, env) {
      RipeJump(e, sd.fallback, sd.fallbackAfterMs, env);
      EnterMeans(f, sd.fallback.value.index, env);
      EnteredFrom(e, f, r, sd.fallback.value.index, env);
    } else if e.pendingTc == Abort {
    } else if GuardBroken(e, sd, env) {
      if sd.onError.Some? && sd.onError.value.resolved {
        EnterMeans(f, sd.onError.value.index, env);
        EnteredFrom(e, f, r, sd.onError.value.index, env);
      }
    } else {
      ActingMeans(f, sd, env);
      StayedFrom(e, f, r, sd, env);
    }
  }

  lemma RipeJump(e: Engine, j: Option<Jump>, afterMs: nat, env: TickEnv)
    requires Ripe(e, j, afterMs, env)
    ensures j.Some? && j.value.resolved
  {
  }

  lemma NotedApart(e: Engine, v: Evaluated, env: TickEnv)
    requires SameButWindows(e, v.e) && Safe(e) && Sane(v.e)
    ensures Apart(e, Noted(v, env)) && Safe(Noted(v, env))
  {
    hide Seen;
  }

  lemma NobodyFirst(e: Engine, env: TickEnv)
    requires e.current < |e.program.states| && NoneDue(e, env)
    ensures !exists k: nat :: FirstDue(e, k, env)
  {
    hide Due;
    forall k: nat ensures !FirstDue(e, k, env) {
      assert HasTransition(e, k) ==> !Due(e, k, env);
    }
  }

  lemma TickMeans(e: Engine, last: nat, env: TickEnv)
    requires Known(e, last) && last <= env.t && Active(e)
    ensures Sane(Tick(e, env)) && Fits(e.program.states[e.current]) && Outcome(e, Tick(e, env), env)
  {
    var sd := e.program.states[e.current];
    assert sd in e.program.states && Fits(sd);
    var v := EvalTransitions(e, sd, 0, [], env);
    EvalTransitionsKeeps(e, sd, 0, [], env);
    FiresIsFirstDue(e, last, env);
    NotedApart(e, v, env);
    TickSafe(e, env);
    var f := Noted(v, env);
    hide EvalTransitions, Idling, Enter, Due, Entered, Known, Left, Sane, NoDangling, Lifecycle;
    match v.fired
    case Some(k) =>
      assert sd.transitions[k] in sd.transitions;
      var idx := sd.transitions[k].targetIndex;
      EnterMeans(f, idx, env);
      EnteredFrom(e, f, Tick(e, env), idx, env);
      assert FirstDue(e, k, env);
    case None =>
      NobodyFirst(e, env);
      IdlingMeans(e, f, last, env);
  }

  // ----- After any run -----

  lemma {:induction false} RunKnown(e: Engine, last: nat, ops: seq<Op>)
    requires Known(e, last) && InOrder(ops, last) && forall op :: op in ops ==> Allowed(op)
    ensures Safe(e) && Known(Run(e, ops), Clock(ops, last))
  {
    hide HoldInv, BeatInv, Run, InOrder, Clock, Safe;
    RunHolds(e, last, ops);
    ReportsNeverDrift(e, last, ops);
  }

  lemma KnownAtPowerOn(stored: Stored, env: TickEnv)
    requires Restorable(stored) && Lawful(stored)
    ensures Known(Begin(stored, env), env.t)
  {
    hide HoldInv, BeatInv, Begin;
    HoldsAtPowerOn(stored, env);
    OnBeatAtPowerOn(stored, env);
  }

  /** What the next tick does, after any run of the firmware, whatever storage held when it started. */
  lemma TickOutcome(stored: Stored, start: TickEnv, ops: seq<Op>, env: TickEnv)
    requires Restorable(stored) && Lawful(stored)
    requires InOrder(ops, start.t) && Clock(ops, start.t) <= env.t && forall op :: op in ops ==> Allowed(op)
    requires Safe(Begin(stored, start))
    ensures var e, r := Run(Begin(stored, start), ops), Run(Begin(stored, start), ops + [OpTick(env)]);
            && Sane(e) && Sane(r)
            && if Active(e) then
                 e.current < |e.program.states| && Fits(e.program.states[e.current]) && Outcome(e, r, env)
               else r == e
  {
    hide Begin, InOrder, Clock, Outcome, Known;
    KnownAtPowerOn(stored, start);
    RunKnown(Begin(stored, start), start.t, ops);
    OneMore(Begin(stored, start), ops, OpTick(env));
    var e := Run(Begin(stored, start), ops);
    KnownMeans(e, Clock(ops, start.t));
    if Active(e) {
      TickMeans(e, Clock(ops, start.t), env);
    }
  }

  lemma KnownMeans(e: Engine, last: nat)
    requires Known(e, last)
    ensures Safe(e) && (Active(e) ==> e.current < |e.program.states|)
  {
  }

  lemma OneMore(e: Engine, ops: seq<Op>, op: Op)
    requires Safe(e) && forall x :: x in ops + [op] ==> Allowed(x)
    ensures Safe(Run(e, ops)) && Run(e, ops + [op]) == Apply(Run(e, ops), op)
  {
    assert (ops + [op])[..|ops|] == ops;
    assert forall x :: x in ops ==> x in ops + [op];
  }

  /** Something of the state still comes before a pending ABORT. */
  ghost predicate Forestalled(e: Engine, env: TickEnv)
    requires e.current < |e.program.states|
  {
    var sd := e.program.states[e.current];
    || (exists f: nat :: FirstDue(e, f, env))
    || Ripe(e, sd.onTimeout, sd.onTimeoutMs, env) || Ripe(e, sd.fallback, sd.fallbackAfterMs, env)
  }

  /**
   An injected ABORT: the next tick of a running mission either enters a state, by a transition that is due or a
   timeout or fallback that has come, or ends the mission and its checkpoint. Nothing else can happen.
   */
  lemma AbortEndsOrEnters(e: Engine, last: nat, ops: seq<Op>, env: TickEnv)
    requires Known(e, last) && InOrder(ops, last) && forall op :: op in ops ==> Allowed(op)
    requires Clock(ops, last) <= env.t && Safe(e) && Active(Run(e, ops))
    ensures var b, r := Run(e, ops), Run(e, ops + [OpInject(Abort)] + [OpTick(env)]);
            var i := Inject(b, Abort);
            && i.current < |i.program.states|
            && if Forestalled(i, env) then r.history.trail == b.history.trail + [r.current]
               else Stopped(r, Idle) && !r.enabled && r.program == NO_PROGRAM
  {
    hide InOrder, Clock, Known, Forestalled, Run, Sane, Lifecycle, Targets, NoDangling, Fits, Tick, Outcome;
    RunKnown(e, last, ops);
    OneMore(e, ops, OpInject(Abort));
    OneMore(e, ops + [OpInject(Abort)], OpTick(env));
    var b := Run(e, ops);
    KnownMeans(b, Clock(ops, last));
    var i := Inject(b, Abort);
    InjectKnown(b, Clock(ops, last), Abort);
    TickMeans(i, Clock(ops, last), env);
    AbortOutcome(i, Tick(i, env), env);
  }

  lemma InjectKnown(e: Engine, last: nat, tc: TcCommand)
    requires Known(e, last)
    ensures Safe(e) && Known(Inject(e, tc), last)
    ensures Inject(e, tc).pendingTc == tc && (Active(Inject(e, tc)) <==> Active(e))
    ensures Inject(e, tc).history.trail == e.history.trail
  {
    hide HoldInv, BeatInv;
    assert Safe(e) by { SafeOfHold(e, last); }
    ApplyHolds(e, last, OpInject(tc));
    ApplyOnBeat(e, last, OpInject(tc));
  }

  lemma AbortOutcome(e: Engine, r: Engine, env: TickEnv)
    requires Sane(e) && Sane(r) && e.current < |e.program.states| && Fits(e.program.states[e.current])
    requires Outcome(e, r, env) && e.pendingTc == Abort
    ensures if Forestalled(e, env) then r.history.trail == e.history.trail + [r.current]
            else Stopped(r, Idle) && !r.enabled && r.program == NO_PROGRAM
  {
    hide Sane, Ripe, FirstDue, GuardBroken, Stayed, Fill;
  }

  // ----- Arming and pausing -----

  /** Arming a loaded mission sets it going with LAUNCH pending, and saves that if it can. */
  lemma ArmStarts(e: Engine, env: TickEnv)
    requires Safe(e) && e.status == Loaded
    ensures var r := Arm(e, env);
            && Active(r) && r.pendingTc == Launch && r.program == e.program && r.current == e.current
            && r.history == e.history && r.timers == e.timers && (env.storageOk ==> r.checkpoint)
  {
    hide Targets, NoDangling;
  }

  /** A script that loads waits, unarmed, in its WAIT state or else its first; one that does not is an error. */
  lemma ActivateLoads(e: Engine, file: string, load: Load, env: TickEnv)
    requires Safe(e) && Allowed(OpActivate(file, load, env))
    ensures var r := Activate(e, file, load, env);
            match load
            case Broken(partial) => Stopped(r, Error) && r.reason == MissionEngine.LoadFailed
            case Compiled(p) =>
              && r.status == Loaded && r.running && !r.enabled && r.reason == NoReason && r.program == p
              && r.pendingTc == NoTc && r.file == ActiveName(file) && r.current < |p.states|
              && (if exists i :: 0 <= i < |p.states| && p.states[i].name == "WAIT" then
                    && p.states[r.current].name == "WAIT"
                    && forall i :: 0 <= i < r.current ==> p.states[i].name != "WAIT"
                  else r.current == 0)
              && r.history == NewStay([r.current], env.t)
              && r.pendingEvent == p.states[r.current].hasOnEnterEvent
              && (env.storageOk ==> r.checkpoint)
  {
    ActivateSafe(e, file, load, env);
    hide Targets, NoDangling, Sane, Fill, NoWindows, NewStay, Leads, StateOk;
  }

  /** Deactivation forgets the mission, its checkpoint and what was pending. */
  lemma DeactivateForgets(e: Engine)
    ensures var r := Deactivate(e);
            && Stopped(r, Idle) && !r.enabled && r.program == NO_PROGRAM && r.file == ""
            && r.pendingTc == NoTc && !r.pendingEvent
  {
    hide Fill, NoWindows;
  }

  /** A new HK period counts from the last reports, and nothing else of the state changes. */
  lemma IntervalChanges(e: Engine, ms: nat, s: nat)
    requires Safe(e) && e.current < |e.program.states| && s < |e.program.states[e.current].hkSlots|
    ensures var r := SetInterval(e, ms);
            var sd, after := e.program.states[e.current], r.program.states[e.current];
            && |r.program.states| == |e.program.states| && r.timers == e.timers && r.current == e.current
            && (forall i :: 0 <= i < |e.program.states| && i != e.current ==>
                  r.program.states[i] == e.program.states[i])
            && after == sd.(hkSlots := after.hkSlots) && |after.hkSlots| == |sd.hkSlots|
            && after.hkSlots[s] == Slot(ms, sd.hkSlots[s].fieldCount)
            && s < |r.history.hkFrom| && s < |r.history.hkCount| && r.history.hkCount[s] == 0
            && r.history.hkFrom[s] == e.history.hkFrom[s] + e.history.hkCount[s] * sd.hkSlots[s].everyMs
  {
    hide Lifecycle, Targets, NoDangling;
    assert e.program.states[e.current] in e.program.states;
  }

  lemma {:induction false} TicksRest(e: Engine, ops: seq<Op>)
    requires Safe(e) && !Active(e) && forall op :: op in ops ==> op.OpTick? && Allowed(op)
    ensures Run(e, ops) == e
    decreases |ops|
  {
    hide Safe;
    if ops != [] {
      assert ops[|ops| - 1] in ops;
      TicksRest(e, ops[..|ops| - 1]);
    }
  }

  /**
   A paused mission rests, however often it is ticked; allowed to go on, it is in the same state with the same timers,
   telecommands and delta baselines, and only its hold windows start over.
   */
  lemma PauseAndGoOn(e: Engine, pause: TickEnv, ops: seq<Op>, on: TickEnv)
    requires Safe(e) && Active(e) && forall op :: op in ops ==> op.OpTick? && Allowed(op)
    ensures var p := SetExecution(e, false, pause);
            && Safe(p) && !Active(p) && p.running && Run(p, ops) == p
            && var r := SetExecution(p, true, on);
               && Active(r) && r.program == e.program && r.current == e.current && r.timers == e.timers
               && r.pendingTc == e.pendingTc && r.confirm == e.confirm && r.pendingEvent == e.pendingEvent
               && r.windows == e.windows.(holding := Fill(AMS_MAX_TRANSITIONS, false),
                                          metMs := Fill(AMS_MAX_TRANSITIONS, 0))
  {
    SetExecutionSafe(e, false, pause);
    TicksRest(SetExecution(e, false, pause), ops);
    hide Targets, NoDangling, Fill;
  }

  // ----- Reports over a run -----

  function Slots(sd: StateDef, kind: nat): seq<Slot> {
    if kind == 1 then sd.hkSlots else sd.logSlots
  }

  function Froms(h: History, kind: nat): seq<int> {
    if kind == 1 then h.hkFrom else h.logFrom
  }

  function Counts(h: History, kind: nat): seq<nat> {
    if kind == 1 then h.hkCount else h.logCount
  }

  /** Ticks and telecommands only. */
  predicate Plain(op: Op) {
    op.OpTick? || op.OpInject?
  }

  /** Every tick comes within `gap` of the clock before it. */
  predicate Ticking(ops: seq<Op>, last: nat, gap: nat)
    decreases |ops|
  {
    ops == [] || (
      var before := ops[..|ops| - 1];
      Ticking(before, last, gap) && (ops[|ops| - 1].OpTick? ==> TimeOf(ops[|ops| - 1], 0) <= Clock(before, last) + gap))
  }

  /** The budget reaches the kind even if everything is due. */
  predicate Reached(sd: StateDef, kind: nat) {
    Ahead(sd, (true, true, true), kind) == 0 || Ahead(sd, (true, true, true), kind) < sd.actionBudget
  }

  /** Slot `s` has sent every report whose time has come. */
  predicate UpToDate(e: Engine, kind: nat, s: nat, t: nat)
    requires Sane(e) && e.current < |e.program.states| && Fits(e.program.states[e.current])
  {
    var sd := e.program.states[e.current];
    && s < |Slots(sd, kind)| && Slots(sd, kind)[s].everyMs > 0
    && 0 <= t - (Froms(e.history, kind)[s] + Counts(e.history, kind)[s] * Slots(sd, kind)[s].everyMs)
         < Slots(sd, kind)[s].everyMs
  }

  lemma ReachedIsServed(sd: StateDef, due: (bool, bool, bool), kind: nat)
    requires kind < 3 && Reached(sd, kind)
    ensures Served(sd, due, kind) <==> if kind == 0 then due.0 else if kind == 1 then due.1 else due.2
  {
  }

  /** One acting tick brings a slot up to date. */
  lemma StayUpToDate(e: Engine, r: Engine, kind: nat, s: nat, last: nat, gap: nat, env: TickEnv)
    requires Sane(e) && Sane(r) && e.current < |e.program.states| && Fits(e.program.states[e.current])
    requires Stayed(e, r, e.program.states[e.current], env) && (kind == 1 || kind == 2)
    requires UpToDate(e, kind, s, last) && Reached(e.program.states[e.current], kind)
    requires var slot := Slots(e.program.states[e.current], kind)[s];
             slot.fieldCount > 0 && gap <= slot.everyMs && gap + slot.everyMs <= TWO32
    requires last <= env.t <= last + gap
    ensures r.program == e.program && r.current == e.current && UpToDate(r, kind, s, env.t)
    ensures Froms(r.history, kind) == Froms(e.history, kind) && r.history.trail == e.history.trail
  {
    var sd := e.program.states[e.current];
    var due := DueKinds(e, sd, env);
    var slots, from, counts := Slots(sd, kind), Froms(e.history, kind), Counts(e.history, kind);
    assert |slots| <= |from| && |slots| <= |counts| && |slots| <= |Counts(r.history, kind)|;
    hide Served, Ahead, Sane, TaskAt, CheckpointKept;
    ReachedIsServed(sd, due, kind);
    var p, n, m := slots[s].everyMs, counts[s], Counts(r.history, kind)[s];
    var late := env.t - (from[s] + n * p);
    OverdueMeans(slots[s], from[s], n, env.t);
    assert Overdue(slots[s], from[s], n, env.t) ==> SomeOverdue(slots, from, counts, env.t);
    OneMoreTime(n, p);
    hide Overdue, SomeOverdue;
    assert m == if late >= p then n + 1 else n;
  }

  lemma OverdueMeans(slot: Slot, from: int, n: nat, t: int)
    ensures var late := t - (from + n * slot.everyMs);
            0 <= late < TWO32 ==>
              (Overdue(slot, from, n, t) <==> slot.everyMs > 0 && slot.fieldCount > 0 && late >= slot.everyMs)
  {
  }

  /** Whatever a plain call does to a mission that is still in the same stay afterwards. */
  lemma PlainStep(e: Engine, last: nat, op: Op)
    requires Known(e, last) && Plain(op) && last <= TimeOf(op, last)
    ensures Safe(e)
    ensures var r := Apply(e, op);
            && (Active(r) ==> Active(e) && |e.history.trail| <= |r.history.trail|)
            && (op.OpInject? ==>
                  && r.program == e.program && r.current == e.current
                  && r.history == e.history.(tcs := r.history.tcs))
            && (op.OpTick? && Active(r) && |r.history.trail| == |e.history.trail| ==>
                  && e.current < |e.program.states| && Fits(e.program.states[e.current]) && Sane(e) && Sane(r)
                  && Stayed(e, r, e.program.states[e.current], op.env))
  {
    KnownMeans(e, last);
    match op
    case OpInject(tc) =>
    case OpTick(env) =>
      if Active(e) {
        TickMeans(e, last, env);
        StayedOnly(e, Tick(e, env), env);
      }
      hide Tick, Sane, Stayed, Known;
  }

  /** A tick after which the mission runs in the same stay is one that stayed. */
  lemma StayedOnly(e: Engine, r: Engine, env: TickEnv)
    requires Sane(e) && Sane(r) && e.current < |e.program.states| && Fits(e.program.states[e.current])
    requires Outcome(e, r, env)
    ensures Stayed(e, r, e.program.states[e.current], env) || !r.running
            || r.history.trail == e.history.trail + [r.current]
  {
    hide Sane, Ripe, FirstDue, GuardBroken, Stayed;
  }

  lemma {:induction false} TrailGrows(e: Engine, last: nat, ops: seq<Op>)
    requires Known(e, last) && InOrder(ops, last) && Safe(e)
    requires forall op :: op in ops ==> Plain(op) && Allowed(op)
    ensures Active(Run(e, ops)) ==> Active(e) && |e.history.trail| <= |Run(e, ops).history.trail|
    decreases |ops|
  {
    hide Known, Safe, Apply, Active, Plain, Allowed;
    if ops != [] {
      var before, op := ops[..|ops| - 1], ops[|ops| - 1];
      assert op in ops;
      TrailGrows(e, last, before);
      RunKnown(e, last, before);
      PlainStep(Run(e, before), Clock(before, last), op);
    }
  }

  predicate Punctual(e: Engine, kind: nat, s: nat, gap: nat) {
    && (kind == 1 || kind == 2) && e.current < |e.program.states| && s < |Slots(e.program.states[e.current], kind)|
    && Reached(e.program.states[e.current], kind)
    && var slot := Slots(e.program.states[e.current], kind)[s];
       slot.fieldCount > 0 && 0 < slot.everyMs && gap <= slot.everyMs && gap + slot.everyMs <= TWO32
  }

  predicate SameBeat(e: Engine, r: Engine, kind: nat) {
    && r.program == e.program && r.current == e.current && r.history.trail == e.history.trail
    && Froms(r.history, kind) == Froms(e.history, kind)
  }

  lemma StepUpToDate(e: Engine, last: nat, op: Op, kind: nat, s: nat, gap: nat)
    requires Known(e, last) && Plain(op) && last <= TimeOf(op, last) && Sane(e) && Active(e)
    requires Punctual(e, kind, s, gap) && Fits(e.program.states[e.current]) && UpToDate(e, kind, s, last)
    requires op.OpTick? ==> TimeOf(op, last) <= last + gap
    requires Active(Apply(e, op)) && |Apply(e, op).history.trail| == |e.history.trail|
    ensures var r := Apply(e, op);
            Sane(r) && SameBeat(e, r, kind) && Punctual(r, kind, s, gap) && UpToDate(r, kind, s, TimeOf(op, last))
  {
    PlainStep(e, last, op);
    ApplySafe(e, op);
    hide Known, Lifecycle, Targets, NoDangling, Stayed, Reached, Tick;
    match op
    case OpInject(tc) =>
    case OpTick(env) => StayUpToDate(e, Apply(e, op), kind, s, last, gap, env);
  }

  /**
   Reports are complete. While a mission is ticked at most a period apart and stays in its state, a slot that the
   budget reaches has sent, since its beat began, exactly as many reports as periods have gone by.
   */
  lemma {:induction false} ReportsAreComplete(e: Engine, last: nat, ops: seq<Op>, kind: nat, s: nat, gap: nat)
    requires Known(e, last) && Safe(e) && Sane(e) && Active(e) && Punctual(e, kind, s, gap)
    requires Fits(e.program.states[e.current]) && UpToDate(e, kind, s, last)
    requires InOrder(ops, last) && Ticking(ops, last, gap) && forall op :: op in ops ==> Plain(op) && Allowed(op)
    requires Active(Run(e, ops)) && |Run(e, ops).history.trail| == |e.history.trail|
    ensures var r := Run(e, ops);
            && Sane(r) && SameBeat(e, r, kind) && Punctual(r, kind, s, gap) && UpToDate(r, kind, s, Clock(ops, last))
    ensures var p := Slots(e.program.states[e.current], kind)[s].everyMs;
            && s < |Froms(e.history, kind)| && s < |Counts(Run(e, ops).history, kind)|
            && Counts(Run(e, ops).history, kind)[s] == (Clock(ops, last) - Froms(e.history, kind)[s]) / p
    decreases |ops|
  {
    if ops != [] {
      hide Known, Safe, Apply, Active, Plain, Allowed, Punctual, SameBeat, Sane, Fits, UpToDate;
      var before, op := ops[..|ops| - 1], ops[|ops| - 1];
      assert op in ops;
      var b, t := Run(e, before), Clock(before, last);
      RunKnown(e, last, before);
      PlainStep(b, t, op);
      TrailGrows(e, last, before);
      ReportsAreComplete(e, last, before, kind, s, gap);
      BeatFits(e, b, kind);
      StepUpToDate(b, t, op, kind, s, gap);
      SameBeatTransitive(e, b, Run(e, ops), kind);
    }
    CountIsQuotient(e, Run(e, ops), kind, s, gap, Clock(ops, last));
  }

  lemma BeatFits(e: Engine, r: Engine, kind: nat)
    requires SameBeat(e, r, kind) && e.current < |e.program.states| && Fits(e.program.states[e.current])
    ensures r.current < |r.program.states| && Fits(r.program.states[r.current])
    ensures r.history.trail == e.history.trail
  {
  }

  lemma SameBeatTransitive(e: Engine, f: Engine, r: Engine, kind: nat)
    requires SameBeat(e, f, kind) && SameBeat(f, r, kind)
    ensures SameBeat(e, r, kind)
  {
  }

  lemma CountIsQuotient(e: Engine, r: Engine, kind: nat, s: nat, gap: nat, t: nat)
    requires Sane(r) && SameBeat(e, r, kind) && Punctual(r, kind, s, gap) && Fits(r.program.states[r.current])
    requires UpToDate(r, kind, s, t)
    ensures var p := Slots(e.program.states[e.current], kind)[s].everyMs;
            && s < |Froms(e.history, kind)| && s < |Counts(r.history, kind)|
            && Counts(r.history, kind)[s] == (t - Froms(e.history, kind)[s]) / p
  {
    var p, n := Slots(r.program.states[r.current], kind)[s].everyMs, Counts(r.history, kind)[s];
    Quotient(t - Froms(r.history, kind)[s], n, p);
  }

  lemma Quotient(x: int, n: int, p: nat)
    requires 0 < p && 0 <= x - n * p < p
    ensures x / p == n
  {
    var q := x / p;
    DivisionMeans(x, p);
    if q < n {
      TimesGrows(q, n, p);
    } else if n < q {
      TimesGrows(n, q, p);
    }
  }

  lemma DivisionMeans(x: int, p: nat)
    requires 0 < p
    ensures 0 <= x - (x / p) * p < p
  {
  }

  lemma {:induction false} TimesGrows(a: int, b: int, p: nat)
    requires a < b
    ensures a * p + p <= b * p
    decreases b - a
  {
    OneMoreTime(b - 1, p);
    if a + 1 < b {
      TimesGrows(a, b - 1, p);
    }
  }

  lemma OneMoreTime(a: int, p: nat)
    ensures (a + 1) * p == a * p + p
  {
  }

  // ----- Sleeping -----

  /** The next report of slot `s`. */
  predicate NextReport(slots: seq<Slot>, from: seq<int>, counts: seq<nat>, s: nat, d: int) {
    && s < |slots| && s < |from| && s < |counts| && slots[s].everyMs > 0
    && d == from[s] + counts[s] * slots[s].everyMs + slots[s].everyMs
  }

  predicate NextRun(e: Engine, i: nat, d: int)
    requires Sane(e)
  {
    && i < |e.program.tasks| && e.program.tasks[i].everyMs > 0
    && (e.program.tasks[i].filter.Some? ==> e.current in e.program.tasks[i].active)
    && Millis(d - e.program.tasks[i].everyMs) == e.timers.taskMs[i]
  }

  predicate Deadline(e: Engine, sd: StateDef, d: int) {
    || (sd.onTimeout.Some? && d == e.history.enterT + sd.onTimeoutMs)
    || (sd.fallback.Some? && d == e.history.enterT + sd.fallbackAfterMs)
  }

  /** A true time at which a quiet mission has something to do: a report, a task, the timeout or the fallback. */
  ghost predicate Awaits(e: Engine, d: int)
    requires Sane(e) && e.current < |e.program.states| && Fits(e.program.states[e.current])
  {
    var sd, h := e.program.states[e.current], e.history;
    || (exists s :: NextReport(sd.hkSlots, h.hkFrom, h.hkCount, s, d))
    || (exists s :: NextReport(sd.logSlots, h.logFrom, h.logCount, s, d))
    || (exists i :: NextRun(e, i, d))
    || Deadline(e, sd, d)
  }

  lemma {:induction false} SlotDuesAre(slots: seq<Slot>, lastMs: seq<nat>, w: nat)
    requires |slots| <= |lastMs|
    ensures w in SlotDues(slots, lastMs)
       <==> exists s :: 0 <= s < |slots| && slots[s].everyMs > 0 && w == (lastMs[s] + slots[s].everyMs) % TWO32
    decreases |slots|
  {
    if slots != [] {
      var n := |slots| - 1;
      SlotDuesAre(slots[..n], lastMs, w);
      assert forall s :: 0 <= s < n ==> slots[..n][s] == slots[s];
    }
  }

  predicate TaskDueAt(tasks: seq<TaskDef>, taskMs: seq<nat>, current: nat, i: nat, w: nat) {
    && i < |tasks| && i < |taskMs| && tasks[i].everyMs > 0 && TaskActive(tasks[i], current)
    && w == (taskMs[i] + tasks[i].everyMs) % TWO32
  }

  lemma {:induction false} TaskDuesAre(tasks: seq<TaskDef>, taskMs: seq<nat>, current: nat, w: nat)
    requires |tasks| <= |taskMs|
    ensures w in TaskDues(tasks, taskMs, current) <==> exists i :: TaskDueAt(tasks, taskMs, current, i, w)
    decreases |tasks|
  {
    hide TaskActive;
    if tasks != [] {
      var n := |tasks| - 1;
      TaskDuesAre(tasks[..n], taskMs, current, w);
      assert w in TaskDues(tasks, taskMs, current)
             <==> w in TaskDues(tasks[..n], taskMs, current) || TaskDueAt(tasks, taskMs, current, n, w);
      hide TaskDues;
      DueWithLast(tasks, tasks[..n], taskMs, current, w);
    }
  }

  lemma DueWithLast(tasks: seq<TaskDef>, front: seq<TaskDef>, taskMs: seq<nat>, current: nat, w: nat)
    requires tasks != [] && front == tasks[..|tasks| - 1]
    ensures (exists i :: TaskDueAt(tasks, taskMs, current, i, w))
       <==> (exists i :: TaskDueAt(front, taskMs, current, i, w))
            || TaskDueAt(tasks, taskMs, current, |tasks| - 1, w)
  {
    hide TaskActive;
    var n := |tasks| - 1;
    if i: nat :| TaskDueAt(tasks, taskMs, current, i, w) {
      assert i == n || TaskDueAt(front, taskMs, current, i, w);
    }
    if i: nat :| TaskDueAt(front, taskMs, current, i, w) {
      assert TaskDueAt(tasks, taskMs, current, i, w);
    }
  }

  lemma ReportsAwaited(slots: seq<Slot>, lastMs: seq<nat>, counts: seq<nat>, from: seq<int>, last: nat, w: nat)
    requires OnBeat(slots, lastMs, counts, from, last)
    ensures w in SlotDues(slots, lastMs) <==> exists s, d :: NextReport(slots, from, counts, s, d) && Millis(d) == w
  {
    SlotDuesAre(slots, lastMs, w);
    hide SlotDues;
    forall s | 0 <= s < |slots| && slots[s].everyMs > 0
      ensures var d := from[s] + counts[s] * slots[s].everyMs + slots[s].everyMs;
              NextReport(slots, from, counts, s, d) && Millis(d) == (lastMs[s] + slots[s].everyMs) % TWO32
    {
      assert Beat(slots[s].everyMs, lastMs[s], counts[s], from[s], last);
      MillisAdds(from[s] + counts[s] * slots[s].everyMs, slots[s].everyMs);
    }
    hide OnBeat, Millis;
  }

  lemma RunIsDue(e: Engine, i: nat, d: int)
    requires Sane(e) && NextRun(e, i, d)
    ensures TaskDueAt(e.program.tasks, e.timers.taskMs, e.current, i, Millis(d))
  {
    MillisAdds(d - e.program.tasks[i].everyMs, e.program.tasks[i].everyMs);
  }

  lemma DueIsRun(e: Engine, i: nat, w: nat)
    requires Sane(e) && TaskDueAt(e.program.tasks, e.timers.taskMs, e.current, i, w)
    ensures exists d :: NextRun(e, i, d) && Millis(d) == w
  {
    var d := e.timers.taskMs[i] + e.program.tasks[i].everyMs;
    assert NextRun(e, i, d) && Millis(d) == w;
  }

  lemma RunsAwaited(e: Engine, w: nat)
    requires Sane(e)
    ensures w in TaskDues(e.program.tasks, e.timers.taskMs, e.current)
       <==> exists i, d :: NextRun(e, i, d) && Millis(d) == w
  {
    TaskDuesAre(e.program.tasks, e.timers.taskMs, e.current, w);
    hide TaskDues, TaskDueAt, NextRun, Millis;
    forall i: nat | TaskDueAt(e.program.tasks, e.timers.taskMs, e.current, i, w)
      ensures exists d :: NextRun(e, i, d) && Millis(d) == w
    {
      DueIsRun(e, i, w);
    }
    forall i: nat, d: int | NextRun(e, i, d)
      ensures TaskDueAt(e.program.tasks, e.timers.taskMs, e.current, i, Millis(d))
    {
      RunIsDue(e, i, d);
    }
  }

  lemma DeadlinesAwaited(e: Engine, sd: StateDef, w: nat)
    requires e.timers.enterMs == Millis(e.history.enterT)
    ensures w in DeadlineDues(sd, e.timers.enterMs) <==> exists d :: Deadline(e, sd, d) && Millis(d) == w
  {
    MillisAdds(e.history.enterT, sd.onTimeoutMs);
    MillisAdds(e.history.enterT, sd.fallbackAfterMs);
    if sd.onTimeout.Some? {
      assert Deadline(e, sd, e.history.enterT + sd.onTimeoutMs);
    }
    if sd.fallback.Some? {
      assert Deadline(e, sd, e.history.enterT + sd.fallbackAfterMs);
    }
  }

  /** The due times on the clock are those the mission awaits, and no others. */
  lemma DuesAreAwaited(e: Engine, last: nat, w: nat)
    requires Known(e, last) && Safe(e) && Quiet(e) && Fits(e.program.states[e.current])
    ensures w in Dues(e) <==> exists d :: Awaits(e, d) && Millis(d) == w
  {
    var sd, h := e.program.states[e.current], e.history;
    ReportsAwaited(sd.hkSlots, e.timers.hkMs, h.hkCount, h.hkFrom, last, w);
    ReportsAwaited(sd.logSlots, e.timers.logMs, h.logCount, h.logFrom, last, w);
    RunsAwaited(e, w);
    DeadlinesAwaited(e, sd, w);
    hide Known, SlotDues, TaskDues, DeadlineDues, NextReport, NextRun, Deadline, Millis, Lifecycle, Targets, NoDangling;
  }

  /**
   How long the engine asks to sleep. With transitions or guards to watch it is 10 ms. Otherwise it is at most 50 ms
   and never past something the mission awaits, and, unless the clock is about to wrap, shorter than 50 ms only if
   something awaited is due by then.
   */
  lemma SleepsExactly(e: Engine, last: nat, t: nat)
    requires Known(e, last) && Safe(e) && (Quiet(e) ==> Fits(e.program.states[e.current]))
    ensures var sleep := Since(NextWakeup(e, Millis(t)), Millis(t));
            && (!Quiet(e) ==> sleep == 10)
            && (Quiet(e) ==>
                  && 1 <= sleep <= 50
                  && (forall d :: Awaits(e, d) && d > t ==> t + sleep <= d)
                  && (Millis(t) + 50 < TWO32 && sleep < 50 ==>
                        exists d :: Awaits(e, d) && Millis(d) <= Millis(t) + sleep))
  {
    if Quiet(e) {
      hide Known, Safe, Sane, Awaits, NextWakeup, Quiet, Fits;
      forall d | Awaits(e, d) && d > t ensures t + Since(NextWakeup(e, Millis(t)), Millis(t)) <= d {
        NeverLate(e, last, t, d);
      }
      WakesFor(e, last, t);
    }
  }

  lemma NeverLate(e: Engine, last: nat, t: nat, d: int)
    requires Known(e, last) && Safe(e) && Quiet(e) && Fits(e.program.states[e.current]) && Awaits(e, d) && d > t
    ensures t + Since(NextWakeup(e, Millis(t)), Millis(t)) <= d
  {
    hide Known, Awaits, NextWakeup, Lifecycle, Targets, NoDangling;
    DuesAreAwaited(e, last, Millis(d));
    NothingSleptThrough(e, t, d);
  }

  lemma WakesFor(e: Engine, last: nat, t: nat)
    requires Known(e, last) && Safe(e) && Quiet(e) && Fits(e.program.states[e.current])
    ensures var sleep := Since(NextWakeup(e, Millis(t)), Millis(t));
            && 1 <= sleep <= 50
            && (Millis(t) + 50 < TWO32 && sleep < 50 ==>
                  exists d :: Awaits(e, d) && Millis(d) <= Millis(t) + sleep)
  {
    hide Known, Awaits, Lifecycle, Targets, NoDangling, Dues, Earliest, Millis;
    SleepBounds(Millis(t), Dues(e));
    DuesAreAwaited(e, last, Earliest((Millis(t) + RADIO_MAX_SLEEP_MS) % TWO32, Dues(e)));
    hide Sane;
  }

  lemma SleepBounds(now: nat, dues: seq<nat>)
    requires now < TWO32
    ensures var next := Earliest((now + RADIO_MAX_SLEEP_MS) % TWO32, dues);
            var wake := if next > now then next else (now + 1) % TWO32;
            && 1 <= Since(wake, now) <= 50
            && (now + 50 < TWO32 && Since(wake, now) < 50 ==> next in dues && next <= now + Since(wake, now))
  {
    hide Earliest;
    EarliestIs((now + RADIO_MAX_SLEEP_MS) % TWO32, dues);
  }

  lemma EarliestIs(cur: nat, dues: seq<nat>)
    ensures Earliest(cur, dues) <= cur && (Earliest(cur, dues) == cur || Earliest(cur, dues) in dues)
  {
  }
}
