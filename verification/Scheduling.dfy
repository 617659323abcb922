/** Report cadences and wake-up times (src/ams/mission_script_engine.cpp:415-508 and 825-948). */
module Scheduling {
  import opened MissionProgram
  import opened Clock32
  import opened MissionEngine
  import opened EngineSafety
  import opened HoldWindows

  // ----- Report timers do not drift -----

  /** After `n` reports of a slot its timestamp is n periods after `from`, and that time has passed. */
  predicate OnBeat(slots: seq<Slot>, lastMs: seq<nat>, counts: seq<nat>, from: seq<int>, last: nat) {
    && |slots| <= |lastMs| && |slots| <= |counts| && |slots| <= |from|
    && forall s :: 0 <= s < |slots| ==> Beat(slots[s].everyMs, lastMs[s], counts[s], from[s], last)
  }

  predicate Beat(period: nat, lastMs: nat, n: nat, from: int, last: nat) {
    lastMs == Millis(from + n * period) && from + n * period <= last
  }

  predicate BothOnBeat(e: Engine, sd: StateDef, t: nat) {
    && OnBeat(sd.hkSlots, e.timers.hkMs, e.history.hkCount, e.history.hkFrom, t)
    && OnBeat(sd.logSlots, e.timers.logMs, e.history.logCount, e.history.logFrom, t)
  }

  predicate BeatInv(e: Engine, last: nat) {
    && Safe(e)
    && (e.running ==>
          && e.history.enterT <= last && e.timers.enterMs == Millis(e.history.enterT)
          && BothOnBeat(e, e.program.states[e.current], last))
  }

  lemma MillisAdds(a: int, b: nat)
    ensures (Millis(a) + b) % TWO32 == Millis(a + b)
  {
  }

  lemma NextBeat(period: nat, lastMs: nat, n: nat, from: int, t: nat)
    requires Beat(period, lastMs, n, from, t) && Since(Millis(t), lastMs) >= period
    ensures Beat(period, (lastMs + period) % TWO32, n + 1, from, t)
  {
    ClockUnderstates(t, from + n * period);
    MillisAdds(from + n * period, period);
    assert (n + 1) * period == n * period + period;
  }

  lemma AdvanceOnBeat(slots: seq<Slot>, lastMs: seq<nat>, counts: seq<nat>, from: seq<int>, t: nat)
    requires OnBeat(slots, lastMs, counts, from, t)
    requires forall i :: 0 <= i < |lastMs| ==> lastMs[i] < TWO32
    ensures OnBeat(slots, Advance(slots, lastMs, Millis(t)), CountUp(slots, lastMs, Millis(t), counts), from, t)
  {
    hide Beat;
    forall s | 0 <= s < |slots|
      ensures Beat(slots[s].everyMs, Advance(slots, lastMs, Millis(t))[s],
                   CountUp(slots, lastMs, Millis(t), counts)[s], from[s], t)
    {
      if SlotDue(slots[s], lastMs[s], Millis(t)) {
        NextBeat(slots[s].everyMs, lastMs[s], counts[s], from[s], t);
      }
    }
  }

  lemma BeatLater(slots: seq<Slot>, lastMs: seq<nat>, counts: seq<nat>, from: seq<int>, last: nat, t: nat)
    requires OnBeat(slots, lastMs, counts, from, last) && last <= t
    ensures OnBeat(slots, lastMs, counts, from, t)
  {
    forall s | 0 <= s < |slots|
      ensures Beat(slots[s].everyMs, lastMs[s], counts[s], from[s], t)
    {
      assert Beat(slots[s].everyMs, lastMs[s], counts[s], from[s], last);
    }
  }

  lemma BothLater(e: Engine, sd: StateDef, last: nat, t: nat)
    requires BothOnBeat(e, sd, last) && last <= t
    ensures BothOnBeat(e, sd, t)
  {
    hide OnBeat;
    BeatLater(sd.hkSlots, e.timers.hkMs, e.history.hkCount, e.history.hkFrom, last, t);
    BeatLater(sd.logSlots, e.timers.logMs, e.history.logCount, e.history.logFrom, last, t);
  }

  lemma {:induction false} ActionsOnBeat(e: Engine, sd: StateDef, t: nat, due: (bool, bool, bool), steps: nat)
    requires Sane(e) && Fits(sd) && BothOnBeat(e, sd, t)
    ensures BothOnBeat(RunActions(e, sd, Millis(t), due, steps), sd, t)
    decreases steps
  {
    hide PickBest, OnBeat, Advance, CountUp;
    if steps > 0 {
      match PickBest(sd.eventPriority, sd.hkPriority, sd.logPriority, due)
      case None =>
      case Some(k) =>
        FireKeeps(e, sd, Millis(t));
        if k == 0 {
          ActionsOnBeat(e.(pendingEvent := false), sd, t, (false, due.1, due.2), steps - 1);
        } else if k == 1 {
          AdvanceOnBeat(sd.hkSlots, e.timers.hkMs, e.history.hkCount, e.history.hkFrom, t);
          ActionsOnBeat(FireHk(e, sd, Millis(t)), sd, t, (due.0, false, due.2), steps - 1);
        } else {
          AdvanceOnBeat(sd.logSlots, e.timers.logMs, e.history.logCount, e.history.logFrom, t);
          ActionsOnBeat(FireLog(e, sd, Millis(t)), sd, t, (due.0, due.1, false), steps - 1);
        }
    }
  }

  lemma ActingOnBeat(e: Engine, sd: StateDef, env: TickEnv)
    requires BeatInv(e, env.t) && e.running && sd == e.program.states[e.current] && sd in e.program.states
    ensures BeatInv(Acting(e, sd, env), env.t)
  {
    hide RunActions, OnBeat, Terminal, AnyDue;
    ActingKeeps(e, sd, env);
    ActionsKeep(e, sd, Millis(env.t));
    ActionsOnBeat(e, sd, env.t,
                  (e.pendingEvent, AnyDue(sd.hkSlots, e.timers.hkMs, Millis(env.t)),
                   AnyDue(sd.logSlots, e.timers.logMs, Millis(env.t))),
                  ClampBudget(sd.actionBudget));
  }

  lemma EnterOnBeat(e: Engine, idx: nat, env: TickEnv)
    requires Safe(e.(current := idx)) && e.running && idx < |e.program.states|
    ensures BeatInv(Enter(e, idx, env), env.t)
  {
    EnterSafe(e, idx, env);
    assert e.program.states[idx] in e.program.states;
  }

  lemma TickOnBeat(e: Engine, last: nat, env: TickEnv)
    requires BeatInv(e, last) && last <= env.t
    ensures BeatInv(Tick(e, env), env.t)
  {
    hide EvalTransitions, Idling, Enter, OnBeat;
    TickSafe(e, env);
    if e.running {
      BothLater(e, e.program.states[e.current], last, env.t);
    }
    if e.running && e.status == Running && e.enabled {
      var sd := e.program.states[e.current];
      assert sd in e.program.states;
      var v := EvalTransitions(e, sd, 0, [], env);
      EvalTransitionsKeeps(e, sd, 0, [], env);
      var f := Noted(v, env);
      assert Safe(f);
      if v.fired.Some? {
        assert sd.transitions[v.fired.value] in sd.transitions;
        EnterOnBeat(f, sd.transitions[v.fired.value].targetIndex, env);
      } else {
        IdlingOnBeat(f, sd, env);
      }
    }
  }

  lemma IdlingOnBeat(e: Engine, sd: StateDef, env: TickEnv)
    requires BeatInv(e, env.t) && e.running && sd == e.program.states[e.current] && sd in e.program.states
    ensures BeatInv(Idling(e, sd, env), env.t)
  {
    hide Enter, Acting, AnyViolation, BothOnBeat, Sane, NoWindows, Fill;
    IdlingSafe(e, sd, env);
    forall idx: nat | idx < |e.program.states|
      ensures Safe(e.(current := idx))
    {
      ElsewhereSafe(e, idx);
    }
    if JumpDue(e, sd.onTimeout, sd.onTimeoutMs, env) {
      EnterOnBeat(e, sd.onTimeout.value.index, env);
    } else if JumpDue(e, sd.fallback, sd.fallbackAfterMs, env) {
      EnterOnBeat(e, sd.fallback.value.index, env);
    } else if e.pendingTc == Abort {
    } else if AnyViolation(e, sd, env) {
      if sd.onError.Some? && sd.onError.value.resolved {
        EnterOnBeat(e, sd.onError.value.index, env);
      }
    } else {
      ActingOnBeat(e, sd, env);
    }
  }

  lemma ApplyOnBeat(e: Engine, last: nat, op: Op)
    requires BeatInv(e, last) && Allowed(op) && last <= TimeOf(op, last)
    ensures BeatInv(Apply(e, op), TimeOf(op, last))
  {
    ApplySafe(e, op);
    hide Safe, OnBeat, Tick, Activate, SetInterval;
    var t := TimeOf(op, last);
    if e.running {
      BothLater(e, e.program.states[e.current], last, t);
    }
    match op
    case OpTick(env) => TickOnBeat(e, last, env);
    case OpActivate(file, load, env) => ActivateOnBeat(e, file, load, env);
    case OpDeactivate =>
    case OpInject(tc) =>
    case OpArm(env) =>
    case OpSetExecution(on, env) =>
    case OpSetInterval(ms) => IntervalOnBeat(e, last, ms);
  }

  /** Counting starts again from the last report. */
  lemma IntervalOnBeat(e: Engine, last: nat, ms: nat)
    requires BeatInv(e, last) && Safe(SetInterval(e, ms))
    ensures BeatInv(SetInterval(e, ms), last)
  {
    hide Targets, NoDangling, Millis;
  }

  lemma ActivateOnBeat(e: Engine, file: string, load: Load, env: TickEnv)
    requires Safe(e) && Allowed(OpActivate(file, load, env))
    ensures BeatInv(Activate(e, file, load, env), env.t)
  {
    ActivateSafe(e, file, load, env);
    hide Enter, Leads;
    match load
    case Broken(partial) =>
    case Compiled(p) =>
      var zero := Fill(AMS_MAX_HK_SLOTS, 0);
      WellFormedTargets(p);
      EnterOnBeat(e.(program := p, file := ActiveName(file), reason := NoReason, status := Loaded, running := true,
                     enabled := false, pendingTc := NoTc, pendingEvent := false,
                     timers := e.timers.(hkMs := zero, logMs := zero),
                     history := e.history.(trail := [])), StartState(p), env);
  }

  /**
   In every run and at every moment: a slot that has sent n reports since its beat began carries the timestamp
   beginning + n * period, and that time has really passed. BeatsRest says when a beat begins anew.
   */
  lemma {:induction false} ReportsNeverDrift(e: Engine, last: nat, ops: seq<Op>)
    requires BeatInv(e, last) && InOrder(ops, last) && forall op :: op in ops ==> Allowed(op)
    ensures Safe(e) && BeatInv(Run(e, ops), Clock(ops, last))
    decreases |ops|
  {
    hide Apply, Safe;
    if ops != [] {
      ReportsNeverDrift(e, last, ops[..|ops| - 1]);
      ApplyOnBeat(Run(e, ops[..|ops| - 1]), Clock(ops[..|ops| - 1], last), ops[|ops| - 1]);
    }
  }

  lemma OnBeatAtPowerOn(stored: Stored, env: TickEnv)
    requires Restorable(stored) && Lawful(stored)
    ensures BeatInv(Begin(stored, env), env.t)
  {
    BeginSafeIff(stored, env);
    hide Sane, Lifecycle, Targets, NoDangling, Resume, BothOnBeat, NewStay, NoWindows;
    if stored.Found? && stored.load.Compiled? && stored.record.state < |stored.load.p.states| {
      ResumedOnBeat(Boot(true).(program := stored.load.p, file := ActiveName(stored.file)), stored.record, env);
    }
  }

  /** A mission taken up again is on the beat of the reports it sent before. */
  lemma ResumedOnBeat(e: Engine, r: Record, env: TickEnv)
    requires RecordSane(r) && |r.hkElapsed| == |r.logElapsed| == AMS_MAX_HK_SLOTS && e.checkpointMs < TWO32
    requires r.state < |e.program.states| && Fits(e.program.states[r.state])
    ensures var b := Resume(e, r, env);
            && b.program == e.program && b.current == r.state && BothOnBeat(b, e.program.states[r.state], env.t)
            && b.history.enterT <= env.t && b.timers.enterMs == Millis(b.history.enterT)
  {
    var known := Placed(e, r, env).(status := Running, checkpointMs := Millis(env.t));
    PlacedOnBeat(e, r, env);
    BackOnBeat(known, e.program.states[r.state], r, env);
    hide Placed, SlotsBack, BothOnBeat, RecordSane, Millis;
  }

  lemma PlacedOnBeat(e: Engine, r: Record, env: TickEnv)
    requires RecordSane(r) && r.state < |e.program.states| && Fits(e.program.states[r.state])
    ensures var p := Placed(e, r, env);
            && p.program == e.program && p.current == r.state && BothOnBeat(p, e.program.states[r.state], env.t)
            && p.history.enterT <= env.t && p.timers.enterMs == Millis(p.history.enterT)
  {
    var sd := e.program.states[r.state];
    MillisBefore(env.t, r.stateElapsed);
    NewBeat(sd.hkSlots, env.t);
    NewBeat(sd.logSlots, env.t);
    hide OnBeat, Millis, Since, Fits, Fill, RecordSane;
  }

  lemma BackOnBeat(e: Engine, sd: StateDef, r: Record, env: TickEnv)
    requires RecordSane(r) && |r.hkElapsed| == |r.logElapsed| == AMS_MAX_HK_SLOTS && Fits(sd)
    requires e.history.hkCount == e.history.logCount == Fill(AMS_MAX_HK_SLOTS, 0)
    ensures BothOnBeat(SlotsBack(e, r, env), sd, env.t)
  {
    RestoredBeat(sd.hkSlots, r.hkElapsed, env.t);
    RestoredBeat(sd.logSlots, r.logElapsed, env.t);
    hide OnBeat, Millis, Fits, Fill, Ago, TrueAgo, RecordSane;
  }

  lemma NewBeat(slots: seq<Slot>, t: nat)
    requires |slots| <= AMS_MAX_HK_SLOTS
    ensures OnBeat(slots, Fill(AMS_MAX_HK_SLOTS, Millis(t)), Fill(AMS_MAX_HK_SLOTS, 0), Fill(AMS_MAX_HK_SLOTS, t), t)
  {
    hide Millis;
  }

  lemma RestoredBeat(slots: seq<Slot>, elapsed: seq<nat>, t: nat)
    requires |slots| <= |elapsed| == AMS_MAX_HK_SLOTS && forall i :: 0 <= i < |elapsed| ==> elapsed[i] < TWO32
    ensures OnBeat(slots, Ago(Millis(t), elapsed), Fill(AMS_MAX_HK_SLOTS, 0), TrueAgo(t, elapsed), t)
  {
    hide Millis, Since;
    forall s | 0 <= s < |slots|
      ensures Beat(slots[s].everyMs, Ago(Millis(t), elapsed)[s], 0, TrueAgo(t, elapsed)[s], t)
    {
      MillisBefore(t, elapsed[s]);
    }
  }

  lemma MillisBefore(t: int, d: nat)
    requires d < TWO32
    ensures Since(Millis(t), d) == Millis(t - d)
  {
  }

  /** The same for every run of the firmware; a mission taken up again goes on from its restored last reports. */
  lemma NoDriftSincePowerOn(stored: Stored, start: TickEnv, ops: seq<Op>)
    requires Restorable(stored) && Lawful(stored)
    requires InOrder(ops, start.t) && forall op :: op in ops ==> Allowed(op)
    ensures Safe(Begin(stored, start)) && BeatInv(Run(Begin(stored, start), ops), Clock(ops, start.t))
  {
    hide BeatInv, Begin, Run, InOrder, Clock;
    OnBeatAtPowerOn(stored, start);
    ReportsNeverDrift(Begin(stored, start), start.t, ops);
  }

  predicate SameBeats(h: History, q: History) {
    q.enterT == h.enterT && q.hkFrom == h.hkFrom && q.logFrom == h.logFrom
  }

  /** The beats start anew on entering a state, those of the HK slots also on a change of their period. */
  lemma BeatsRest(e: Engine, op: Op)
    requires Safe(e) && Allowed(op)
    ensures var h, q := e.history, Apply(e, op).history;
            || SameBeats(h, q)
            || ((op.OpTick? || op.OpActivate?) && q == NewStay(q.trail, TimeOf(op, 0)))
            || (op.OpSetInterval? && q == h.(hkFrom := q.hkFrom, hkCount := Fill(AMS_MAX_HK_SLOTS, 0)))
  {
    hide Sane, Lifecycle, Targets, NoDangling, NewStay, Tick, Activate, NoWindows, Fill, LastReports;
    match op
    case OpTick(env) => TickRests(e, env);
    case OpActivate(file, load, env) => ActivateRests(e, file, load, env);
    case OpDeactivate =>
    case OpInject(tc) =>
    case OpArm(env) =>
    case OpSetExecution(on, env) =>
    case OpSetInterval(ms) =>
  }

  predicate Rests(h: History, q: History, t: nat) {
    SameBeats(h, q) || q == NewStay(q.trail, t)
  }

  lemma EnterRests(e: Engine, idx: nat, env: TickEnv)
    requires e.checkpointMs < TWO32
    ensures Rests(e.history, Enter(e, idx, env).history, env.t)
  {
    hide NoWindows, Fill;
  }

  lemma ActivateRests(e: Engine, file: string, load: Load, env: TickEnv)
    requires Safe(e)
    ensures Rests(e.history, Activate(e, file, load, env).history, env.t)
  {
    hide Enter, NewStay, Fill;
    match load
    case Broken(partial) =>
    case Compiled(p) =>
      var zero := Fill(AMS_MAX_HK_SLOTS, 0);
      EnterRests(e.(program := p, file := ActiveName(file), reason := NoReason, status := Loaded, running := true,
                    enabled := false, pendingTc := NoTc, pendingEvent := false,
                    timers := e.timers.(hkMs := zero, logMs := zero),
                    history := e.history.(trail := [])), StartState(p), env);
  }

  lemma ActingRests(e: Engine, sd: StateDef, env: TickEnv)
    requires Sane(e) && Fits(sd)
    ensures SameBeats(e.history, Acting(e, sd, env).history)
  {
    hide ExecuteDueActions, RunTasks, Sane;
    ActionsKeep(e, sd, Millis(env.t));
  }

  lemma IdlingRests(e: Engine, sd: StateDef, env: TickEnv)
    requires Sane(e) && Fits(sd)
    ensures Rests(e.history, Idling(e, sd, env).history, env.t)
  {
    hide Enter, NewStay, Acting, AnyViolation;
    if JumpDue(e, sd.onTimeout, sd.onTimeoutMs, env) {
      EnterRests(e, sd.onTimeout.value.index, env);
    } else if JumpDue(e, sd.fallback, sd.fallbackAfterMs, env) {
      EnterRests(e, sd.fallback.value.index, env);
    } else if e.pendingTc != Abort && AnyViolation(e, sd, env) && sd.onError.Some? {
      EnterRests(e, sd.onError.value.index, env);
    } else {
      ActingRests(e, sd, env);
    }
  }

  lemma TickRests(e: Engine, env: TickEnv)
    requires Safe(e)
    ensures Rests(e.history, Tick(e, env).history, env.t)
  {
    hide EvalTransitions, Enter, NewStay, Idling;
    if e.running && e.status == Running && e.enabled {
      var sd := e.program.states[e.current];
      assert sd in e.program.states;
      var v := EvalTransitions(e, sd, 0, [], env);
      EvalTransitionsKeeps(e, sd, 0, [], env);
      var f := Noted(v, env);
      assert SameBeats(e.history, f.history);
      if v.fired.Some? {
        EnterRests(f, sd.transitions[v.fired.value].targetIndex, env);
      } else {
        IdlingRests(f, sd, env);
      }
    }
  }

  // ----- Wake-up times -----

  const SENSOR_RATE_MS := 10
  const RADIO_MAX_SLEEP_MS := 50

  /** 32-bit due times of the report slots with a period. */
  function SlotDues(slots: seq<Slot>, lastMs: seq<nat>): seq<nat>
    requires |slots| <= |lastMs|
    decreases |slots|
  {
    if slots == [] then []
    else
      var n := |slots| - 1;
      SlotDues(slots[..n], lastMs) + if slots[n].everyMs > 0 then [(lastMs[n] + slots[n].everyMs) % TWO32] else []
  }

  function TaskDues(tasks: seq<TaskDef>, taskMs: seq<nat>, current: nat): seq<nat>
    requires |tasks| <= |taskMs|
    decreases |tasks|
  {
    if tasks == [] then []
    else
      var n := |tasks| - 1;
      TaskDues(tasks[..n], taskMs, current)
      + if tasks[n].everyMs > 0 && TaskActive(tasks[n], current) then [(taskMs[n] + tasks[n].everyMs) % TWO32] else []
  }

  function DeadlineDues(sd: StateDef, enterMs: nat): seq<nat> {
    (if sd.onTimeout.Some? then [(enterMs + sd.onTimeoutMs) % TWO32] else [])
    + (if sd.fallback.Some? then [(enterMs + sd.fallbackAfterMs) % TWO32] else [])
  }

  /** Everything a quiet state waits for. */
  function Dues(e: Engine): seq<nat>
    requires Sane(e) && e.current < |e.program.states| && Fits(e.program.states[e.current])
  {
    var sd := e.program.states[e.current];
    SlotDues(sd.hkSlots, e.timers.hkMs) + SlotDues(sd.logSlots, e.timers.logMs)
    + TaskDues(e.program.tasks, e.timers.taskMs, e.current) + DeadlineDues(sd, e.timers.enterMs)
  }

  /** The smallest of `cur` and the due times, compared as the code compares them. */
  function Earliest(cur: nat, dues: seq<nat>): (r: nat)
    ensures r <= cur && forall d :: d in dues ==> r <= d
    ensures r == cur || r in dues
  {
    if dues == [] then cur
    else
      var n := |dues| - 1;
      var rest := Earliest(cur, dues[..n]);
      assert dues == dues[..n] + [dues[n]];
      if dues[n] < rest then dues[n] else rest
  }

  predicate Quiet(e: Engine) {
    && e.running && e.status == Running && !e.pendingEvent
    && e.current < |e.program.states|
    && |e.program.states[e.current].transitions| == 0 && |e.program.states[e.current].guards| == 0
  }

  function NextWakeup(e: Engine, now: nat): nat
    requires Sane(e) && (Quiet(e) ==> Fits(e.program.states[e.current])) && now < TWO32
  {
    if !Quiet(e) then (now + SENSOR_RATE_MS) % TWO32
    else
      var next := Earliest((now + RADIO_MAX_SLEEP_MS) % TWO32, Dues(e));
      if next > now then next else (now + 1) % TWO32
  }

  /**
   The engine is never asked to sleep over something: counted from true time `t`, no due time lies strictly
   before the wake-up, and the sleep is between one and fifty milliseconds. This holds across a clock wrap.
   */
  lemma NothingSleptThrough(e: Engine, t: nat, d: nat)
    requires Sane(e) && Quiet(e) && Fits(e.program.states[e.current])
    requires Millis(d) in Dues(e) && d > t
    ensures 1 <= Since(NextWakeup(e, Millis(t)), Millis(t)) <= RADIO_MAX_SLEEP_MS
    ensures t + Since(NextWakeup(e, Millis(t)), Millis(t)) <= d
  {
    hide Dues;
    var now := Millis(t);
    var cap := (now + RADIO_MAX_SLEEP_MS) % TWO32;
    var next := Earliest(cap, Dues(e));
    CloseTimes(t, d);
    assert next <= Millis(d);
    assert next > now ==> cap == now + RADIO_MAX_SLEEP_MS;
  }

  lemma CloseTimes(t: nat, d: nat)
    requires t <= d
    ensures Millis(t) + (d - t) < TWO32 ==> Millis(d) == Millis(t) + (d - t)
  {
    MillisAdds(t, d - t);
  }
}
