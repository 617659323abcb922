/**
 On-board parameter monitoring (src/ams/mission_script_engine_telemetry.cpp:768-899,
 src/ams/mission_script_engine.cpp:220-232): each slot's state machine against the history it has seen.
 */
module Monitoring {
  const MAX_MONITOR_SLOTS := 4

  datatype ParamId = AltitudeAgl | VerticalVel | AccelMag | Pressure | Temperature
  datatype ConfigId = TelemInterval | AltHigh | AltLow | AccelHigh | TempHigh | TempLow
  datatype MonState = MonDisabled | MonEnabled | MonAlarm

  datatype Definition = Definition(param: ParamId, low: real, high: real, required: nat, enabled: bool)
  datatype Slot = Slot(def: Definition, state: MonState, hits: nat)

  /** The monitored fields of a telemetry payload, before delta encoding. */
  datatype Payload = Payload(altitudeAglM: real, verticalVelMs: real, accelMag: real, pressurePa: real,
                             temperatureC: real)

  function ExtractParam(id: ParamId, tm: Payload): real {
    match id
    case AltitudeAgl => tm.altitudeAglM
    case VerticalVel => tm.verticalVelMs
    case AccelMag => tm.accelMag
    case Pressure => tm.pressurePa
    case Temperature => tm.temperatureC
  }

  predicate Violates(def: Definition, tm: Payload) {
    var v := ExtractParam(def.param, tm);
    v < def.low || v > def.high
  }

  predicate Monitored(s: Slot) {
    s.def.enabled && s.state != MonDisabled
  }

  /** One slot, one payload. */
  function EvaluateSlot(s: Slot, tm: Payload): Slot {
    if !Monitored(s) then s
    else if Violates(s.def, tm) then
      var hits := if s.hits < s.def.required then s.hits + 1 else s.hits;
      s.(hits := hits, state := if s.state == MonEnabled && hits >= s.def.required then MonAlarm else s.state)
    else s.(hits := 0, state := if s.state == MonAlarm then MonEnabled else s.state)
  }

  predicate Raises(s: Slot, tm: Payload) {
    s.state == MonEnabled && EvaluateSlot(s, tm).state == MonAlarm
  }

  /** Slot 0 watches the altitude, slot 1 the acceleration, slot 2 the temperature. */
  function ConfiguredSlot(id: ConfigId): nat {
    match id
    case TelemInterval => MAX_MONITOR_SLOTS
    case AltHigh => 0
    case AltLow => 0
    case AccelHigh => 1
    case TempHigh => 2
    case TempLow => 2
  }

  function Redefine(s: Slot, id: ConfigId, value: real): Slot {
    s.(def := if id == AltLow || id == TempLow then s.def.(low := value) else s.def.(high := value), hits := 0)
  }

  function ResetSlot(s: Slot): Slot {
    s.(hits := 0, state := if s.state == MonAlarm then MonEnabled else s.state)
  }

  // ----- The table -----

  /** What a slot has been through. */
  datatype Item = Violation | Normal | Redefinition | Restart

  /** `events` names the slot of every alarm event sent; `past` is each slot's history. */
  datatype Table = Table(slots: seq<Slot>, events: seq<nat>, past: seq<seq<Item>>)

  datatype Step = Evaluate(tm: Payload) | Configure(id: ConfigId, value: real) | ResetAll

  predicate TableSane(t: Table) {
    |t.slots| == |t.past| == MAX_MONITOR_SLOTS
  }

  function Noted(s: Slot, h: seq<Item>, item: Item): seq<Item> {
    if Monitored(s) then h + [item] else h
  }

  /** Slots from `i` on. */
  function EvaluateFrom(t: Table, i: nat, tm: Payload): (r: Table)
    requires TableSane(t) && i <= MAX_MONITOR_SLOTS
    ensures TableSane(r)
    decreases MAX_MONITOR_SLOTS - i
  {
    if i == MAX_MONITOR_SLOTS then t else EvaluateFrom(EvaluateOne(t, i, tm), i + 1, tm)
  }

  function EvaluateOne(t: Table, i: nat, tm: Payload): (r: Table)
    requires TableSane(t) && i < MAX_MONITOR_SLOTS
    ensures TableSane(r)
  {
    var s := t.slots[i];
    Table(t.slots[i := EvaluateSlot(s, tm)],
          if Raises(s, tm) then t.events + [i] else t.events,
          t.past[i := Noted(s, t.past[i], if Violates(s.def, tm) then Violation else Normal)])
  }

  function ConfigureTable(t: Table, id: ConfigId, value: real): (r: Table)
    requires TableSane(t)
    ensures TableSane(r)
  {
    var i := ConfiguredSlot(id);
    if i == MAX_MONITOR_SLOTS then t
    else t.(slots := t.slots[i := Redefine(t.slots[i], id, value)],
            past := t.past[i := Noted(t.slots[i], t.past[i], Redefinition)])
  }

  function ResetTable(t: Table): (r: Table)
    requires TableSane(t)
    ensures TableSane(r)
  {
    t.(slots := seq(MAX_MONITOR_SLOTS, i requires 0 <= i < MAX_MONITOR_SLOTS => ResetSlot(t.slots[i])),
       past := seq(MAX_MONITOR_SLOTS, i requires 0 <= i < MAX_MONITOR_SLOTS => Noted(t.slots[i], t.past[i], Restart)))
  }

  function Take(t: Table, s: Step): (r: Table)
    requires TableSane(t)
    ensures TableSane(r)
  {
    match s
    case Evaluate(tm) => EvaluateFrom(t, 0, tm)
    case Configure(id, value) => ConfigureTable(t, id, value)
    case ResetAll => ResetTable(t)
  }

  /** The compile-time table: three slots watch, the fourth is off. */
  function Defaults(): Table {
    Table([Slot(Definition(AltitudeAgl, -100.0, 3000.0, 3, true), MonEnabled, 0),
           Slot(Definition(AccelMag, 0.0, 150.0, 3, true), MonEnabled, 0),
           Slot(Definition(Temperature, -40.0, 85.0, 5, true), MonEnabled, 0),
           Slot(Definition(VerticalVel, -300.0, 300.0, 2, false), MonDisabled, 0)],
          [], [[], [], [], []])
  }

  function Run(steps: seq<Step>): (t: Table)
    ensures TableSane(t)
    decreases |steps|
  {
    if steps == [] then Defaults() else Take(Run(steps[..|steps| - 1]), steps[|steps| - 1])
  }

  // ----- The history specification -----

  /** Violations in a row at the end of the history. */
  function Trailing(h: seq<Item>): (n: nat)
    ensures n <= |h|
    decreases |h|
  {
    if h == [] || h[|h| - 1] != Violation then 0 else Trailing(h[..|h| - 1]) + 1
  }

  /** From `k` on the value was never seen within limits and monitoring was not restarted. */
  predicate NoRelief(h: seq<Item>, k: nat) {
    forall j :: k <= j < |h| ==> h[j] == Violation || h[j] == Redefinition
  }

  /** At some point `required` violations in a row had been seen, and nothing has relieved the alarm since. */
  ghost predicate Alarmed(h: seq<Item>, required: nat) {
    exists k :: 0 <= k <= |h| && Trailing(h[..k]) >= required && NoRelief(h, k)
  }

  /** How often an alarm began. */
  ghost function Episodes(h: seq<Item>, required: nat): nat
    decreases |h|
  {
    if h == [] then 0
    else
      var before := h[..|h| - 1];
      Episodes(before, required) + if Alarmed(h, required) && !Alarmed(before, required) then 1 else 0
  }

  function Min(a: nat, b: nat): nat {
    if a <= b then a else b
  }

  /** The state machine has computed the specification. */
  ghost predicate Matches(s: Slot, h: seq<Item>) {
    && s.def.required > 0
    && (s.state == MonAlarm <==> Alarmed(h, s.def.required))
    && s.hits == Min(s.def.required, Trailing(h))
  }

  lemma AlarmStays(h: seq<Item>, x: Item, required: nat)
    requires Alarmed(h, required) && (x == Violation || x == Redefinition)
    ensures Alarmed(h + [x], required)
  {
    hide Trailing;
    var k :| 0 <= k <= |h| && Trailing(h[..k]) >= required && NoRelief(h, k);
    assert (h + [x])[..k] == h[..k];
    assert NoRelief(h + [x], k);
  }

  lemma AlarmBegins(h: seq<Item>, required: nat)
    requires Trailing(h) + 1 >= required
    ensures Alarmed(h + [Violation], required)
  {
    var g := h + [Violation];
    assert g[..|h|] == h && g[..|g|] == g;
    assert Trailing(g[..|g|]) >= required && NoRelief(g, |g|);
  }

  lemma AlarmCameFrom(h: seq<Item>, x: Item, required: nat)
    requires Alarmed(h + [x], required) && required > 0
    ensures (x == Violation && (Alarmed(h, required) || Trailing(h) + 1 >= required))
            || (x == Redefinition && Alarmed(h, required))
  {
    TrailingGrows(h, x);
    hide Trailing;
    var g, n := h + [x], |h|;
    var k :| 0 <= k <= n + 1 && Trailing(g[..k]) >= required && NoRelief(g, k);
    assert g[n] == x;
    if k <= n {
      assert g[..k] == h[..k];
      assert NoRelief(h, k) by {
        assert forall j :: k <= j < n ==> h[j] == g[j];
      }
    } else {
      assert g[..k] == g;
    }
  }

  /** How one more item changes the alarm. */
  lemma AlarmGrows(h: seq<Item>, x: Item, required: nat)
    requires required > 0
    ensures Alarmed(h + [x], required)
       <==> (x == Violation && (Alarmed(h, required) || Trailing(h) + 1 >= required))
            || (x == Redefinition && Alarmed(h, required))
  {
    hide Alarmed, Trailing;
    if Alarmed(h + [x], required) {
      AlarmCameFrom(h, x, required);
    }
    if Alarmed(h, required) && (x == Violation || x == Redefinition) {
      AlarmStays(h, x, required);
    }
    if x == Violation && Trailing(h) + 1 >= required {
      AlarmBegins(h, required);
    }
  }

  lemma NoAlarmYet(required: nat)
    requires required > 0
    ensures !Alarmed([], required)
  {
  }

  /** One more item of history, whatever it is. */
  lemma EvaluateMatches(s: Slot, h: seq<Item>, tm: Payload)
    requires Monitored(s) && Matches(s, h)
    ensures var x := if Violates(s.def, tm) then Violation else Normal;
            && Matches(EvaluateSlot(s, tm), h + [x]) && Monitored(EvaluateSlot(s, tm))
            && (Raises(s, tm) <==> Alarmed(h + [x], s.def.required) && !Alarmed(h, s.def.required))
  {
    var x := if Violates(s.def, tm) then Violation else Normal;
    AlarmGrows(h, x, s.def.required);
    TrailingGrows(h, x);
    hide Alarmed, Violates, Trailing;
  }

  lemma TrailingGrows(h: seq<Item>, x: Item)
    ensures Trailing(h + [x]) == if x == Violation then Trailing(h) + 1 else 0
  {
    assert (h + [x])[..|h|] == h;
  }

  lemma QuietMatches(s: Slot, h: seq<Item>, id: ConfigId, value: real)
    requires Monitored(s) && Matches(s, h)
    ensures Matches(Redefine(s, id, value), h + [Redefinition]) && Matches(ResetSlot(s), h + [Restart])
    ensures Monitored(Redefine(s, id, value)) && Monitored(ResetSlot(s))
    ensures Alarmed(h + [Redefinition], s.def.required) ==> Alarmed(h, s.def.required)
    ensures !Alarmed(h + [Restart], s.def.required)
  {
    AlarmGrows(h, Redefinition, s.def.required);
    AlarmGrows(h, Restart, s.def.required);
    TrailingGrows(h, Redefinition);
    TrailingGrows(h, Restart);
    hide Alarmed, Trailing;
  }

  // ----- Every run -----

  function EventsOf(events: seq<nat>, i: nat): nat
    decreases |events|
  {
    if events == [] then 0
    else EventsOf(events[..|events| - 1], i) + if events[|events| - 1] == i then 1 else 0
  }

  lemma OneMoreEvent(events: seq<nat>, x: nat, i: nat)
    ensures EventsOf(events + [x], i) == EventsOf(events, i) + if x == i then 1 else 0
  {
    assert (events + [x])[..|events|] == events;
  }

  /** Slot `i` follows its history; a slot that is off has none and never raises an event. */
  ghost predicate Follows(t: Table, i: nat)
    requires TableSane(t) && i < MAX_MONITOR_SLOTS
  {
    var s, h := t.slots[i], t.past[i];
    if Monitored(s) then Matches(s, h) && EventsOf(t.events, i) == Episodes(h, s.def.required)
    else h == [] && EventsOf(t.events, i) == 0 && s.hits == 0
  }

  ghost predicate AllFollow(t: Table) {
    TableSane(t) && forall i :: 0 <= i < MAX_MONITOR_SLOTS ==> Follows(t, i)
  }

  lemma EpisodesGrow(h: seq<Item>, x: Item, required: nat)
    ensures Episodes(h + [x], required)
         == Episodes(h, required) + if Alarmed(h + [x], required) && !Alarmed(h, required) then 1 else 0
  {
    assert (h + [x])[..|h|] == h;
  }

  lemma EvaluateOneFollows(t: Table, i: nat, tm: Payload)
    requires AllFollow(t) && i < MAX_MONITOR_SLOTS
    ensures AllFollow(EvaluateOne(t, i, tm))
  {
    hide Matches, Episodes, Violates, Alarmed;
    var s, h, r := t.slots[i], t.past[i], EvaluateOne(t, i, tm);
    forall j: nat ensures EventsOf(r.events, j) == EventsOf(t.events, j) + if j == i && Raises(s, tm) then 1 else 0 {
      OneMoreEvent(t.events, i, j);
    }
    assert Follows(t, i);
    if Monitored(s) {
      var x := if Violates(s.def, tm) then Violation else Normal;
      EvaluateMatches(s, h, tm);
      EpisodesGrow(h, x, s.def.required);
    }
    forall j | 0 <= j < MAX_MONITOR_SLOTS ensures Follows(r, j) {
      assert Follows(t, j);
    }
  }

  lemma {:induction false} EvaluateFollows(t: Table, i: nat, tm: Payload)
    requires AllFollow(t) && i <= MAX_MONITOR_SLOTS
    ensures AllFollow(EvaluateFrom(t, i, tm))
    decreases MAX_MONITOR_SLOTS - i
  {
    hide EvaluateOne;
    if i < MAX_MONITOR_SLOTS {
      EvaluateOneFollows(t, i, tm);
      EvaluateFollows(EvaluateOne(t, i, tm), i + 1, tm);
    }
  }

  lemma QuietFollows(t: Table, s: Step)
    requires AllFollow(t) && !s.Evaluate?
    ensures AllFollow(Take(t, s))
  {
    hide Matches, Episodes, Alarmed, ConfiguredSlot;
    var r := Take(t, s);
    forall j | 0 <= j < MAX_MONITOR_SLOTS ensures Follows(r, j) {
      assert Follows(t, j);
      var slot, h := t.slots[j], t.past[j];
      if Monitored(slot) {
        EpisodesGrow(h, Redefinition, slot.def.required);
        EpisodesGrow(h, Restart, slot.def.required);
        if s.Configure? {
          QuietMatches(slot, h, s.id, s.value);
        } else {
          QuietMatches(slot, h, AltHigh, 0.0);
        }
      }
    }
  }

  /** At every point of every run each slot is exactly what its history says, and alarms were reported once each. */
  lemma {:induction false} MonitorsFollowHistory(steps: seq<Step>)
    ensures AllFollow(Run(steps))
    decreases |steps|
  {
    hide AllFollow;
    if steps == [] {
      DefaultsFollow();
    } else {
      MonitorsFollowHistory(steps[..|steps| - 1]);
      var t, s := Run(steps[..|steps| - 1]), steps[|steps| - 1];
      if s.Evaluate? {
        EvaluateFollows(t, 0, s.tm);
      } else {
        QuietFollows(t, s);
      }
    }
  }

  lemma DefaultsFollow()
    ensures AllFollow(Defaults())
  {
    hide Alarmed;
    NoAlarmYet(3);
    NoAlarmYet(5);
  }

  /** The counter never passes its limit, whatever was redefined or reset. */
  lemma CounterBounded(steps: seq<Step>, i: nat)
    requires i < MAX_MONITOR_SLOTS
    ensures Run(steps).slots[i].hits <= Run(steps).slots[i].def.required
  {
    hide Run;
    MonitorsFollowHistory(steps);
    assert Follows(Run(steps), i);
  }

  // ----- The history told from the calls -----

  /** What slot `i` measures: the altitude, the acceleration, the temperature. */
  function Reading(i: nat, tm: Payload): real {
    if i == 0 then tm.altitudeAglM else if i == 1 then tm.accelMag else tm.temperatureC
  }

  /** The lower limit set last; acceleration has none to set. */
  function LowLimit(steps: seq<Step>, i: nat): real
    decreases |steps|
  {
    if steps == [] then if i == 0 then -100.0 else if i == 1 then 0.0 else -40.0
    else
      var s := steps[|steps| - 1];
      if s.Configure? && ((i == 0 && s.id == AltLow) || (i == 2 && s.id == TempLow)) then s.value
      else LowLimit(steps[..|steps| - 1], i)
  }

  function HighLimit(steps: seq<Step>, i: nat): real
    decreases |steps|
  {
    if steps == [] then if i == 0 then 3000.0 else if i == 1 then 150.0 else 85.0
    else
      var s := steps[|steps| - 1];
      if s.Configure? && ((i == 0 && s.id == AltHigh) || (i == 1 && s.id == AccelHigh) || (i == 2 && s.id == TempHigh))
      then s.value
      else HighLimit(steps[..|steps| - 1], i)
  }

  /** The setting changes a limit of slot `i`. */
  predicate Concerns(id: ConfigId, i: nat) {
    match id
    case TelemInterval => false
    case AltHigh => i == 0
    case AltLow => i == 0
    case AccelHigh => i == 1
    case TempHigh => i == 2
    case TempLow => i == 2
  }

  /** What happened to slot `i`: its readings against the limits then in force, redefinitions and restarts. */
  function Story(steps: seq<Step>, i: nat): seq<Item>
    decreases |steps|
  {
    if steps == [] then []
    else
      var before, s := steps[..|steps| - 1], steps[|steps| - 1];
      Story(before, i) +
      match s
      case Evaluate(tm) =>
        [if LowLimit(before, i) <= Reading(i, tm) <= HighLimit(before, i) then Normal else Violation]
      case Configure(id, _) => if Concerns(id, i) then [Redefinition] else []
      case ResetAll => [Restart]
  }

  /** Samples in a row that raise the alarm. */
  function Required(i: nat): nat {
    if i == 2 then 5 else 3
  }

  lemma EvaluateIsSlotwise(t: Table, i: nat, tm: Payload, j: nat)
    requires TableSane(t) && i <= MAX_MONITOR_SLOTS && j < MAX_MONITOR_SLOTS
    ensures var r := EvaluateFrom(t, i, tm);
            && r.slots[j] == (if i <= j then EvaluateSlot(t.slots[j], tm) else t.slots[j])
            && r.past[j] == if i <= j then Noted(t.slots[j], t.past[j],
                                                 if Violates(t.slots[j].def, tm) then Violation else Normal)
                            else t.past[j]
    decreases MAX_MONITOR_SLOTS - i
  {
    hide EvaluateSlot, Violates;
    if i < MAX_MONITOR_SLOTS {
      EvaluateIsSlotwise(EvaluateOne(t, i, tm), i + 1, tm, j);
    }
  }

  /** Slot `i` has the limits last set and the history that the calls tell. */
  ghost predicate Tells(t: Table, steps: seq<Step>, i: nat)
    requires TableSane(t) && i < MAX_MONITOR_SLOTS
  {
    if i == 3 then !Monitored(t.slots[i]) && t.past[i] == []
    else
      && Monitored(t.slots[i]) && t.past[i] == Story(steps, i)
      && t.slots[i].def == Definition(if i == 0 then AltitudeAgl else if i == 1 then AccelMag else Temperature,
                                      LowLimit(steps, i), HighLimit(steps, i), Required(i), true)
  }

  lemma StoryGrows(before: seq<Step>, s: Step, i: nat)
    ensures (before + [s])[..|before|] == before
    ensures !s.Configure? ==> LowLimit(before + [s], i) == LowLimit(before, i)
                              && HighLimit(before + [s], i) == HighLimit(before, i)
  {
  }

  lemma EvaluationTells(t: Table, before: seq<Step>, tm: Payload, i: nat)
    requires TableSane(t) && i < MAX_MONITOR_SLOTS && Tells(t, before, i)
    ensures Tells(EvaluateFrom(t, 0, tm), before + [Evaluate(tm)], i)
  {
    EvaluateIsSlotwise(t, 0, tm, i);
    StoryGrows(before, Evaluate(tm), i);
    var r := EvaluateFrom(t, 0, tm);
    hide EvaluateFrom, LowLimit, HighLimit;
    assert i < 3 ==> (Violates(t.slots[i].def, tm)
                      <==> !(LowLimit(before, i) <= Reading(i, tm) <= HighLimit(before, i)));
  }

  lemma SettingTells(t: Table, before: seq<Step>, id: ConfigId, value: real, i: nat)
    requires TableSane(t) && i < MAX_MONITOR_SLOTS && Tells(t, before, i)
    ensures Tells(ConfigureTable(t, id, value), before + [Configure(id, value)], i)
  {
    StoryGrows(before, Configure(id, value), i);
  }

  lemma ResetTells(t: Table, before: seq<Step>, i: nat)
    requires TableSane(t) && i < MAX_MONITOR_SLOTS && Tells(t, before, i)
    ensures Tells(ResetTable(t), before + [ResetAll], i)
  {
    StoryGrows(before, ResetAll, i);
  }

  /**
   The history of each slot is the story of the calls: altitude, acceleration and temperature against the limits last
   set. With MonitorsFollowHistory this says from the calls alone when each alarm is on; the fourth slot stays off.
   */
  lemma {:induction false} HistoryIsStory(steps: seq<Step>, i: nat)
    requires i < MAX_MONITOR_SLOTS
    ensures Tells(Run(steps), steps, i)
    decreases |steps|
  {
    if steps != [] {
      hide Tells, EvaluateFrom, ConfigureTable, ResetTable;
      var before, s := steps[..|steps| - 1], steps[|steps| - 1];
      assert before + [s] == steps;
      HistoryIsStory(before, i);
      match s
      case Evaluate(tm) => EvaluationTells(Run(before), before, tm, i);
      case Configure(id, value) => SettingTells(Run(before), before, id, value, i);
      case ResetAll => ResetTells(Run(before), before, i);
    }
  }

  /** From the calls alone: the alarm is on, and its event was sent once for each time it came on. */
  lemma AlarmsFromCalls(steps: seq<Step>, i: nat)
    requires i < 3
    ensures var t := Run(steps);
            && (t.slots[i].state == MonAlarm <==> Alarmed(Story(steps, i), Required(i)))
            && EventsOf(t.events, i) == Episodes(Story(steps, i), Required(i))
  {
    hide Run, Story, Alarmed, Episodes, LowLimit, HighLimit;
    HistoryIsStory(steps, i);
    MonitorsFollowHistory(steps);
    assert Follows(Run(steps), i);
  }

  // ----- The table in place -----

  class MonitorTable {
    const monitorSlots: array<Slot>
    /** Slots for which an FPL_VIOLATION event was sent, oldest first. */
    var events: seq<nat>
    ghost var past: seq<seq<Item>>

    ghost function Now(): Table
      reads this, monitorSlots
    {
      Table(monitorSlots[..], events, past)
    }

    ghost predicate Valid()
      reads this, monitorSlots
    {
      TableSane(Now())
    }

    constructor ()
      ensures Valid() && Now() == Defaults() && fresh(monitorSlots)
    {
      monitorSlots := new Slot[MAX_MONITOR_SLOTS](i requires 0 <= i < MAX_MONITOR_SLOTS => Defaults().slots[i]);
      events, past := [], [[], [], [], []];
      new;
      assert monitorSlots[..] == Defaults().slots;
    }

    method EvaluateMonitoring(tm: Payload)
      requires Valid()
      modifies this, monitorSlots
      ensures Valid() && Now() == EvaluateFrom(old(Now()), 0, tm)
    {
      hide EvaluateOne;
      var i := 0;
      while i < MAX_MONITOR_SLOTS
        invariant i <= MAX_MONITOR_SLOTS && Valid()
        invariant EvaluateFrom(Now(), i, tm) == EvaluateFrom(old(Now()), 0, tm)
      {
        EvaluateOneSlot(i, tm);
        i := i + 1;
      }
    }

    method EvaluateOneSlot(i: nat, tm: Payload)
      requires Valid() && i < MAX_MONITOR_SLOTS
      modifies this, monitorSlots
      ensures Valid() && Now() == EvaluateOne(old(Now()), i, tm)
    {
      hide ExtractParam;
      ghost var before := monitorSlots[..];
      var slot := monitorSlots[i];
      if !slot.def.enabled || slot.state == MonDisabled {
        assert before[i := slot] == before && past[i := past[i]] == past;
        return;
      }
      var value := ExtractParam(slot.def.param, tm);
      var inViolation := value < slot.def.low || value > slot.def.high;
      past := past[i := past[i] + [if inViolation then Violation else Normal]];
      if inViolation {
        if slot.hits < slot.def.required {
          slot := slot.(hits := slot.hits + 1);
        }
        if slot.state == MonEnabled && slot.hits >= slot.def.required {
          slot := slot.(state := MonAlarm);
          events := events + [i];
        }
      } else {
        slot := slot.(hits := 0);
        if slot.state == MonAlarm {
          slot := slot.(state := MonEnabled);
        }
      }
      monitorSlots[i] := slot;
      assert monitorSlots[..] == before[i := slot];
    }

    method ConfigureMonitorFromParam(id: ConfigId, value: real) returns (known: bool)
      requires Valid()
      modifies this, monitorSlots
      ensures Valid() && Now() == ConfigureTable(old(Now()), id, value)
      ensures known <==> id != TelemInterval
    {
      match id {
        case AltHigh => SetLimit(0, false, value); known := true;
        case AltLow => SetLimit(0, true, value); known := true;
        case AccelHigh => SetLimit(1, false, value); known := true;
        case TempHigh => SetLimit(2, false, value); known := true;
        case TempLow => SetLimit(2, true, value); known := true;
        case TelemInterval => known := false;
      }
    }

    method SetLimit(i: nat, low: bool, value: real)
      requires Valid() && i < MAX_MONITOR_SLOTS
      modifies this, monitorSlots
      ensures Valid() && events == old(events)
      ensures monitorSlots[..]
                == old(monitorSlots[..])[i := Redefine(old(monitorSlots[i]), if low then AltLow else AltHigh, value)]
      ensures past == old(past)[i := Noted(old(monitorSlots[i]), old(past)[i], Redefinition)]
    {
      var slot := monitorSlots[i];
      past := past[i := Noted(slot, past[i], Redefinition)];
      if low {
        slot := slot.(def := slot.def.(low := value));
      } else {
        slot := slot.(def := slot.def.(high := value));
      }
      monitorSlots[i] := slot.(hits := 0);
    }

    method ResetMonitorSlots()
      requires Valid()
      modifies this, monitorSlots
      ensures Valid() && Now() == ResetTable(old(Now()))
    {
      var i := 0;
      while i < MAX_MONITOR_SLOTS
        invariant i <= MAX_MONITOR_SLOTS
        invariant past == old(past) && events == old(events)
        invariant forall k :: 0 <= k < MAX_MONITOR_SLOTS ==>
                    monitorSlots[k] == if k < i then ResetSlot(old(monitorSlots[k])) else old(monitorSlots[k])
      {
        var slot := monitorSlots[i].(hits := 0);
        if slot.state == MonAlarm {
          slot := slot.(state := MonEnabled);
        }
        monitorSlots[i] := slot;
        i := i + 1;
      }
      past := ResetTable(old(Now())).past;
      assert monitorSlots[..] == ResetTable(old(Now())).slots;
    }
  }
}
