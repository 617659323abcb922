/**
 Every program that the compiler can produce has a script that compiles to exactly it: writing out its tables
 line by line and compiling the lines gives back every field.
 */
module ScriptRoundTrip {
  import opened Wrappers
  import opened MissionProgram
  import opened Assertions
  import opened Compiler

  // ----- Writing a program out -----

  function Repeat(l: Line, n: nat): seq<Line> {
    if n == 0 then [] else Repeat(l, n - 1) + [l]
  }

  /** Priorities and budget; the event priority and the budget may be left out when they are the default. */
  function PriorityLine(sd: StateDef): Line {
    Priorities(if sd.eventPriority == 4 then None else Some(sd.eventPriority), sd.hkPriority, sd.logPriority,
               if sd.actionBudget == 2 then None else Some(sd.actionBudget))
  }

  function EnterLines(sd: StateDef): seq<Line> {
    [OnEnterHeader] + (if sd.hasOnEnterEvent then [EventLine(true)] else []) + Repeat(PulseLine(true), sd.pulseCount)
    + [Close]
  }

  function GuardLines(guards: seq<Guard>): seq<Line> {
    if guards == [] then []
    else GuardLines(guards[..|guards| - 1]) + [Other(Some(guards[|guards| - 1]), false)]
  }

  function ConditionLines(sd: StateDef): seq<Line> {
    [ConditionsHeader, OpenBrace] + GuardLines(sd.guards) + [Close]
  }

  /** A report slot: its period, and a block with its fields. */
  function SlotLines(every: Line, header: Line, fields: nat): seq<Line> {
    [every, header, OpenBrace] + Repeat(Other(None, true), fields) + [Close]
  }

  function HkLines(slots: seq<Slot>): seq<Line> {
    if slots == [] then []
    else
      var s := slots[|slots| - 1];
      HkLines(slots[..|slots| - 1]) + SlotLines(Every(Some(s.everyMs)), HkReportHeader, s.fieldCount)
  }

  function LogLines(slots: seq<Slot>): seq<Line> {
    if slots == [] then []
    else
      var s := slots[|slots| - 1];
      LogLines(slots[..|slots| - 1]) + SlotLines(LogEvery(Some(s.everyMs)), LogReportHeader, s.fieldCount)
  }

  /** The connectives; "or" behind a single condition needs one to show. */
  function Joins(n: nat, isAnd: bool): seq<bool> {
    if n == 0 || (n == 1 && isAnd) then [] else seq(if n == 1 then 1 else n - 1, _ => isAnd)
  }

  function TransitionLine(t: Transition): Line {
    TransitionTo(t.target,
                 Some(Body(Some(t.holdMs), seq(|t.conds|, i requires 0 <= i < |t.conds| => Some(t.conds[i])),
                           Joins(|t.conds|, t.isAnd))))
  }

  function TransitionLines(ts: seq<Transition>): seq<Line> {
    if ts == [] then [] else TransitionLines(ts[..|ts| - 1]) + [TransitionLine(ts[|ts| - 1])]
  }

  function ErrorLines(sd: StateDef): seq<Line> {
    match sd.onError
    case None => []
    case Some(j) => [OnErrorHeader, TransitionTo(j.target, None), Close]
  }

  function FallbackLines(sd: StateDef): seq<Line> {
    match sd.fallback
    case None => []
    case Some(j) => [FallbackTo(j.target, Some(sd.fallbackAfterMs))]
  }

  function BodyLines(sd: StateDef): seq<Line> {
    [PriorityLine(sd)] + EnterLines(sd) + ConditionLines(sd) + HkLines(sd.hkSlots) + LogLines(sd.logSlots)
    + TransitionLines(sd.transitions) + ErrorLines(sd) + FallbackLines(sd)
  }

  function StateLines(states: seq<StateDef>): seq<Line> {
    if states == [] then []
    else
      var sd := states[|states| - 1];
      StateLines(states[..|states| - 1]) + ([StateHeader(Some(sd.name))] + BodyLines(sd))
  }

  function VarLines(vars: seq<string>): seq<Line> {
    if vars == [] then [] else VarLines(vars[..|vars| - 1]) + [VarDecl(vars[|vars| - 1], true)]
  }

  function TaskLines(tasks: seq<TaskDef>): seq<Line> {
    if tasks == [] then []
    else
      var td := tasks[|tasks| - 1];
      TaskLines(tasks[..|tasks| - 1]) + OneTaskLines(td)
  }

  function OneTaskLines(td: TaskDef): seq<Line> {
    [TaskHeader(true, td.filter)] + (if td.everyMs > 0 then [Every(Some(td.everyMs))] else []) + [Close]
  }

  function AssertLines(ads: seq<AssertDef>): seq<Line> {
    if ads == [] then [] else AssertLines(ads[..|ads| - 1]) + [AssertLine(ads[|ads| - 1])]
  }

  function LinesOf(p: Program): seq<Line> {
    StateLines(p.states) + VarLines(p.vars) + TaskLines(p.tasks) + ([AssertHeader] + AssertLines(p.asserts) + [Close])
  }

  // ----- Reading lines inside a state -----

  /** Where the next line belongs. */
  datatype Place = Place(block: Block, hk: Option<nat>, log: Option<nat>)

  predicate At(c: Parser, a: Place, x: StateDef) {
    && c.current < |c.p.states| && c.p.states[c.current] == x
    && c.block == a.block && c.hkSlot == a.hk && c.logSlot == a.log
  }

  function Moved(c: Parser, b: Place, y: StateDef): Parser
    requires c.current < |c.p.states|
  {
    c.(p := c.p.(states := c.p.states[c.current := y]), block := b.block, hkSlot := b.hk, logSlot := b.log)
  }

  /** Read at place `a` of a state `x`, the lines lead to place `b` and change the state to `y`, nothing else. */
  ghost predicate Turns(lines: seq<Line>, a: Place, x: StateDef, b: Place, y: StateDef) {
    forall c: Parser :: At(c, a, x) ==> ParseAll(c, lines) == Some(Moved(c, b, y))
  }

  lemma {:induction false} ParseConcat(c: Parser, s: seq<Line>, t: seq<Line>)
    ensures ParseAll(c, s + t) == match ParseAll(c, s)
                                  case None => None
                                  case Some(d) => ParseAll(d, t)
    decreases |s|
  {
    hide TakeLine;
    if s == [] {
      assert s + t == t;
    } else {
      assert (s + t)[1..] == s[1..] + t;
      match TakeLine(c, s[0])
      case None =>
      case Some(d) => ParseConcat(d, s[1..], t);
    }
  }

  lemma TurnsThen(s: seq<Line>, t: seq<Line>, a: Place, x: StateDef, b: Place, y: StateDef, d: Place, z: StateDef)
    requires Turns(s, a, x, b, y) && Turns(t, b, y, d, z)
    ensures Turns(s + t, a, x, d, z)
  {
    hide ParseAll;
    forall c: Parser | At(c, a, x) ensures ParseAll(c, s + t) == Some(Moved(c, d, z)) {
      ParseConcat(c, s, t);
      assert At(Moved(c, b, y), b, y);
      assert Moved(Moved(c, b, y), d, z) == Moved(c, d, z);
    }
  }

  lemma TurnsNothing(a: Place, x: StateDef)
    ensures Turns([], a, x, a, x)
  {
    forall c: Parser | At(c, a, x) ensures ParseAll(c, []) == Some(Moved(c, a, x)) {
      assert Moved(c, a, x) == c;
    }
  }

  /** One line that does for every parser at `a` what `Moved` says. */
  lemma TurnsOne(l: Line, a: Place, x: StateDef, b: Place, y: StateDef)
    requires forall c: Parser :: At(c, a, x) ==> TakeLine(c, l) == Some(Moved(c, b, y))
    ensures Turns([l], a, x, b, y)
  {
    hide TakeLine;
    forall c: Parser | At(c, a, x) ensures ParseAll(c, [l]) == Some(Moved(c, b, y)) {
      assert [l][1..] == [];
    }
  }

  /** A line that only opens or closes a block. */
  lemma TurnsBlock(l: Line, a: Place, x: StateDef, block: Block)
    requires forall c: Parser :: At(c, a, x) ==> TakeLine(c, l) == Some(c.(block := block))
    ensures Turns([l], a, x, a.(block := block), x)
  {
    hide TakeLine;
    forall c: Parser | At(c, a, x) ensures TakeLine(c, l) == Some(Moved(c, a.(block := block), x)) {
      assert c.p.states[c.current := x] == c.p.states;
    }
    TurnsOne(l, a, x, a.(block := block), x);
  }

  lemma PriorityTurns(sd: StateDef, x: StateDef, a: Place)
    requires a.block == NoBlock && x.eventPriority == 4 && x.actionBudget == 2
    requires PrioritiesBounded(sd)
    ensures Turns([PriorityLine(sd)], a, x, a,
                  x.(eventPriority := sd.eventPriority, hkPriority := sd.hkPriority, logPriority := sd.logPriority,
                     actionBudget := sd.actionBudget))
  {
    TurnsOne(PriorityLine(sd), a, x, a,
             x.(eventPriority := sd.eventPriority, hkPriority := sd.hkPriority, logPriority := sd.logPriority,
                actionBudget := sd.actionBudget));
  }

  lemma {:induction false} PulsesTurn(n: nat, x: StateDef, a: Place)
    requires a.block == OnEnter && x.pulseCount + n <= AMS_MAX_PULSE_ACTIONS
    ensures Turns(Repeat(PulseLine(true), n), a, x, a, x.(pulseCount := x.pulseCount + n))
  {
    if n == 0 {
      TurnsNothing(a, x);
    } else {
      PulsesTurn(n - 1, x, a);
      var y := x.(pulseCount := x.pulseCount + (n - 1));
      TurnsOne(PulseLine(true), a, y, a, x.(pulseCount := x.pulseCount + n));
      hide Turns;
      TurnsThen(Repeat(PulseLine(true), n - 1), [PulseLine(true)], a, x, a, y, a, x.(pulseCount := x.pulseCount + n));
    }
  }

  lemma EnterTurns(sd: StateDef, x: StateDef, a: Place)
    requires a.block == NoBlock && x.pulseCount == 0 && !x.hasOnEnterEvent && sd.pulseCount <= AMS_MAX_PULSE_ACTIONS
    ensures Turns(EnterLines(sd), a, x, a, x.(hasOnEnterEvent := sd.hasOnEnterEvent, pulseCount := sd.pulseCount))
  {
    var b := a.(block := OnEnter);
    var event := if sd.hasOnEnterEvent then [EventLine(true)] else [];
    var pulses := Repeat(PulseLine(true), sd.pulseCount);
    var y := x.(hasOnEnterEvent := sd.hasOnEnterEvent);
    var z := y.(pulseCount := sd.pulseCount);
    TurnsBlock(OnEnterHeader, a, x, OnEnter);
    if sd.hasOnEnterEvent {
      TurnsOne(EventLine(true), b, x, b, y);
    } else {
      TurnsNothing(b, x);
    }
    PulsesTurn(sd.pulseCount, y, b);
    TurnsBlock(Close, b, z, NoBlock);
    hide Turns;
    TurnsThen([OnEnterHeader], event, a, x, b, x, b, y);
    TurnsThen([OnEnterHeader] + event, pulses, a, x, b, y, b, z);
    TurnsThen([OnEnterHeader] + event + pulses, [Close], a, x, b, z, a, z);
  }

  lemma {:induction false} GuardsTurn(guards: seq<Guard>, x: StateDef, a: Place)
    requires a.block == Conditions && |x.guards| + |guards| <= AMS_MAX_CONDITIONS
    ensures Turns(GuardLines(guards), a, x, a, x.(guards := x.guards + guards))
    decreases |guards|
  {
    if guards == [] {
      assert x.guards + guards == x.guards;
      TurnsNothing(a, x);
    } else {
      var n := |guards| - 1;
      GuardsTurn(guards[..n], x, a);
      var y, z := x.(guards := x.guards + guards[..n]), x.(guards := x.guards + guards);
      assert z.guards == y.guards + [guards[n]];
      TurnsOne(Other(Some(guards[n]), false), a, y, a, z);
      hide Turns;
      TurnsThen(GuardLines(guards[..n]), [Other(Some(guards[n]), false)], a, x, a, y, a, z);
    }
  }

  lemma ConditionsTurn(sd: StateDef, x: StateDef, a: Place)
    requires a.block == NoBlock && x.guards == [] && |sd.guards| <= AMS_MAX_CONDITIONS
    ensures Turns(ConditionLines(sd), a, x, a, x.(guards := sd.guards))
  {
    var b, z := a.(block := Conditions), x.(guards := sd.guards);
    TurnsBlock(ConditionsHeader, a, x, Conditions);
    TurnsBlock(OpenBrace, b, x, Conditions);
    GuardsTurn(sd.guards, x, b);
    assert [] + sd.guards == sd.guards;
    TurnsBlock(Close, b, z, NoBlock);
    hide Turns;
    TurnsThen([ConditionsHeader], [OpenBrace], a, x, b, x, b, x);
    assert [ConditionsHeader] + [OpenBrace] == [ConditionsHeader, OpenBrace];
    TurnsThen([ConditionsHeader, OpenBrace], GuardLines(sd.guards), a, x, b, x, b, z);
    TurnsThen([ConditionsHeader, OpenBrace] + GuardLines(sd.guards), [Close], a, x, b, z, a, z);
  }

  // ----- Report slots -----

  lemma FieldTurns(x: StateDef, y: StateDef, a: Place)
    requires a.block == HkReport || a.block == LogReport
    requires var at := if a.block == HkReport then a.hk else a.log;
             var slots := if a.block == HkReport then x.hkSlots else x.logSlots;
             && at.Some? && at.value < |slots| && slots[at.value].fieldCount < AMS_MAX_HK_FIELDS
             && var more := slots[at.value := slots[at.value].(fieldCount := slots[at.value].fieldCount + 1)];
                y == if a.block == HkReport then x.(hkSlots := more) else x.(logSlots := more)
    ensures Turns([Other(None, true)], a, x, a, y)
  {
    TurnsOne(Other(None, true), a, x, a, y);
  }

  function WithHk(x: StateDef, slots: seq<Slot>, s: Slot, n: nat): StateDef {
    x.(hkSlots := slots + [Slot(s.everyMs, n)])
  }

  function WithLog(x: StateDef, slots: seq<Slot>, s: Slot, n: nat): StateDef {
    x.(logSlots := slots + [Slot(s.everyMs, n)])
  }

  lemma {:induction false} HkFieldsTurn(n: nat, x: StateDef, slots: seq<Slot>, s: Slot, a: Place)
    requires a.block == HkReport && a.hk == Some(|slots|) && n <= AMS_MAX_HK_FIELDS
    ensures Turns(Repeat(Other(None, true), n), a, WithHk(x, slots, s, 0), a, WithHk(x, slots, s, n))
  {
    if n == 0 {
      TurnsNothing(a, WithHk(x, slots, s, 0));
    } else {
      HkFieldsTurn(n - 1, x, slots, s, a);
      var y, z := WithHk(x, slots, s, n - 1), WithHk(x, slots, s, n);
      assert z.hkSlots == y.hkSlots[|slots| := Slot(s.everyMs, n)];
      FieldTurns(y, z, a);
      hide Turns;
      TurnsThen(Repeat(Other(None, true), n - 1), [Other(None, true)], a, WithHk(x, slots, s, 0), a, y, a, z);
    }
  }

  lemma {:induction false} LogFieldsTurn(n: nat, x: StateDef, slots: seq<Slot>, s: Slot, a: Place)
    requires a.block == LogReport && a.log == Some(|slots|) && n <= AMS_MAX_HK_FIELDS
    ensures Turns(Repeat(Other(None, true), n), a, WithLog(x, slots, s, 0), a, WithLog(x, slots, s, n))
  {
    if n == 0 {
      TurnsNothing(a, WithLog(x, slots, s, 0));
    } else {
      LogFieldsTurn(n - 1, x, slots, s, a);
      var y, z := WithLog(x, slots, s, n - 1), WithLog(x, slots, s, n);
      assert z.logSlots == y.logSlots[|slots| := Slot(s.everyMs, n)];
      FieldTurns(y, z, a);
      hide Turns;
      TurnsThen(Repeat(Other(None, true), n - 1), [Other(None, true)], a, WithLog(x, slots, s, 0), a, y, a, z);
    }
  }

  lemma HkSlotTurns(x: StateDef, s: Slot, a: Place)
    requires a.block == NoBlock && |x.hkSlots| < AMS_MAX_HK_SLOTS
    requires TELEMETRY_INTERVAL_MIN <= s.everyMs && s.fieldCount <= AMS_MAX_HK_FIELDS
    ensures Turns(SlotLines(Every(Some(s.everyMs)), HkReportHeader, s.fieldCount), a, x,
                  a.(hk := Some(|x.hkSlots|)), x.(hkSlots := x.hkSlots + [s]))
  {
    var b := a.(hk := Some(|x.hkSlots|));
    var d := b.(block := HkReport);
    var y, z := WithHk(x, x.hkSlots, s, 0), x.(hkSlots := x.hkSlots + [s]);
    TurnsOne(Every(Some(s.everyMs)), a, x, b, y);
    TurnsBlock(HkReportHeader, b, y, HkReport);
    TurnsBlock(OpenBrace, d, y, HkReport);
    HkFieldsTurn(s.fieldCount, x, x.hkSlots, s, d);
    TurnsBlock(Close, d, z, NoBlock);
    hide Turns;
    var l1, l2, l3 := [Every(Some(s.everyMs))], [HkReportHeader], [OpenBrace];
    TurnsThen(l1, l2, a, x, b, y, d, y);
    TurnsThen(l1 + l2, l3, a, x, d, y, d, y);
    assert l1 + l2 + l3 == [Every(Some(s.everyMs)), HkReportHeader, OpenBrace];
    var fields := Repeat(Other(None, true), s.fieldCount);
    TurnsThen(l1 + l2 + l3, fields, a, x, d, y, d, z);
    TurnsThen(l1 + l2 + l3 + fields, [Close], a, x, d, z, b, z);
  }

  lemma LogSlotTurns(x: StateDef, s: Slot, a: Place)
    requires a.block == NoBlock && |x.logSlots| < AMS_MAX_HK_SLOTS
    requires 1 <= s.everyMs && s.fieldCount <= AMS_MAX_HK_FIELDS
    ensures Turns(SlotLines(LogEvery(Some(s.everyMs)), LogReportHeader, s.fieldCount), a, x,
                  a.(log := Some(|x.logSlots|)), x.(logSlots := x.logSlots + [s]))
  {
    var b := a.(log := Some(|x.logSlots|));
    var d := b.(block := LogReport);
    var y, z := WithLog(x, x.logSlots, s, 0), x.(logSlots := x.logSlots + [s]);
    TurnsOne(LogEvery(Some(s.everyMs)), a, x, b, y);
    TurnsBlock(LogReportHeader, b, y, LogReport);
    TurnsBlock(OpenBrace, d, y, LogReport);
    LogFieldsTurn(s.fieldCount, x, x.logSlots, s, d);
    TurnsBlock(Close, d, z, NoBlock);
    hide Turns;
    var l1, l2, l3 := [LogEvery(Some(s.everyMs))], [LogReportHeader], [OpenBrace];
    TurnsThen(l1, l2, a, x, b, y, d, y);
    TurnsThen(l1 + l2, l3, a, x, d, y, d, y);
    assert l1 + l2 + l3 == [LogEvery(Some(s.everyMs)), LogReportHeader, OpenBrace];
    var fields := Repeat(Other(None, true), s.fieldCount);
    TurnsThen(l1 + l2 + l3, fields, a, x, d, y, d, z);
    TurnsThen(l1 + l2 + l3 + fields, [Close], a, x, d, z, b, z);
  }

  function Last<T>(s: seq<T>, first: Option<nat>): Option<nat> {
    if s == [] then first else Some(|s| - 1)
  }

  lemma {:induction false} HkSlotsTurn(slots: seq<Slot>, x: StateDef, a: Place)
    requires a.block == NoBlock && x.hkSlots == [] && SlotsBounded(slots, TELEMETRY_INTERVAL_MIN)
    ensures Turns(HkLines(slots), a, x, a.(hk := Last(slots, a.hk)), x.(hkSlots := slots))
    decreases |slots|
  {
    if slots == [] {
      TurnsNothing(a, x);
    } else {
      var n := |slots| - 1;
      HkSlotsTurn(slots[..n], x, a);
      var y, b := x.(hkSlots := slots[..n]), a.(hk := Last(slots[..n], a.hk));
      HkSlotTurns(y, slots[n], b);
      assert slots[..n] + [slots[n]] == slots;
      hide Turns;
      TurnsThen(HkLines(slots[..n]),
                SlotLines(Every(Some(slots[n].everyMs)), HkReportHeader, slots[n].fieldCount),
                a, x, b, y, a.(hk := Some(n)), x.(hkSlots := slots));
    }
  }

  lemma {:induction false} LogSlotsTurn(slots: seq<Slot>, x: StateDef, a: Place)
    requires a.block == NoBlock && x.logSlots == [] && SlotsBounded(slots, 1)
    ensures Turns(LogLines(slots), a, x, a.(log := Last(slots, a.log)), x.(logSlots := slots))
    decreases |slots|
  {
    if slots == [] {
      TurnsNothing(a, x);
    } else {
      var n := |slots| - 1;
      LogSlotsTurn(slots[..n], x, a);
      var y, b := x.(logSlots := slots[..n]), a.(log := Last(slots[..n], a.log));
      LogSlotTurns(y, slots[n], b);
      assert slots[..n] + [slots[n]] == slots;
      hide Turns;
      TurnsThen(LogLines(slots[..n]),
                SlotLines(LogEvery(Some(slots[n].everyMs)), LogReportHeader, slots[n].fieldCount),
                a, x, b, y, a.(log := Some(n)), x.(logSlots := slots));
    }
  }

  // ----- Transitions and jumps -----

  /** The transition as the parser stores it. */
  function Unlinked(t: Transition): Transition {
    t.(targetIndex := 0, resolved := false)
  }

  function UnlinkedAll(ts: seq<Transition>): (r: seq<Transition>)
    ensures |r| == |ts|
  {
    seq(|ts|, i requires 0 <= i < |ts| => Unlinked(ts[i]))
  }

  function UnlinkedJump(j: Option<Jump>): Option<Jump> {
    match j
    case None => None
    case Some(x) => Some(Jump(x.target, 0, false))
  }

  lemma TransitionTurns(t: Transition, x: StateDef, a: Place)
    requires a.block == NoBlock && TransitionBounded(t) && |x.transitions| < AMS_MAX_TRANSITIONS
    ensures Turns([TransitionLine(t)], a, x, a, x.(transitions := x.transitions + [Unlinked(t)]))
  {
    var z := x.(transitions := x.transitions + [Unlinked(t)]);
    LineStores(t, x);
    hide AddTransition, TransitionBounded;
    TurnsOne(TransitionLine(t), a, x, a, z);
  }

  lemma LineStores(t: Transition, x: StateDef)
    requires TransitionBounded(t) && |x.transitions| < AMS_MAX_TRANSITIONS
    ensures AddTransition(x, t.target, TransitionLine(t).body)
         == Some(x.(transitions := x.transitions + [Unlinked(t)]))
  {
    var b := TransitionLine(t).body.value;
    assert AllParse(b.parts) && Parsed(b.parts) == t.conds;
    assert b.joins == [] ==> t.isAnd;
    assert b.joins != [] ==> b.joins[0] == t.isAnd;
  }

  lemma {:induction false} TransitionsTurn(ts: seq<Transition>, x: StateDef, a: Place)
    requires a.block == NoBlock && x.transitions == [] && |ts| <= AMS_MAX_TRANSITIONS
    requires forall i :: 0 <= i < |ts| ==> TransitionBounded(ts[i])
    ensures Turns(TransitionLines(ts), a, x, a, x.(transitions := UnlinkedAll(ts)))
    decreases |ts|
  {
    if ts == [] {
      assert UnlinkedAll(ts) == [];
      TurnsNothing(a, x);
    } else {
      var n := |ts| - 1;
      TransitionsTurn(ts[..n], x, a);
      var y, z := x.(transitions := UnlinkedAll(ts[..n])), x.(transitions := UnlinkedAll(ts));
      assert z.transitions == y.transitions + [Unlinked(ts[n])];
      TransitionTurns(ts[n], y, a);
      hide Turns;
      TurnsThen(TransitionLines(ts[..n]), [TransitionLine(ts[n])], a, x, a, y, a, z);
    }
  }

  lemma ErrorTurns(sd: StateDef, x: StateDef, a: Place)
    requires a.block == NoBlock && x.onError.None? && (sd.onError.Some? ==> sd.onError.value.target != "")
    ensures Turns(ErrorLines(sd), a, x, a, x.(onError := UnlinkedJump(sd.onError)))
  {
    match sd.onError
    case None => TurnsNothing(a, x);
    case Some(j) =>
      var b, z, l := a.(block := OnError), x.(onError := UnlinkedJump(sd.onError)), TransitionTo(j.target, None);
      TurnsBlock(OnErrorHeader, a, x, OnError);
      TurnsOne(l, b, x, b, z);
      TurnsBlock(Close, b, z, NoBlock);
      hide Turns;
      TurnsThen([OnErrorHeader], [l], a, x, b, x, b, z);
      TurnsThen([OnErrorHeader] + [l], [Close], a, x, b, z, a, z);
      assert [OnErrorHeader] + [l] + [Close] == ErrorLines(sd);
  }

  lemma FallbackTurns(sd: StateDef, x: StateDef, a: Place)
    requires a.block == NoBlock && x.fallback.None? && x.fallbackAfterMs == 0
    requires FallbackBounded(sd)
    ensures Turns(FallbackLines(sd), a, x, a,
                  x.(fallback := UnlinkedJump(sd.fallback), fallbackAfterMs := sd.fallbackAfterMs))
  {
    match sd.fallback
    case None => TurnsNothing(a, x);
    case Some(j) =>
      var z := x.(fallback := UnlinkedJump(sd.fallback), fallbackAfterMs := sd.fallbackAfterMs);
      TurnsOne(FallbackTo(j.target, Some(sd.fallbackAfterMs)), a, x, a, z);
  }

  /** The line spells transition `t`. */
  predicate Spells(target: string, body: Option<Body>, t: Transition) {
    && target == t.target && body.Some? && body.value.hold == Some(t.holdMs)
    && |body.value.parts| == |t.conds|
    && (forall i :: 0 <= i < |t.conds| ==> body.value.parts[i] == Some(t.conds[i]))
    && (forall i :: 0 <= i < |body.value.joins| ==> body.value.joins[i] == t.isAnd)
    && (body.value.joins == [] ==> t.isAnd)
  }

  /**
   Exactly the transition lines that are accepted outside on_error, and what they store: there is room, and the line
   spells a transition with a target and one to four conditions under one connective.
   */
  lemma TransitionAcceptedIff(c: Parser, target: string, body: Option<Body>)
    requires c.current < |c.p.states| && c.block == NoBlock
    ensures var x, r := c.p.states[c.current], TakeLine(c, TransitionTo(target, body));
            && (r.Some? <==> |x.transitions| < AMS_MAX_TRANSITIONS
                             && exists t :: TransitionBounded(t) && Spells(target, body, t))
            && forall t :: r.Some? && TransitionBounded(t) && Spells(target, body, t) ==>
                 r.value.p.states == c.p.states[c.current := x.(transitions := x.transitions + [Unlinked(t)])]
  {
    hide TransitionBounded, Spells, AddTransition;
    var x := c.p.states[c.current];
    AddsIff(x, target, body);
  }

  lemma AddsIff(x: StateDef, target: string, body: Option<Body>)
    ensures AddTransition(x, target, body).Some?
       <==> |x.transitions| < AMS_MAX_TRANSITIONS && exists t :: TransitionBounded(t) && Spells(target, body, t)
    ensures forall t :: AddTransition(x, target, body).Some? && TransitionBounded(t) && Spells(target, body, t) ==>
              AddTransition(x, target, body) == Some(x.(transitions := x.transitions + [Unlinked(t)]))
  {
    if AddTransition(x, target, body).Some? {
      var b := body.value;
      var t := Transition(Parsed(b.parts), b.joins == [] || b.joins[0], target, 0, false, b.hold.value);
      assert TransitionBounded(t) && Spells(target, body, t);
    }
    forall t | TransitionBounded(t) && Spells(target, body, t)
      ensures |x.transitions| < AMS_MAX_TRANSITIONS ==>
                AddTransition(x, target, body) == Some(x.(transitions := x.transitions + [Unlinked(t)]))
    {
      assert AllParse(body.value.parts) && Parsed(body.value.parts) == t.conds;
      assert SameJoins(body.value.joins);
    }
  }

  /** What may be said once per state or script only is refused the second time. */
  lemma SecondIsRefused(c: Parser, name: string, after: Option<nat>, ok: bool)
    requires c.current < |c.p.states|
    ensures c.p.states[c.current].fallback.Some? && c.block == NoBlock ==> TakeLine(c, FallbackTo(name, after)).None?
    ensures c.p.states[c.current].onError.Some? && c.block == OnError ==>
              TakeLine(c, TransitionTo(name, None)).None?
    ensures name in c.p.vars ==> TakeLine(c, VarDecl(name, ok)).None?
  {
  }

  // ----- A whole state -----

  /** What a state of a program can be; on_timeout is out, as no script with it compiles. */
  predicate StateWritable(sd: StateDef) {
    StateBounded(sd) && sd.onTimeout.None?
  }

  function UnlinkedState(sd: StateDef): StateDef {
    sd.(transitions := UnlinkedAll(sd.transitions), fallback := UnlinkedJump(sd.fallback),
        onError := UnlinkedJump(sd.onError))
  }

  lemma BodyTurns(sd: StateDef, a: Place)
    requires a.block == NoBlock && StateWritable(sd)
    ensures exists b: Place :: Turns(BodyLines(sd), a, NewState(sd.name), b, UnlinkedState(sd))
  {
    hide Turns, SlotsBounded, TransitionBounded;
    var x0 := NewState(sd.name);
    var x1 := x0.(eventPriority := sd.eventPriority, hkPriority := sd.hkPriority, logPriority := sd.logPriority,
                  actionBudget := sd.actionBudget);
    var x2 := x1.(hasOnEnterEvent := sd.hasOnEnterEvent, pulseCount := sd.pulseCount);
    var x3 := x2.(guards := sd.guards);
    var x4 := x3.(hkSlots := sd.hkSlots);
    var x5 := x4.(logSlots := sd.logSlots);
    var x6 := x5.(transitions := UnlinkedAll(sd.transitions));
    var x7 := x6.(onError := UnlinkedJump(sd.onError));
    var x8 := UnlinkedState(sd);
    var b := a.(hk := Last(sd.hkSlots, a.hk));
    var d := b.(log := Last(sd.logSlots, b.log));
    PriorityTurns(sd, x0, a);
    EnterTurns(sd, x1, a);
    ConditionsTurn(sd, x2, a);
    HkSlotsTurn(sd.hkSlots, x3, a);
    LogSlotsTurn(sd.logSlots, x4, b);
    TransitionsTurn(sd.transitions, x5, d);
    ErrorTurns(sd, x6, d);
    FallbackTurns(sd, x7, d);
    var l := [PriorityLine(sd)];
    TurnsThen(l, EnterLines(sd), a, x0, a, x1, a, x2);
    l := l + EnterLines(sd);
    TurnsThen(l, ConditionLines(sd), a, x0, a, x2, a, x3);
    l := l + ConditionLines(sd);
    TurnsThen(l, HkLines(sd.hkSlots), a, x0, a, x3, b, x4);
    l := l + HkLines(sd.hkSlots);
    TurnsThen(l, LogLines(sd.logSlots), a, x0, b, x4, d, x5);
    l := l + LogLines(sd.logSlots);
    TurnsThen(l, TransitionLines(sd.transitions), a, x0, d, x5, d, x6);
    l := l + TransitionLines(sd.transitions);
    TurnsThen(l, ErrorLines(sd), a, x0, d, x6, d, x7);
    l := l + ErrorLines(sd);
    TurnsThen(l, FallbackLines(sd), a, x0, d, x7, d, x8);
    assert BodyLines(sd) == l + FallbackLines(sd);
  }

  // ----- Whole programs -----

  function UnlinkedStates(states: seq<StateDef>): (r: seq<StateDef>)
    ensures |r| == |states|
  {
    seq(|states|, i requires 0 <= i < |states| => UnlinkedState(states[i]))
  }

  /** From `c` the lines lead to a parser with tables `p`. */
  ghost predicate Gives(c: Parser, lines: seq<Line>, p: Program) {
    ParseAll(c, lines).Some? && ParseAll(c, lines).value.p == p
  }

  lemma ParseOne(c: Parser, l: Line)
    ensures ParseAll(c, [l]) == TakeLine(c, l)
  {
    hide TakeLine;
    assert [l][1..] == [];
  }

  lemma GivesThen(c: Parser, s: seq<Line>, t: seq<Line>, p: Program, q: Program)
    requires Gives(c, s, p) && Gives(ParseAll(c, s).value, t, q)
    ensures Gives(c, s + t, q)
  {
    hide ParseAll;
    ParseConcat(c, s, t);
  }

  lemma OneStateParses(c: Parser, sd: StateDef)
    requires |c.p.states| < AMS_MAX_STATES && StateWritable(sd)
    ensures Gives(c, [StateHeader(Some(sd.name))] + BodyLines(sd),
                  c.p.(states := c.p.states + [UnlinkedState(sd)]))
  {
    hide StateWritable, BodyLines, UnlinkedState, NewState, Turns;
    var a := Place(NoBlock, None, None);
    var h := [StateHeader(Some(sd.name))];
    assert h[1..] == [];
    var d := Parser(c.p.(states := c.p.states + [NewState(sd.name)]), |c.p.states|, NoBlock, None, None, None);
    assert ParseAll(c, h) == Some(d);
    BodyTurns(sd, a);
    var b :| Turns(BodyLines(sd), a, NewState(sd.name), b, UnlinkedState(sd));
    TurnsAt(d, BodyLines(sd), a, NewState(sd.name), b, UnlinkedState(sd));
    assert d.p.states[d.current := UnlinkedState(sd)] == c.p.states + [UnlinkedState(sd)];
    hide ParseAll;
    ParseConcat(c, h, BodyLines(sd));
  }

  lemma TurnsAt(c: Parser, lines: seq<Line>, a: Place, x: StateDef, b: Place, y: StateDef)
    requires Turns(lines, a, x, b, y) && At(c, a, x)
    ensures ParseAll(c, lines) == Some(Moved(c, b, y))
  {
  }

  lemma {:induction false} StatesParse(c: Parser, states: seq<StateDef>)
    requires |c.p.states| + |states| <= AMS_MAX_STATES
    requires forall i :: 0 <= i < |states| ==> StateWritable(states[i])
    ensures Gives(c, StateLines(states), c.p.(states := c.p.states + UnlinkedStates(states)))
    decreases |states|
  {
    hide StateWritable, BodyLines, UnlinkedState;
    if states == [] {
      assert c.p.states + UnlinkedStates(states) == c.p.states;
    } else {
      var n := |states| - 1;
      StatesParse(c, states[..n]);
      var d := ParseAll(c, StateLines(states[..n])).value;
      OneStateParses(d, states[n]);
      assert UnlinkedStates(states) == UnlinkedStates(states[..n]) + [UnlinkedState(states[n])];
      assert d.p.states + [UnlinkedState(states[n])] == c.p.states + UnlinkedStates(states);
      hide ParseAll;
      GivesThen(c, StateLines(states[..n]), [StateHeader(Some(states[n].name))] + BodyLines(states[n]),
                d.p, c.p.(states := c.p.states + UnlinkedStates(states)));
    }
  }

  lemma {:induction false} VarsParse(c: Parser, vars: seq<string>)
    requires c.p.vars == [] && |vars| <= AMS_MAX_VARS && Distinct(vars)
    ensures Gives(c, VarLines(vars), c.p.(vars := vars))
    decreases |vars|
  {
    if vars != [] {
      var n := |vars| - 1;
      VarsParse(c, vars[..n]);
      var d, l := ParseAll(c, VarLines(vars[..n])).value, [VarDecl(vars[n], true)];
      assert vars[..n] + [vars[n]] == vars;
      ParseOne(d, l[0]);
      hide ParseAll;
      assert !Declared(vars[..n], vars[n]);
      assert Gives(d, l, c.p.(vars := vars));
      GivesThen(c, VarLines(vars[..n]), l, d.p, c.p.(vars := vars));
    }
  }

  function UnlinkedTasks(tasks: seq<TaskDef>): (r: seq<TaskDef>)
    ensures |r| == |tasks|
  {
    seq(|tasks|, i requires 0 <= i < |tasks| => tasks[i].(active := []))
  }

  lemma OneTaskParses(c: Parser, td: TaskDef)
    requires |c.p.tasks| < AMS_MAX_TASKS && TaskBounded(td)
    ensures Gives(c, OneTaskLines(td), c.p.(tasks := c.p.tasks + [td.(active := [])]))
  {
    hide ParseAll;
    var h, e := [TaskHeader(true, td.filter)], if td.everyMs > 0 then [Every(Some(td.everyMs))] else [];
    var q := c.p.(tasks := c.p.tasks + [td.(active := [])]);
    var d := c.(p := c.p.(tasks := c.p.tasks + [TaskDef(0, td.filter, [])]), block := TaskBody,
                task := Some(|c.p.tasks|));
    ParseOne(c, h[0]);
    assert ParseAll(c, h) == Some(d);
    assert d.p.tasks[|c.p.tasks| := TaskDef(td.everyMs, td.filter, [])] == q.tasks;
    assert Gives(d, e, q) by {
      if td.everyMs > 0 {
        ParseOne(d, e[0]);
      } else {
        ParseNone(d);
      }
    }
    ParseConcat(c, h, e);
    var f := ParseAll(d, e).value;
    ParseOne(f, Close);
    GivesThen(c, h + e, [Close], q, q);
  }

  lemma ParseNone(c: Parser)
    ensures ParseAll(c, []) == Some(c)
  {
  }

  lemma {:induction false} TasksParse(c: Parser, tasks: seq<TaskDef>)
    requires |c.p.tasks| + |tasks| <= AMS_MAX_TASKS && forall i :: 0 <= i < |tasks| ==> TaskBounded(tasks[i])
    ensures Gives(c, TaskLines(tasks), c.p.(tasks := c.p.tasks + UnlinkedTasks(tasks)))
    decreases |tasks|
  {
    if tasks == [] {
      assert c.p.tasks + UnlinkedTasks(tasks) == c.p.tasks;
    } else {
      var n := |tasks| - 1;
      TasksParse(c, tasks[..n]);
      var d := ParseAll(c, TaskLines(tasks[..n])).value;
      OneTaskParses(d, tasks[n]);
      assert d.p.tasks + [tasks[n].(active := [])] == c.p.tasks + UnlinkedTasks(tasks);
      hide ParseAll;
      GivesThen(c, TaskLines(tasks[..n]), OneTaskLines(tasks[n]), d.p, c.p.(tasks := c.p.tasks + UnlinkedTasks(tasks)));
    }
  }

  lemma {:induction false} AssertsParse(c: Parser, ads: seq<AssertDef>)
    requires c.block == AssertBody && c.p.asserts == [] && |ads| <= AMS_MAX_ASSERTS
    requires forall i :: 0 <= i < |ads| ==> AssertBounded(ads[i])
    ensures ParseAll(c, AssertLines(ads)) == Some(c.(p := c.p.(asserts := ads)))
    decreases |ads|
  {
    if ads != [] {
      var n := |ads| - 1;
      AssertsParse(c, ads[..n]);
      var l := [AssertLine(ads[n])];
      assert ads[..n] + [ads[n]] == ads && l[1..] == [] && AssertBounded(ads[n]);
      ParseConcat(c, AssertLines(ads[..n]), l);
    }
  }

  lemma AssertBlockParses(c: Parser, ads: seq<AssertDef>)
    requires c.p.asserts == [] && |ads| <= AMS_MAX_ASSERTS
    requires forall i :: 0 <= i < |ads| ==> AssertBounded(ads[i])
    ensures Gives(c, [AssertHeader] + AssertLines(ads) + [Close], c.p.(asserts := ads))
  {
    hide ParseAll, AssertLines, AssertBounded;
    var d := c.(block := AssertBody, task := None);
    var f := d.(p := d.p.(asserts := ads));
    ParseOne(c, AssertHeader);
    AssertsParse(d, ads);
    ParseConcat(c, [AssertHeader], AssertLines(ads));
    ParseOne(f, Close);
    hide TakeLine;
    GivesThen(c, [AssertHeader] + AssertLines(ads), [Close], f.p, f.p);
  }

  // ----- The round trip -----

  /** Everything points where its name says. */
  predicate StateLinked(p: Program, sd: StateDef) {
    && (forall i :: 0 <= i < |sd.transitions| ==>
          Leads(p, sd.transitions[i].target, sd.transitions[i].targetIndex, sd.transitions[i].resolved))
    && JumpOk(p, sd.fallback) && JumpOk(p, sd.onError)
  }

  predicate TaskLinked(p: Program, td: TaskDef) {
    match td.filter
    case None => td.active == []
    case Some(names) =>
      && |td.active| == |names|
      && forall i :: 0 <= i < |names| ==> td.active[i] == FindState(p.states, names[i]) < |p.states|
  }

  /** What a program in the engine's tables can be. */
  predicate Writable(p: Program) {
    && p.states != [] && TablesBounded(p)
    && (forall i :: 0 <= i < |p.states| ==> p.states[i].onTimeout.None? && StateLinked(p, p.states[i]))
    && (forall i :: 0 <= i < |p.tasks| ==> TaskLinked(p, p.tasks[i]))
  }

  function UnlinkedProgram(p: Program): Program {
    Program(UnlinkedStates(p.states), p.vars, UnlinkedTasks(p.tasks), p.asserts)
  }

  lemma LinesParse(p: Program)
    requires Writable(p)
    ensures Gives(NewParser(), LinesOf(p), UnlinkedProgram(p))
  {
    hide StateBounded, StateLinked, TaskLinked, UnlinkedStates, UnlinkedTasks, Distinct, AssertBounded, TaskBounded;
    var c := NewParser();
    StatesParse(c, p.states);
    assert [] + UnlinkedStates(p.states) == UnlinkedStates(p.states);
    var d := ParseAll(c, StateLines(p.states)).value;
    VarsParse(d, p.vars);
    var e := ParseAll(d, VarLines(p.vars)).value;
    TasksParse(e, p.tasks);
    assert [] + UnlinkedTasks(p.tasks) == UnlinkedTasks(p.tasks);
    var f := ParseAll(e, TaskLines(p.tasks)).value;
    AssertBlockParses(f, p.asserts);
    hide ParseAll;
    GivesThen(c, StateLines(p.states), VarLines(p.vars), d.p, e.p);
    ParseConcat(c, StateLines(p.states), VarLines(p.vars));
    GivesThen(c, StateLines(p.states) + VarLines(p.vars), TaskLines(p.tasks), e.p, f.p);
    ParseConcat(c, StateLines(p.states) + VarLines(p.vars), TaskLines(p.tasks));
    GivesThen(c, StateLines(p.states) + VarLines(p.vars) + TaskLines(p.tasks),
              [AssertHeader] + AssertLines(p.asserts) + [Close], f.p, UnlinkedProgram(p));
  }

  /** Names are looked up the same in the tables as parsed. */
  lemma SameNames(p: Program, name: string)
    ensures FindState(UnlinkedStates(p.states), name) == FindState(p.states, name)
  {
    hide FindState;
    FindByName(UnlinkedStates(p.states), p.states, name);
  }

  lemma StateLinks(p: Program, i: nat)
    requires i < |p.states| && StateLinked(p, p.states[i]) && p.states[i].onTimeout.None?
    ensures var states := UnlinkedStates(p.states);
            StateKnown(states, states[i]) && ResolveState(states, states[i]) == p.states[i]
  {
    var sd, states := p.states[i], UnlinkedStates(p.states);
    forall name: string ensures FindState(states, name) == FindState(p.states, name) {
      SameNames(p, name);
    }
    hide FindState, UnlinkedStates;
    assert states[i] == UnlinkedState(sd) by { StateAt(p.states, i); }
    TransitionsLink(p, states, sd.transitions);
    hide Leads, UnlinkedAll;
    JumpLinks(p, states, sd.fallback);
    JumpLinks(p, states, sd.onError);
    hide ResolveJump, UnlinkedJump;
  }

  lemma JumpLinks(p: Program, states: seq<StateDef>, j: Option<Jump>)
    requires JumpOk(p, j) && |states| == |p.states|
    requires forall name: string :: FindState(states, name) == FindState(p.states, name)
    ensures ResolveJump(states, UnlinkedJump(j)) == j && (UnlinkedJump(j).None? <==> j.None?)
    ensures j.Some? ==> UnlinkedJump(j).Some? && UnlinkedJump(j).value.target == j.value.target
                        && Known(states, j.value.target)
  {
    hide FindState;
  }

  lemma TransitionsLink(p: Program, states: seq<StateDef>, ts: seq<Transition>)
    requires |states| == |p.states|
    requires forall name: string :: FindState(states, name) == FindState(p.states, name)
    requires forall k :: 0 <= k < |ts| ==> Leads(p, ts[k].target, ts[k].targetIndex, ts[k].resolved)
    ensures forall k :: 0 <= k < |ts| ==> Known(states, UnlinkedAll(ts)[k].target)
    ensures seq(|UnlinkedAll(ts)|, k requires 0 <= k < |UnlinkedAll(ts)| => ResolveTransition(states, UnlinkedAll(ts)[k]))
         == ts
  {
    hide FindState;
    forall k | 0 <= k < |ts|
      ensures ResolveTransition(states, Unlinked(ts[k])) == ts[k] && Known(states, ts[k].target)
    {
    }
  }

  lemma StateAt(states: seq<StateDef>, i: nat)
    requires i < |states|
    ensures UnlinkedStates(states)[i] == UnlinkedState(states[i])
  {
  }

  lemma TaskLinks(p: Program, i: nat)
    requires i < |p.tasks| && TaskLinked(p, p.tasks[i])
    ensures var states, tasks := UnlinkedStates(p.states), UnlinkedTasks(p.tasks);
            && TaskKnown(states, tasks[i]) && TaskKnown(ResolveStates(states), tasks[i])
            && ResolveTask(ResolveStates(states), tasks[i]) == p.tasks[i]
            && ResolveTask(states, tasks[i]) == p.tasks[i]
  {
    hide FindState, UnlinkedStates, ResolveState;
    var states := UnlinkedStates(p.states);
    forall name: string
      ensures FindState(states, name) == FindState(p.states, name)
      ensures FindState(ResolveStates(states), name) == FindState(p.states, name)
    {
      SameNames(p, name);
      ResolvedNames(states, name);
    }
    match p.tasks[i].filter
    case None =>
    case Some(names) =>
      assert ResolveTask(states, UnlinkedTasks(p.tasks)[i]).active == p.tasks[i].active;
      assert ResolveTask(ResolveStates(states), UnlinkedTasks(p.tasks)[i]).active == p.tasks[i].active;
  }

  lemma ResolvedNames(states: seq<StateDef>, name: string)
    ensures FindState(ResolveStates(states), name) == FindState(states, name)
  {
    FindByName(ResolveStates(states), states, name);
  }

  lemma ResolutionRestores(p: Program)
    requires Writable(p)
    ensures Resolvable(UnlinkedProgram(p)) && Resolved(UnlinkedProgram(p)) == p
  {
    hide StateKnown, ResolveState, TaskKnown, ResolveTask, UnlinkedStates, UnlinkedTasks, StateLinked, TaskLinked,
         TablesBounded;
    var q := UnlinkedProgram(p);
    forall i | 0 <= i < |p.states|
      ensures StateKnown(q.states, q.states[i]) && ResolveState(q.states, q.states[i]) == p.states[i]
    {
      StateLinks(p, i);
    }
    forall i | 0 <= i < |p.tasks|
      ensures TaskKnown(ResolveStates(q.states), q.tasks[i])
      ensures ResolveTask(ResolveStates(q.states), q.tasks[i]) == p.tasks[i]
      ensures ResolveTask(q.states, q.tasks[i]) == p.tasks[i]
    {
      TaskLinks(p, i);
    }
    assert ResolveStates(q.states) == p.states;
    assert Resolved(q).tasks == p.tasks;
  }

  /** Compiling a program written out gives the program. */
  lemma RoundTrip(p: Program)
    requires Writable(p) && AllHold(p)
    ensures Compile(LinesOf(p)) == Some(p)
  {
    hide ParseAll, LinesOf, Resolvable, AllHold, Writable, UnlinkedStates;
    assert p.states != [] && |UnlinkedProgram(p).states| == |p.states| by { WrittenStates(p); }
    LinesParse(p);
    ResolutionRestores(p);
  }

  lemma WrittenStates(p: Program)
    requires Writable(p)
    ensures p.states != [] && |UnlinkedProgram(p).states| == |p.states|
  {
  }

  lemma ResolvedState(p: Program, i: nat)
    requires TablesBounded(p) && i < |p.states| && StateKnown(p.states, p.states[i])
    ensures var q := Resolved(p);
            StateBounded(q.states[i]) && q.states[i].onTimeout.None? && StateLinked(q, q.states[i])
  {
    hide FindState, SlotsBounded, TransitionBounded;
    var q := Resolved(p);
    forall name: string
      ensures FindState(q.states, name) == FindState(p.states, name)
    {
      FindByName(q.states, p.states, name);
    }
    var sd, r := p.states[i], q.states[i];
    assert StateBounded(sd);
    forall k | 0 <= k < |r.transitions|
      ensures TransitionBounded(r.transitions[k])
      ensures Leads(q, r.transitions[k].target, r.transitions[k].targetIndex, r.transitions[k].resolved)
    {
      assert TransitionBounded(sd.transitions[k]) && Known(p.states, sd.transitions[k].target);
      TargetKept(p.states, sd.transitions[k]);
    }
  }

  lemma TargetKept(states: seq<StateDef>, t: Transition)
    ensures TransitionBounded(ResolveTransition(states, t)) <==> TransitionBounded(t)
  {
  }

  lemma ResolvedTask(p: Program, i: nat)
    requires TablesBounded(p) && i < |p.tasks| && TaskKnown(ResolveStates(p.states), p.tasks[i])
    requires p.tasks[i].active == []
    ensures var q := Resolved(p);
            TaskBounded(q.tasks[i]) && TaskLinked(q, q.tasks[i])
  {
    hide FindState, StateBounded, ResolveState;
    forall name: string
      ensures FindState(ResolveStates(p.states), name) == FindState(p.states, name)
    {
      ResolvedNames(p.states, name);
    }
  }

  /** The filter of a task is resolved only at the end. */
  predicate NoneActive(p: Program) {
    forall i :: 0 <= i < |p.tasks| ==> p.tasks[i].active == []
  }

  lemma {:induction false} ParseActivatesNone(c: Parser, lines: seq<Line>)
    requires NoneActive(c.p) && ParseAll(c, lines).Some?
    ensures NoneActive(ParseAll(c, lines).value.p)
    decreases |lines|
  {
    hide TakeLine;
    if lines != [] {
      LineActivatesNone(c, lines[0]);
      ParseActivatesNone(TakeLine(c, lines[0]).value, lines[1..]);
    }
  }

  lemma LineActivatesNone(c: Parser, l: Line)
    requires NoneActive(c.p) && TakeLine(c, l).Some?
    ensures NoneActive(TakeLine(c, l).value.p)
  {
    hide Scoped;
    if c.current < |c.p.states| && Scoped(c, l).Some? {
      ScopedTasks(c, l);
    }
  }

  lemma ScopedTasks(c: Parser, l: Line)
    requires c.current < |c.p.states| && Scoped(c, l).Some?
    ensures Scoped(c, l).value.p.tasks == c.p.tasks
  {
    hide AddTransition, AddFallback, AddSlot, AddField, SetPriorities;
  }

  lemma CompiledIsWritable(lines: seq<Line>)
    ensures Compile(lines).Some? ==> Writable(Compile(lines).value) && AllHold(Compile(lines).value)
  {
    hide ParseAll, AllHold, StateKnown, ResolveState, StateBounded, TaskBounded, TaskKnown, ResolveTask, StateLinked,
         TaskLinked, NoneActive;
    ParseBounded(NewParser(), lines);
    if Compile(lines).Some? {
      assert NoneActive(NewParser().p) by { NothingActive(); }
      ParseActivatesNone(NewParser(), lines);
      var p := ParseAll(NewParser(), lines).value.p;
      forall i | 0 <= i < |p.states|
        ensures StateBounded(Resolved(p).states[i]) && Resolved(p).states[i].onTimeout.None?
        ensures StateLinked(Resolved(p), Resolved(p).states[i])
      {
        ResolvedState(p, i);
      }
      forall i | 0 <= i < |p.tasks|
        ensures TaskBounded(Resolved(p).tasks[i]) && TaskLinked(Resolved(p), Resolved(p).tasks[i])
      {
        assert p.tasks[i].active == [] by { NotActive(p, i); }
        ResolvedTask(p, i);
      }
    }
  }

  lemma NothingActive()
    ensures NoneActive(NO_PROGRAM)
  {
  }

  lemma NotActive(p: Program, i: nat)
    requires NoneActive(p) && i < |p.tasks|
    ensures p.tasks[i].active == []
  {
  }

  /** Exactly the programs that scripts compile to. */
  lemma CompilesIff(p: Program)
    ensures (exists lines: seq<Line> :: Compile(lines) == Some(p)) <==> Writable(p) && AllHold(p)
  {
    hide Compile, Writable, AllHold, LinesOf;
    if Writable(p) && AllHold(p) {
      RoundTrip(p);
    }
    forall lines: seq<Line> | Compile(lines) == Some(p) ensures Writable(p) && AllHold(p) {
      CompiledIsWritable(lines);
    }
  }
}
