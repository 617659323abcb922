/**
 Compilation of a mission script (src/ams/mission_script_engine_parser.cpp): from classified lines to resolved
 tables. The text inside a line is not modelled; a line says which directive it is and what it carries.
 */
module Compiler {
  import opened Wrappers
  import opened MissionProgram
  import opened Assertions

  const TELEMETRY_INTERVAL_MIN := 100
  const AMS_MAX_HK_FIELDS := 16
  const AMS_MAX_PULSE_ACTIONS := 2

  datatype Block = NoBlock | OnEnter | OnExit | OnError | OnTimeout | Conditions | HkReport | LogReport
                 | TaskBody | TaskIf | AssertBody

  /** Behind "when": the hold time (none if its clause is malformed), the conditions, and what joins them. */
  datatype Body = Body(hold: Option<nat>, parts: seq<Option<CondExpr>>, joins: seq<bool>)

  datatype Line =
    | Blank
    | Close
    | OpenBrace
    | Metadata(ok: bool)
    | StateHeader(name: Option<string>)
    | VarDecl(variable: string, ok: bool)
    | TaskHeader(ok: bool, filter: Option<seq<string>>)
    | AssertHeader
    | OnEnterHeader
    | OnExitHeader
    | OnErrorHeader
    | ConditionsHeader
    | OnTimeoutHeader(ms: Option<nat>)
    | Every(ms: Option<nat>)
    | LogEvery(ms: Option<nat>)
    | Priorities(event: Option<nat>, hk: nat, log: nat, budget: Option<nat>)
    | HkReportHeader
    | LogReportHeader
    | TransitionTo(target: string, body: Option<Body>)
    | FallbackTo(target: string, after: Option<nat>)
    | EventLine(ok: bool)
    | SetLine(ok: bool)
    | PulseLine(ok: bool)
    | IfLine(ok: bool)
    | AssertLine(ad: AssertDef)
    | Other(guard: Option<Guard>, field: bool)

  /** The tables filled so far and where the next line belongs. */
  datatype Parser = Parser(p: Program, current: nat, block: Block, task: Option<nat>,
                           hkSlot: Option<nat>, logSlot: Option<nat>)

  function NewParser(): Parser {
    Parser(NO_PROGRAM, AMS_MAX_STATES, NoBlock, None, None, None)
  }

  function NewState(name: string): StateDef {
    StateDef(name, [], [], None, 0, None, None, 0, [], [], false, 0, 4, 2, 1, 2)
  }

  // ----- Lines inside a state -----

  predicate SameJoins(joins: seq<bool>) {
    forall i :: 0 <= i < |joins| ==> joins[i] == joins[0]
  }

  /** One kind of connective, one to four conditions. */
  predicate Splits(b: Body) {
    1 <= |b.parts| <= AMS_MAX_TRANSITION_CONDS && SameJoins(b.joins)
  }

  predicate AllParse(parts: seq<Option<CondExpr>>) {
    forall i :: 0 <= i < |parts| ==> parts[i].Some?
  }

  function Parsed(parts: seq<Option<CondExpr>>): (conds: seq<CondExpr>)
    requires AllParse(parts)
    ensures |conds| == |parts|
  {
    seq(|parts|, i requires 0 <= i < |parts| => parts[i].value)
  }

  /** `parseTransitionLineLocked` and `buildAndStoreTransitionLocked` */
  function AddTransition(sd: StateDef, target: string, body: Option<Body>): Option<StateDef> {
    match body
    case None => None
    case Some(b) =>
      if target == "" || b.hold.None? || !Splits(b) || |sd.transitions| >= AMS_MAX_TRANSITIONS
        || !AllParse(b.parts) then None
      else
        var isAnd := b.joins == [] || b.joins[0];
        Some(sd.(transitions := sd.transitions + [Transition(Parsed(b.parts), isAnd, target, 0, false, b.hold.value)]))
  }

  function AddFallback(sd: StateDef, target: string, after: Option<nat>): Option<StateDef> {
    if sd.fallback.Some? || target == "" || after.None? || after.value == 0 then None
    else Some(sd.(fallback := Some(Jump(target, 0, false)), fallbackAfterMs := after.value))
  }

  function AddOnError(sd: StateDef, target: string): Option<StateDef> {
    if sd.onError.Some? || target == "" then None
    else Some(sd.(onError := Some(Jump(target, 0, false))))
  }

  function AddSlot(slots: seq<Slot>, ms: Option<nat>, least: nat): Option<seq<Slot>> {
    if ms.None? || ms.value < least || |slots| >= AMS_MAX_HK_SLOTS then None
    else Some(slots + [Slot(ms.value, 0)])
  }

  function AddField(slots: seq<Slot>, at: Option<nat>): Option<seq<Slot>> {
    if at.None? || at.value >= |slots| || slots[at.value].fieldCount >= AMS_MAX_HK_FIELDS then None
    else Some(slots[at.value := slots[at.value].(fieldCount := slots[at.value].fieldCount + 1)])
  }

  function SetPriorities(sd: StateDef, event: Option<nat>, hk: nat, log: nat, budget: Option<nat>): Option<StateDef> {
    var e := if event.Some? then event.value else sd.eventPriority;
    var b := if budget.Some? then budget.value else sd.actionBudget;
    if e > 9 || hk > 9 || log > 9 || b < 1 || b > 3 then None
    else Some(sd.(eventPriority := e, hkPriority := hk, logPriority := log, actionBudget := b))
  }

  /** The parser with the current state's entry replaced. */
  function Put(c: Parser, sd: Option<StateDef>): Option<Parser>
    requires c.current < |c.p.states|
  {
    match sd
    case None => None
    case Some(x) => Some(c.(p := c.p.(states := c.p.states[c.current := x])))
  }

  /** `parseStateBlockContentLocked` and the event line behind it. */
  function Content(c: Parser, l: Line): Option<Parser>
    requires c.current < |c.p.states|
  {
    var sd := c.p.states[c.current];
    match c.block
    case Conditions =>
      if l.OpenBrace? then Some(c)
      else if l.Other? && l.guard.Some? && |sd.guards| < AMS_MAX_CONDITIONS then
        Put(c, Some(sd.(guards := sd.guards + [l.guard.value])))
      else None
    case OnError =>
      if l.EventLine? && l.ok then Some(c)
      else if l.TransitionTo? then Put(c, AddOnError(sd, l.target))
      else None
    case OnEnter =>
      if l.EventLine? && l.ok then Put(c, Some(sd.(hasOnEnterEvent := true)))
      else if l.SetLine? && l.ok then Some(c)
      else if l.PulseLine? && l.ok && sd.pulseCount < AMS_MAX_PULSE_ACTIONS then
        Put(c, Some(sd.(pulseCount := sd.pulseCount + 1)))
      else None
    case OnExit => if (l.EventLine? && l.ok) || (l.SetLine? && l.ok) then Some(c) else None
    case OnTimeout =>
      if l.EventLine? && l.ok then Some(c)
      else if l.TransitionTo? then Put(c, SetTimeoutTarget(sd, l.target))
      else None
    case HkReport =>
      if l.OpenBrace? then Some(c)
      else if l.Other? && l.field then
        var slots := AddField(sd.hkSlots, c.hkSlot);
        if slots.None? then None else Put(c, Some(sd.(hkSlots := slots.value)))
      else None
    case LogReport =>
      if l.OpenBrace? then Some(c)
      else if l.Other? && l.field then
        var slots := AddField(sd.logSlots, c.logSlot);
        if slots.None? then None else Put(c, Some(sd.(logSlots := slots.value)))
      else None
    case _ => if l.EventLine? && l.ok then Put(c, Some(sd.(hasOnEnterEvent := true))) else None
  }

  /** `parseOnTimeoutTransitionLineLocked`; an unset target is the empty name. */
  function SetTimeoutTarget(sd: StateDef, target: string): Option<StateDef> {
    if sd.onTimeout.None? || sd.onTimeout.value.target != "" || target == "" then None
    else Some(sd.(onTimeout := Some(Jump(target, 0, false))))
  }

  /** `parseStateScopedLineLocked`: headers are recognised before the block that is open. */
  function Scoped(c: Parser, l: Line): Option<Parser>
    requires c.current < |c.p.states|
  {
    var sd := c.p.states[c.current];
    match l
    case OnEnterHeader => Some(c.(block := OnEnter))
    case OnExitHeader => Some(c.(block := OnExit))
    case OnErrorHeader => Some(c.(block := OnError))
    case ConditionsHeader => Some(c.(block := Conditions))
    case OnTimeoutHeader(ms) =>
      if sd.onTimeout.Some? || ms.None? || ms.value == 0 then None
      else Put(c.(block := OnTimeout), Some(sd.(onTimeout := Some(Jump("", 0, false)), onTimeoutMs := ms.value)))
    case Every(ms) =>
      var slots := AddSlot(sd.hkSlots, ms, TELEMETRY_INTERVAL_MIN);
      if slots.None? then None
      else Put(c.(block := NoBlock, hkSlot := Some(|sd.hkSlots|)), Some(sd.(hkSlots := slots.value)))
    case LogEvery(ms) =>
      var slots := AddSlot(sd.logSlots, ms, 1);
      if slots.None? then None
      else Put(c.(block := NoBlock, logSlot := Some(|sd.logSlots|)), Some(sd.(logSlots := slots.value)))
    case Priorities(event, hk, log, budget) => Put(c.(block := NoBlock), SetPriorities(sd, event, hk, log, budget))
    case HkReportHeader => if |sd.hkSlots| == 0 then None else Some(c.(block := HkReport))
    case LogReportHeader => if |sd.logSlots| == 0 then None else Some(c.(block := LogReport))
    case FallbackTo(target, after) => Put(c.(block := NoBlock), AddFallback(sd, target, after))
    case TransitionTo(target, body) =>
      if c.block == OnError then Content(c, l) else Put(c.(block := NoBlock), AddTransition(sd, target, body))
    case _ => Content(c, l)
  }

  // ----- Lines outside states -----

  predicate Declared(vars: seq<string>, name: string) {
    name in vars
  }

  /** Directives recognised wherever they stand; `None` inside means the line is not one of them. */
  function TopLevel(c: Parser, l: Line): Option<Option<Parser>> {
    match l
    case Close => Some(Some(c.(block := NoBlock)))
    case Metadata(ok) => Some(if ok then Some(c) else None)
    case StateHeader(name) =>
      Some(if |c.p.states| >= AMS_MAX_STATES || name.None? then None
           else Some(Parser(c.p.(states := c.p.states + [NewState(name.value)]), |c.p.states|, NoBlock, None, None,
                            None)))
    case VarDecl(name, ok) =>
      Some(if !ok || Declared(c.p.vars, name) || |c.p.vars| >= AMS_MAX_VARS then None
           else Some(c.(p := c.p.(vars := c.p.vars + [name]))))
    case TaskHeader(ok, filter) =>
      Some(if |c.p.tasks| >= AMS_MAX_TASKS || !ok then None
           else Some(c.(p := c.p.(tasks := c.p.tasks + [TaskDef(0, filter, [])]), block := TaskBody,
                        task := Some(|c.p.tasks|))))
    case AssertHeader => Some(Some(c.(block := AssertBody, task := None)))
    case _ => None
  }

  /** `parseTaskScopedLineLocked` */
  function TaskLine(c: Parser, l: Line): Option<Parser> {
    if c.task.None? || c.task.value >= |c.p.tasks| then None
    else
      var i := c.task.value;
      match l
      case Every(ms) =>
        if ms.None? || ms.value < TELEMETRY_INTERVAL_MIN then None
        else Some(c.(p := c.p.(tasks := c.p.tasks[i := c.p.tasks[i].(everyMs := ms.value)])))
      case IfLine(ok) => if ok then Some(c.(block := TaskIf)) else None
      case EventLine(ok) => if c.block == TaskIf && ok then Some(c) else None
      case SetLine(ok) => if c.block == TaskIf && ok then Some(c) else None
      case _ => None
  }

  function AssertionLine(c: Parser, l: Line): Option<Parser> {
    if |c.p.asserts| >= AMS_MAX_ASSERTS || !l.AssertLine? then None
    else if l.ad.MaxDepth? && (l.ad.limit == 0 || l.ad.limit > 255) then None
    else if l.ad.Reachable? && l.ad.target == "" then None
    else Some(c.(p := c.p.(asserts := c.p.asserts + [l.ad])))
  }

  /** `parseLineLocked` */
  function TakeLine(c: Parser, l: Line): Option<Parser> {
    if l.Blank? then Some(c)
    else match TopLevel(c, l)
      case Some(r) => r
      case None =>
        if c.block == TaskBody || c.block == TaskIf then TaskLine(c, l)
        else if c.block == AssertBody then AssertionLine(c, l)
        else if c.current >= |c.p.states| then None
        else Scoped(c, l)
  }

  function ParseAll(c: Parser, lines: seq<Line>): Option<Parser>
    decreases |lines|
  {
    if lines == [] then Some(c)
    else match TakeLine(c, lines[0])
      case None => None
      case Some(d) => ParseAll(d, lines[1..])
  }

  // ----- Resolution -----

  predicate Known(states: seq<StateDef>, name: string) {
    FindState(states, name) < |states|
  }

  predicate JumpKnown(states: seq<StateDef>, j: Option<Jump>) {
    j.Some? ==> j.value.target != "" && Known(states, j.value.target)
  }

  predicate StateKnown(states: seq<StateDef>, sd: StateDef) {
    && (forall i :: 0 <= i < |sd.transitions| ==> Known(states, sd.transitions[i].target))
    && (sd.fallback.Some? ==> Known(states, sd.fallback.value.target))
    && (sd.onError.Some? ==> Known(states, sd.onError.value.target))
    && JumpKnown(states, sd.onTimeout)
  }

  function ResolveTransition(states: seq<StateDef>, t: Transition): Transition {
    t.(targetIndex := FindState(states, t.target), resolved := true)
  }

  function ResolveJump(states: seq<StateDef>, j: Option<Jump>): Option<Jump> {
    match j
    case None => None
    case Some(x) => Some(x.(index := FindState(states, x.target), resolved := true))
  }

  function ResolveState(states: seq<StateDef>, sd: StateDef): StateDef {
    sd.(transitions := seq(|sd.transitions|,
                           i requires 0 <= i < |sd.transitions| => ResolveTransition(states, sd.transitions[i])),
        fallback := ResolveJump(states, sd.fallback),
        onError := ResolveJump(states, sd.onError),
        onTimeout := ResolveJump(states, sd.onTimeout))
  }

  function ResolveStates(states: seq<StateDef>): (r: seq<StateDef>)
    ensures |r| == |states|
  {
    seq(|states|, i requires 0 <= i < |states| => ResolveState(states, states[i]))
  }

  predicate AllKnown(states: seq<StateDef>) {
    forall i :: 0 <= i < |states| ==> StateKnown(states, states[i])
  }

  predicate TaskKnown(states: seq<StateDef>, td: TaskDef) {
    td.filter.Some? ==> forall i :: 0 <= i < |td.filter.value| ==> Known(states, td.filter.value[i])
  }

  function ResolveTask(states: seq<StateDef>, td: TaskDef): TaskDef {
    match td.filter
    case None => td
    case Some(names) => td.(active := seq(|names|, i requires 0 <= i < |names| => FindState(states, names[i])))
  }

  predicate TasksKnown(p: Program) {
    forall i :: 0 <= i < |p.tasks| ==> TaskKnown(p.states, p.tasks[i])
  }

  function ResolveTaskList(states: seq<StateDef>, tasks: seq<TaskDef>): (r: seq<TaskDef>)
    ensures |r| == |tasks|
  {
    seq(|tasks|, i requires 0 <= i < |tasks| => ResolveTask(states, tasks[i]))
  }

  function Resolved(p: Program): Program {
    var states := ResolveStates(p.states);
    p.(states := states, tasks := ResolveTaskList(states, p.tasks))
  }

  predicate Resolvable(p: Program) {
    AllKnown(p.states) && TasksKnown(p.(states := ResolveStates(p.states)))
  }

  /** `parseScriptLocked` */
  ghost function Compile(lines: seq<Line>): Option<Program> {
    match ParseAll(NewParser(), lines)
    case None => None
    case Some(c) =>
      if c.p.states == [] || !Resolvable(c.p) || !AllHold(Resolved(c.p)) then None else Some(Resolved(c.p))
  }

  // ----- What the parser keeps -----

  predicate TransitionBounded(t: Transition) {
    t.target != "" && 1 <= |t.conds| <= AMS_MAX_TRANSITION_CONDS
  }

  predicate SlotsBounded(slots: seq<Slot>, least: nat) {
    && |slots| <= AMS_MAX_HK_SLOTS
    && forall i :: 0 <= i < |slots| ==> least <= slots[i].everyMs && slots[i].fieldCount <= AMS_MAX_HK_FIELDS
  }

  predicate FallbackBounded(sd: StateDef) {
    if sd.fallback.Some? then sd.fallback.value.target != "" && sd.fallbackAfterMs > 0 else sd.fallbackAfterMs == 0
  }

  predicate PrioritiesBounded(sd: StateDef) {
    sd.eventPriority <= 9 && sd.hkPriority <= 9 && sd.logPriority <= 9 && 1 <= sd.actionBudget <= 3
  }

  /** What the parser keeps of one state; an on_timeout block never obtains a target. */
  predicate StateBounded(sd: StateDef) {
    && |sd.transitions| <= AMS_MAX_TRANSITIONS
    && (forall i :: 0 <= i < |sd.transitions| ==> TransitionBounded(sd.transitions[i]))
    && |sd.guards| <= AMS_MAX_CONDITIONS
    && (sd.onError.Some? ==> sd.onError.value.target != "") && FallbackBounded(sd)
    && (if sd.onTimeout.Some? then sd.onTimeout.value.target == "" else sd.onTimeoutMs == 0)
    && SlotsBounded(sd.hkSlots, TELEMETRY_INTERVAL_MIN) && SlotsBounded(sd.logSlots, 1)
    && sd.pulseCount <= AMS_MAX_PULSE_ACTIONS && PrioritiesBounded(sd)
  }

  predicate TaskBounded(td: TaskDef) {
    td.everyMs == 0 || td.everyMs >= TELEMETRY_INTERVAL_MIN
  }

  predicate AssertBounded(ad: AssertDef) {
    match ad
    case Reachable(target) => target != ""
    case NoDeadStates => true
    case MaxDepth(limit) => 0 < limit <= 255
  }

  predicate Distinct(names: seq<string>) {
    forall i, j :: 0 <= i < j < |names| ==> names[i] != names[j]
  }

  predicate TablesBounded(p: Program) {
    && |p.states| <= AMS_MAX_STATES && |p.vars| <= AMS_MAX_VARS && |p.tasks| <= AMS_MAX_TASKS
    && |p.asserts| <= AMS_MAX_ASSERTS && Distinct(p.vars)
    && (forall i :: 0 <= i < |p.states| ==> StateBounded(p.states[i]))
    && (forall i :: 0 <= i < |p.tasks| ==> TaskBounded(p.tasks[i]))
    && (forall i :: 0 <= i < |p.asserts| ==> AssertBounded(p.asserts[i]))
  }

  lemma PutBounded(c: Parser, sd: Option<StateDef>)
    requires c.current < |c.p.states| && TablesBounded(c.p) && (sd.Some? ==> StateBounded(sd.value))
    ensures Put(c, sd).Some? ==> TablesBounded(Put(c, sd).value.p)
  {
  }

  lemma AddTransitionBounded(sd: StateDef, target: string, body: Option<Body>)
    requires StateBounded(sd)
    ensures AddTransition(sd, target, body).Some? ==> StateBounded(AddTransition(sd, target, body).value)
  {
    hide SlotsBounded;
  }

  lemma ContentBounded(c: Parser, l: Line)
    requires c.current < |c.p.states| && TablesBounded(c.p) && (l.TransitionTo? ==> c.block == OnError)
    ensures Content(c, l).Some? ==> TablesBounded(Content(c, l).value.p)
  {
    hide Put, AddField, SlotsBounded, TransitionBounded;
    var sd := c.p.states[c.current];
    assert StateBounded(sd);
    FieldKeepsBounds(sd.hkSlots, c.hkSlot, TELEMETRY_INTERVAL_MIN);
    FieldKeepsBounds(sd.logSlots, c.logSlot, 1);
    forall x: Option<StateDef> | x.Some? && StateBounded(x.value)
      ensures Put(c, x).Some? ==> TablesBounded(Put(c, x).value.p)
    {
      PutBounded(c, x);
    }
    PutNone(c);
  }

  lemma PutNone(c: Parser)
    requires c.current < |c.p.states|
    ensures Put(c, None).None?
  {
  }

  lemma FieldKeepsBounds(slots: seq<Slot>, at: Option<nat>, least: nat)
    requires SlotsBounded(slots, least)
    ensures AddField(slots, at).Some? ==> SlotsBounded(AddField(slots, at).value, least)
  {
  }

  lemma SlotKeepsBounds(slots: seq<Slot>, ms: Option<nat>, least: nat)
    requires SlotsBounded(slots, least)
    ensures AddSlot(slots, ms, least).Some? ==> SlotsBounded(AddSlot(slots, ms, least).value, least)
  {
  }

  lemma ScopedBounded(c: Parser, l: Line)
    requires c.current < |c.p.states| && TablesBounded(c.p)
    ensures Scoped(c, l).Some? ==> TablesBounded(Scoped(c, l).value.p)
  {
    hide Put, Content, AddTransition, AddSlot, SlotsBounded, TransitionBounded;
    var sd := c.p.states[c.current];
    assert StateBounded(sd);
    if l.Every? {
      SlotKeepsBounds(sd.hkSlots, l.ms, TELEMETRY_INTERVAL_MIN);
    } else if l.LogEvery? {
      SlotKeepsBounds(sd.logSlots, l.ms, 1);
    }
    if l.TransitionTo? {
      AddTransitionBounded(sd, l.target, l.body);
    }
    if !l.TransitionTo? || c.block == OnError {
      ContentBounded(c, l);
    }
    forall d: Parser, x: Option<StateDef> | d.p == c.p && d.current == c.current && (x.Some? ==> StateBounded(x.value))
      ensures Put(d, x).Some? ==> TablesBounded(Put(d, x).value.p)
    {
      PutBounded(d, x);
    }
  }

  lemma NewStateBounded()
    ensures forall name: string :: StateBounded(NewState(name))
  {
  }

  lemma StepBounded(c: Parser, l: Line)
    requires TablesBounded(c.p)
    ensures TakeLine(c, l).Some? ==> TablesBounded(TakeLine(c, l).value.p)
  {
    hide Scoped, StateBounded;
    if c.current < |c.p.states| {
      ScopedBounded(c, l);
    }
    NewStateBounded();
  }

  lemma {:induction false} ParseBounded(c: Parser, lines: seq<Line>)
    requires TablesBounded(c.p)
    ensures ParseAll(c, lines).Some? ==> TablesBounded(ParseAll(c, lines).value.p)
    decreases |lines|
  {
    hide TakeLine, TablesBounded;
    if lines != [] {
      StepBounded(c, lines[0]);
      if TakeLine(c, lines[0]).Some? {
        ParseBounded(TakeLine(c, lines[0]).value, lines[1..]);
      }
    }
  }

  // ----- on_timeout -----

  predicate SomeTimeout(p: Program) {
    exists i :: 0 <= i < |p.states| && p.states[i].onTimeout.Some?
  }

  /** No state loses its on_timeout block. */
  predicate KeepsTimeouts(p: Program, q: Program) {
    |p.states| <= |q.states| && forall i :: 0 <= i < |p.states| && p.states[i].onTimeout.Some? ==>
      q.states[i].onTimeout.Some?
  }

  lemma PutKeeps(c: Parser, x: Option<StateDef>)
    requires c.current < |c.p.states|
    requires x.Some? ==> c.p.states[c.current].onTimeout.Some? ==> x.value.onTimeout.Some?
    ensures Put(c, x).Some? ==> KeepsTimeouts(c.p, Put(c, x).value.p)
    ensures Put(c, x).Some? ==>
              x.Some? && |Put(c, x).value.p.states| == |c.p.states| && Put(c, x).value.p.states[c.current] == x.value
  {
  }

  lemma PutsKeep(c: Parser)
    requires c.current < |c.p.states|
    ensures forall d: Parser, x: Option<StateDef> ::
              d.p == c.p && d.current == c.current
                && (x.Some? ==> c.p.states[c.current].onTimeout.Some? ==> x.value.onTimeout.Some?) ==>
              Put(d, x).Some? ==> x.Some? && KeepsTimeouts(c.p, Put(d, x).value.p)
                                  && |Put(d, x).value.p.states| == |c.p.states|
                                     && Put(d, x).value.p.states[c.current] == x.value
  {
    forall d: Parser, x: Option<StateDef> | d.p == c.p && d.current == c.current
                                            && (x.Some? ==> c.p.states[c.current].onTimeout.Some? ==>
                                                x.value.onTimeout.Some?)
      ensures Put(d, x).Some? ==> x.Some? && KeepsTimeouts(c.p, Put(d, x).value.p)
                                  && |Put(d, x).value.p.states| == |c.p.states|
                                     && Put(d, x).value.p.states[c.current] == x.value
    {
      PutKeeps(d, x);
    }
  }

  lemma ContentKeeps(c: Parser, l: Line)
    requires c.current < |c.p.states|
    ensures Content(c, l).Some? ==> KeepsTimeouts(c.p, Content(c, l).value.p)
    ensures l.OnTimeoutHeader? ==> Content(c, l).None?
  {
    PutsKeep(c);
    hide Put, AddField;
  }

  lemma ScopedKeeps(c: Parser, l: Line)
    requires c.current < |c.p.states| && Scoped(c, l).Some?
    ensures KeepsTimeouts(c.p, Scoped(c, l).value.p)
    ensures l.OnTimeoutHeader? ==> c.current < |Scoped(c, l).value.p.states|
                                   && Scoped(c, l).value.p.states[c.current].onTimeout.Some?
  {
    PutsKeep(c);
    ContentKeeps(c, l);
    hide Put, Content, AddSlot, Splits, AllParse, Parsed;
  }

  lemma StepKeepsTimeout(c: Parser, l: Line)
    requires TakeLine(c, l).Some?
    ensures SomeTimeout(c.p) ==> SomeTimeout(TakeLine(c, l).value.p)
    ensures l.OnTimeoutHeader? ==> SomeTimeout(TakeLine(c, l).value.p)
  {
    hide Scoped;
    var q := TakeLine(c, l).value.p;
    if c.current < |c.p.states| && Scoped(c, l).Some? {
      ScopedKeeps(c, l);
    }
    assert KeepsTimeouts(c.p, q);
    if SomeTimeout(c.p) {
      var i :| 0 <= i < |c.p.states| && c.p.states[i].onTimeout.Some?;
      assert q.states[i].onTimeout.Some?;
    }
  }

  lemma {:induction false} ParseKeepsTimeout(c: Parser, lines: seq<Line>)
    requires ParseAll(c, lines).Some?
    ensures SomeTimeout(c.p) || (exists i :: 0 <= i < |lines| && lines[i].OnTimeoutHeader?) ==>
              SomeTimeout(ParseAll(c, lines).value.p)
    decreases |lines|
  {
    hide TakeLine, SomeTimeout;
    if lines != [] {
      StepKeepsTimeout(c, lines[0]);
      ParseKeepsTimeout(TakeLine(c, lines[0]).value, lines[1..]);
      assert forall i :: 0 < i < |lines| ==> lines[i] == lines[1..][i - 1];
    }
  }

  // ----- What an accepted script guarantees -----

  lemma {:induction false} FindByName(a: seq<StateDef>, b: seq<StateDef>, name: string)
    requires |a| == |b| && forall i :: 0 <= i < |a| ==> a[i].name == b[i].name
    ensures FindState(a, name) == FindState(b, name)
  {
    if a != [] {
      FindByName(a[1..], b[1..], name);
    }
  }

  lemma ResolvedStateOk(p: Program, i: nat)
    requires TablesBounded(p) && i < |p.states| && StateKnown(p.states, p.states[i])
    ensures StateOk(Resolved(p), Resolved(p).states[i]) && Resolved(p).states[i].onTimeout.None?
  {
    hide FindState, Known;
    var q := Resolved(p);
    forall name: string
      ensures FindState(q.states, name) == FindState(p.states, name)
    {
      FindByName(q.states, p.states, name);
    }
    var sd, r := p.states[i], q.states[i];
    assert StateBounded(sd);
    forall t | t in r.transitions ensures TransitionOk(q, t) {
      var k :| 0 <= k < |r.transitions| && t == r.transitions[k];
      KnownMeans(p.states, sd.transitions[k].target);
    }
    if sd.fallback.Some? { KnownMeans(p.states, sd.fallback.value.target); }
    if sd.onError.Some? { KnownMeans(p.states, sd.onError.value.target); }
  }

  lemma KnownMeans(states: seq<StateDef>, name: string)
    requires Known(states, name)
    ensures FindState(states, name) < |states|
  {
  }

  /**
   Every accepted script gives tables the runtime can trust: bounds, one to four conditions per transition,
   every target the first state of its name, unique variables, all assertions true, and no on_timeout at all.
   */
  lemma CompiledIsSafe(lines: seq<Line>)
    ensures Compile(lines).Some? ==>
              var p := Compile(lines).value;
              && WellFormed(p) && AllHold(p) && Distinct(p.vars)
              && forall i :: 0 <= i < |p.states| ==> p.states[i].onTimeout.None?
  {
    hide ParseAll, StateOk, AllHold, StateKnown;
    ParseBounded(NewParser(), lines);
    if Compile(lines).Some? {
      var c := ParseAll(NewParser(), lines).value;
      var p := Resolved(c.p);
      forall sd | sd in p.states ensures StateOk(p, sd) && sd.onTimeout.None? {
        var i :| 0 <= i < |p.states| && p.states[i] == sd;
        ResolvedStateOk(c.p, i);
      }
    }
  }

  /** A script with an on_timeout header anywhere is rejected: its target line is taken for a regular transition. */
  lemma TimeoutNeverCompiles(lines: seq<Line>, i: nat)
    requires i < |lines| && lines[i].OnTimeoutHeader?
    ensures Compile(lines).None?
  {
    hide ParseAll, AllHold;
    ParseBounded(NewParser(), lines);
    if ParseAll(NewParser(), lines).Some? {
      ParseKeepsTimeout(NewParser(), lines);
      var c := ParseAll(NewParser(), lines).value;
      var k :| 0 <= k < |c.p.states| && c.p.states[k].onTimeout.Some?;
      assert StateBounded(c.p.states[k]);
      assert !StateKnown(c.p.states, c.p.states[k]);
    }
  }

  /** Exactly what makes resolution succeed: all names are states, and no state has an on_timeout block. */
  lemma ResolvableIff(p: Program)
    requires TablesBounded(p)
    ensures Resolvable(p) <==>
              && !SomeTimeout(p)
              && (forall i :: 0 <= i < |p.states| ==> NamesKnown(p.states, p.states[i]))
              && TasksKnown(p)
  {
    hide FindState;
    forall name: string
      ensures FindState(ResolveStates(p.states), name) == FindState(p.states, name)
    {
      FindByName(ResolveStates(p.states), p.states, name);
    }
    forall i | 0 <= i < |p.states|
      ensures StateKnown(p.states, p.states[i]) <==> NamesKnown(p.states, p.states[i]) && p.states[i].onTimeout.None?
    {
      assert StateBounded(p.states[i]);
    }
    forall i | 0 <= i < |p.tasks|
      ensures TaskKnown(ResolveStates(p.states), p.tasks[i]) <==> TaskKnown(p.states, p.tasks[i])
    {
    }
  }

  predicate NamesKnown(states: seq<StateDef>, sd: StateDef) {
    && (forall i :: 0 <= i < |sd.transitions| ==> Known(states, sd.transitions[i].target))
    && (sd.fallback.Some? ==> Known(states, sd.fallback.value.target))
    && (sd.onError.Some? ==> Known(states, sd.onError.value.target))
  }
}
