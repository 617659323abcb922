/** The compiler at work on the engine's program tables (src/ams/mission_script_engine_parser.cpp). */
module ScriptParser {
  import opened Wrappers
  import opened MissionProgram
  import opened DepthSearch
  import opened Assertions
  import opened Compiler

  /** A line took effect as `r` says, or was rejected. */
  predicate Did(ok: bool, now: Parser, before: Parser, r: Option<Parser>) {
    (ok <==> r.Some?) && now == if ok then r.value else before
  }

  /** Every connective follows a condition. */
  predicate Lexed(l: Line) {
    l.TransitionTo? && l.body.Some? ==> |l.body.value.joins| <= |l.body.value.parts|
  }

  class TableParser {
    var program: Program
    var currentState: nat
    var blockType: Block
    var currentTask: Option<nat>
    var currentHkSlot: Option<nat>
    var currentLogSlot: Option<nat>

    ghost function Now(): Parser
      reads this
    {
      Parser(program, currentState, blockType, currentTask, currentHkSlot, currentLogSlot)
    }

    constructor ()
      ensures Now() == NewParser()
    {
      program, currentState, blockType := NO_PROGRAM, AMS_MAX_STATES, NoBlock;
      currentTask, currentHkSlot, currentLogSlot := None, None, None;
    }

    // ----- Transitions -----

    /** Cuts the body at its connectives, which must all be the same. */
    static method SplitTransitionConditions(b: Body) returns (ok: bool, isAnd: bool)
      requires |b.joins| <= |b.parts|
      ensures ok <==> Splits(b)
      ensures ok ==> isAnd == (b.joins == [] || b.joins[0])
    {
      var logicDetected, condCount := false, 0;
      isAnd := true;
      var i := 0;
      while i < |b.parts|
        invariant i <= |b.parts| && condCount == i <= AMS_MAX_TRANSITION_CONDS
        invariant logicDetected <==> i > 0 && |b.joins| > 0
        invariant isAnd == (!logicDetected || b.joins[0])
        invariant forall k :: 0 <= k < i && k < |b.joins| ==> b.joins[k] == b.joins[0]
      {
        if i < |b.joins| {
          if !logicDetected {
            isAnd, logicDetected := b.joins[i], true;
          } else if b.joins[i] != isAnd {
            return false, isAnd;
          }
        }
        if condCount >= AMS_MAX_TRANSITION_CONDS { return false, isAnd; }
        condCount := condCount + 1;
        i := i + 1;
      }
      ok := condCount != 0;
    }

    /** All conditions in order, up to the first that does not parse. */
    static method ParseConditions(parts: seq<Option<CondExpr>>) returns (ok: bool, conds: seq<CondExpr>)
      ensures ok <==> AllParse(parts)
      ensures ok ==> conds == Parsed(parts)
    {
      conds := [];
      var i := 0;
      while i < |parts|
        invariant i <= |parts| == |parts| && |conds| == i
        invariant forall k :: 0 <= k < i ==> parts[k].Some? && conds[k] == parts[k].value
      {
        if parts[i].None? { return false, conds; }
        conds := conds + [parts[i].value];
        i := i + 1;
      }
      ok := true;
    }

    static method ParseTransitionLine(sd: StateDef, target: string, body: Option<Body>) returns (r: Option<StateDef>)
      requires body.Some? ==> |body.value.joins| <= |body.value.parts|
      ensures r == AddTransition(sd, target, body)
    {
      hide Splits, AllParse;
      if body.None? { return None; }
      if target == "" { return None; }
      if body.value.hold.None? { return None; }
      var splits, isAnd := SplitTransitionConditions(body.value);
      if !splits { return None; }
      if |sd.transitions| >= AMS_MAX_TRANSITIONS { return None; }
      var parse, conds := ParseConditions(body.value.parts);
      if !parse { return None; }
      var tr := Transition(conds, isAnd, target, 0, false, body.value.hold.value);
      return Some(sd.(transitions := sd.transitions + [tr]));
    }

    // ----- Lines -----

    method StoreState(sd: Option<StateDef>) returns (ok: bool)
      requires currentState < |program.states|
      modifies this`program
      ensures Did(ok, Now(), old(Now()), Put(old(Now()), sd))
    {
      if sd.None? { return false; }
      program := program.(states := program.states[currentState := sd.value]);
      return true;
    }

    /** A stored entry moves the parser on to block `b`. */
    method StoreIn(b: Block, sd: Option<StateDef>) returns (ok: bool)
      requires currentState < |program.states|
      modifies this`program, this`blockType
      ensures Did(ok, Now(), old(Now()), Put(old(Now()).(block := b), sd)) && (ok <==> sd.Some?)
    {
      ok := StoreState(sd);
      if ok { blockType := b; }
    }

    method ParseOnTimeoutHeader(ms: Option<nat>) returns (ok: bool)
      requires currentState < |program.states|
      modifies this`program, this`blockType
      ensures Did(ok, Now(), old(Now()), Scoped(old(Now()), OnTimeoutHeader(ms)))
    {
      hide Put;
      var sd := program.states[currentState];
      if sd.onTimeout.Some? || ms.None? || ms.value == 0 { return false; }
      ok := StoreIn(OnTimeout, Some(sd.(onTimeout := Some(Jump("", 0, false)), onTimeoutMs := ms.value)));
    }

    method ParseEveryLine(ms: Option<nat>) returns (ok: bool)
      requires currentState < |program.states|
      modifies this`program, this`blockType, this`currentHkSlot
      ensures Did(ok, Now(), old(Now()), Scoped(old(Now()), Every(ms)))
    {
      hide AddSlot, Put;
      var sd := program.states[currentState];
      var slots := AddSlot(sd.hkSlots, ms, TELEMETRY_INTERVAL_MIN);
      if slots.None? { return false; }
      currentHkSlot := Some(|sd.hkSlots|);
      ok := StoreIn(NoBlock, Some(sd.(hkSlots := slots.value)));
    }

    method ParseLogEveryLine(ms: Option<nat>) returns (ok: bool)
      requires currentState < |program.states|
      modifies this`program, this`blockType, this`currentLogSlot
      ensures Did(ok, Now(), old(Now()), Scoped(old(Now()), LogEvery(ms)))
    {
      hide AddSlot, Put;
      var sd := program.states[currentState];
      var slots := AddSlot(sd.logSlots, ms, 1);
      if slots.None? { return false; }
      currentLogSlot := Some(|sd.logSlots|);
      ok := StoreIn(NoBlock, Some(sd.(logSlots := slots.value)));
    }

    method ParseScopedLine(l: Line) returns (ok: bool)
      requires currentState < |program.states| && Lexed(l)
      modifies this
      ensures Did(ok, Now(), old(Now()), Scoped(old(Now()), l))
    {
      hide AddTransition, AddFallback, SetPriorities, AddSlot, Content, Put;
      var sd := program.states[currentState];
      match l {
        case OnEnterHeader => blockType := OnEnter; ok := true;
        case OnExitHeader => blockType := OnExit; ok := true;
        case OnErrorHeader => blockType := OnError; ok := true;
        case ConditionsHeader => blockType := Conditions; ok := true;
        case OnTimeoutHeader(ms) => ok := ParseOnTimeoutHeader(ms);
        case Every(ms) => ok := ParseEveryLine(ms);
        case LogEvery(ms) => ok := ParseLogEveryLine(ms);
        case Priorities(event, hk, log, budget) =>
          ok := StoreIn(NoBlock, SetPriorities(sd, event, hk, log, budget));
        case HkReportHeader =>
          if |sd.hkSlots| == 0 { return false; }
          blockType := HkReport;
          ok := true;
        case LogReportHeader =>
          if |sd.logSlots| == 0 { return false; }
          blockType := LogReport;
          ok := true;
        case FallbackTo(target, after) =>
          ok := StoreIn(NoBlock, AddFallback(sd, target, after));
        case TransitionTo(target, body) =>
          if blockType == OnError {
            ok := ParseContentLine(l);
          } else {
            var st := ParseTransitionLine(sd, target, body);
            ok := StoreIn(NoBlock, st);
          }
        case _ => ok := ParseContentLine(l);
      }
    }

    method ParseContentLine(l: Line) returns (ok: bool)
      requires currentState < |program.states|
      modifies this`program
      ensures Did(ok, Now(), old(Now()), Content(old(Now()), l))
    {
      hide AddOnError, SetTimeoutTarget, AddField, Put;
      var sd := program.states[currentState];
      match blockType {
        case Conditions =>
          if l.OpenBrace? { return true; }
          if |sd.guards| >= AMS_MAX_CONDITIONS || !l.Other? || l.guard.None? { return false; }
          ok := StoreState(Some(sd.(guards := sd.guards + [l.guard.value])));
        case OnError =>
          if l.EventLine? && l.ok { return true; }
          if !l.TransitionTo? { return false; }
          ok := StoreState(AddOnError(sd, l.target));
        case OnEnter =>
          if l.EventLine? && l.ok {
            ok := StoreState(Some(sd.(hasOnEnterEvent := true)));
          } else if l.SetLine? && l.ok {
            ok := true;
          } else if l.PulseLine? && l.ok && sd.pulseCount < AMS_MAX_PULSE_ACTIONS {
            ok := StoreState(Some(sd.(pulseCount := sd.pulseCount + 1)));
          } else {
            ok := false;
          }
        case OnExit => ok := (l.EventLine? && l.ok) || (l.SetLine? && l.ok);
        case OnTimeout =>
          if l.EventLine? && l.ok { return true; }
          if !l.TransitionTo? { return false; }
          ok := StoreState(SetTimeoutTarget(sd, l.target));
        case HkReport =>
          if l.OpenBrace? { return true; }
          if !l.Other? || !l.field { return false; }
          var slots := AddField(sd.hkSlots, currentHkSlot);
          if slots.None? { return false; }
          ok := StoreState(Some(sd.(hkSlots := slots.value)));
        case LogReport =>
          if l.OpenBrace? { return true; }
          if !l.Other? || !l.field { return false; }
          var slots := AddField(sd.logSlots, currentLogSlot);
          if slots.None? { return false; }
          ok := StoreState(Some(sd.(logSlots := slots.value)));
        case _ =>
          if !(l.EventLine? && l.ok) { return false; }
          ok := StoreState(Some(sd.(hasOnEnterEvent := true)));
      }
    }

    /** The duplicate check of a variable declaration. */
    static method FindVar(vars: seq<string>, name: string) returns (found: bool)
      ensures found <==> name in vars
    {
      var i := 0;
      while i < |vars|
        invariant i <= |vars| && forall k :: 0 <= k < i ==> vars[k] != name
      {
        if vars[i] == name { return true; }
        i := i + 1;
      }
      return false;
    }

    method ParseTopLevel(l: Line) returns (ok: bool)
      requires TopLevel(Now(), l).Some?
      modifies this
      ensures Did(ok, Now(), old(Now()), TopLevel(old(Now()), l).value)
    {
      match l {
        case Close => blockType := NoBlock; ok := true;
        case Metadata(good) => ok := good;
        case StateHeader(name) =>
          if |program.states| >= AMS_MAX_STATES || name.None? { return false; }
          currentState, blockType := |program.states|, NoBlock;
          currentTask, currentHkSlot, currentLogSlot := None, None, None;
          program := program.(states := program.states + [NewState(name.value)]);
          ok := true;
        case VarDecl(name, good) =>
          if !good { return false; }
          var duplicate := FindVar(program.vars, name);
          if duplicate || |program.vars| >= AMS_MAX_VARS { return false; }
          program := program.(vars := program.vars + [name]);
          ok := true;
        case TaskHeader(good, filter) =>
          if |program.tasks| >= AMS_MAX_TASKS || !good { return false; }
          blockType, currentTask := TaskBody, Some(|program.tasks|);
          program := program.(tasks := program.tasks + [TaskDef(0, filter, [])]);
          ok := true;
        case AssertHeader => blockType, currentTask := AssertBody, None; ok := true;
        case _ => assert false;
      }
    }

    method ParseTaskLine(l: Line) returns (ok: bool)
      modifies this
      ensures Did(ok, Now(), old(Now()), TaskLine(old(Now()), l))
    {
      if currentTask.None? || currentTask.value >= |program.tasks| { return false; }
      var i := currentTask.value;
      if l.Every? {
        if l.ms.None? || l.ms.value < TELEMETRY_INTERVAL_MIN { return false; }
        program := program.(tasks := program.tasks[i := program.tasks[i].(everyMs := l.ms.value)]);
        return true;
      }
      if l.IfLine? {
        if l.ok { blockType := TaskIf; }
        return l.ok;
      }
      if blockType == TaskIf {
        return (l.EventLine? && l.ok) || (l.SetLine? && l.ok);
      }
      return false;
    }

    method ParseAssertLine(l: Line) returns (ok: bool)
      modifies this
      ensures Did(ok, Now(), old(Now()), AssertionLine(old(Now()), l))
    {
      if |program.asserts| >= AMS_MAX_ASSERTS { return false; }
      if !l.AssertLine? { return false; }
      match l.ad {
        case Reachable(name) => if name == "" { return false; }
        case NoDeadStates =>
        case MaxDepth(limit) => if limit == 0 || limit > 255 { return false; }
      }
      program := program.(asserts := program.asserts + [l.ad]);
      return true;
    }

    method ParseLine(l: Line) returns (ok: bool)
      requires Lexed(l)
      modifies this
      ensures Did(ok, Now(), old(Now()), TakeLine(old(Now()), l))
    {
      hide Scoped, TaskLine, AssertionLine;
      if l.Blank? { return true; }
      if l.Close? || l.Metadata? || l.StateHeader? || l.VarDecl? || l.TaskHeader? || l.AssertHeader? {
        ok := ParseTopLevel(l);
        return;
      }
      if blockType == TaskBody || blockType == TaskIf {
        ok := ParseTaskLine(l);
        return;
      }
      if blockType == AssertBody {
        ok := ParseAssertLine(l);
        return;
      }
      if currentState >= |program.states| { return false; }
      ok := ParseScopedLine(l);
    }

    // ----- Resolution -----

    static method ResolveJumpTarget(states: seq<StateDef>, j: Option<Jump>) returns (ok: bool, r: Option<Jump>)
      ensures ok <==> (j.Some? ==> Known(states, j.value.target))
      ensures ok ==> r == ResolveJump(states, j)
    {
      if j.None? { return true, None; }
      var idx := FindState(states, j.value.target);
      if idx >= |states| { return false, j; }
      return true, Some(j.value.(index := idx, resolved := true));
    }

    /** The passes over one state, regular transitions first. */
    static method ResolveOneState(states: seq<StateDef>, sd: StateDef) returns (ok: bool, r: StateDef)
      ensures ok <==> StateKnown(states, sd)
      ensures ok ==> r == ResolveState(states, sd)
    {
      hide FindState;
      var trs := sd.transitions;
      var ti := 0;
      while ti < |sd.transitions|
        invariant ti <= |sd.transitions| == |trs|
        invariant forall k :: 0 <= k < ti ==> Known(states, sd.transitions[k].target)
                                              && trs[k] == ResolveTransition(states, sd.transitions[k])
        invariant forall k :: ti <= k < |trs| ==> trs[k] == sd.transitions[k]
      {
        var idx := FindState(states, trs[ti].target);
        if idx >= |states| {
          assert !Known(states, sd.transitions[ti].target);
          return false, sd;
        }
        trs := trs[ti := trs[ti].(targetIndex := idx, resolved := true)];
        ti := ti + 1;
      }
      var okFallback, fallback := ResolveJumpTarget(states, sd.fallback);
      if !okFallback { return false, sd; }
      var okError, onError := ResolveJumpTarget(states, sd.onError);
      if !okError { return false, sd; }
      if sd.onTimeout.Some? && sd.onTimeout.value.target == "" { return false, sd; }
      var okTimeout, onTimeout := ResolveJumpTarget(states, sd.onTimeout);
      if !okTimeout { return false, sd; }
      r := sd.(transitions := trs, fallback := fallback, onError := onError, onTimeout := onTimeout);
      assert r.transitions == ResolveState(states, sd).transitions;
      ok := true;
    }

    /** Replaces each state by its resolved form; names, and so lookups, do not change on the way. */
    method ResolveTransitions() returns (ok: bool)
      modifies this`program
      ensures ok <==> AllKnown(old(program.states))
      ensures ok ==> program == old(program).(states := ResolveStates(old(program.states)))
      ensures TablesBounded(old(program)) ==> TablesBounded(program)
    {
      hide StateKnown, ResolveState, FindState, StateBounded;
      ghost var states := program.states;
      var i := 0;
      while i < |program.states|
        invariant i <= |program.states| == |states|
        invariant program == old(program).(states := program.states)
        invariant forall k :: 0 <= k < |states| ==> program.states[k].name == states[k].name
        invariant forall k :: 0 <= k < i ==>
                    StateKnown(states, states[k]) && program.states[k] == ResolveState(states, states[k])
        invariant forall k :: i <= k < |states| ==> program.states[k] == states[k]
        invariant TablesBounded(old(program)) ==> TablesBounded(program)
      {
        var one, sd := ResolveOneState(program.states, program.states[i]);
        SameLookups(program.states, states, states[i]);
        if !one { return false; }
        NameKept(states, states[i]);
        assert TablesBounded(old(program)) ==> StateBounded(states[i]);
        BoundsKept(states, states[i]);
        program := program.(states := program.states[i := sd]);
        i := i + 1;
      }
      assert program.states == ResolveStates(states);
      ok := true;
    }

    static lemma NameKept(states: seq<StateDef>, sd: StateDef)
      ensures ResolveState(states, sd).name == sd.name
    {
    }

    static lemma BoundsKept(states: seq<StateDef>, sd: StateDef)
      ensures StateBounded(sd) ==> StateBounded(ResolveState(states, sd))
    {
    }

    /** Lookup sees names only. */
    static lemma SameLookups(a: seq<StateDef>, b: seq<StateDef>, sd: StateDef)
      requires |a| == |b| && forall k :: 0 <= k < |a| ==> a[k].name == b[k].name
      ensures StateKnown(a, sd) <==> StateKnown(b, sd)
      ensures ResolveState(a, sd) == ResolveState(b, sd)
    {
      hide FindState;
      forall name: string
        ensures FindState(a, name) == FindState(b, name)
      {
        FindByName(a, b, name);
      }
    }

    static method ResolveOneTask(states: seq<StateDef>, td: TaskDef) returns (ok: bool, r: TaskDef)
      ensures ok <==> TaskKnown(states, td)
      ensures ok ==> r == ResolveTask(states, td)
    {
      hide FindState;
      if td.filter.None? { return true, td; }
      var names, active := td.filter.value, [];
      var j := 0;
      while j < |names|
        invariant j <= |names| && |active| == j
        invariant forall k :: 0 <= k < j ==> Known(states, names[k]) && active[k] == FindState(states, names[k])
      {
        var idx := FindState(states, names[j]);
        if idx >= |states| {
          assert !Known(states, names[j]);
          return false, td;
        }
        active := active + [idx];
        j := j + 1;
      }
      r := td.(active := active);
      assert r.active == ResolveTask(states, td).active;
      ok := true;
    }

    method ResolveTasks() returns (ok: bool)
      modifies this`program
      ensures ok <==> TasksKnown(old(program))
      ensures ok ==> program == old(program).(tasks := ResolveTaskList(old(program.states), old(program.tasks)))
      ensures TablesBounded(old(program)) ==> TablesBounded(program)
    {
      hide TaskKnown, ResolveTask, TaskBounded, StateBounded;
      ghost var states, tasks := program.states, program.tasks;
      forall td: TaskDef ensures TaskBounded(ResolveTask(states, td)) <==> TaskBounded(td) {
        PeriodKept(states, td);
      }
      var i := 0;
      while i < |program.tasks|
        invariant i <= |program.tasks| == |tasks|
        invariant program == old(program).(tasks := program.tasks)
        invariant forall k :: 0 <= k < i ==>
                    TaskKnown(states, tasks[k]) && program.tasks[k] == ResolveTask(states, tasks[k])
        invariant forall k :: i <= k < |tasks| ==> program.tasks[k] == tasks[k]
      {
        var one, td := ResolveOneTask(program.states, program.tasks[i]);
        if !one { return false; }
        program := program.(tasks := program.tasks[i := td]);
        i := i + 1;
      }
      assert program.tasks == ResolveTaskList(states, tasks);
      ok := true;
    }

    static lemma PeriodKept(states: seq<StateDef>, td: TaskDef)
      ensures TaskBounded(ResolveTask(states, td)) <==> TaskBounded(td)
    {
    }

    // ----- The whole script -----

    method ParseLines(lines: seq<Line>) returns (ok: bool)
      requires forall i :: 0 <= i < |lines| ==> Lexed(lines[i])
      modifies this
      ensures ok <==> ParseAll(old(Now()), lines).Some?
      ensures ok ==> Now() == ParseAll(old(Now()), lines).value
      ensures TablesBounded(old(program)) ==> TablesBounded(program)
    {
      hide TakeLine, TablesBounded;
      var i := 0;
      assert lines[0..] == lines;
      while i < |lines|
        invariant i <= |lines|
        invariant ParseAll(Now(), lines[i..]) == ParseAll(old(Now()), lines)
        invariant TablesBounded(old(program)) ==> TablesBounded(program)
      {
        if TablesBounded(program) {
          StepBounded(Now(), lines[i]);
        }
        assert lines[i..][0] == lines[i] && lines[i..][1..] == lines[i + 1..];
        var one := ParseLine(lines[i]);
        if !one { return false; }
        i := i + 1;
      }
      ok := true;
    }

    /** Accepts exactly the scripts that compile, and leaves their resolved tables; otherwise tables within bounds. */
    method ParseScript(lines: seq<Line>) returns (ok: bool)
      requires Now() == NewParser() && forall i :: 0 <= i < |lines| ==> Lexed(lines[i])
      modifies this
      ensures ok <==> Compile(lines).Some?
      ensures ok ==> program == Compile(lines).value
      ensures TablesBounded(program)
    {
      hide ParseAll, AllHold, AllKnown, TasksKnown, ResolveStates, ResolveTask;
      EmptyTables();
      ok := ParseLines(lines);
      if !ok { return false; }
      ghost var p := program;
      if |program.states| == 0 { return false; }
      ParseBounded(NewParser(), lines);
      ok := ResolveTransitions();
      if !ok { return false; }
      ok := ResolveTasks();
      if !ok { return false; }
      assert program == Resolved(p);
      ResolvedBounded(p);
      ok := ValidateAssertions(program);
    }

    static lemma EmptyTables()
      ensures TablesBounded(NO_PROGRAM)
    {
    }

    static lemma ResolvedBounded(p: Program)
      requires TablesBounded(p) && p.states != [] && Resolvable(p)
      ensures Bounded(Resolved(p)) && Resolved(p).states != []
    {
      hide StateOk, StateKnown;
      var q := Resolved(p);
      forall sd | sd in q.states ensures StateOk(q, sd) {
        var i :| 0 <= i < |q.states| && q.states[i] == sd;
        ResolvedStateOk(p, i);
      }
    }
  }
}
