/**
 Compiled mission scripts: the tables of `Program` in src/ams/mission_script_engine.h that steer the
 state machine. Fixed arrays with a count are sequences here; `WellFormed` states the counts.
 */
module MissionProgram {
  import opened Wrappers

  const AMS_MAX_STATES := 10
  const AMS_MAX_TRANSITIONS := 4
  const AMS_MAX_TRANSITION_CONDS := 4
  const AMS_MAX_CONDITIONS := 4
  const AMS_MAX_HK_SLOTS := 4
  const AMS_MAX_VARS := 8
  const AMS_MAX_TASKS := 4
  const AMS_MAX_ASSERTS := 8

  datatype TcCommand = NoTc | Launch | Abort | Reset | ResetAbnormal

  /** One condition. Sensor channels and thresholds are read through the oracle of a tick. */
  datatype CondExpr =
    | TcEq(tc: TcCommand, confirm: bool, confirmN: nat)
    | TimeGt(ms: nat)
    | SensorLt
    | SensorGt
    | DeltaLt
    | DeltaGt

  datatype Guard = TimeGuard(ms: nat) | SensorGuard

  datatype Transition = Transition(conds: seq<CondExpr>, isAnd: bool, target: string,
                                   targetIndex: nat, resolved: bool, holdMs: nat)

  /** A fallback, on_error or on_timeout target. */
  datatype Jump = Jump(target: string, index: nat, resolved: bool)

  /** A report schedule: `every` or `log_every`. */
  datatype Slot = Slot(everyMs: nat, fieldCount: nat)

  datatype StateDef = StateDef(
    name: string,
    transitions: seq<Transition>,
    guards: seq<Guard>,
    fallback: Option<Jump>,
    fallbackAfterMs: nat,
    onError: Option<Jump>,
    onTimeout: Option<Jump>,
    onTimeoutMs: nat,
    hkSlots: seq<Slot>,
    logSlots: seq<Slot>,
    hasOnEnterEvent: bool,
    pulseCount: nat,
    eventPriority: nat,
    hkPriority: nat,
    logPriority: nat,
    actionBudget: nat)

  datatype TaskDef = TaskDef(everyMs: nat, filter: Option<seq<string>>, active: seq<nat>)

  datatype AssertDef = Reachable(target: string) | NoDeadStates | MaxDepth(limit: nat)

  datatype Program = Program(states: seq<StateDef>, vars: seq<string>, tasks: seq<TaskDef>,
                             asserts: seq<AssertDef>)

  const NO_PROGRAM: Program := Program([], [], [], [])

  const MAX_ACTIVE_FILE := 31

  /** `activeFile_` keeps one character less than a file name may have. */
  function ActiveName(file: string): string {
    if |file| <= MAX_ACTIVE_FILE then file else file[..MAX_ACTIVE_FILE]
  }

  /** The index of the first state of that name, or the number of states. */
  function FindState(states: seq<StateDef>, name: string): (i: nat)
    ensures i <= |states|
    ensures i < |states| ==> states[i].name == name
    ensures forall k :: 0 <= k < i ==> states[k].name != name
  {
    if states == [] then 0
    else if states[0].name == name then 0
    else 1 + FindState(states[1..], name)
  }

  /** `jump` leads to the first state of its target name. */
  predicate Leads(p: Program, target: string, index: nat, resolved: bool) {
    resolved && index < |p.states| && index == FindState(p.states, target)
  }

  predicate JumpOk(p: Program, j: Option<Jump>) {
    j.Some? ==> Leads(p, j.value.target, j.value.index, j.value.resolved)
  }

  predicate TransitionOk(p: Program, t: Transition) {
    1 <= |t.conds| <= AMS_MAX_TRANSITION_CONDS && Leads(p, t.target, t.targetIndex, t.resolved)
  }

  predicate StateOk(p: Program, sd: StateDef) {
    && |sd.transitions| <= AMS_MAX_TRANSITIONS
    && |sd.guards| <= AMS_MAX_CONDITIONS
    && |sd.hkSlots| <= AMS_MAX_HK_SLOTS && |sd.logSlots| <= AMS_MAX_HK_SLOTS
    && (forall t :: t in sd.transitions ==> TransitionOk(p, t))
    && JumpOk(p, sd.fallback) && JumpOk(p, sd.onError) && JumpOk(p, sd.onTimeout)
  }

  /** What an accepted script guarantees to the runtime. */
  predicate WellFormed(p: Program) {
    && 1 <= |p.states| <= AMS_MAX_STATES
    && |p.vars| <= AMS_MAX_VARS && |p.tasks| <= AMS_MAX_TASKS
    && forall sd :: sd in p.states ==> StateOk(p, sd)
  }
}
