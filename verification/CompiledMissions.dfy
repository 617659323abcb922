/** What compilation and the static analysis mean for every run of the engine. */
module CompiledMissions {
  import opened MissionProgram
  import opened GraphAnalysis
  import opened Assertions
  import opened MissionEngine
  import opened EngineSafety
  import Compiler

  /**
   No run of a compiled script, whatever the readings, telecommands and pauses, breaks the lifecycle or
   raises "invalid transition target" or an out-of-range error.
   */
  lemma CompiledMissionStaysSafe(lines: seq<Compiler.Line>, e: Engine, file: string, env: TickEnv, ops: seq<Op>)
    requires Compiler.Compile(lines).Some? && Safe(e) && file != ""
    requires forall op :: op in ops ==> Allowed(op)
    ensures var p := Compiler.Compile(lines).value;
            && Safe(Activate(e, file, Compiled(p), env))
            && Safe(Run(Activate(e, file, Compiled(p), env), ops))
            && NoDangling(Run(Activate(e, file, Compiled(p), env), ops))
  {
    hide Sane, Lifecycle, Targets, NoDangling, Activate, WellFormed, Compiler.Compile;
    Compiler.CompiledIsSafe(lines);
    ActivateSafe(e, file, Compiled(Compiler.Compile(lines).value), env);
  }

  /**
   Tables abandoned by a failed compilation are within their bounds too, wherever it failed: at a line, at a name
   that is no state, or at an assertion.
   */
  lemma FailedTablesAllowed(p: Program, file: string, env: TickEnv)
    requires Compiler.TablesBounded(p)
    ensures Allowed(OpActivate(file, Broken(p), env))
  {
    forall sd | sd in p.states ensures Fits(sd) {
      var i :| 0 <= i < |p.states| && p.states[i] == sd;
      assert Compiler.StateBounded(p.states[i]);
    }
  }

  /**
   A compiled script bounds every mission on it, activated or resumed: it enters at most as many states as the
   longest route of the analysed graph from its first one, and none twice. The proviso about on_timeout is gone,
   because no script with such a handler compiles.
   */
  lemma CompiledMissionIsBounded(lines: seq<Compiler.Line>, start: nat, e: Engine, ops: seq<Op>, limit: nat)
    requires Compiler.Compile(lines).Some? && Safe(e) && OnRoute(Compiler.Compile(lines).value, start, e)
    requires BoundedFrom(Compiler.Compile(lines).value, start, limit)
    requires forall op :: op in ops ==> !op.OpActivate?
    ensures var trail := Run(e, ops).history.trail;
            0 < |trail| <= limit && Simple(trail) && trail[0] == start
  {
    hide Safe, WellFormed, AllHold, Compiler.Compile, OnRoute, BoundedFrom, NoTimeoutFrom, Simple;
    Compiler.CompiledIsSafe(lines);
    NoTimeoutAnywhere(Compiler.Compile(lines).value, start);
    StartBoundsEveryRun(Compiler.Compile(lines).value, start, e, ops, limit);
  }

  /**
   What `max_transition_depth < limit` gives the script that asserts it: from every state the analysis can reach,
   no mission enters `limit` further states. StartInSight tells how a script makes sure of its start.
   */
  lemma AssertedDepthIsKept(lines: seq<Compiler.Line>, start: nat, e: Engine, ops: seq<Op>, limit: nat)
    requires Compiler.Compile(lines).Some? && Safe(e) && OnRoute(Compiler.Compile(lines).value, start, e)
    requires MaxDepth(limit) in Compiler.Compile(lines).value.asserts
    requires ReachableState(Compiler.Compile(lines).value, start)
    requires forall op :: op in ops ==> !op.OpActivate?
    ensures var trail := Run(e, ops).history.trail;
            && 0 < |trail| <= limit
            && Simple(trail)
            && forall i :: 0 <= i < |trail| ==> ReachableState(Compiler.Compile(lines).value, trail[i])
  {
    hide Safe, WellFormed, AllHold, Compiler.Compile, OnRoute, NoTimeoutFrom, ReachableState, Simple;
    Compiler.CompiledIsSafe(lines);
    NoTimeoutAnywhere(Compiler.Compile(lines).value, start);
    AnalysisBoundsEveryRun(Compiler.Compile(lines).value, start, e, ops, limit);
  }

  /** An activation of a compiled script starts such a mission. */
  lemma ActivationStarts(lines: seq<Compiler.Line>, e: Engine, file: string, env: TickEnv)
    requires Compiler.Compile(lines).Some? && Safe(e) && file != ""
    ensures var p := Compiler.Compile(lines).value;
            Safe(Activate(e, file, Compiled(p), env)) && OnRoute(p, StartState(p), Activate(e, file, Compiled(p), env))
  {
    hide Safe, WellFormed, AllHold, Compiler.Compile, OnRoute, Activate;
    Compiler.CompiledIsSafe(lines);
    ActivateSafe(e, file, Compiled(Compiler.Compile(lines).value), env);
    ActivateOnRoute(e, file, Compiler.Compile(lines).value, env);
  }
}
