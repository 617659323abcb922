/**
 From one run of the firmware to the next: the engine that starts up from a record goes on where the recorded one
 was (src/ams/mission_script_engine.cpp:1371-1787). Here the text of CheckpointRestore meets the runtime of
 MissionEngine.
 */
module Resuming {
  import opened Wrappers
  import opened Clock32
  import opened MissionProgram
  import opened GraphAnalysis
  import opened MissionEngine
  import opened EngineSafety
  import FieldText
  import CheckpointRecord
  import CheckpointRestore

  // ----- Record and engine -----

  lemma AgoOfElapsed(ms: seq<nat>, now: nat)
    requires now < TWO32 && forall i :: 0 <= i < |ms| ==> ms[i] < TWO32
    ensures |Elapsed(ms, now)| == |ms| && forall i :: 0 <= i < |ms| ==> Elapsed(ms, now)[i] < TWO32
    ensures Ago(now, Elapsed(ms, now)) == ms
  {
    assert forall i :: 0 <= i < |ms| ==> Since(now, Since(now, ms[i])) == ms[i];
  }

  /** The position and every clock show what they showed. */
  predicate GoesOn(e: Engine, now1: nat, b: Engine, now2: nat)
    requires Sane(e) && Sane(b) && now1 < TWO32 && now2 < TWO32
  {
    && b.current == e.current && b.running == e.running && b.enabled == e.enabled && b.status == e.status
    && Since(now2, b.timers.enterMs) == Since(now1, e.timers.enterMs)
  }

  /**
   Starting up from the record of a running mission gives back its state, its flags and every elapsed time, on
   any clock; the mission is armed and saved again.
   */
  lemma RunningMissionResumes(e: Engine, now: nat, file: string, p: Program, env: TickEnv)
    requires Safe(e) && e.status == Running && now < TWO32
    requires file != "" && WellFormed(p) && |p.states| == |e.program.states|
    ensures Restorable(Found(file, RecordOf(e, now), Compiled(p)))
    ensures var b := Begin(Found(file, RecordOf(e, now), Compiled(p)), env);
            && Safe(b) && GoesOn(e, now, b, Millis(env.t))
            && Elapsed(b.timers.hkMs, Millis(env.t)) == Elapsed(e.timers.hkMs, now)
            && Elapsed(b.timers.logMs, Millis(env.t)) == Elapsed(e.timers.logMs, now)
            && b.history.trail == [e.current] && b.program == p
  {
    hide Targets, NoDangling, WellFormed;
    var stored := Found(file, RecordOf(e, now), Compiled(p));
    SavedIsConsistent(e, now);
    BeginSafeIff(stored, env);
    BackAndForth(e.timers.hkMs, now, Millis(env.t));
    BackAndForth(e.timers.logMs, now, Millis(env.t));
  }

  lemma BackAndForth(ms: seq<nat>, now1: nat, now2: nat)
    requires now1 < TWO32 && now2 < TWO32 && forall i :: 0 <= i < |ms| ==> ms[i] < TWO32
    ensures forall i :: 0 <= i < |ms| ==> Elapsed(ms, now1)[i] < TWO32
    ensures forall i :: 0 <= i < |ms| ==> Ago(now2, Elapsed(ms, now1))[i] < TWO32
    ensures Elapsed(Ago(now2, Elapsed(ms, now1)), now2) == Elapsed(ms, now1)
  {
  }

  /** A mission that is loaded but not armed comes back loaded, and its record is dropped. */
  lemma LoadedMissionResumes(e: Engine, now: nat, file: string, p: Program, env: TickEnv)
    requires Safe(e) && e.status == Loaded && now < TWO32
    requires file != "" && WellFormed(p) && |p.states| == |e.program.states|
    ensures Restorable(Found(file, RecordOf(e, now), Compiled(p)))
    ensures var b := Begin(Found(file, RecordOf(e, now), Compiled(p)), env);
            Safe(b) && GoesOn(e, now, b, Millis(env.t)) && !b.checkpoint && b.history.trail == [e.current]
  {
    hide Targets, NoDangling, WellFormed;
    SavedIsConsistent(e, now);
    BeginSafeIff(Found(file, RecordOf(e, now), Compiled(p)), env);
  }

  // ----- The bound across restarts -----

  /**
   A journey that was a route up to the record goes on as a route after the restart, so the longest route from the
   first start bounds all its legs together.
   */
  lemma RestartKeepsTheBound(p: Program, w: seq<nat>, e: Engine, now: nat, file: string, env: TickEnv, ops: seq<Op>,
                             limit: nat)
    requires Safe(e) && e.status == Running && now < TWO32 && file != "" && WellFormed(p)
    requires |p.states| == |e.program.states| && forall i :: 0 <= i < |p.states| ==> p.states[i].onTimeout.None?
    requires Route(p, w) && w[|w| - 1] == e.current && BoundedFrom(p, w[0], limit)
    requires forall op :: op in ops ==> !op.OpActivate?
    ensures Restorable(Found(file, RecordOf(e, now), Compiled(p)))
    ensures Safe(Begin(Found(file, RecordOf(e, now), Compiled(p)), env))
    ensures var trail := Run(Begin(Found(file, RecordOf(e, now), Compiled(p)), env), ops).history.trail;
            var journey := w[..|w| - 1] + trail;
            Route(p, journey) && journey[0] == w[0] && |journey| <= limit && Simple(journey)
  {
    RunningMeans(e);
    hide Safe, Begin, OnRoute, Route, BoundedFrom, Simple, WellFormed, RecordOf;
    var stored := Found(file, RecordOf(e, now), Compiled(p));
    RunningMissionResumes(e, now, file, p, env);
    RecordState(e, now);
    BeginOnRoute(stored, env);
    NoTimeoutAnywhere(p, e.current);
    RunsAreRoutes(p, e.current, Begin(stored, env), ops);
    RoutesJoin(p, w, Run(Begin(stored, env), ops).history.trail);
    BoundedMeans(p, w[..|w| - 1] + Run(Begin(stored, env), ops).history.trail, limit);
  }

  lemma RunningMeans(e: Engine)
    requires Safe(e) && e.status == Running
    ensures Sane(e) && e.running
  {
  }

  lemma RecordState(e: Engine, now: nat)
    requires Safe(e) && e.running && now < TWO32
    ensures RecordOf(e, now).state == e.current < |e.program.states|
  {
  }

  lemma BoundedMeans(p: Program, w: seq<nat>, limit: nat)
    requires Route(p, w) && BoundedFrom(p, w[0], limit)
    ensures |w| <= limit && Simple(w)
  {
  }

  lemma RoutesJoin(p: Program, v: seq<nat>, w: seq<nat>)
    requires Route(p, v) && Route(p, w) && v[|v| - 1] == w[0]
    ensures var u := v[..|v| - 1] + w; Route(p, u) && u[0] == v[0]
  {
    hide Edge;
    var pre := v[..|v| - 1];
    var u := pre + w;
    forall i | 0 <= i < |u| - 1 ensures Edge(p, u[i], u[i + 1]) {
      if i < |pre| {
        assert u[i] == v[i] && u[i + 1] == v[i + 1] && Edge(p, v[i], v[i + 1]);
      } else {
        assert Edge(p, w[i - |pre|], w[i - |pre| + 1]);
      }
    }
  }

  // ----- Text and engine -----

  /** The slot counts that a record and its reader go by. */
  function ShapeOf(p: Program): seq<CheckpointRecord.Slots> {
    seq(|p.states|, i requires 0 <= i < |p.states| =>
      CheckpointRecord.Slots(|p.states[i].hkSlots|, |p.states[i].logSlots|))
  }

  /** What a record preserves of an engine; `seqNo`, the two legacy timers and the variables are kept beside it. */
  function RuntimeOf(e: Engine, seqNo: nat, hkMs: nat, logMs: nat, vars: seq<CheckpointRecord.Var>)
    : CheckpointRecord.Runtime
  {
    CheckpointRecord.Runtime(e.file, ShapeOf(e.program), e.current, e.enabled, e.running, StatusCode(e.status), seqNo,
                             e.timers.enterMs, hkMs, logMs, e.timers.hkMs, e.timers.logMs, vars)
  }

  /** Scripts as a reader of records sees them. */
  function Scripts(loads: string -> Load, declared: string -> seq<CheckpointRecord.Var>)
    : string -> Option<CheckpointRestore.Script>
  {
    (file: string) => match loads(file)
                      case Broken(_) => None
                      case Compiled(p) => Some(CheckpointRestore.Script(ShapeOf(p), declared(file)))
  }

  /** The timers a reader starts from. */
  predicate Timed(r: CheckpointRecord.Runtime) {
    && |r.hkSlotMs| == |r.logSlotMs| == AMS_MAX_HK_SLOTS
    && CheckpointRecord.Words(r.hkSlotMs) && CheckpointRecord.Words(r.logSlotMs)
  }

  function Reading(text: string, r0: CheckpointRecord.Runtime, loads: string -> Load,
                   declared: string -> seq<CheckpointRecord.Var>, ft: CheckpointRecord.FloatText, now: nat)
    : (CheckpointRestore.Outcome, CheckpointRecord.Runtime)
    requires now < TWO32
  {
    CheckpointRestore.Restore(text, r0, Scripts(loads, declared), ft, now)
  }

  lemma {:induction false} TimersStayWords(s: string, i: nat, n: nat, now: nat, ms: seq<nat>)
    requires n <= |ms| && now < TWO32 && CheckpointRecord.Words(ms)
    ensures CheckpointRecord.Words(CheckpointRestore.RestoreTimers(s, i, n, now, ms).1)
    decreases n - i
  {
    hide FieldText.SkipField, FieldText.StepOver, FieldText.DigitRun;
    if i < n && s != "" {
      var t := FieldText.StepOver(s);
      TimersStayWords(FieldText.SkipField(t), i + 1, n, now,
                      if FieldText.ReadUint(t).Some? then ms[i := Since(now, FieldText.ReadUint(t).value)] else ms);
    }
  }

  lemma SlotsStayWords(s: string, now: nat, hk: seq<nat>, log: seq<nat>)
    requires |hk| == |log| == AMS_MAX_HK_SLOTS && now < TWO32
    requires CheckpointRecord.Words(hk) && CheckpointRecord.Words(log)
    ensures CheckpointRecord.Words(CheckpointRestore.RestoreSlots(s, now, hk, log).0)
    ensures CheckpointRecord.Words(CheckpointRestore.RestoreSlots(s, now, hk, log).1)
  {
    hide CheckpointRecord.Words, FieldText.SkipField, FieldText.StepOver, FieldText.DigitRun;
    var count := FieldText.ReadUint(s);
    if count.Some? {
      TimersStayWords(FieldText.SkipField(s), 0, CheckpointRestore.Capped(count.value), now, hk);
      var s1 := CheckpointRestore.RestoreTimers(FieldText.SkipField(s), 0, CheckpointRestore.Capped(count.value), now,
                                                hk).0;
      var t := FieldText.StepOver(s1);
      var more := FieldText.ReadUint(t);
      if more.Some? {
        TimersStayWords(FieldText.SkipField(t), 0, CheckpointRestore.Capped(more.value), now, log);
      }
    }
  }

  lemma ReadingIsTimed(text: string, r0: CheckpointRecord.Runtime, loads: string -> Load,
                       declared: string -> seq<CheckpointRecord.Var>, ft: CheckpointRecord.FloatText, now: nat)
    requires now < TWO32 && Timed(r0)
    ensures Timed(Reading(text, r0, loads, declared, ft, now).1)
  {
    hide CheckpointRestore.ParseHeader, CheckpointRestore.RestoreVars, CheckpointRestore.RestoreSlots,
         FieldText.AfterPipes;
    forall s: string
      ensures var (hk, log) := CheckpointRestore.RestoreSlots(s, now, CheckpointRestore.Fill(now),
                                                              CheckpointRestore.Fill(now));
              |hk| == |log| == AMS_MAX_HK_SLOTS && CheckpointRecord.Words(hk) && CheckpointRecord.Words(log)
    {
      SlotsLength(s, now);
      SlotsStayWords(s, now, CheckpointRestore.Fill(now), CheckpointRestore.Fill(now));
    }
    NumbersAreWords(text);
  }

  lemma SlotsLength(s: string, now: nat)
    requires now < TWO32
    ensures var (hk, log) := CheckpointRestore.RestoreSlots(s, now, CheckpointRestore.Fill(now),
                                                            CheckpointRestore.Fill(now));
            |hk| == |log| == AMS_MAX_HK_SLOTS
  {
  }

  lemma NumbersAreWords(text: string)
    ensures var h := CheckpointRestore.ParseHeader(text);
            h.Some? ==> |h.value.numbers| == 8 && CheckpointRecord.Words(h.value.numbers)
  {
  }

  /** The record that the runtime model starts from, as the text gives it. */
  function StoredText(text: string, r0: CheckpointRecord.Runtime, loads: string -> Load,
                      declared: string -> seq<CheckpointRecord.Var>, ft: CheckpointRecord.FloatText, now: nat): Stored
    requires now < TWO32 && Timed(r0)
  {
    ReadingIsTimed(text, r0, loads, declared, ft, now);
    var q := Reading(text, r0, loads, declared, ft, now).1;
    match CheckpointRestore.ParseHeader(text)
    case None => Unreadable
    case Some(h) =>
      if h.version != 1 && h.version != 2 && h.version != 3 then Unreadable
      else
        NumbersAreWords(text);
        Found(h.file,
              Record(h.numbers[0], h.numbers[1] != 0, h.numbers[2] != 0, h.numbers[3], h.numbers[5],
                     Elapsed(q.hkSlotMs, now), Elapsed(q.logSlotMs, now)),
              loads(h.file))
  }

  /** The two models of a start-up agree in every case. */
  predicate Agree(o: CheckpointRestore.Outcome, q: CheckpointRecord.Runtime, b: Engine) {
    match o
    case Discarded => b == Clear(Boot(true))
    case LoadFailed => b.status == Error && b.reason == LoadFailed && !b.running && !b.checkpoint
    case OutOfRange =>
      b.status == Error && b.reason == ResumeOutOfRange && !b.running && !b.checkpoint && b.file == q.file
    case NotRunning =>
      && b.current == q.state && b.running == q.running && b.enabled == q.exec && b.timers.enterMs == q.enterMs
      && b.file == q.file && !b.checkpoint
    case Resumed =>
      && b.current == q.state && b.running == q.running && b.enabled == q.exec && StatusCode(b.status) == q.status
      && b.timers.enterMs == q.enterMs && b.timers.hkMs == q.hkSlotMs && b.timers.logMs == q.logSlotMs
      && b.file == q.file
  }

  lemma StoredIsSane(text: string, r0: CheckpointRecord.Runtime, loads: string -> Load,
                     declared: string -> seq<CheckpointRecord.Var>, ft: CheckpointRecord.FloatText, now: nat)
    requires now < TWO32 && Timed(r0)
    ensures var stored := StoredText(text, r0, loads, declared, ft, now);
            stored.Found? ==> |stored.record.hkElapsed| == |stored.record.logElapsed| == AMS_MAX_HK_SLOTS
                              && RecordSane(stored.record)
  {
    hide Reading, CheckpointRestore.ParseHeader;
    ReadingIsTimed(text, r0, loads, declared, ft, now);
    NumbersAreWords(text);
  }

  /** Reading any text as a record and starting the engine from it come to the same. */
  lemma BeginReadsTheText(text: string, r0: CheckpointRecord.Runtime, loads: string -> Load,
                          declared: string -> seq<CheckpointRecord.Var>, ft: CheckpointRecord.FloatText, env: TickEnv)
    requires Timed(r0)
    ensures var stored := StoredText(text, r0, loads, declared, ft, Millis(env.t));
            && (stored.Found? ==> |stored.record.hkElapsed| == |stored.record.logElapsed| == AMS_MAX_HK_SLOTS
                                  && RecordSane(stored.record))
            && var (o, q) := Reading(text, r0, loads, declared, ft, Millis(env.t));
               Agree(o, q, Begin(stored, env))
  {
    hide CheckpointRestore.ParseHeader, CheckpointRestore.RestoreSlots, CheckpointRestore.RestoreVars,
         FieldText.AfterPipes, Resume;
    var now := Millis(env.t);
    StoredIsSane(text, r0, loads, declared, ft, now);
    ReadingIsTimed(text, r0, loads, declared, ft, now);
    NumbersAreWords(text);
    var q := Reading(text, r0, loads, declared, ft, now).1;
    AgoOfElapsed(q.hkSlotMs, now);
    AgoOfElapsed(q.logSlotMs, now);
    match StoredText(text, r0, loads, declared, ft, now)
    case Found(file, r, Compiled(p)) => ResumeSets(Boot(true).(program := p, file := ActiveName(file)), r, env);
    case _ =>
  }

  /**
   End to end: the text a running mission saves, read at the next start-up on any clock, gives an engine that goes
   on in the same state with the same flags, the same elapsed times, and the same report timers.
   */
  lemma SavedTextResumes(e: Engine, r: CheckpointRecord.Runtime, r0: CheckpointRecord.Runtime, loads: string -> Load,
                         declared: string -> seq<CheckpointRecord.Var>, ft: CheckpointRecord.FloatText,
                         now: nat, env: TickEnv, p: Program)
    requires Safe(e) && e.status == Running && now < TWO32 && Timed(r0) && CheckpointRecord.Prints(ft)
    requires r == RuntimeOf(e, r.seqNo, r.hkMs, r.logMs, r.vars) && CheckpointRestore.InFlight(r) && |r.vars| > 0
    requires loads(e.file) == Compiled(p) && ShapeOf(p) == ShapeOf(e.program)
    requires CheckpointRestore.SameNames(r.vars, declared(e.file))
    ensures var text := CheckpointRecord.Print(r, ft, now);
            var stored := StoredText(text, r0, loads, declared, ft, Millis(env.t));
            && (stored.Found? ==> |stored.record.hkElapsed| == |stored.record.logElapsed| == AMS_MAX_HK_SLOTS
                                  && RecordSane(stored.record))
            && var b := Begin(stored, env);
               && b.current == e.current && b.running && b.enabled && b.status == Running
               && b.timers.enterMs < TWO32
               && Since(Millis(env.t), b.timers.enterMs) == Since(now, e.timers.enterMs)
               && |b.timers.hkMs| == |b.timers.logMs| == AMS_MAX_HK_SLOTS
               && CheckpointRecord.Words(b.timers.hkMs) && CheckpointRecord.Words(b.timers.logMs)
               && SlotsGoOn(e, now, b, Millis(env.t))
  {
    hide Begin, StoredText, CheckpointRestore.Restore, CheckpointRecord.Print, CheckpointRestore.RestoredTo;
    var text := CheckpointRecord.Print(r, ft, now);
    CheckpointRestore.CheckpointRoundTrip(r, r0, Scripts(loads, declared), ft, now, Millis(env.t));
    BeginReadsTheText(text, r0, loads, declared, ft, env);
  }

  /** The report slots of the current state show the elapsed times they showed. */
  predicate SlotsGoOn(e: Engine, now1: nat, b: Engine, now2: nat)
    requires Sane(e) && now1 < TWO32 && now2 < TWO32 && e.current < |e.program.states|
    requires |b.timers.hkMs| == |b.timers.logMs| == AMS_MAX_HK_SLOTS
    requires CheckpointRecord.Words(b.timers.hkMs) && CheckpointRecord.Words(b.timers.logMs)
  {
    var sd := e.program.states[e.current];
    && (forall i :: 0 <= i < |sd.hkSlots| && i < AMS_MAX_HK_SLOTS ==>
          Since(now2, b.timers.hkMs[i]) == Since(now1, e.timers.hkMs[i]))
    && (forall i :: 0 <= i < |sd.logSlots| && i < AMS_MAX_HK_SLOTS ==>
          Since(now2, b.timers.logMs[i]) == Since(now1, e.timers.logMs[i]))
  }
}
