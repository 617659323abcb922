/**
 Reading a resume record back (src/ams/mission_script_engine.cpp:1540-1787): print then parse is the identity,
 and exactly when it is not.
 */
module CheckpointRestore {
  import opened Wrappers
  import opened Clock32
  import opened MissionProgram
  import opened FieldText
  import opened CheckpointRecord

  datatype Header = Header(version: nat, file: string, numbers: seq<nat>)

  // ----- Scanning -----

  /** Up to `max` characters before the stop character. */
  function TakeUntil(s: Cursor, stop: char, max: nat): (r: string)
    ensures |r| <= |s| && |r| <= max
  {
    if max == 0 || s == "" || s[0] == stop then "" else [s[0]] + TakeUntil(s[1..], stop, max - 1)
  }

  predicate Before(s: Cursor, c: char) {
    s != "" && s[0] == c
  }

  /** `n` numbers with separators between them. */
  function ReadUints(s: Cursor, n: nat): (r: Option<seq<nat>>)
    ensures r.Some? ==> |r.value| == n && Words(r.value)
    decreases n
  {
    if n == 0 then Some([])
    else
      match ReadUint(s)
      case None => None
      case Some(x) =>
        if n == 1 then Some([x])
        else if !Before(AfterDigits(s), PIPE) then None
        else match ReadUints(AfterDigits(s)[1..], n - 1)
          case None => None
          case Some(xs) => Some([x] + xs)
  }

  /** `parseCheckpointHeaderLocked` */
  function ParseHeader(s: Cursor): (r: Option<Header>)
    ensures r.Some? ==> |r.value.numbers| == 8 && Words(r.value.numbers)
  {
    match ReadUint(s)
    case None => None
    case Some(version) =>
      var s1 := AfterDigits(s);
      if !Before(s1, PIPE) then None
      else
        var file := TakeUntil(s1[1..], PIPE, MISSION_FILENAME_MAX);
        var s2 := s1[1..][|file|..];
        if file == "" || !Before(s2, PIPE) then None
        else match ReadUints(s2[1..], 8)
          case None => None
          case Some(xs) => Some(Header(version, file, xs))
  }

  datatype Entry = Entry(name: string, val: string, valid: bool)

  /** "%15[^=]=%23[^=]=%u" */
  function ScanEntry(s: Cursor): Option<Entry> {
    var name := TakeUntil(s, '=', VAR_NAME_MAX);
    var s1 := s[|name|..];
    if name == "" || !Before(s1, '=') then None
    else
      var val := TakeUntil(s1[1..], '=', FLOAT_TEXT_MAX);
      var s2 := s1[1..][|val|..];
      if val == "" || !Before(s2, '=') then None
      else match ReadUint(s2[1..])
        case None => None
        case Some(n) => Some(Entry(name, val, n != 0))
  }

  /** The index of the first variable of that name, or their number. */
  function FindVar(vars: seq<Var>, name: string): (i: nat)
    ensures i <= |vars| && (i < |vars| ==> vars[i].name == name)
    ensures forall k :: 0 <= k < i ==> vars[k].name != name
  {
    if vars == [] || vars[0].name == name then 0 else 1 + FindVar(vars[1..], name)
  }

  function Assign(vars: seq<Var>, e: Option<Entry>, ft: FloatText): (r: seq<Var>)
    ensures |r| == |vars| && forall i :: 0 <= i < |r| ==> r[i].name == vars[i].name
  {
    if e.None? then vars
    else
      var i := FindVar(vars, e.value.name);
      if i == |vars| || ft.read(e.value.val).None? then vars
      else vars[i := vars[i].(value := ft.read(e.value.val).value, valid := e.value.valid)]
  }

  /** The next `left` entries. */
  function RestoreEntries(s: Cursor, left: nat, vars: seq<Var>, ft: FloatText): (r: (Cursor, seq<Var>))
    ensures |r.1| == |vars|
    decreases left
  {
    if left == 0 || s == "" then (s, vars)
    else RestoreEntries(SkipField(StepOver(s)), left - 1, Assign(vars, ScanEntry(StepOver(s)), ft), ft)
  }

  /** `restoreCheckpointVarsLocked` */
  function RestoreVars(s: Cursor, vars: seq<Var>, ft: FloatText): (r: (Cursor, seq<Var>))
    ensures |r.1| == |vars|
  {
    var count := ReadUint(s);
    if count.None? || count.value == 0 then (SkipField(s), vars)
    else RestoreEntries(SkipField(s), count.value, vars, ft)
  }

  /** Slot timers from `i` to `n`. */
  function RestoreTimers(s: Cursor, i: nat, n: nat, now: nat, ms: seq<nat>): (r: (Cursor, seq<nat>))
    requires n <= |ms| && now < TWO32
    ensures |r.1| == |ms|
    decreases n - i
  {
    if i >= n || s == "" then (s, ms)
    else
      var t := StepOver(s);
      RestoreTimers(SkipField(t), i + 1, n, now,
                    if ReadUint(t).Some? then ms[i := Since(now, ReadUint(t).value)] else ms)
  }

  function Capped(n: nat): nat {
    if n < AMS_MAX_HK_SLOTS then n else AMS_MAX_HK_SLOTS
  }

  /** `restoreCheckpointSlotsLocked` */
  function RestoreSlots(s: Cursor, now: nat, hk: seq<nat>, log: seq<nat>): (r: (seq<nat>, seq<nat>))
    requires |hk| == |log| == AMS_MAX_HK_SLOTS && now < TWO32
    ensures |r.0| == |r.1| == AMS_MAX_HK_SLOTS
  {
    match ReadUint(s)
    case None => (hk, log)
    case Some(hkCount) =>
      var (s1, hk1) := RestoreTimers(SkipField(s), 0, Capped(hkCount), now, hk);
      var t := StepOver(s1);
      match ReadUint(t)
      case None => (hk1, log)
      case Some(logCount) => (hk1, RestoreTimers(SkipField(t), 0, Capped(logCount), now, log).1)
  }

  // ----- Restoring -----

  datatype Outcome = Discarded | LoadFailed | OutOfRange | NotRunning | Resumed

  /** A script in storage: its slots per state and its declared variables. */
  datatype Script = Script(shape: seq<Slots>, vars: seq<Var>)

  /** `applyCheckpointStateLocked`; the flag tells whether the mission goes on. */
  function ApplyState(r: Runtime, xs: seq<nat>, now: nat): (bool, Runtime)
    requires |xs| == 8 && Words(xs) && now < TWO32
  {
    var at := Fill(now);
    var placed := r.(state := xs[0], exec := xs[1] != 0, running := xs[2] != 0, seqNo := xs[4] % 256,
                     enterMs := Since(now, xs[5]), hkMs := Since(now, xs[6]), logMs := Since(now, xs[7]),
                     hkSlotMs := at, logSlotMs := at);
    if xs[3] > STATUS_LAST then (false, placed)
    else (placed.running && placed.exec && xs[3] == RUNNING, placed.(status := xs[3]))
  }

  function Fill(now: nat): (s: seq<nat>)
    ensures |s| == AMS_MAX_HK_SLOTS && forall i :: 0 <= i < AMS_MAX_HK_SLOTS ==> s[i] == now
  {
    seq(AMS_MAX_HK_SLOTS, _ => now)
  }

  /** Variables and slot timers behind the header. */
  function RestoreSections(text: Cursor, version: nat, r: Runtime, ft: FloatText, now: nat): Runtime
    requires |r.hkSlotMs| == |r.logSlotMs| == AMS_MAX_HK_SLOTS && now < TWO32
  {
    if version < 2 then r
    else
      var s := AfterPipes(text, 10);
      var (s1, vars) := if s != "" && |r.vars| > 0 then RestoreVars(s, r.vars, ft) else (s, r.vars);
      var v := r.(vars := vars);
      if version == 3 && Before(s1, PIPE) then
        var (hk, log) := RestoreSlots(s1[1..], now, r.hkSlotMs, r.logSlotMs);
        v.(hkSlotMs := hk, logSlotMs := log)
      else v
  }

  /** `tryRestoreResumePointLocked` on a stored record; `storage` finds and compiles scripts. */
  function Restore(text: Cursor, r0: Runtime, storage: string -> Option<Script>, ft: FloatText, now: nat)
    : (Outcome, Runtime)
    requires now < TWO32
  {
    match ParseHeader(text)
    case None => (Discarded, r0)
    case Some(h) =>
      if h.version != 1 && h.version != 2 && h.version != 3 then (Discarded, r0)
      else match storage(h.file)
        case None => (LoadFailed, r0)
        case Some(script) =>
          var loaded := r0.(file := ActiveName(h.file), shape := script.shape, vars := script.vars);
          if h.numbers[0] >= |script.shape| then (OutOfRange, loaded)
          else
            var (on, applied) := ApplyState(loaded, h.numbers, now);
            if !on then (NotRunning, applied)
            else (Resumed, RestoreSections(text, h.version, applied, ft, now))
  }

  /**
   Older records: one of version 1 restores no variables, one of version 2 the variables but no slot timers, which start
   over as they always do before version 3.
   */
  lemma OlderRecords(text: Cursor, r0: Runtime, storage: string -> Option<Script>, ft: FloatText, now: nat)
    requires now < TWO32 && Restore(text, r0, storage, ft, now).0 == Resumed
    ensures ParseHeader(text).Some? && storage(ParseHeader(text).value.file).Some?
    ensures var h, q := ParseHeader(text).value, Restore(text, r0, storage, ft, now).1;
            var declared := storage(h.file).value.vars;
            && 1 <= h.version <= 3
            && (h.version == 1 ==> q.vars == declared)
            && (h.version == 2 && declared != [] && AfterPipes(text, 10) != "" ==>
                  q.vars == RestoreVars(AfterPipes(text, 10), declared, ft).1)
            && (h.version < 3 ==> q.hkSlotMs == q.logSlotMs == Fill(now))
  {
    hide ParseHeader, RestoreVars, AfterPipes, RestoreSlots;
  }

  // ----- Reading back what was printed -----

  lemma {:induction false} TakeUntilField(f: string, rest: Cursor, stop: char, max: nat)
    requires stop !in f && |f| <= max && (|f| == max || Before(rest, stop))
    ensures TakeUntil(f + rest, stop, max) == f
  {
    if f == "" {
      assert f + rest == rest;
    } else {
      assert (f + rest)[1..] == f[1..] + rest && f[0] in f;
      TakeUntilField(f[1..], rest, stop, max - 1);
    }
  }

  lemma {:induction false} JoinedRoundTrip(xs: seq<nat>, rest: Cursor)
    requires xs != [] && Words(xs) && AtEnd(rest)
    ensures ReadUints(Joined(xs) + rest, |xs|) == Some(xs)
    decreases |xs|
  {
    hide Digits;
    var d := Digits(xs[0]);
    if |xs| == 1 {
      UintRoundTrip(xs[0], rest);
      assert xs == [xs[0]] && Joined(xs) == d;
    } else {
      var tail := [PIPE] + (Joined(xs[1..]) + rest);
      assert Joined(xs) + rest == d + tail;
      UintRoundTrip(xs[0], tail);
      assert tail[1..] == Joined(xs[1..]) + rest;
      JoinedRoundTrip(xs[1..], rest);
      assert xs == [xs[0]] + xs[1..];
    }
  }

  /** The header of any record of any running state reads back. */
  lemma HeaderRoundTrip(r: Runtime, now: nat, rest: Cursor)
    requires RuntimeSane(r) && now < TWO32 && AtEnd(rest)
    ensures ParseHeader(HeaderText(r, now) + rest) == Some(Header(AMS_RESUME_VERSION, r.file, HeaderNumbers(r, now)))
  {
    assert |HeaderNumbers(r, now)| == 8 && Words(HeaderNumbers(r, now));
    hide Digits, Joined, HeaderNumbers, ReadUints, Words;
    var d, numbers := Digits(AMS_RESUME_VERSION), Joined(HeaderNumbers(r, now)) + rest;
    var s2 := [PIPE] + numbers;
    var s1 := [PIPE] + (r.file + s2);
    assert HeaderText(r, now) + rest == d + s1;
    UintRoundTrip(AMS_RESUME_VERSION, s1);
    assert s1[1..] == r.file + s2;
    TakeUntilField(r.file, s2, PIPE, MISSION_FILENAME_MAX);
    assert (r.file + s2)[|r.file|..] == s2 && s2[1..] == numbers;
    JoinedRoundTrip(HeaderNumbers(r, now), rest);
  }

  lemma {:induction false} JoinedPipes(xs: seq<nat>, rest: Cursor, n: nat)
    requires xs != [] && n >= |xs|
    ensures AfterPipes(Joined(xs) + rest, n) == AfterPipes(rest, n - (|xs| - 1))
    decreases |xs|
  {
    hide Digits;
    var d := Digits(xs[0]);
    DigitsNoPipe(xs[0]);
    if |xs| == 1 {
      PipesBehindField(d, rest, n);
    } else {
      var tail := [PIPE] + (Joined(xs[1..]) + rest);
      assert Joined(xs) + rest == d + tail;
      PipesBehindField(d, tail, n);
      assert tail[1..] == Joined(xs[1..]) + rest;
      JoinedPipes(xs[1..], rest, n - 1);
    }
  }

  /** The tenth separator is the one behind the header. */
  lemma HeaderPipes(r: Runtime, now: nat, rest: Cursor)
    requires RuntimeSane(r) && now < TWO32 && Before(rest, PIPE)
    ensures AfterPipes(HeaderText(r, now) + rest, 10) == rest[1..]
  {
    hide Digits, Joined;
    var d, numbers := Digits(AMS_RESUME_VERSION), Joined(HeaderNumbers(r, now)) + rest;
    var s2 := [PIPE] + numbers;
    var s1 := [PIPE] + (r.file + s2);
    assert HeaderText(r, now) + rest == d + s1;
    DigitsNoPipe(AMS_RESUME_VERSION);
    PipesBehindField(d, s1, 10);
    assert s1[1..] == r.file + s2;
    PipesBehindField(r.file, s2, 9);
    assert s2[1..] == numbers;
    JoinedPipes(HeaderNumbers(r, now), rest, 8);
    assert AfterPipes(rest, 1) == AfterPipes(rest[1..], 0);
  }

  // ----- Variables -----

  predicate SameNames(a: seq<Var>, b: seq<Var>) {
    |a| == |b| && forall i :: 0 <= i < |a| ==> a[i].name == b[i].name
  }

  predicate Distinct(vars: seq<Var>) {
    forall i, j :: 0 <= i < j < |vars| ==> vars[i].name != vars[j].name
  }

  /** What restoring makes of a declared variable: the saved value as text carries it. */
  function Restored(saved: Var, declared: Var, ft: FloatText): Var {
    match ft.read(ft.fmt(saved.value))
    case None => declared
    case Some(x) => declared.(value := x, valid := saved.valid)
  }

  /** A field up to its stop character. */
  lemma TakeField(f: string, c: char, after: Cursor, max: nat)
    requires c !in f && |f| <= max
    ensures var s := f + ([c] + after);
            && TakeUntil(s, c, max) == f && s[|f|..] == [c] + after
            && Before([c] + after, c) && ([c] + after)[1..] == after
  {
    TakeUntilField(f, [c] + after, c, max);
  }

  /** An entry of a name without '=' reads back. */
  lemma EntryScans(v: Var, rest: Cursor, ft: FloatText)
    requires 1 <= |v.name| <= VAR_NAME_MAX && '=' !in v.name && Prints(ft) && AtEnd(rest)
    ensures ScanEntry(EntryText(v, ft) + rest) == Some(Entry(v.name, ft.fmt(v.value), v.valid))
  {
    hide Digits, TakeUntil, Before, ReadUint;
    var f, d := ft.fmt(v.value), Digits(Flag(v.valid));
    assert EntryText(v, ft) + rest == v.name + ("=" + (f + ("=" + (d + rest))));
    TakeField(v.name, '=', f + ("=" + (d + rest)), VAR_NAME_MAX);
    TakeField(f, '=', d + rest, FLOAT_TEXT_MAX);
    UintRoundTrip(Flag(v.valid), rest);
  }

  lemma EntryRoundTrip(v: Var, rest: Cursor, ft: FloatText)
    requires NameOk(v.name) && Prints(ft) && AtEnd(rest)
    ensures ScanEntry(EntryText(v, ft) + rest) == Some(Entry(v.name, ft.fmt(v.value), v.valid))
    ensures SkipField(EntryText(v, ft) + rest) == rest
  {
    hide EntryText, ScanEntry;
    EntryScans(v, rest, ft);
    EntryNoPipe(v, ft);
    SkipOverField(EntryText(v, ft), rest);
  }

  lemma EntryNoPipe(v: Var, ft: FloatText)
    requires NoPipe(v.name) && Prints(ft)
    ensures NoPipe(EntryText(v, ft))
  {
    hide Digits;
    DigitsNoPipe(Flag(v.valid));
    assert NoPipe(ft.fmt(v.value));
  }

  lemma FindDistinct(vars: seq<Var>, i: nat)
    requires i < |vars| && Distinct(vars)
    ensures FindVar(vars, vars[i].name) == i
  {
    var j := FindVar(vars, vars[i].name);
    assert j <= i;
  }

  lemma {:induction false} VarTextsFront(vars: seq<Var>, ft: FloatText)
    requires vars != []
    ensures VarTexts(vars, ft) == VarText(vars[0], ft) + VarTexts(vars[1..], ft)
    decreases |vars|
  {
    hide VarText;
    var n := |vars| - 1;
    if n == 0 {
      assert vars[..0] == [] && vars[1..] == [];
    } else {
      var tail := vars[1..];
      assert vars[..n][0] == vars[0] && vars[..n][1..] == tail[..n - 1] && tail[n - 1] == vars[n];
      assert VarTexts(tail, ft) == VarTexts(tail[..n - 1], ft) + VarText(vars[n], ft);
      assert VarTexts(vars, ft) == VarTexts(vars[..n], ft) + VarText(vars[n], ft);
      hide VarTexts;
      VarTextsFront(vars[..n], ft);
      assert (VarText(vars[0], ft) + VarTexts(tail[..n - 1], ft)) + VarText(vars[n], ft)
          == VarText(vars[0], ft) + (VarTexts(tail[..n - 1], ft) + VarText(vars[n], ft));
    }
  }

  /** The first `k` variables restored, the rest as declared. */
  ghost predicate RestoredTo(now: seq<Var>, saved: seq<Var>, declared: seq<Var>, k: nat, ft: FloatText) {
    && |now| == |saved| == |declared|
    && forall i :: 0 <= i < |now| ==> now[i] == if i < k then Restored(saved[i], declared[i], ft) else declared[i]
  }

  lemma OneEntry(now: seq<Var>, saved: seq<Var>, declared: seq<Var>, k: nat, ft: FloatText)
    requires k < |saved| && RestoredTo(now, saved, declared, k, ft) && SameNames(saved, declared) && Distinct(saved)
    ensures RestoredTo(Assign(now, Some(Entry(saved[k].name, ft.fmt(saved[k].value), saved[k].valid)), ft),
                       saved, declared, k + 1, ft)
  {
    forall i | 0 <= i < |now| ensures now[i].name == saved[i].name {
    }
    assert Distinct(now);
    FindDistinct(now, k);
  }

  lemma {:induction false} EntriesRoundTrip(now: seq<Var>, saved: seq<Var>, declared: seq<Var>, k: nat, rest: Cursor,
                                            ft: FloatText)
    requires k <= |saved| && RestoredTo(now, saved, declared, k, ft) && SameNames(saved, declared) && Distinct(saved)
    requires Prints(ft) && AtEnd(rest) && forall i :: 0 <= i < |saved| ==> NameOk(saved[i].name)
    ensures RestoreEntries(VarTexts(saved[k..], ft) + rest, |saved| - k, now, ft).0 == rest
    ensures RestoredTo(RestoreEntries(VarTexts(saved[k..], ft) + rest, |saved| - k, now, ft).1, saved, declared,
                       |saved|, ft)
    decreases |saved| - k
  {
    hide EntryText, Assign, Restored, RestoredTo, NameOk, ScanEntry, Prints, VarTexts, StepOver, SkipField, SameNames,
         Distinct;
    if k < |saved| {
      var tail := VarTexts(saved[k + 1..], ft) + rest;
      NextEntry(saved, k, rest, ft);
      TailAtEnd(saved[k + 1..], rest, ft);
      EntryRoundTrip(saved[k], tail, ft);
      OneEntry(now, saved, declared, k, ft);
      EntriesRoundTrip(Assign(now, Some(Entry(saved[k].name, ft.fmt(saved[k].value), saved[k].valid)), ft),
                       saved, declared, k + 1, rest, ft);
    } else {
      NoEntry(saved, k, rest, ft);
    }
  }

  lemma NextEntry(saved: seq<Var>, k: nat, rest: Cursor, ft: FloatText)
    requires k < |saved|
    ensures VarTexts(saved[k..], ft) + rest != ""
    ensures StepOver(VarTexts(saved[k..], ft) + rest) == EntryText(saved[k], ft) + (VarTexts(saved[k + 1..], ft) + rest)
  {
    hide EntryText, VarTexts;
    VarTextsFront(saved[k..], ft);
    assert saved[k..][1..] == saved[k + 1..];
    assert VarTexts(saved[k..], ft) + rest
           == [PIPE] + (EntryText(saved[k], ft) + (VarTexts(saved[k + 1..], ft) + rest));
  }

  lemma NoEntry(saved: seq<Var>, k: nat, rest: Cursor, ft: FloatText)
    requires k == |saved|
    ensures VarTexts(saved[k..], ft) + rest == rest
  {
    assert saved[k..] == [] && "" + rest == rest;
  }

  lemma TailAtEnd(vars: seq<Var>, rest: Cursor, ft: FloatText)
    requires AtEnd(rest)
    ensures AtEnd(VarTexts(vars, ft) + rest)
  {
    if vars == [] {
      assert "" + rest == rest;
    } else {
      VarTextsFront(vars, ft);
    }
  }

  /** The variables section, with the cursor behind its leading separator. */
  lemma VarsRoundTrip(saved: seq<Var>, declared: seq<Var>, rest: Cursor, ft: FloatText)
    requires 0 < |saved| <= AMS_MAX_VARS && SameNames(saved, declared) && Distinct(saved)
    requires Prints(ft) && AtEnd(rest) && forall i :: 0 <= i < |saved| ==> NameOk(saved[i].name)
    ensures Before(VarsSection(saved, ft) + rest, PIPE)
    ensures RestoreVars((VarsSection(saved, ft) + rest)[1..], declared, ft).0 == rest
    ensures RestoredTo(RestoreVars((VarsSection(saved, ft) + rest)[1..], declared, ft).1, saved, declared, |saved|, ft)
  {
    hide Digits, VarTexts, RestoreEntries, NameOk, Restored, Prints;
    var d, tail := Digits(|saved|), VarTexts(saved, ft) + rest;
    assert VarsSection(saved, ft) + rest == [PIPE] + (d + tail);
    TailAtEnd(saved, rest, ft);
    UintRoundTrip(|saved|, tail);
    DigitsNoPipe(|saved|);
    SkipOverField(d, tail);
    assert saved[0..] == saved;
    EntriesRoundTrip(declared, saved, declared, 0, rest, ft);
  }

  // ----- Slot timers -----

  lemma {:induction false} NumberTextsFront(xs: seq<nat>)
    requires xs != []
    ensures NumberTexts(xs) == NumberText(xs[0]) + NumberTexts(xs[1..])
    decreases |xs|
  {
    hide NumberText;
    var n := |xs| - 1;
    if n == 0 {
      assert xs[..0] == [] && xs[1..] == [];
    } else {
      var tail := xs[1..];
      assert xs[..n][0] == xs[0] && xs[..n][1..] == tail[..n - 1] && tail[n - 1] == xs[n];
      assert NumberTexts(tail) == NumberTexts(tail[..n - 1]) + NumberText(xs[n]);
      assert NumberTexts(xs) == NumberTexts(xs[..n]) + NumberText(xs[n]);
      hide NumberTexts;
      NumberTextsFront(xs[..n]);
      assert (NumberText(xs[0]) + NumberTexts(tail[..n - 1])) + NumberText(xs[n])
          == NumberText(xs[0]) + (NumberTexts(tail[..n - 1]) + NumberText(xs[n]));
    }
  }

  lemma NumbersAtEnd(xs: seq<nat>, rest: Cursor)
    requires AtEnd(rest)
    ensures AtEnd(NumberTexts(xs) + rest)
  {
    if xs == [] {
      assert "" + rest == rest;
    } else {
      NumberTextsFront(xs);
    }
  }

  /** The first `k` timers set back by their elapsed time, the others untouched. */
  predicate SetBack(ms: seq<nat>, xs: seq<nat>, first: seq<nat>, k: nat, now: nat)
    requires now < TWO32 && Words(xs)
  {
    && |xs| <= |ms| == |first|
    && forall i :: 0 <= i < |ms| ==> ms[i] == if i < k && i < |xs| then Since(now, xs[i]) else first[i]
  }

  lemma {:induction false} TimersRoundTrip(ms: seq<nat>, xs: seq<nat>, first: seq<nat>, k: nat, rest: Cursor, now: nat)
    requires now < TWO32 && Words(xs) && k <= |xs| && AtEnd(rest) && SetBack(ms, xs, first, k, now)
    ensures RestoreTimers(NumberTexts(xs[k..]) + rest, k, |xs|, now, ms).0 == rest
    ensures SetBack(RestoreTimers(NumberTexts(xs[k..]) + rest, k, |xs|, now, ms).1, xs, first, |xs|, now)
    decreases |xs| - k
  {
    hide Digits, SetBack, NumberTexts;
    if k < |xs| {
      var text, tail := NumberTexts(xs[k..]) + rest, NumberTexts(xs[k + 1..]) + rest;
      NumberTextsFront(xs[k..]);
      assert xs[k..][1..] == xs[k + 1..];
      assert text == [PIPE] + (Digits(xs[k]) + tail);
      assert StepOver(text) == Digits(xs[k]) + tail;
      NumbersAtEnd(xs[k + 1..], rest);
      UintRoundTrip(xs[k], tail);
      DigitsNoPipe(xs[k]);
      SkipOverField(Digits(xs[k]), tail);
      SetNext(ms, xs, first, k, now);
      TimersRoundTrip(ms[k := Since(now, xs[k])], xs, first, k + 1, rest, now);
    } else {
      NoNumbers(xs[k..]);
      assert "" + rest == rest;
    }
  }

  lemma SetNext(ms: seq<nat>, xs: seq<nat>, first: seq<nat>, k: nat, now: nat)
    requires now < TWO32 && Words(xs) && k < |xs| && SetBack(ms, xs, first, k, now)
    ensures k < |ms| && SetBack(ms[k := Since(now, xs[k])], xs, first, k + 1, now)
  {
    hide Since;
  }

  lemma NoNumbers(xs: seq<nat>)
    ensures xs == [] ==> NumberTexts(xs) == ""
  {
  }

  lemma CountRoundTrip(n: nat, tail: Cursor)
    requires n <= AMS_MAX_HK_SLOTS && AtEnd(tail)
    ensures Before(NumberText(n) + tail, PIPE) && (NumberText(n) + tail)[1..] == Digits(n) + tail
    ensures ReadUint(Digits(n) + tail) == Some(n) && SkipField(Digits(n) + tail) == tail && Capped(n) == n
  {
    hide Digits;
    UintRoundTrip(n, tail);
    DigitsNoPipe(n);
    SkipOverField(Digits(n), tail);
    assert NumberText(n) + tail == [PIPE] + (Digits(n) + tail);
  }

  /** The slots section, with the cursor behind its leading separator. */
  lemma SlotsRoundTrip(hk: seq<nat>, log: seq<nat>, hk0: seq<nat>, log0: seq<nat>, now: nat)
    requires |hk| <= AMS_MAX_HK_SLOTS && |log| <= AMS_MAX_HK_SLOTS && Words(hk) && Words(log) && now < TWO32
    requires |hk0| == |log0| == AMS_MAX_HK_SLOTS
    ensures Before(SlotsSection(hk, log), PIPE)
    ensures var (h, l) := RestoreSlots(SlotsSection(hk, log)[1..], now, hk0, log0);
            SetBack(h, hk, hk0, |hk|, now) && SetBack(l, log, log0, |log|, now)
  {
    hide Digits, NumberTexts, NumberText, RestoreTimers, SetBack;
    var logText := NumberTexts(log) + "";
    var s := NumberText(|log|) + logText;
    var tail := NumberTexts(hk) + s;
    assert NumberTexts(log) + "" == NumberTexts(log);
    assert SlotsSection(hk, log) == NumberText(|hk|) + tail;
    NumbersAtEnd(log, "");
    CountRoundTrip(|log|, logText);
    NumbersAtEnd(hk, s);
    CountRoundTrip(|hk|, tail);
    assert hk[0..] == hk && log[0..] == log;
    NothingSetBack(hk, hk0, now);
    NothingSetBack(log, log0, now);
    TimersRoundTrip(hk0, hk, hk0, 0, s, now);
    TimersRoundTrip(log0, log, log0, 0, "", now);
  }

  lemma NothingSetBack(xs: seq<nat>, first: seq<nat>, now: nat)
    requires now < TWO32 && Words(xs) && |xs| <= |first|
    ensures SetBack(first, xs, first, 0, now)
  {
  }

  // ----- Main results -----

  /** Elapsed time survives the change of clock. */
  lemma ElapsedSurvives(saved: nat, now1: nat, now2: nat)
    requires saved < TWO32 && now1 < TWO32 && now2 < TWO32
    ensures Since(now2, Since(now2, Since(now1, saved))) == Since(now1, saved)
  {
  }

  /** Position, flags, sequence number, elapsed times and variables are back. */
  ghost predicate Preserved(r: Runtime, now1: nat, q: Runtime, now2: nat, declared: seq<Var>, ft: FloatText)
    requires RuntimeSane(r) && now1 < TWO32 && now2 < TWO32
  {
    && q.file == r.file && q.shape == r.shape && q.state == r.state
    && q.exec == r.exec && q.running == r.running && q.status == r.status && q.seqNo == r.seqNo
    && q.enterMs < TWO32 && Since(now2, q.enterMs) == Since(now1, r.enterMs)
    && q.hkMs < TWO32 && Since(now2, q.hkMs) == Since(now1, r.hkMs)
    && q.logMs < TWO32 && Since(now2, q.logMs) == Since(now1, r.logMs)
    && RestoredTo(q.vars, r.vars, declared, |r.vars|, ft)
  }

  /** The report timers of the current state show the elapsed times they showed. */
  ghost predicate SlotsPreserved(r: Runtime, now1: nat, q: Runtime, now2: nat)
    requires RuntimeSane(r) && now1 < TWO32 && now2 < TWO32
  {
    && |q.hkSlotMs| == |q.logSlotMs| == AMS_MAX_HK_SLOTS && Words(q.hkSlotMs) && Words(q.logSlotMs)
    && Elapsed(q.hkSlotMs, r.shape[r.state].hk, now2) == Elapsed(r.hkSlotMs, r.shape[r.state].hk, now1)
    && Elapsed(q.logSlotMs, r.shape[r.state].log, now2) == Elapsed(r.logSlotMs, r.shape[r.state].log, now1)
  }

  /** Storage still holds the script that was running. */
  predicate ScriptKept(r: Runtime, script: Option<Script>) {
    script.Some? && script.value.shape == r.shape && SameNames(r.vars, script.value.vars)
  }

  /** A mission that runs: what the header of its record says is accepted. */
  predicate Live(r: Runtime) {
    RuntimeSane(r) && r.running && r.exec && r.status == RUNNING
  }

  /** A mission in flight whose variables can be told apart in the record. */
  predicate InFlight(r: Runtime) {
    Live(r) && Distinct(r.vars) && forall i :: 0 <= i < |r.vars| ==> NameOk(r.vars[i].name)
  }

  /** The state the sections are applied to. */
  function Placed(r: Runtime, r0: Runtime, script: Script, now1: nat, now2: nat): Runtime
    requires RuntimeSane(r) && now1 < TWO32 && now2 < TWO32
  {
    ApplyState(r0.(file := r.file, shape := script.shape, vars := script.vars), HeaderNumbers(r, now1), now2).1
  }

  lemma HeaderApplies(r: Runtime, r0: Runtime, storage: string -> Option<Script>, ft: FloatText, now1: nat, now2: nat)
    requires Live(r) && ScriptKept(r, storage(r.file)) && now1 < TWO32 && now2 < TWO32
    ensures Restore(Print(r, ft, now1), r0, storage, ft, now2)
         == (Resumed, RestoreSections(Print(r, ft, now1), 3, Placed(r, r0, storage(r.file).value, now1, now2), ft,
                                      now2))
    ensures AfterPipes(Print(r, ft, now1), 10) == (VarsSection(r.vars, ft) + SlotsText(r, now1))[1..]
    ensures Preserved(r.(vars := []), now1, Placed(r, r0, storage(r.file).value, now1, now2).(vars := []), now2, [], ft)
    ensures Placed(r, r0, storage(r.file).value, now1, now2).vars == storage(r.file).value.vars
    ensures Placed(r, r0, storage(r.file).value, now1, now2).hkSlotMs == Fill(now2)
    ensures Placed(r, r0, storage(r.file).value, now1, now2).logSlotMs == Fill(now2)
  {
    hide RestoreSections, HeaderText, ParseHeader, AfterPipes, Digits, NumberTexts, VarTexts;
    var rest := VarsSection(r.vars, ft) + SlotsText(r, now1);
    assert Before(rest, PIPE);
    HeaderRoundTrip(r, now1, rest);
    HeaderPipes(r, now1, rest);
    ElapsedSurvives(r.enterMs, now1, now2);
    ElapsedSurvives(r.hkMs, now1, now2);
    ElapsedSurvives(r.logMs, now1, now2);
  }

  lemma SetBackIsElapsed(ms: seq<nat>, slotMs: seq<nat>, n: nat, now1: nat, now2: nat)
    requires n <= |slotMs| == AMS_MAX_HK_SLOTS && Words(slotMs) && now1 < TWO32 && now2 < TWO32
    requires SetBack(ms, Elapsed(slotMs, n, now1), Fill(now2), n, now2)
    ensures |ms| == AMS_MAX_HK_SLOTS && Words(ms) && Elapsed(ms, n, now2) == Elapsed(slotMs, n, now1)
  {
    forall i | 0 <= i < n ensures Since(now2, ms[i]) == Since(now1, slotMs[i]) {
      ElapsedSurvives(slotMs[i], now1, now2);
    }
  }

  lemma SlotsSectionBack(r: Runtime, now1: nat, now2: nat)
    requires RuntimeSane(r) && now1 < TWO32 && now2 < TWO32
    ensures Before(SlotsText(r, now1), PIPE)
    ensures var (hk, log) := RestoreSlots(SlotsText(r, now1)[1..], now2, Fill(now2), Fill(now2));
            forall q: Runtime :: q.hkSlotMs == hk && q.logSlotMs == log ==> SlotsPreserved(r, now1, q, now2)
  {
    hide RestoreSlots, SlotsSection;
    var n, m := r.shape[r.state].hk, r.shape[r.state].log;
    var hk, log := Elapsed(r.hkSlotMs, n, now1), Elapsed(r.logSlotMs, m, now1);
    SlotsRoundTrip(hk, log, Fill(now2), Fill(now2), now2);
    var (h, l) := RestoreSlots(SlotsText(r, now1)[1..], now2, Fill(now2), Fill(now2));
    SetBackIsElapsed(h, r.hkSlotMs, n, now1, now2);
    SetBackIsElapsed(l, r.logSlotMs, m, now1, now2);
  }

  /** Print then parse: with at least one variable everything a record preserves is back, on any other clock. */
  lemma CheckpointRoundTrip(r: Runtime, r0: Runtime, storage: string -> Option<Script>, ft: FloatText, now1: nat,
                            now2: nat)
    requires InFlight(r) && ScriptKept(r, storage(r.file)) && Prints(ft) && now1 < TWO32 && now2 < TWO32
    requires |r.vars| > 0
    ensures var (outcome, q) := Restore(Print(r, ft, now1), r0, storage, ft, now2);
            && outcome == Resumed
            && Preserved(r, now1, q, now2, storage(r.file).value.vars, ft)
            && SlotsPreserved(r, now1, q, now2)
  {
    hide Restore, Print, Placed, RestoreVars, RestoreSlots, VarsSection, SlotsText, SlotsPreserved, Digits, AfterPipes;
    var declared := storage(r.file).value.vars;
    HeaderApplies(r, r0, storage, ft, now1, now2);
    SlotsSectionBack(r, now1, now2);
    VarsRoundTrip(r.vars, declared, SlotsText(r, now1), ft);
    VarsNotEmpty(r.vars, ft);
  }

  lemma VarsNotEmpty(vars: seq<Var>, ft: FloatText)
    requires vars != []
    ensures |VarsSection(vars, ft)| > 1
  {
  }

  /** Without variables the cursor rests on a digit and the slot timers start over. */
  lemma WithoutVariables(r: Runtime, r0: Runtime, storage: string -> Option<Script>, ft: FloatText, now1: nat,
                         now2: nat)
    requires InFlight(r) && ScriptKept(r, storage(r.file)) && now1 < TWO32 && now2 < TWO32
    requires |r.vars| == 0
    ensures var (outcome, q) := Restore(Print(r, ft, now1), r0, storage, ft, now2);
            && outcome == Resumed
            && Preserved(r, now1, q, now2, storage(r.file).value.vars, ft)
            && q.hkSlotMs == Fill(now2) && q.logSlotMs == Fill(now2)
  {
    hide Restore, Print, Placed, RestoreSlots, Digits, AfterPipes, NumberTexts;
    HeaderApplies(r, r0, storage, ft, now1, now2);
    var n := r.shape[r.state].hk;
    assert VarsSection(r.vars, ft) + SlotsText(r, now1) == SlotsText(r, now1);
    DigitsNoPipe(n);
    var first := Digits(n)[0];
    assert first in Digits(n);
    assert SlotsText(r, now1)[1..][0] == first;
  }

  predicate NothingElapsed(r: Runtime, now: nat)
    requires RuntimeSane(r) && now < TWO32
  {
    && (forall i :: 0 <= i < r.shape[r.state].hk ==> r.hkSlotMs[i] == now)
    && (forall i :: 0 <= i < r.shape[r.state].log ==> r.logSlotMs[i] == now)
  }

  /** Exactly when the report timers survive: a variable is declared, or there was nothing to lose. */
  lemma SlotTimersSurviveIff(r: Runtime, r0: Runtime, storage: string -> Option<Script>, ft: FloatText, now1: nat,
                             now2: nat)
    requires InFlight(r) && ScriptKept(r, storage(r.file)) && Prints(ft) && now1 < TWO32 && now2 < TWO32
    ensures SlotsPreserved(r, now1, Restore(Print(r, ft, now1), r0, storage, ft, now2).1, now2)
       <==> |r.vars| > 0 || NothingElapsed(r, now1)
  {
    if |r.vars| > 0 {
      CheckpointRoundTrip(r, r0, storage, ft, now1, now2);
    } else {
      WithoutVariables(r, r0, storage, ft, now1, now2);
      hide Restore, Print;
      var q := Restore(Print(r, ft, now1), r0, storage, ft, now2).1;
      FreshTimers(q.hkSlotMs, r.hkSlotMs, r.shape[r.state].hk, now1, now2);
      FreshTimers(q.logSlotMs, r.logSlotMs, r.shape[r.state].log, now1, now2);
    }
  }

  lemma FreshTimers(ms: seq<nat>, slotMs: seq<nat>, n: nat, now1: nat, now2: nat)
    requires ms == Fill(now2) && n <= |slotMs| == AMS_MAX_HK_SLOTS && Words(slotMs) && now1 < TWO32 && now2 < TWO32
    ensures Words(ms)
    ensures Elapsed(ms, n, now2) == Elapsed(slotMs, n, now1) <==> forall i :: 0 <= i < n ==> slotMs[i] == now1
  {
    var a, b := Elapsed(ms, n, now2), Elapsed(slotMs, n, now1);
    assert forall i :: 0 <= i < n ==> a[i] == 0;
    assert forall i :: 0 <= i < n ==> (b[i] == 0 <==> slotMs[i] == now1);
    if a == b {
      assert forall i :: 0 <= i < n ==> b[i] == 0;
    } else {
      assert exists i :: 0 <= i < n && a[i] != b[i];
    }
  }

  // ----- The engine's fields -----

  class ResumePoint {
    var activeFile: string
    var shape: seq<Slots>
    var currentState: nat
    var executionEnabled: bool
    var running: bool
    var status: nat
    var seqNo: nat
    var stateEnterMs: nat
    var lastHkMs: nat
    var lastLogMs: nat
    var lastHkSlotMs: seq<nat>
    var lastLogSlotMs: seq<nat>
    var vars: seq<Var>

    ghost function Now(): Runtime
      reads this
    {
      Runtime(activeFile, shape, currentState, executionEnabled, running, status, seqNo,
              stateEnterMs, lastHkMs, lastLogMs, lastHkSlotMs, lastLogSlotMs, vars)
    }

    /** One entry after another; an entry that does not parse or names no variable is passed over. */
    method RestoreCheckpointVars(cursor: Cursor, ft: FloatText) returns (rest: Cursor)
      modifies this`vars
      ensures (rest, vars) == RestoreVars(cursor, old(vars), ft)
    {
      hide ReadUint, ScanEntry, SkipField, StepOver, Assign;
      var vc := ReadUint(cursor);
      rest := SkipToPipe(cursor);
      if vc.None? || vc.value == 0 { return; }
      var vi := 0;
      while vi < vc.value && rest != ""
        invariant vi <= vc.value
        invariant RestoreEntries(rest, vc.value - vi, vars, ft) == RestoreVars(cursor, old(vars), ft)
        decreases vc.value - vi
      {
        var t := StepOver(rest);
        vars := Assign(vars, ScanEntry(t), ft);
        rest := SkipToPipe(t);
        vi := vi + 1;
      }
    }

    static method RestoreSlotTimers(cursor: Cursor, n: nat, now: nat, first: seq<nat>)
      returns (rest: Cursor, ms: seq<nat>)
      requires n <= |first| && now < TWO32
      ensures (rest, ms) == RestoreTimers(cursor, 0, n, now, first)
    {
      hide ReadUint, SkipField, StepOver;
      rest, ms := cursor, first;
      var s := 0;
      while s < n && rest != ""
        invariant s <= n && |ms| == |first|
        invariant RestoreTimers(rest, s, n, now, ms) == RestoreTimers(cursor, 0, n, now, first)
        decreases n - s
      {
        var t := StepOver(rest);
        var elap := ReadUint(t);
        UintBound(t);
        if elap.Some? {
          ms := ms[s := Since(now, elap.value)];
        }
        rest := SkipToPipe(t);
        s := s + 1;
      }
    }

    static lemma UintBound(s: Cursor)
      ensures ReadUint(s).Some? ==> ReadUint(s).value < TWO32
    {
    }

    method RestoreCheckpointSlots(cursor: Cursor, now: nat)
      requires |lastHkSlotMs| == |lastLogSlotMs| == AMS_MAX_HK_SLOTS && now < TWO32
      modifies this`lastHkSlotMs, this`lastLogSlotMs
      ensures (lastHkSlotMs, lastLogSlotMs) == RestoreSlots(cursor, now, old(lastHkSlotMs), old(lastLogSlotMs))
    {
      hide ReadUint, SkipField, StepOver, RestoreTimers;
      var hkCount := ReadUint(cursor);
      if hkCount.None? { return; }
      var rest := SkipToPipe(cursor);
      rest, lastHkSlotMs := RestoreSlotTimers(rest, Capped(hkCount.value), now, lastHkSlotMs);
      rest := StepOver(rest);
      var logCount := ReadUint(rest);
      if logCount.None? { return; }
      rest := SkipToPipe(rest);
      rest, lastLogSlotMs := RestoreSlotTimers(rest, Capped(logCount.value), now, lastLogSlotMs);
    }

    method ApplyCheckpointState(xs: seq<nat>, now: nat) returns (on: bool)
      requires |xs| == 8 && Words(xs) && now < TWO32
      modifies this
      ensures (on, Now()) == ApplyState(old(Now()), xs, now)
    {
      hide Fill, Since;
      ghost var placed := ApplyState(Now(), xs, now).1;
      currentState, executionEnabled, running := xs[0], xs[1] != 0, xs[2] != 0;
      seqNo := xs[4] % 256;
      stateEnterMs, lastHkMs, lastLogMs := Since(now, xs[5]), Since(now, xs[6]), Since(now, xs[7]);
      var slotMs := Fill(now);
      lastHkSlotMs, lastLogSlotMs := slotMs, slotMs;
      assert Now().(status := placed.status) == placed;
      if xs[3] > STATUS_LAST { return false; }
      status := xs[3];
      return running && executionEnabled && status == RUNNING;
    }

    method TryRestore(text: Cursor, storage: string -> Option<Script>, ft: FloatText, now: nat)
      returns (outcome: Outcome)
      requires now < TWO32
      modifies this
      ensures (outcome, Now()) == Restore(text, old(Now()), storage, ft, now)
    {
      hide ParseHeader, ApplyState, RestoreSections;
      HeaderShape(text);
      var parsed := ParseHeader(text);
      if parsed.None? { return Discarded; }
      var h := parsed.value;
      if h.version != 1 && h.version != 2 && h.version != 3 { return Discarded; }
      var script := storage(h.file);
      if script.None? { return LoadFailed; }
      activeFile, shape, vars := ActiveName(h.file), script.value.shape, script.value.vars;
      if h.numbers[0] >= |shape| { return OutOfRange; }
      TimersFilled(Now(), h.numbers, now);
      var on := ApplyCheckpointState(h.numbers, now);
      if !on { return NotRunning; }
      RestoreBehindHeader(text, h.version, ft, now);
      return Resumed;
    }

    method RestoreBehindHeader(text: Cursor, version: nat, ft: FloatText, now: nat)
      requires |lastHkSlotMs| == |lastLogSlotMs| == AMS_MAX_HK_SLOTS && now < TWO32
      modifies this`vars, this`lastHkSlotMs, this`lastLogSlotMs
      ensures Now() == RestoreSections(text, version, old(Now()), ft, now)
    {
      hide RestoreVars, RestoreSlots, AfterPipes;
      if version >= 2 {
        var cursor := SkipPipes(text, 10);
        if cursor != "" && |vars| > 0 {
          cursor := RestoreCheckpointVars(cursor, ft);
        }
        if version == 3 && cursor != "" && cursor[0] == PIPE {
          RestoreCheckpointSlots(cursor[1..], now);
        }
      }
    }

    static lemma HeaderShape(text: Cursor)
      ensures ParseHeader(text).Some? ==>
                |ParseHeader(text).value.numbers| == 8 && Words(ParseHeader(text).value.numbers)
    {
    }

    static lemma TimersFilled(r: Runtime, xs: seq<nat>, now: nat)
      requires |xs| == 8 && Words(xs) && now < TWO32
      ensures |ApplyState(r, xs, now).1.hkSlotMs| == |ApplyState(r, xs, now).1.logSlotMs| == AMS_MAX_HK_SLOTS
    {
    }
  }
}
