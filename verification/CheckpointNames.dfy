/**
 Names in a resume record: the cut of long file names, and variable names with separators in them. The compiler
 accepts names that contain '|' or '=' (src/ams/mission_script_engine_parser.cpp:2244-2306); the record cannot
 carry them.
*/
module CheckpointNames {
  import opened Wrappers
  import opened Clock32
  import opened MissionProgram
  import opened FieldText
  import opened CheckpointRecord
  import opened CheckpointRestore

  // ----- One entry -----

  lemma {:induction false} TakeStops(s: Cursor, stop: char, max: nat)
    ensures stop !in TakeUntil(s, stop, max)
  {
    if !(max == 0 || s == "" || s[0] == stop) {
      TakeStops(s[1..], stop, max - 1);
    }
  }

  /** A scanned name never contains '='. */
  lemma ScannedName(s: Cursor)
    ensures ScanEntry(s).Some? ==> '=' !in ScanEntry(s).value.name
  {
    TakeStops(s, '=', VAR_NAME_MAX);
  }

  /** A separator inside a field ends it early. */
  lemma {:induction false} SkipStopsInside(f: string, rest: Cursor)
    requires PIPE in f
    ensures |SkipField(f + rest)| > |rest|
  {
    assert (f + rest)[0] == f[0];
    if f[0] != PIPE {
      assert (f + rest)[1..] == f[1..] + rest;
      SkipStopsInside(f[1..], rest);
    }
  }

  /** An entry reads back as itself, with the cursor behind it, exactly if its name has neither separator. */
  lemma EntryReadsBackIff(v: Var, rest: Cursor, ft: FloatText)
    requires 1 <= |v.name| <= VAR_NAME_MAX && Prints(ft) && AtEnd(rest)
    ensures && ScanEntry(EntryText(v, ft) + rest) == Some(Entry(v.name, ft.fmt(v.value), v.valid))
            && SkipField(EntryText(v, ft) + rest) == rest
       <==> NameOk(v.name)
  {
    hide ScanEntry, SkipField;
    if NameOk(v.name) {
      EntryRoundTrip(v, rest, ft);
    } else if '=' in v.name {
      ScannedName(EntryText(v, ft) + rest);
    } else {
      assert PIPE in EntryText(v, ft) by {
        assert PIPE in v.name;
      }
      SkipStopsInside(EntryText(v, ft), rest);
    }
  }

  // ----- Names with '=' -----

  lemma AssignSkips(vars: seq<Var>, e: Option<Entry>, ft: FloatText, k: nat)
    requires k < |vars| && '=' in vars[k].name && (e.Some? ==> '=' !in e.value.name)
    ensures Assign(vars, e, ft)[k] == vars[k]
  {
  }

  lemma {:induction false} EntriesSkip(s: Cursor, left: nat, vars: seq<Var>, ft: FloatText, k: nat)
    requires k < |vars| && '=' in vars[k].name
    ensures RestoreEntries(s, left, vars, ft).1[k] == vars[k]
    decreases left
  {
    hide ScanEntry, SkipField, StepOver, Assign;
    if left > 0 && s != "" {
      var e := ScanEntry(StepOver(s));
      ScannedName(StepOver(s));
      AssignSkips(vars, e, ft, k);
      AssignKeepsNames(vars, e, ft, k);
      EntriesSkip(SkipField(StepOver(s)), left - 1, Assign(vars, e, ft), ft, k);
    }
  }

  lemma AssignKeepsNames(vars: seq<Var>, e: Option<Entry>, ft: FloatText, k: nat)
    requires k < |vars|
    ensures |Assign(vars, e, ft)| == |vars| && Assign(vars, e, ft)[k].name == vars[k].name
  {
  }

  /** No record whatever restores a variable whose name contains '='. */
  lemma EqualsNeverRestored(text: Cursor, r0: Runtime, storage: string -> Option<Script>, ft: FloatText, now: nat,
                            k: nat)
    requires now < TWO32
    ensures var (outcome, q) := Restore(text, r0, storage, ft, now);
            outcome == Resumed ==>
              && ParseHeader(text).Some? && storage(ParseHeader(text).value.file).Some?
              && var declared := storage(ParseHeader(text).value.file).value.vars;
                 |q.vars| == |declared| && (k < |declared| && '=' in declared[k].name ==> q.vars[k] == declared[k])
  {
    hide ParseHeader, RestoreSlots, AfterPipes, ReadUint, SkipField, RestoreEntries;
    var (outcome, q) := Restore(text, r0, storage, ft, now);
    if outcome == Resumed {
      var declared := storage(ParseHeader(text).value.file).value.vars;
      if k < |declared| && '=' in declared[k].name {
        var s := AfterPipes(text, 10);
        if ReadUint(s).Some? {
          EntriesSkip(SkipField(s), ReadUint(s).value, declared, ft, k);
        }
      }
    }
  }

  // ----- Names with '|' -----

  function Pipes(s: string): nat {
    if s == "" then 0 else Pipes(s[1..]) + if s[0] == PIPE then 1 else 0
  }

  lemma {:induction false} PipesConcat(a: string, b: string)
    ensures Pipes(a + b) == Pipes(a) + Pipes(b)
  {
    if a == "" {
      assert a + b == b;
    } else {
      assert (a + b)[1..] == a[1..] + b && (a + b)[0] == a[0];
      PipesConcat(a[1..], b);
    }
  }

  lemma {:induction false} PipesIff(s: string)
    ensures Pipes(s) == 0 <==> NoPipe(s)
  {
    if s != "" {
      PipesIff(s[1..]);
      assert s == [s[0]] + s[1..];
    }
  }

  /** Every separator is followed by something that is not a digit. */
  predicate Unnumbered(s: string) {
    forall i :: 0 <= i < |s| && s[i] == PIPE ==> i + 1 < |s| && !IsDigit(s[i + 1])
  }

  /** The cursor after `m` entries, whatever they say. */
  function AfterEntries(s: Cursor, m: nat): Cursor
    decreases m
  {
    if m == 0 then s else AfterEntries(SkipField(StepOver(s)), m - 1)
  }

  lemma {:induction false} AfterNothing(m: nat)
    ensures AfterEntries("", m) == ""
  {
    if m > 0 {
      AfterNothing(m - 1);
    }
  }

  lemma {:induction false} EntriesCursor(s: Cursor, left: nat, vars: seq<Var>, ft: FloatText)
    ensures RestoreEntries(s, left, vars, ft).0 == AfterEntries(s, left)
    decreases left
  {
    hide ScanEntry, SkipField, StepOver, Assign;
    if s == "" {
      AfterNothing(left);
    } else if left > 0 {
      EntriesCursor(SkipField(StepOver(s)), left - 1, Assign(vars, ScanEntry(StepOver(s)), ft), ft);
    }
  }

  lemma {:induction false} SkipWithin(u: string, rest: Cursor)
    requires AtEnd(rest)
    ensures SkipField(u + rest) == SkipField(u) + rest
    ensures Pipes(SkipField(u)) == Pipes(u)
    ensures Unnumbered(u) ==> Unnumbered(SkipField(u))
  {
    if u == "" {
      assert u + rest == rest && SkipField(u) + rest == rest;
    } else if u[0] != PIPE {
      assert (u + rest)[1..] == u[1..] + rest && (u + rest)[0] == u[0];
      SkipWithin(u[1..], rest);
      if Unnumbered(u) {
        UnnumberedTail(u);
      }
    }
  }

  lemma UnnumberedTail(u: string)
    requires u != "" && Unnumbered(u)
    ensures Unnumbered(u[1..])
  {
    forall i | 0 <= i < |u[1..]| && u[1..][i] == PIPE ensures i + 1 < |u[1..]| && !IsDigit(u[1..][i + 1]) {
      assert u[i + 1] == PIPE;
    }
  }

  /** `m` entries take `m` separators, no more, out of a section that has at least as many. */
  lemma {:induction false} EntriesWithin(u: string, rest: Cursor, m: nat)
    requires AtEnd(u) && AtEnd(rest) && m <= Pipes(u) && Unnumbered(u)
    ensures var left := AfterEntries(u, m);
            && AfterEntries(u + rest, m) == left + rest
            && AtEnd(left) && Pipes(left) == Pipes(u) - m && Unnumbered(left)
    decreases m
  {
    hide SkipField, Unnumbered;
    if m > 0 {
      OnePipeFewer(u, rest);
      UnnumberedTail(u);
      SkipWithin(u[1..], rest);
      SkippedAtEnd(u[1..]);
      EntriesWithin(SkipField(u[1..]), rest, m - 1);
    }
  }

  lemma OnePipeFewer(u: string, rest: Cursor)
    requires AtEnd(u) && Pipes(u) > 0
    ensures u != "" && Pipes(u) == Pipes(u[1..]) + 1
    ensures StepOver(u) == u[1..] && StepOver(u + rest) == u[1..] + rest
  {
  }

  lemma SkippedAtEnd(s: Cursor)
    ensures AtEnd(SkipField(s))
  {
  }

  /** The names of one script, as far as the length limits let them through. */
  predicate NamesFit(vars: seq<Var>) {
    forall i :: 0 <= i < |vars| ==> 1 <= |vars[i].name| <= VAR_NAME_MAX
  }

  /** No name, and nothing behind a separator inside a name, starts with a digit. */
  predicate NamesUnnumbered(vars: seq<Var>) {
    forall i :: 0 <= i < |vars| ==> NameUnnumbered(vars[i].name)
  }

  predicate NameUnnumbered(name: string) {
    forall i :: 0 <= i < |name| && StartsPiece(name, i) ==> !IsDigit(name[i])
  }

  predicate StartsPiece(name: string, i: nat)
    requires i < |name|
  {
    i == 0 || name[i - 1] == PIPE
  }

  lemma EntryPipes(v: Var, ft: FloatText)
    requires Prints(ft) && 1 <= |v.name| && NameUnnumbered(v.name)
    ensures Pipes(VarText(v, ft)) == 1 + Pipes(v.name) && Unnumbered(VarText(v, ft))
  {
    hide Digits, Pipes;
    var f, d := ft.fmt(v.value), Digits(Flag(v.valid));
    var tail := "=" + (f + ("=" + d));
    DigitsNoPipe(Flag(v.valid));
    assert NoPipe(f) && NoPipe(tail);
    PipesIff(tail);
    PipesConcat(v.name, tail);
    PipesConcat([PIPE], v.name + tail);
    OnePipe();
    var s := VarText(v, ft);
    assert s == [PIPE] + (v.name + tail);
    forall i | 0 <= i < |s| && s[i] == PIPE ensures i + 1 < |s| && !IsDigit(s[i + 1]) {
      if i == |v.name| {
        assert s[i + 1] == tail[0];
      } else {
        assert s[i + 1] == v.name[i] && (i > 0 ==> s[i] == v.name[i - 1]);
        assert StartsPiece(v.name, i);
      }
    }
  }

  lemma OnePipe()
    ensures Pipes([PIPE]) == 1
  {
    assert [PIPE][1..] == "";
  }

  lemma UnnumberedConcat(a: string, b: string)
    requires Unnumbered(a) && Unnumbered(b)
    ensures Unnumbered(a + b)
  {
  }

  function NamePipes(vars: seq<Var>): nat
    decreases |vars|
  {
    if vars == [] then 0 else NamePipes(vars[..|vars| - 1]) + Pipes(vars[|vars| - 1].name)
  }

  lemma {:induction false} SectionPipes(vars: seq<Var>, ft: FloatText)
    requires Prints(ft) && NamesFit(vars) && NamesUnnumbered(vars)
    ensures Pipes(VarTexts(vars, ft)) == |vars| + NamePipes(vars) && Unnumbered(VarTexts(vars, ft))
    ensures AtEnd(VarTexts(vars, ft))
    decreases |vars|
  {
    hide VarText, Pipes, Unnumbered, NameUnnumbered;
    if vars == [] {
      NoPipesInNothing();
    } else {
      var n := |vars| - 1;
      SectionPipes(vars[..n], ft);
      EntryPipes(vars[n], ft);
      PipesConcat(VarTexts(vars[..n], ft), VarText(vars[n], ft));
      UnnumberedConcat(VarTexts(vars[..n], ft), VarText(vars[n], ft));
      TextStarts(vars[n], ft);
    }
  }

  lemma NoPipesInNothing()
    ensures Pipes("") == 0 && Unnumbered("")
  {
  }

  lemma TextStarts(v: Var, ft: FloatText)
    ensures VarText(v, ft) != "" && VarText(v, ft)[0] == PIPE
  {
  }

  lemma {:induction false} SomeNamePipe(vars: seq<Var>, k: nat)
    requires k < |vars| && PIPE in vars[k].name
    ensures NamePipes(vars) > 0
    decreases |vars|
  {
    if k == |vars| - 1 {
      PipesIff(vars[k].name);
    } else {
      SomeNamePipe(vars[..|vars| - 1], k);
    }
  }

  /** With a separator in some name, the variables section is left before its end, in front of no number. */
  lemma VarsLeftEarly(saved: seq<Var>, declared: seq<Var>, rest: Cursor, ft: FloatText, k: nat)
    requires Prints(ft) && NamesFit(saved) && NamesUnnumbered(saved) && AtEnd(rest)
    requires k < |saved| <= AMS_MAX_VARS && PIPE in saved[k].name
    ensures var s := RestoreVars((VarsSection(saved, ft) + rest)[1..], declared, ft).0;
            Before(s, PIPE) && ReadUint(s[1..]) == None
  {
    hide Digits, VarTexts, RestoreEntries, AfterEntries, Pipes;
    var d, texts := Digits(|saved|), VarTexts(saved, ft);
    var tail := texts + rest;
    assert VarsSection(saved, ft) + rest == [PIPE] + (d + tail);
    TailAtEnd(saved, rest, ft);
    UintRoundTrip(|saved|, tail);
    DigitsNoPipe(|saved|);
    SkipOverField(d, tail);
    EntriesCursor(tail, |saved|, declared, ft);
    SectionPipes(saved, ft);
    SomeNamePipe(saved, k);
    EntriesWithin(texts, rest, |saved|);
    var left := AfterEntries(texts, |saved|);
    NoPipesInNothing();
    assert left != "" && left[0] == PIPE && !IsDigit(left[1]);
    assert (left + rest)[1..][0] == left[1];
  }

  /** Then no slot timer comes back: all of them start over. */
  lemma PipeLosesTimers(r: Runtime, r0: Runtime, storage: string -> Option<Script>, ft: FloatText,
                        now1: nat, now2: nat, k: nat)
    requires Live(r) && ScriptKept(r, storage(r.file)) && Prints(ft) && now1 < TWO32 && now2 < TWO32
    requires NamesFit(r.vars) && NamesUnnumbered(r.vars) && k < |r.vars| && PIPE in r.vars[k].name
    ensures var (outcome, q) := Restore(Print(r, ft, now1), r0, storage, ft, now2);
            outcome == Resumed && q.hkSlotMs == Fill(now2) && q.logSlotMs == Fill(now2)
  {
    hide Restore, Print, Placed, RestoreVars, VarsSection, SlotsText, Digits, AfterPipes, ReadUint, NamesUnnumbered;
    HeaderApplies(r, r0, storage, ft, now1, now2);
    SlotsSectionBack(r, now1, now2);
    VarsLeftEarly(r.vars, storage(r.file).value.vars, SlotsText(r, now1), ft, k);
    VarsNotEmpty(r.vars, ft);
  }

  // ----- Exactly when the record carries a script's variables -----

  /** Every variable has a saved value to bring back that differs from what the script declares. */
  ghost predicate WorthSaving(saved: seq<Var>, declared: seq<Var>, ft: FloatText) {
    SameNames(saved, declared) && forall i :: 0 <= i < |saved| ==> Restored(saved[i], declared[i], ft) != declared[i]
  }

  /**
   All variables and all slot timers come back if and only if no name contains a separator. The premises say that
   there is something to lose: every variable changed, some timer moved, and no name or part of one looks like a
   number, which could be taken for a timer.
   */
  lemma NamesSurviveIff(r: Runtime, r0: Runtime, storage: string -> Option<Script>, ft: FloatText, now1: nat, now2: nat)
    requires Live(r) && Distinct(r.vars) && ScriptKept(r, storage(r.file)) && Prints(ft)
    requires now1 < TWO32 && now2 < TWO32 && |r.vars| > 0
    requires NamesFit(r.vars) && NamesUnnumbered(r.vars)
    requires WorthSaving(r.vars, storage(r.file).value.vars, ft) && !NothingElapsed(r, now1)
    ensures var (outcome, q) := Restore(Print(r, ft, now1), r0, storage, ft, now2);
            && outcome == Resumed
            && (RestoredTo(q.vars, r.vars, storage(r.file).value.vars, |r.vars|, ft) && SlotsPreserved(r, now1, q, now2)
                <==> forall i :: 0 <= i < |r.vars| ==> NameOk(r.vars[i].name))
  {
    hide Restore, Print, RestoreSections, AfterPipes, NamesUnnumbered;
    var declared := storage(r.file).value.vars;
    var (outcome, q) := Restore(Print(r, ft, now1), r0, storage, ft, now2);
    HeaderApplies(r, r0, storage, ft, now1, now2);
    if forall i :: 0 <= i < |r.vars| ==> NameOk(r.vars[i].name) {
      CheckpointRoundTrip(r, r0, storage, ft, now1, now2);
    } else {
      var k :| 0 <= k < |r.vars| && !NameOk(r.vars[k].name);
      if '=' in r.vars[k].name {
        PrintedHeader(r, ft, now1);
        EqualsNeverRestored(Print(r, ft, now1), r0, storage, ft, now2, k);
        assert declared[k].name == r.vars[k].name;
        assert q.vars[k] == declared[k];
      } else {
        PipeLosesTimers(r, r0, storage, ft, now1, now2, k);
        FreshTimers(q.hkSlotMs, r.hkSlotMs, r.shape[r.state].hk, now1, now2);
        FreshTimers(q.logSlotMs, r.logSlotMs, r.shape[r.state].log, now1, now2);
      }
    }
  }

  lemma PrintedHeader(r: Runtime, ft: FloatText, now: nat)
    requires RuntimeSane(r) && now < TWO32
    ensures ParseHeader(Print(r, ft, now)) == Some(Header(AMS_RESUME_VERSION, r.file, HeaderNumbers(r, now)))
  {
    hide HeaderText, ParseHeader, Digits, NumberTexts, VarTexts;
    var rest := VarsSection(r.vars, ft) + SlotsText(r, now);
    assert Before(rest, PIPE);
    HeaderRoundTrip(r, now, rest);
  }

  // ----- A variable overwritten by another's entry -----

  lemma {:induction false} DigitRunStops(f: string, rest: Cursor)
    requires f != "" && IsDigit(f[0]) && rest != "" && !IsDigit(rest[0])
    ensures DigitRun(f + rest) == DigitRun(f) != ""
  {
    assert (f + rest)[1..] == f[1..] + rest;
    if |f| > 1 && IsDigit(f[1]) {
      DigitRunStops(f[1..], rest);
    } else if |f| == 1 {
      assert f[1..] + rest == rest;
    }
  }

  /** The entry of a variable `name=m` is read as an entry of `name` with value text `m`. */
  lemma EntryMisread(v: Var, name: string, m: string, rest: Cursor, ft: FloatText)
    requires v.name == name + ("=" + m) && Prints(ft) && AtEnd(rest)
    requires 1 <= |name| <= VAR_NAME_MAX && '=' !in name && 1 <= |m| <= FLOAT_TEXT_MAX && '=' !in m
    requires IsDigit(ft.fmt(v.value)[0])
    ensures ReadUint(ft.fmt(v.value)).Some?
    ensures ScanEntry(EntryText(v, ft) + rest) == Some(Entry(name, m, ReadUint(ft.fmt(v.value)).value != 0))
  {
    hide Digits, TakeUntil, Before, DigitRun;
    var f := ft.fmt(v.value);
    var after := "=" + (Digits(Flag(v.valid)) + rest);
    MisreadText(v, name, m, rest, ft);
    hide EntryText;
    TakeField(name, '=', m + ("=" + (f + after)), VAR_NAME_MAX);
    TakeField(m, '=', f + after, FLOAT_TEXT_MAX);
    DigitRunStops(f, after);
    DigitRunStops(f, "=");
  }

  lemma MisreadText(v: Var, name: string, m: string, rest: Cursor, ft: FloatText)
    requires v.name == name + ("=" + m)
    ensures EntryText(v, ft) + rest
         == name + ("=" + (m + ("=" + (ft.fmt(v.value) + ("=" + (Digits(Flag(v.valid)) + rest))))))
  {
    hide Digits;
  }

  /**
   With variables `name` and `name=m` declared in this order, a resume gives `name` not its own saved value but
   the number that `m` spells.
   */
  lemma NeighbourOverwrites(r: Runtime, r0: Runtime, storage: string -> Option<Script>, ft: FloatText,
                            now1: nat, now2: nat, name: string, m: string)
    requires Live(r) && ScriptKept(r, storage(r.file)) && Prints(ft) && now1 < TWO32 && now2 < TWO32
    requires |r.vars| == 2 && r.vars[0].name == name && r.vars[1].name == name + ("=" + m)
    requires NameOk(name) && '=' !in m && NoPipe(m) && |m| >= 1
    requires IsDigit(ft.fmt(r.vars[1].value)[0]) && ft.read(m).Some?
    ensures ReadUint(ft.fmt(r.vars[1].value)).Some?
    ensures var (outcome, q) := Restore(Print(r, ft, now1), r0, storage, ft, now2);
            && outcome == Resumed
            && |q.vars| == 2
            && q.vars[0] == Var(name, ft.read(m).value, ReadUint(ft.fmt(r.vars[1].value)).value != 0)
  {
    hide Restore, Print, Placed, RestoreVars, RestoreSlots, VarsSection, SlotsText, Digits, AfterPipes, ReadUint;
    HeaderApplies(r, r0, storage, ft, now1, now2);
    SlotsSectionBack(r, now1, now2);
    MisreadSection(r.vars, storage(r.file).value.vars, SlotsText(r, now1), ft, name, m);
    VarsNotEmpty(r.vars, ft);
  }

  /** For instance: "a" was 7, "a=2" was 1.5, and after the resume "a" is 2. */
  lemma SevenBecomesTwo(r: Runtime, r0: Runtime, storage: string -> Option<Script>, ft: FloatText, now1: nat, now2: nat)
    requires Live(r) && ScriptKept(r, storage(r.file)) && Prints(ft) && now1 < TWO32 && now2 < TWO32
    requires r.vars == [Var("a", 7.0, true), Var("a=2", 1.5, true)]
    requires ft.fmt(1.5) == "1.5" && ft.read("2") == Some(2.0)
    ensures var (outcome, q) := Restore(Print(r, ft, now1), r0, storage, ft, now2);
            outcome == Resumed && |q.vars| == 2 && q.vars[0] == Var("a", 2.0, true)
  {
    hide Restore, Print;
    assert "a=2" == "a" + ("=" + "2");
    NeighbourOverwrites(r, r0, storage, ft, now1, now2, "a", "2");
    OneAndAHalf();
  }

  lemma OneAndAHalf()
    ensures ReadUint("1.5") == Some(1)
  {
    var s := "1.5";
    assert s == "1" + ".5";
    RunOfDigits("1", ".5");
    assert Number("1") == 10 * Number("1"[..0]) + 1;
  }

  lemma MisreadSection(saved: seq<Var>, declared: seq<Var>, rest: Cursor, ft: FloatText, name: string, m: string)
    requires SameNames(saved, declared) && Prints(ft) && AtEnd(rest)
    requires |saved| == 2 && saved[0].name == name && saved[1].name == name + ("=" + m)
    requires |saved[1].name| <= VAR_NAME_MAX
    requires NameOk(name) && '=' !in m && NoPipe(m) && |m| >= 1
    requires IsDigit(ft.fmt(saved[1].value)[0]) && ft.read(m).Some?
    ensures ReadUint(ft.fmt(saved[1].value)).Some?
    ensures var vars := RestoreVars((VarsSection(saved, ft) + rest)[1..], declared, ft).1;
            |vars| == 2 && vars[0] == Var(name, ft.read(m).value, ReadUint(ft.fmt(saved[1].value)).value != 0)
  {
    hide Digits, VarTexts, ReadUint, ScanEntry, SkipField, StepOver, EntryText, Assign, NoPipe;
    var d, tail := Digits(2), VarTexts(saved, ft) + rest;
    assert VarsSection(saved, ft) + rest == [PIPE] + (d + tail);
    TailAtEnd(saved, rest, ft);
    UintRoundTrip(2, tail);
    DigitsNoPipe(2);
    SkipOverField(d, tail);
    assert saved[0..] == saved;
    NextEntry(saved, 0, rest, ft);
    NextEntry(saved, 1, rest, ft);
    var one, none := VarTexts(saved[1..], ft) + rest, VarTexts(saved[2..], ft) + rest;
    TailAtEnd(saved[1..], rest, ft);
    TailAtEnd(saved[2..], rest, ft);
    EntryRoundTrip(saved[0], one, ft);
    EntryMisread(saved[1], name, m, none, ft);
    var e0 := Entry(name, ft.fmt(saved[0].value), saved[0].valid);
    var e1 := Entry(name, m, ReadUint(ft.fmt(saved[1].value)).value != 0);
    var v0 := Assign(declared, Some(e0), ft);
    EntriesTwice(tail, declared, e0, e1, ft);
    FirstAssigned(declared, e0, ft);
    FirstAssigned(v0, e1, ft);
  }

  lemma EntriesTwice(s: Cursor, vars: seq<Var>, e0: Entry, e1: Entry, ft: FloatText)
    requires s != "" && ScanEntry(StepOver(s)) == Some(e0)
    requires var t := SkipField(StepOver(s)); t != "" && ScanEntry(StepOver(t)) == Some(e1)
    ensures RestoreEntries(s, 2, vars, ft).1 == Assign(Assign(vars, Some(e0), ft), Some(e1), ft)
  {
    hide ScanEntry, StepOver, SkipField, Assign;
  }

  lemma FirstAssigned(vars: seq<Var>, e: Entry, ft: FloatText)
    requires vars != [] && vars[0].name == e.name
    ensures var r := Assign(vars, Some(e), ft);
            && |r| == |vars| && r[0].name == e.name
            && (ft.read(e.val).Some? ==> r[0] == Var(e.name, ft.read(e.val).value, e.valid))
  {
  }

  // ----- The name of the script -----

  /**
   The script activated as `name` is the one a resume looks up exactly if the name is not 32 characters long.
   Otherwise the resume fails to load it unless storage happens to hold a script under the shortened name.
   */
  lemma ResumedUnderItsNameIff(name: string, r: Runtime, r0: Runtime, storage: string -> Option<Script>, ft: FloatText,
                               now1: nat, now2: nat)
    requires SafeName(name) && RuntimeSane(r) && r.file == ActiveName(name) && now1 < TWO32 && now2 < TWO32
    ensures ParseHeader(Print(r, ft, now1)).Some?
    ensures ParseHeader(Print(r, ft, now1)).value.file == name <==> |name| != MISSION_FILENAME_MAX
    ensures |name| == MISSION_FILENAME_MAX && storage(ActiveName(name)).None? ==>
              Restore(Print(r, ft, now1), r0, storage, ft, now2) == (LoadFailed, r0)
  {
    hide Print, ParseHeader;
    PrintedHeader(r, ft, now1);
    SafeNameSeparates(name);
  }
}
