/**
 The resume record of a running mission (src/ams/mission_script_engine.cpp:1371-1480 and
 src/ams/mission_script_engine_utils.cpp:42-67). Printing and reading a float are an abstract pair.
 */
module CheckpointRecord {
  import opened Wrappers
  import opened Clock32
  import opened MissionProgram
  import opened FieldText

  const AMS_RESUME_VERSION := 3
  const RECORD_SIZE := 512
  const MISSION_FILENAME_MAX := 32
  const VAR_NAME_MAX := 15
  const FLOAT_TEXT_MAX := 23
  const RUNNING := 1
  const STATUS_LAST := 4

  datatype Var = Var(name: string, value: real, valid: bool)

  /** "%.6g" and the float reader. */
  datatype FloatText = FloatText(fmt: real -> string, read: string -> Option<real>)

  /** What "%.6g" prints: a few characters, neither separator among them. */
  ghost predicate Prints(ft: FloatText) {
    forall x: real :: 0 < |ft.fmt(x)| <= FLOAT_TEXT_MAX && NoPipe(ft.fmt(x)) && '=' !in ft.fmt(x)
  }

  /** Report slots of one state. */
  datatype Slots = Slots(hk: nat, log: nat)

  /** The part of the engine that a record preserves; `shape` has one entry per state. */
  datatype Runtime = Runtime(
    file: string, shape: seq<Slots>, state: nat, exec: bool, running: bool, status: nat, seqNo: nat,
    enterMs: nat, hkMs: nat, logMs: nat, hkSlotMs: seq<nat>, logSlotMs: seq<nat>, vars: seq<Var>)

  predicate NameOk(name: string) {
    1 <= |name| <= VAR_NAME_MAX && NoPipe(name) && '=' !in name
  }

  predicate Words(xs: seq<nat>) {
    forall i :: 0 <= i < |xs| ==> xs[i] < TWO32
  }

  /** Table sizes and word widths, and a file name as `activeFile_` holds it. */
  predicate RuntimeSane(r: Runtime) {
    && 1 <= |r.file| < MISSION_FILENAME_MAX && NoPipe(r.file)
    && |r.shape| <= AMS_MAX_STATES
       && (forall i :: 0 <= i < |r.shape| ==> r.shape[i].hk <= AMS_MAX_HK_SLOTS && r.shape[i].log <= AMS_MAX_HK_SLOTS)
    && r.state < |r.shape| && r.status <= STATUS_LAST && r.seqNo < 256
    && r.enterMs < TWO32 && r.hkMs < TWO32 && r.logMs < TWO32
    && |r.hkSlotMs| == |r.logSlotMs| == AMS_MAX_HK_SLOTS && Words(r.hkSlotMs) && Words(r.logSlotMs)
    && |r.vars| <= AMS_MAX_VARS
    && (forall i :: 0 <= i < |r.vars| ==> |r.vars[i].name| <= VAR_NAME_MAX)
  }

  // ----- Safe file names -----

  predicate SafeChar(c: char) {
    'a' <= c <= 'z' || 'A' <= c <= 'Z' || '0' <= c <= '9' || c == '_' || c == '-' || c == '.'
  }

  predicate SafeName(s: string) {
    && 0 < |s| <= MISSION_FILENAME_MAX && s[0] != '.'
    && (forall i :: 0 <= i < |s| ==> SafeChar(s[i]))
    && forall i :: 0 <= i < |s| - 1 ==> !(s[i] == '.' && s[i + 1] == '.')
  }

  method IsSafeFileName(s: string) returns (ok: bool)
    ensures ok <==> SafeName(s)
  {
    if s == "" || s[0] == '.' { return false; }
    if |s| > MISSION_FILENAME_MAX { return false; }
    var i := 0;
    while i < |s|
      invariant i <= |s| && forall k :: 0 <= k < i ==> SafeChar(s[k])
    {
      if !SafeChar(s[i]) { return false; }
      i := i + 1;
    }
    i := 0;
    while i + 1 < |s|
      invariant i < |s| && forall k :: 0 <= k < i ==> !(s[k] == '.' && s[k + 1] == '.')
    {
      if s[i] == '.' && s[i + 1] == '.' { return false; }
      i := i + 1;
    }
    return true;
  }

  /** A safe name keeps the record's fields apart. What is kept of it is shorter iff it has 32 characters. */
  lemma SafeNameSeparates(s: string)
    requires SafeName(s)
    ensures NoPipe(s) && NoPipe(ActiveName(s)) && 1 <= |ActiveName(s)| < MISSION_FILENAME_MAX
    ensures ActiveName(s) == s <==> |s| != MISSION_FILENAME_MAX
  {
    assert forall i :: 0 <= i < |s| ==> SafeChar(s[i]);
  }

  // ----- The text -----

  function Flag(b: bool): nat {
    if b then 1 else 0
  }

  function Joined(xs: seq<nat>): string
    requires xs != []
  {
    if |xs| == 1 then Digits(xs[0]) else Digits(xs[0]) + ([PIPE] + Joined(xs[1..]))
  }

  /** The eight numbers behind the file name. */
  function HeaderNumbers(r: Runtime, now: nat): seq<nat>
    requires RuntimeSane(r) && now < TWO32
  {
    [r.state, Flag(r.exec), Flag(r.running), r.status, r.seqNo,
     Since(now, r.enterMs), Since(now, r.hkMs), Since(now, r.logMs)]
  }

  function HeaderText(r: Runtime, now: nat): string
    requires RuntimeSane(r) && now < TWO32
  {
    Digits(AMS_RESUME_VERSION) + ([PIPE] + (r.file + ([PIPE] + Joined(HeaderNumbers(r, now)))))
  }

  function NumberText(n: nat): string {
    [PIPE] + Digits(n)
  }

  function EntryText(v: Var, ft: FloatText): string {
    v.name + ("=" + (ft.fmt(v.value) + ("=" + Digits(Flag(v.valid)))))
  }

  function VarText(v: Var, ft: FloatText): string {
    [PIPE] + EntryText(v, ft)
  }

  function VarTexts(vars: seq<Var>, ft: FloatText): string
    decreases |vars|
  {
    if vars == [] then "" else VarTexts(vars[..|vars| - 1], ft) + VarText(vars[|vars| - 1], ft)
  }

  function NumberTexts(xs: seq<nat>): string
    decreases |xs|
  {
    if xs == [] then "" else NumberTexts(xs[..|xs| - 1]) + NumberText(xs[|xs| - 1])
  }

  function VarsSection(vars: seq<Var>, ft: FloatText): string {
    if vars == [] then "" else NumberText(|vars|) + VarTexts(vars, ft)
  }

  /** Elapsed time of the first `n` slots. */
  function Elapsed(slotMs: seq<nat>, n: nat, now: nat): (xs: seq<nat>)
    requires n <= |slotMs| && Words(slotMs) && now < TWO32
    ensures |xs| == n && Words(xs) && forall i :: 0 <= i < n ==> xs[i] == Since(now, slotMs[i])
  {
    seq(n, i requires 0 <= i < n => Since(now, slotMs[i]))
  }

  function SlotsSection(hk: seq<nat>, log: seq<nat>): string {
    NumberText(|hk|) + NumberTexts(hk) + (NumberText(|log|) + NumberTexts(log))
  }

  function SlotsText(r: Runtime, now: nat): string
    requires RuntimeSane(r) && now < TWO32
  {
    SlotsSection(Elapsed(r.hkSlotMs, r.shape[r.state].hk, now), Elapsed(r.logSlotMs, r.shape[r.state].log, now))
  }

  function Print(r: Runtime, ft: FloatText, now: nat): string
    requires RuntimeSane(r) && now < TWO32
  {
    HeaderText(r, now) + (VarsSection(r.vars, ft) + SlotsText(r, now))
  }

  // ----- The record fits -----

  lemma SmallDigits(n: nat)
    ensures n < 10 ==> |Digits(n)| == 1
    ensures n < 256 ==> |Digits(n)| <= 3
  {
    if n < 256 {
      assert Power10(3) == 1000;
      DigitsLength(n, 3);
    }
  }

  lemma {:induction false} NumbersLength(xs: seq<nat>)
    requires Words(xs)
    ensures |NumberTexts(xs)| <= 11 * |xs|
    decreases |xs|
  {
    if xs != [] {
      NumbersLength(xs[..|xs| - 1]);
      WordLength(xs[|xs| - 1]);
    }
  }

  lemma {:induction false} VarsLength(vars: seq<Var>, ft: FloatText)
    requires Prints(ft) && forall i :: 0 <= i < |vars| ==> |vars[i].name| <= VAR_NAME_MAX
    ensures |VarTexts(vars, ft)| <= 42 * |vars|
    decreases |vars|
  {
    if vars != [] {
      var v := vars[|vars| - 1];
      VarsLength(vars[..|vars| - 1], ft);
      SmallDigits(Flag(v.valid));
      assert |VarText(v, ft)| <= 42;
    }
  }

  lemma HeaderLength(r: Runtime, now: nat)
    requires RuntimeSane(r) && now < TWO32
    ensures |HeaderText(r, now)| <= 78
  {
    hide Digits;
    SmallDigits(AMS_RESUME_VERSION);
    SmallDigits(r.state);
    SmallDigits(Flag(r.exec));
    SmallDigits(Flag(r.running));
    SmallDigits(r.status);
    SmallDigits(r.seqNo);
    WordLength(Since(now, r.enterMs));
    WordLength(Since(now, r.hkMs));
    WordLength(Since(now, r.logMs));
    JoinedLength(HeaderNumbers(r, now));
  }

  lemma JoinedLength(xs: seq<nat>)
    requires |xs| == 8
    ensures |Joined(xs)| == 7 + |Digits(xs[0])| + |Digits(xs[1])| + |Digits(xs[2])| + |Digits(xs[3])|
                              + |Digits(xs[4])| + |Digits(xs[5])| + |Digits(xs[6])| + |Digits(xs[7])|
  {
    hide Digits;
    var t := xs[4..];
    assert xs[1..][1..][1..][1..] == t;
    assert |Joined(t)| == 3 + |Digits(t[0])| + |Digits(t[1])| + |Digits(t[2])| + |Digits(t[3])| by {
      assert |Joined(t[1..][1..])| == 1 + |Digits(t[2])| + |Digits(t[3])|;
    }
    assert |Joined(xs[1..][1..])| == 2 + |Digits(xs[2])| + |Digits(xs[3])| + |Joined(t)|;
  }

  /** At 78 + 338 + 92 characters no section is ever dropped. */
  lemma RecordFits(r: Runtime, ft: FloatText, now: nat)
    requires RuntimeSane(r) && Prints(ft) && now < TWO32
    ensures |Print(r, ft, now)| < RECORD_SIZE
    ensures |HeaderText(r, now)| <= 78 && |VarsSection(r.vars, ft)| <= 338 && |SlotsText(r, now)| <= 92
  {
    hide Digits, HeaderText, VarTexts, NumberTexts;
    HeaderLength(r, now);
    VarsLength(r.vars, ft);
    SmallDigits(|r.vars|);
    var hk, log := Elapsed(r.hkSlotMs, r.shape[r.state].hk, now), Elapsed(r.logSlotMs, r.shape[r.state].log, now);
    NumbersLength(hk);
    NumbersLength(log);
    SmallDigits(|hk|);
    SmallDigits(|log|);
  }

  // ----- Building it -----

  /** snprintf at the end of the record; a piece that does not fit is left out. */
  method Append(record: string, piece: string) returns (r: string)
    ensures r == if |record| + |piece| < RECORD_SIZE then record + piece else record
  {
    r := record;
    if |record| + |piece| < RECORD_SIZE {
      r := record + piece;
    }
  }

  method AppendVarsSection(record: string, vars: seq<Var>, ft: FloatText) returns (out: string)
    requires |record| + |VarsSection(vars, ft)| < RECORD_SIZE
    ensures out == record + VarsSection(vars, ft)
  {
    hide NumberText, VarTexts;
    out := record;
    if |vars| == 0 { return; }
    out := out + NumberText(|vars|);
    out := AppendEntries(out, vars, ft);
  }

  method AppendEntries(head: string, vars: seq<Var>, ft: FloatText) returns (out: string)
    requires |head| + |VarTexts(vars, ft)| < RECORD_SIZE
    ensures out == head + VarTexts(vars, ft)
  {
    hide VarText, VarTexts;
    out := head;
    NoVars(vars, ft);
    var vi := 0;
    while vi < |vars|
      invariant vi <= |vars|
      invariant out == head + VarTexts(vars[..vi], ft)
    {
      NextEntryFits(head, vars, vi, ft);
      out := Append(out, VarText(vars[vi], ft));
      vi := vi + 1;
    }
    assert vars[..vi] == vars;
  }

  lemma NoVars(vars: seq<Var>, ft: FloatText)
    ensures VarTexts(vars[..0], ft) == ""
  {
  }

  lemma NextEntryFits(head: string, vars: seq<Var>, i: nat, ft: FloatText)
    requires i < |vars| && |head| + |VarTexts(vars, ft)| < RECORD_SIZE
    ensures |head + VarTexts(vars[..i], ft)| + |VarText(vars[i], ft)| < RECORD_SIZE
    ensures (head + VarTexts(vars[..i], ft)) + VarText(vars[i], ft) == head + VarTexts(vars[..i + 1], ft)
  {
    hide VarText, VarTexts;
    VarTextsStep(vars, i, ft);
    OneMorePiece(head, VarTexts(vars[..i], ft), VarText(vars[i], ft), VarTexts(vars[..i + 1], ft),
                 |VarTexts(vars, ft)|);
  }

  lemma OneMorePiece(head: string, a: string, b: string, c: string, total: nat)
    requires c == a + b && |c| <= total && |head| + total < RECORD_SIZE
    ensures |head + a| + |b| < RECORD_SIZE && (head + a) + b == head + c
  {
  }

  lemma {:induction false} VarTextsStep(vars: seq<Var>, i: nat, ft: FloatText)
    requires i < |vars|
    ensures VarTexts(vars[..i + 1], ft) == VarTexts(vars[..i], ft) + VarText(vars[i], ft)
    ensures |VarTexts(vars[..i + 1], ft)| <= |VarTexts(vars, ft)|
    decreases |vars| - i
  {
    assert vars[..i + 1][..i] == vars[..i];
    if i + 1 < |vars| {
      VarTextsStep(vars, i + 1, ft);
    } else {
      assert vars[..i + 1] == vars;
    }
  }

  lemma {:induction false} NumberTextsStep(xs: seq<nat>, i: nat)
    requires i < |xs|
    ensures NumberTexts(xs[..i + 1]) == NumberTexts(xs[..i]) + NumberText(xs[i])
    ensures |NumberTexts(xs[..i + 1])| <= |NumberTexts(xs)|
    decreases |xs| - i
  {
    assert xs[..i + 1][..i] == xs[..i];
    if i + 1 < |xs| {
      NumberTextsStep(xs, i + 1);
    } else {
      assert xs[..i + 1] == xs;
    }
  }

  /** The next piece fits whenever all of them do. */
  lemma NextFits(head: string, xs: seq<nat>, s: nat)
    requires s < |xs| && |head| + |NumberTexts(xs)| < RECORD_SIZE
    ensures |head + NumberTexts(xs[..s])| + |NumberText(xs[s])| < RECORD_SIZE
    ensures (head + NumberTexts(xs[..s])) + NumberText(xs[s]) == head + NumberTexts(xs[..s + 1])
  {
    hide NumberText, NumberTexts;
    NumberTextsStep(xs, s);
    OneMorePiece(head, NumberTexts(xs[..s]), NumberText(xs[s]), NumberTexts(xs[..s + 1]), |NumberTexts(xs)|);
  }

  lemma NoNumbers(xs: seq<nat>)
    ensures NumberTexts(xs[..0]) == ""
  {
  }

  method AppendElapsed(head: string, slotMs: seq<nat>, n: nat, now: nat) returns (out: string)
    requires n <= |slotMs| && Words(slotMs) && now < TWO32
    requires |head| + |NumberTexts(Elapsed(slotMs, n, now))| < RECORD_SIZE
    ensures out == head + NumberTexts(Elapsed(slotMs, n, now))
  {
    hide NumberText, NumberTexts;
    ghost var xs := Elapsed(slotMs, n, now);
    out := head;
    NoNumbers(xs);
    var s := 0;
    while s < n
      invariant s <= n
      invariant out == head + NumberTexts(xs[..s])
    {
      NextFits(head, xs, s);
      out := Append(out, NumberText(Since(now, slotMs[s])));
      s := s + 1;
    }
    assert xs[..s] == xs;
  }

  /** The count of the slots and the elapsed time of each. */
  method AppendSlots(record: string, slotMs: seq<nat>, n: nat, now: nat) returns (out: string)
    requires n <= |slotMs| && Words(slotMs) && now < TWO32
    requires |record| + |NumberText(n) + NumberTexts(Elapsed(slotMs, n, now))| < RECORD_SIZE
    ensures out == record + (NumberText(n) + NumberTexts(Elapsed(slotMs, n, now)))
  {
    hide NumberText, NumberTexts, Elapsed;
    out := Append(record, NumberText(n));
    out := AppendElapsed(out, slotMs, n, now);
  }

  method BuildCheckpointRecord(r: Runtime, ft: FloatText, now: nat) returns (ok: bool, record: string)
    requires RuntimeSane(r) && Prints(ft) && now < TWO32
    ensures ok && record == Print(r, ft, now)
  {
    hide HeaderText, NumberText, NumberTexts, VarsSection;
    RecordFits(r, ft, now);
    record := HeaderText(r, now);
    if |record| >= RECORD_SIZE {
      assert false;
    }
    record := AppendVarsSection(record, r.vars, ft);
    record := AppendSlots(record, r.hkSlotMs, r.shape[r.state].hk, now);
    record := AppendSlots(record, r.logSlotMs, r.shape[r.state].log, now);
    ok := true;
  }
}
