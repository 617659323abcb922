/**
 Delta encoding of altitude and pressure in HK frames (src/ams/mission_script_engine_telemetry.cpp:105-136
 and 203-232, src/ams/mission_script_engine.cpp:209-218), over the reals.
 */
module DeltaTelemetry {
  const DELTA_RESYNC_INTERVAL := 10
  const MAX_DELTA_ALT_M := 10000.0
  const MAX_DELTA_PRESS_PA := 100000.0
  const TWO16 := 0x1_0000

  datatype Sample = Sample(alt: real, press: real)

  /** The two encoded fields of a frame and its STATUS_DELTA_FRAME bit. */
  datatype HkFrame = HkFrame(alt: real, press: real, delta: bool)

  datatype Encoder = Encoder(base: Sample, baseValid: bool, txCount: nat)

  function NewEncoder(): Encoder {
    Encoder(Sample(0.0, 0.0), false, 0)
  }

  predicate Overflows(x: Sample, base: Sample) {
    || x.alt - base.alt > MAX_DELTA_ALT_M || x.alt - base.alt < -MAX_DELTA_ALT_M
    || x.press - base.press > MAX_DELTA_PRESS_PA || x.press - base.press < -MAX_DELTA_PRESS_PA
  }

  predicate SendsDelta(e: Encoder, x: Sample) {
    e.baseValid && !Forced(e.txCount) && !Overflows(x, e.base)
  }

  function Encode(e: Encoder, x: Sample): (r: (Encoder, HkFrame)) {
    var next := (e.txCount + 1) % TWO16;
    if SendsDelta(e, x) then (e.(txCount := next), HkFrame(x.alt - e.base.alt, x.press - e.base.press, true))
    else (Encoder(x, true, next), HkFrame(x.alt, x.press, false))
  }

  // ----- Runs -----

  /** A report of a sample, or the reset done on deactivation. */
  datatype Step = Report(x: Sample) | ResetState

  datatype Link = Link(e: Encoder, frames: seq<HkFrame>, samples: seq<Sample>)

  function Take(l: Link, s: Step): Link {
    match s
    case ResetState => l.(e := NewEncoder())
    case Report(x) =>
      var (e, f) := Encode(l.e, x);
      Link(e, l.frames + [f], l.samples + [x])
  }

  function Run(steps: seq<Step>): Link
    decreases |steps|
  {
    if steps == [] then Link(NewEncoder(), [], []) else Take(Run(steps[..|steps| - 1]), steps[|steps| - 1])
  }

  // ----- The ground decoder -----

  /** Keeps the last absolute values heard and adds deltas to them. */
  function Decode(base: Sample, f: HkFrame): Sample {
    if f.delta then Sample(base.alt + f.alt, base.press + f.press) else Sample(f.alt, f.press)
  }

  function NextBase(base: Sample, f: HkFrame): Sample {
    if f.delta then base else Sample(f.alt, f.press)
  }

  /** The decoder's base after the frames of `frames` it heard. */
  function BaseAfter(base: Sample, frames: seq<HkFrame>, heard: nat -> bool): Sample
    decreases |frames|
  {
    if frames == [] then base
    else
      var n := |frames| - 1;
      var before := BaseAfter(base, frames[..n], heard);
      if heard(n) then NextBase(before, frames[n]) else before
  }

  /** The index of the last absolute frame, or the number of frames. */
  function LastAbsolute(frames: seq<HkFrame>): (a: nat)
    ensures a <= |frames| && (a < |frames| ==> !frames[a].delta)
    ensures forall k :: 0 <= k < |frames| && (a == |frames| || a < k) ==> frames[k].delta
    decreases |frames|
  {
    if frames == [] then 0
    else
      var n := |frames| - 1;
      if !frames[n].delta then n
      else if LastAbsolute(frames[..n]) == n then n + 1 else LastAbsolute(frames[..n])
  }

  /** Delta frames since the last absolute one. */
  function Trailing(frames: seq<HkFrame>): (t: nat)
    ensures t <= |frames|
    decreases |frames|
  {
    if frames == [] || !frames[|frames| - 1].delta then 0 else Trailing(frames[..|frames| - 1]) + 1
  }

  predicate WithinLimits(f: HkFrame) {
    f.delta ==> -MAX_DELTA_ALT_M <= f.alt <= MAX_DELTA_ALT_M && -MAX_DELTA_PRESS_PA <= f.press <= MAX_DELTA_PRESS_PA
  }

  /** The encoder's base is the sample of the last absolute frame. */
  predicate Tracks(l: Link) {
    && |l.frames| == |l.samples|
    && (l.e.baseValid ==> LastAbsolute(l.frames) < |l.frames| && l.e.base == l.samples[LastAbsolute(l.frames)])
    && (l.frames != [] ==> !l.frames[0].delta)
  }

  /** The 16-bit counter bounds the run of deltas. */
  predicate Paced(l: Link) {
    && l.e.txCount < TWO16 && Trailing(l.frames) < DELTA_RESYNC_INTERVAL
    && (l.e.baseValid ==> Trailing(l.frames) <= Phase(l.e.txCount))
  }

  /** How far the report before count `c` was from a forced absolute one. */
  function Phase(c: nat): nat {
    ((c + TWO16 - 1) % TWO16) % DELTA_RESYNC_INTERVAL
  }

  predicate Forced(c: nat) {
    c % DELTA_RESYNC_INTERVAL == 0
  }

  /** What every run keeps. */
  ghost predicate Kept(l: Link) {
    && Tracks(l) && Paced(l)
    && (forall k :: 0 <= k < |l.frames| ==> WithinLimits(l.frames[k]) && Relative(l, k))
  }

  /** Frame `k` is its sample, or the difference to the sample of the last absolute frame before it. */
  ghost predicate Relative(l: Link, k: nat)
    requires k < |l.frames| == |l.samples|
  {
    var a := LastAbsolute(l.frames[..k + 1]);
    a <= k && Decode(l.samples[a], l.frames[k]) == l.samples[k]
  }

  lemma ReportTracks(l: Link, x: Sample)
    requires Tracks(l)
    ensures Tracks(Take(l, Report(x)))
  {
    hide Overflows;
    var r := Take(l, Report(x));
    assert r.frames[..|l.frames|] == l.frames;
  }

  lemma ReportPaced(l: Link, x: Sample)
    requires Paced(l)
    ensures Paced(Take(l, Report(x)))
  {
    hide Overflows, Phase, Forced;
    CountStep(l.e.txCount);
    var r := Take(l, Report(x));
    assert r.e.txCount == (l.e.txCount + 1) % TWO16;
    assert r.frames == l.frames + [r.frames[|l.frames|]];
    OneMoreFrame(l.frames, r.frames[|l.frames|]);
  }

  lemma OneMoreFrame(frames: seq<HkFrame>, f: HkFrame)
    ensures Trailing(frames + [f]) == if f.delta then Trailing(frames) + 1 else 0
  {
    assert (frames + [f])[..|frames|] == frames;
  }

  lemma ReportRelates(l: Link, x: Sample)
    requires Tracks(l)
    ensures Tracks(Take(l, Report(x)))
    ensures WithinLimits(Take(l, Report(x)).frames[|l.frames|]) && Relative(Take(l, Report(x)), |l.frames|)
  {
    ReportTracks(l, x);
    var r := Take(l, Report(x));
    var n := |l.frames|;
    assert r.frames[..n] == l.frames && r.frames[..n + 1] == r.frames;
  }

  lemma ReportKeeps(l: Link, x: Sample)
    requires Kept(l)
    ensures Kept(Take(l, Report(x)))
  {
    hide Tracks, Paced, Encode, WithinLimits, Relative;
    ReportTracks(l, x);
    ReportPaced(l, x);
    ReportRelates(l, x);
    SameLength(l);
    var r := Take(l, Report(x));
    forall k | 0 <= k < |l.frames| ensures WithinLimits(r.frames[k]) && Relative(r, k) {
      OlderRelate(l, r, k);
    }
  }

  lemma OlderRelate(l: Link, r: Link, k: nat)
    requires k < |l.frames| == |l.samples| && |r.frames| == |r.samples|
    requires l.frames <= r.frames && l.samples <= r.samples && Relative(l, k)
    ensures Relative(r, k)
  {
    hide Decode;
    assert r.frames[..k + 1] == l.frames[..k + 1];
  }

  lemma ResetKeeps(l: Link)
    requires Kept(l)
    ensures Kept(l.(e := NewEncoder()))
  {
    hide Decode, WithinLimits;
    forall k | 0 <= k < |l.frames| ensures Relative(l.(e := NewEncoder()), k) {
      OlderRelate(l, l.(e := NewEncoder()), k);
    }
  }

  lemma TakeKeeps(l: Link, s: Step)
    requires Kept(l)
    ensures Kept(Take(l, s))
  {
    hide Kept;
    match s
    case Report(x) => ReportKeeps(l, x);
    case ResetState => ResetKeeps(l);
  }

  lemma SameLength(l: Link)
    requires Tracks(l)
    ensures |l.frames| == |l.samples|
  {
  }

  lemma CountStep(c: nat)
    requires c < TWO16
    ensures Phase((c + 1) % TWO16) < DELTA_RESYNC_INTERVAL
    ensures !Forced(c) ==> Phase(c) + 1 == Phase((c + 1) % TWO16)
  {
    assert Phase((c + 1) % TWO16) == c % DELTA_RESYNC_INTERVAL by {
      assert ((c + 1) % TWO16 + TWO16 - 1) % TWO16 == c;
    }
    if c > 0 {
      assert (c + TWO16 - 1) % TWO16 == c - 1;
    }
  }

  lemma {:induction false} RunKeeps(steps: seq<Step>)
    ensures Kept(Run(steps))
    decreases |steps|
  {
    hide Kept, Take;
    if steps == [] {
      NothingSent();
    } else {
      RunKeeps(steps[..|steps| - 1]);
      TakeKeeps(Run(steps[..|steps| - 1]), steps[|steps| - 1]);
    }
  }

  lemma NothingSent()
    ensures Kept(Link(NewEncoder(), [], []))
  {
  }

  // ----- When a delta is sent -----

  /** Reports since the last reset. */
  function ReportsSince(steps: seq<Step>): nat
    decreases |steps|
  {
    if steps == [] || steps[|steps| - 1].ResetState? then 0 else ReportsSince(steps[..|steps| - 1]) + 1
  }

  /** The encoder counts those reports in 16 bits and knows a base once there was one. */
  lemma {:induction false} CountIsReports(steps: seq<Step>)
    ensures var e := Run(steps).e;
            e.txCount == ReportsSince(steps) % TWO16 && (e.baseValid <==> ReportsSince(steps) > 0)
    decreases |steps|
  {
    if steps != [] {
      var before := steps[..|steps| - 1];
      CountIsReports(before);
      NextCount(ReportsSince(before));
      hide SendsDelta, ReportsSince;
      StepCounts(steps);
    }
  }

  lemma NextCount(n: nat)
    ensures (n % TWO16 + 1) % TWO16 == (n + 1) % TWO16
  {
  }

  lemma StepCounts(steps: seq<Step>)
    requires steps != []
    ensures ReportsSince(steps) == if steps[|steps| - 1].ResetState? then 0 else ReportsSince(steps[..|steps| - 1]) + 1
  {
  }

  function Abs(x: real): real {
    if x < 0.0 then -x else x
  }

  /**
   Exactly when a report goes out as a delta: unless its number since the last reset, in 16 bits, is a multiple of
   ten, and as long as neither field has moved further than its limit from the last absolute frame.
   */
  lemma DeltaIff(steps: seq<Step>, x: Sample)
    ensures var l, r := Run(steps), Run(steps + [Report(x)]);
            && |r.frames| == |l.frames| + 1 && |l.samples| == |l.frames|
            && (r.frames[|l.frames|].delta <==>
                  && ReportsSince(steps) % TWO16 % 10 != 0
                  && LastAbsolute(l.frames) < |l.frames|
                  && var base := l.samples[LastAbsolute(l.frames)];
                     Abs(x.alt - base.alt) <= 10000.0 && Abs(x.press - base.press) <= 100000.0)
  {
    assert (steps + [Report(x)])[..|steps|] == steps;
    CountIsReports(steps);
    RunKeeps(steps);
    TracksOf(Run(steps));
    hide Run, ReportsSince, Kept;
    EncodesDeltaIff(Run(steps), x, ReportsSince(steps));
    RunTakes(steps, x);
  }

  lemma RunTakes(steps: seq<Step>, x: Sample)
    ensures Run(steps + [Report(x)]) == Take(Run(steps), Report(x))
  {
    assert (steps + [Report(x)])[..|steps|] == steps;
  }

  lemma TracksOf(l: Link)
    requires Kept(l)
    ensures Tracks(l)
  {
  }

  lemma EncodesDeltaIff(l: Link, x: Sample, n: nat)
    requires Tracks(l) && l.e.txCount == n % TWO16 && (l.e.baseValid <==> n > 0)
    ensures var r := Take(l, Report(x));
            && |r.frames| == |l.frames| + 1 && |l.samples| == |l.frames|
            && (r.frames[|l.frames|].delta <==>
                  && n % TWO16 % 10 != 0 && LastAbsolute(l.frames) < |l.frames|
                  && var base := l.samples[LastAbsolute(l.frames)];
                     Abs(x.alt - base.alt) <= 10000.0 && Abs(x.press - base.press) <= 100000.0)
  {
    hide LastAbsolute;
    assert n % TWO16 % 10 != 0 ==> n > 0;
  }

  // ----- Main results -----

  lemma {:induction false} BaseIsLastHeard(base: Sample, frames: seq<HkFrame>, heard: nat -> bool)
    requires LastAbsolute(frames) < |frames| && heard(LastAbsolute(frames))
    ensures var a := frames[LastAbsolute(frames)]; BaseAfter(base, frames, heard) == Sample(a.alt, a.press)
    decreases |frames|
  {
    var n := |frames| - 1;
    if frames[n].delta {
      BaseIsLastHeard(base, frames[..n], heard);
    }
  }

  /**
   A frame that is heard decodes to the sample the engine took, whatever else was lost and whatever the decoder
   believed before, provided the absolute frame it refers to was heard.
   */
  lemma DecodesDespiteLosses(steps: seq<Step>, base: Sample, heard: nat -> bool, k: nat)
    requires k < |Run(steps).frames|
    requires heard(k) && heard(LastAbsolute(Run(steps).frames[..k + 1]))
    ensures |Run(steps).samples| == |Run(steps).frames|
    ensures Decode(BaseAfter(base, Run(steps).frames[..k], heard), Run(steps).frames[k]) == Run(steps).samples[k]
  {
    hide Run;
    RunKeeps(steps);
    var l := Run(steps);
    assert Relative(l, k);
    var upTo := l.frames[..k + 1];
    var a := LastAbsolute(upTo);
    assert upTo[..k] == l.frames[..k];
    if l.frames[k].delta {
      assert a < k && LastAbsolute(l.frames[..k]) == a;
      BaseIsLastHeard(base, l.frames[..k], heard);
      AbsoluteIsSample(l, a);
    }
  }

  lemma AbsoluteIsSample(l: Link, a: nat)
    requires Kept(l) && a < |l.frames| && !l.frames[a].delta
    ensures Sample(l.frames[a].alt, l.frames[a].press) == l.samples[a]
  {
    assert Relative(l, a);
  }

  /** Without losses every sample is reconstructed. */
  lemma Lossless(steps: seq<Step>, k: nat)
    requires k < |Run(steps).frames|
    ensures |Run(steps).samples| == |Run(steps).frames|
    ensures Decode(BaseAfter(Sample(0.0, 0.0), Run(steps).frames[..k], (_: nat) => true), Run(steps).frames[k])
         == Run(steps).samples[k]
  {
    DecodesDespiteLosses(steps, Sample(0.0, 0.0), (_: nat) => true, k);
  }

  /** Every delta ever sent stays within its saturation limit. */
  lemma DeltasWithinLimits(steps: seq<Step>, k: nat)
    requires k < |Run(steps).frames|
    ensures WithinLimits(Run(steps).frames[k])
  {
    RunKeeps(steps);
  }

  lemma {:induction false} PrefixIsRun(steps: seq<Step>, n: nat) returns (before: seq<Step>)
    requires n <= |Run(steps).frames|
    ensures Run(before).frames == Run(steps).frames[..n]
    decreases |steps|
  {
    if n == |Run(steps).frames| {
      before := steps;
      assert Run(steps).frames[..n] == Run(steps).frames;
    } else {
      before := PrefixIsRun(steps[..|steps| - 1], n);
      assert Run(steps).frames[..n] == Run(steps[..|steps| - 1]).frames[..n];
    }
  }

  lemma {:induction false} TrailingAreDeltas(frames: seq<HkFrame>, n: nat)
    requires n <= |frames| && forall k :: |frames| - n <= k < |frames| ==> frames[k].delta
    ensures n <= Trailing(frames)
    decreases n
  {
    if n > 0 {
      TrailingAreDeltas(frames[..|frames| - 1], n - 1);
    }
  }

  /** Any ten consecutive frames contain an absolute one, across resets and the wrap of the 16-bit counter. */
  lemma TenContainAnAbsolute(steps: seq<Step>, at: nat)
    requires at + DELTA_RESYNC_INTERVAL <= |Run(steps).frames|
    ensures exists k :: at <= k < at + DELTA_RESYNC_INTERVAL && !Run(steps).frames[k].delta
  {
    hide Run;
    var frames := Run(steps).frames;
    var before := PrefixIsRun(steps, at + DELTA_RESYNC_INTERVAL);
    RunKeeps(before);
    if forall k :: at <= k < at + DELTA_RESYNC_INTERVAL ==> frames[k].delta {
      TrailingAreDeltas(Run(before).frames, DELTA_RESYNC_INTERVAL);
      assert false;
    }
  }

  /** A receiver that hears everything from frame `from` on is right after at most nine frames. */
  lemma ResyncsWithinTen(steps: seq<Step>, base: Sample, heard: nat -> bool, from: nat, k: nat)
    requires from + DELTA_RESYNC_INTERVAL - 1 <= k < |Run(steps).frames|
    requires forall j :: from <= j <= k ==> heard(j)
    ensures |Run(steps).samples| == |Run(steps).frames|
    ensures Decode(BaseAfter(base, Run(steps).frames[..k], heard), Run(steps).frames[k]) == Run(steps).samples[k]
  {
    hide Run;
    TenContainAnAbsolute(steps, k + 1 - DELTA_RESYNC_INTERVAL);
    var frames := Run(steps).frames;
    var j :| k + 1 - DELTA_RESYNC_INTERVAL <= j < k + 1 && !frames[j].delta;
    assert frames[..k + 1][j] == frames[j];
    DecodesDespiteLosses(steps, base, heard, k);
  }

  // ----- The fields of the engine -----

  class HkEncoder {
    var deltaBaseAlt: real
    var deltaBasePress: real
    var deltaBaseValid: bool
    var hkTxCount: nat

    ghost function Now(): Encoder
      reads this
    {
      Encoder(Sample(deltaBaseAlt, deltaBasePress), deltaBaseValid, hkTxCount)
    }

    constructor ()
      ensures Now() == NewEncoder()
    {
      deltaBaseAlt, deltaBasePress, deltaBaseValid, hkTxCount := 0.0, 0.0, false, 0;
    }

    /** The encoding part that both report routines share. */
    method EncodeReport(alt: real, press: real) returns (f: HkFrame)
      requires hkTxCount < TWO16
      modifies this
      ensures (Now(), f) == Encode(old(Now()), Sample(alt, press))
      ensures hkTxCount < TWO16
    {
      f := HkFrame(alt, press, false);
      var forceResync := !deltaBaseValid || hkTxCount % DELTA_RESYNC_INTERVAL == 0;
      if !forceResync {
        var dAlt, dPress := alt - deltaBaseAlt, press - deltaBasePress;
        var overflow := dAlt > MAX_DELTA_ALT_M || dAlt < -MAX_DELTA_ALT_M
                     || dPress > MAX_DELTA_PRESS_PA || dPress < -MAX_DELTA_PRESS_PA;
        if !overflow {
          f := HkFrame(dAlt, dPress, true);
        }
      }
      if forceResync || !f.delta {
        deltaBaseAlt, deltaBasePress, deltaBaseValid := f.alt, f.press, true;
      }
      hkTxCount := (hkTxCount + 1) % TWO16;
    }

    method ResetTelemetryState()
      modifies this
      ensures Now() == NewEncoder()
    {
      deltaBaseValid, deltaBaseAlt, deltaBasePress, hkTxCount := false, 0.0, 0.0, 0;
    }
  }
}
