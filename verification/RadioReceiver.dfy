/**
 The receive path of src/comms/radio_dispatcher.cpp: octets arrive in arbitrary chunks, are
 collected in a fixed buffer, and frames are cut out of it in place.
 */
module RadioReceiver {
  import opened Bytes
  import opened RadioProtocol

  const RX_BUF_LEN := 428
  const MAX_FRAMES_PER_POLL := 30

  // ----- The reference: one greedy parse of a whole octet stream -----

  /** What the octets from a position on say about a frame starting there. */
  datatype Verdict = Undecided | Noise | Good(n: nat)

  function Judge(s: seq<Byte>): (v: Verdict)
    requires s != []
    ensures v.Good? ==> MIN_FRAME_LEN <= v.n <= |s| && v.n <= MAX_FRAME_LEN
  {
    hide Value, Accepts;
    if s[0] != SYNC_0 then Noise
    else if |s| < MIN_FRAME_LEN then Undecided
    else if WireLen(s) > MAX_FRAME_LEN then Noise
    else if |s| < WireLen(s) then Undecided
    else if Accepts(s[..WireLen(s)]) then Good(WireLen(s))
    else Noise
  }

  datatype Parsed = Parsed(frames: seq<Frame>, tail: seq<Byte>)

  /** Takes every frame it can, skips octets that cannot start one, stops where more is needed. */
  function Parse(s: seq<Byte>): Parsed
    decreases |s|
  {
    if s == [] then Parsed([], [])
    else match Judge(s)
      case Undecided => Parsed([], s)
      case Noise => Parse(s[1..])
      case Good(n) =>
        var rest := Parse(s[n..]);
        Parsed([Taken(s, n)] + rest.frames, rest.tail)
  }

  function Taken(s: seq<Byte>, n: nat): Frame
    requires s != [] && Judge(s) == Good(n)
  {
    hide Value;
    assert Accepts(s[..n]) && WireLen(s[..n]) == n;
    FrameOf(s[..n], BlankFrame())
  }

  lemma JudgeAppend(s: seq<Byte>, t: seq<Byte>)
    requires s != [] && Judge(s) != Undecided
    ensures Judge(s + t) == Judge(s)
    ensures Judge(s).Good? ==> Taken(s + t, Judge(s).n) == Taken(s, Judge(s).n)
  {
    hide Value, Accepts;
    if s[0] == SYNC_0 && WireLen(s) <= MAX_FRAME_LEN {
      assert (s + t)[..WireLen(s)] == s[..WireLen(s)];
    }
  }

  /** Parsing may stop anywhere and go on with what was left. */
  lemma {:induction false} ParseAppend(s: seq<Byte>, t: seq<Byte>)
    ensures Parse(s + t).frames == Parse(s).frames + Parse(Parse(s).tail + t).frames
    ensures Parse(s + t).tail == Parse(Parse(s).tail + t).tail
    decreases |s|
  {
    hide Judge, Taken;
    if s == [] {
      assert s + t == t;
    } else {
      match Judge(s)
      case Undecided =>
      case Noise =>
        JudgeAppend(s, t);
        assert (s + t)[1..] == s[1..] + t;
        ParseAppend(s[1..], t);
      case Good(n) =>
        JudgeAppend(s, t);
        assert (s + t)[n..] == s[n..] + t;
        ParseAppend(s[n..], t);
    }
  }

  lemma {:induction false} ParseWithoutSync(s: seq<Byte>)
    requires SYNC_0 !in s
    ensures Parse(s) == Parsed([], [])
    decreases |s|
  {
    hide Value, Accepts;
    if s != [] {
      ParseWithoutSync(s[1..]);
    }
  }

  lemma {:induction false} ParseShort(s: seq<Byte>)
    requires |s| < MIN_FRAME_LEN
    ensures Parse(s).frames == []
    decreases |s|
  {
    if s != [] && Judge(s) == Noise {
      ParseShort(s[1..]);
    }
  }

  lemma {:induction false} ParseSkips(s: seq<Byte>, n: nat)
    requires n <= |s| && SYNC_0 !in s[..n]
    ensures Parse(s) == Parse(s[n..])
    decreases n
  {
    hide Value, Accepts;
    if n > 0 {
      assert s[0] == s[..n][0];
      assert s[1..][..n - 1] == s[..n][1..];
      ParseSkips(s[1..], n - 1);
      assert s[1..][n - 1..] == s[n..];
    }
  }

  // ----- Recovery of a frame behind noise -----

  /** The parse of `s` takes `f` at offset `at`. */
  ghost predicate TakesAt(s: seq<Byte>, at: nat, f: Frame)
    decreases |s|
  {
    s != [] && match Judge(s)
               case Undecided => false
               case Noise => at >= 1 && TakesAt(s[1..], at - 1, f)
               case Good(n) => (at == 0 && f == Taken(s, n)) || (at >= n && TakesAt(s[n..], at - n, f))
  }

  lemma {:induction false} TakenIsDispatched(s: seq<Byte>, at: nat, f: Frame)
    requires TakesAt(s, at, f)
    ensures f in Parse(s).frames
    decreases |s|
  {
    hide Judge, Taken;
    match Judge(s)
    case Noise => TakenIsDispatched(s[1..], at - 1, f);
    case Good(n) =>
      if at >= n && TakesAt(s[n..], at - n, f) {
        TakenIsDispatched(s[n..], at - n, f);
      }
  }

  /** Some frame taken earlier reaches over offset `at`. */
  ghost predicate Overlapped(s: seq<Byte>, at: nat) {
    exists k: nat, g: Frame :: k < at && TakesAt(s, k, g) && at < k + MIN_FRAME_LEN + Value(g.len)
  }

  lemma TakenLength(s: seq<Byte>, n: nat)
    requires s != [] && Judge(s) == Good(n)
    ensures MIN_FRAME_LEN + Value(Taken(s, n).len) == n
  {
    hide Value, Accepts;
  }

  lemma FrameAtFront(f: Frame, t: seq<Byte>)
    requires WellFormed(f)
    ensures TakesAt(Wire(f) + t, 0, Clean(f))
  {
    var s := Wire(f) + t;
    hide Value, WellFormed, Wire, HeaderOk, Accepts;
    WellFormedFits(f);
    DecodeOfEncode(f, t, BlankFrame());
    DecodeOfEncode(f, [], BlankFrame());
    assert s[..WireLen(s)] == Wire(f) == Wire(f) + [];
    AcceptedStarts(s);
  }

  lemma AcceptedStarts(s: seq<Byte>)
    requires Accepts(s)
    ensures |s| >= WireLen(s) >= MIN_FRAME_LEN && s[0] == SYNC_0 && WireLen(s) <= MAX_FRAME_LEN
  {
    hide Value;
  }

  /** `f` as a zero-initialised frame record receives it. */
  function Clean(f: Frame): Frame
    requires Value(f.len) <= MAX_PAYLOAD_LEN
  {
    f.(payload := f.payload[..Value(f.len)] + BlankPayload()[Value(f.len)..])
  }

  /** The parse waits for octets at a candidate that starts before offset `at`. */
  predicate StalledBefore(s: seq<Byte>, at: nat)
    requires at <= |s|
  {
    |Parse(s).tail| > |s| - at
  }

  /** The parse of `s` takes `f` at offset `at`, so `f` is among the frames handed on. */
  ghost predicate Recovered(s: seq<Byte>, at: nat, f: Frame) {
    TakesAt(s, at, f) && f in Parse(s).frames
  }

  /**
   A well-formed frame behind any noise, and before any octets, is taken at its place and handed on, unless a
   frame taken earlier overlaps its start or the parse still waits at an earlier candidate. It no longer waits
   once two hundred octets have followed.
   */
  lemma {:induction false} RecoveredUnlessOverlapped(noise: seq<Byte>, f: Frame, t: seq<Byte>)
    requires WellFormed(f)
    ensures Value(f.len) <= MAX_PAYLOAD_LEN
    ensures var s := noise + (Wire(f) + t);
            || Recovered(s, |noise|, Clean(f))
            || Overlapped(s, |noise|)
            || (StalledBefore(s, |noise|) && |t| < MAX_FRAME_LEN - MIN_FRAME_LEN)
  {
    hide Judge, Taken, Wire, WellFormed, TakesAt, Overlapped, Clean, Value, Parse;
    WellFormedFits(f);
    var s := noise + (Wire(f) + t);
    TakenOrNot(noise, f, t);
    if TakesAt(s, |noise|, Clean(f)) {
      TakenIsDispatched(s, |noise|, Clean(f));
    }
    if StalledBefore(s, |noise|) && |t| >= MAX_FRAME_LEN - MIN_FRAME_LEN {
      ImageLength(f);
      TailUndecided(s);
      EnoughDecides(Parse(s).tail);
    }
  }

  lemma {:induction false} TailUndecided(s: seq<Byte>)
    ensures Parse(s).tail != [] ==> Judge(Parse(s).tail) == Undecided
    decreases |s|
  {
    hide Judge, Taken;
    if s != [] {
      match Judge(s)
      case Undecided =>
      case Noise => TailUndecided(s[1..]);
      case Good(n) => TailUndecided(s[n..]);
    }
  }

  lemma {:induction false} TakenOrNot(noise: seq<Byte>, f: Frame, t: seq<Byte>)
    requires WellFormed(f)
    ensures Value(f.len) <= MAX_PAYLOAD_LEN
    ensures var s := noise + (Wire(f) + t);
            TakesAt(s, |noise|, Clean(f)) || Overlapped(s, |noise|) || StalledBefore(s, |noise|)
    decreases |noise|
  {
    hide Judge, Taken, Wire, WellFormed, TakesAt, Overlapped, Clean, Value, Parse;
    WellFormedFits(f);
    var rest := Wire(f) + t;
    var s := noise + rest;
    if noise == [] {
      assert s == rest && |noise| == 0;
      FrameAtFront(f, t);
    } else if Judge(s) == Undecided {
      WaitsAtOnce(s);
    } else {
      var n := if Judge(s).Good? then Judge(s).n else 1;
      ParseGoesOn(s, n);
      if n > |noise| {
        FirstOverlaps(s, |noise|);
      } else {
        DropFromLeft(noise, rest, n);
        TakenOrNot(noise[n..], f, t);
        if !StalledBefore(s[n..], |noise| - n) {
          LaterIsTaken(s, n, |noise|, Clean(f));
        }
      }
    }
  }

  lemma WaitsAtOnce(s: seq<Byte>)
    requires s != [] && Judge(s) == Undecided
    ensures Parse(s).tail == s
  {
    hide Judge;
  }

  lemma ParseGoesOn(s: seq<Byte>, n: nat)
    requires s != [] && Judge(s) != Undecided && n == if Judge(s).Good? then Judge(s).n else 1
    ensures 0 < n <= |s| && Parse(s).tail == Parse(s[n..]).tail
  {
    JudgedLength(s);
    hide Judge, Taken;
  }

  lemma JudgedLength(s: seq<Byte>)
    requires s != []
    ensures Judge(s).Good? ==> MIN_FRAME_LEN <= Judge(s).n <= |s|
  {
    hide Value, Accepts;
  }

  lemma ImageLength(f: Frame)
    requires Value(f.len) <= MAX_PAYLOAD_LEN
    ensures |Wire(f)| >= MIN_FRAME_LEN
  {
  }

  lemma DropFromLeft(a: seq<Byte>, b: seq<Byte>, n: nat)
    requires n <= |a|
    ensures (a + b)[n..] == a[n..] + b
  {
  }

  lemma EnoughDecides(s: seq<Byte>)
    requires |s| >= MAX_FRAME_LEN
    ensures Judge(s) != Undecided
    ensures Judge(s).Good? ==> 0 < Judge(s).n <= |s|
  {
    hide Value, Accepts;
  }

  lemma FirstOverlaps(s: seq<Byte>, at: nat)
    requires s != [] && Judge(s).Good? && 0 < at < Judge(s).n
    ensures Overlapped(s, at)
  {
    hide Judge, Taken;
    var n := Judge(s).n;
    TakenLength(s, n);
    assert TakesAt(s, 0, Taken(s, n));
  }

  lemma LaterIsTaken(s: seq<Byte>, n: nat, at: nat, f: Frame)
    requires s != [] && Judge(s) != Undecided && n == if Judge(s).Good? then Judge(s).n else 1
    requires n <= at && (TakesAt(s[n..], at - n, f) || Overlapped(s[n..], at - n))
    ensures TakesAt(s, at, f) || Overlapped(s, at)
  {
    hide Judge, Taken;
    if !TakesAt(s[n..], at - n, f) {
      var k: nat, g: Frame :| k < at - n && TakesAt(s[n..], k, g) && at - n < k + MIN_FRAME_LEN + Value(g.len);
      assert TakesAt(s, k + n, g);
    }
  }

  // ----- The receiver -----

  /** What was dispatched, followed by what the buffer still yields, is the parse of the stream. */
  ghost predicate InStep(stream: seq<Byte>, dispatched: seq<Frame>, buffer: seq<Byte>) {
    && Parse(stream).frames == dispatched + Parse(buffer).frames
    && Parse(stream).tail == Parse(buffer).tail
  }

  lemma InStepAppend(stream: seq<Byte>, dispatched: seq<Frame>, buffer: seq<Byte>, more: seq<Byte>)
    requires InStep(stream, dispatched, buffer)
    ensures InStep(stream + more, dispatched, buffer + more)
  {
    hide Parse;
    ParseAppend(stream, more);
    ParseAppend(buffer, more);
  }

  lemma TakenIs(s: seq<Byte>, n: nat)
    requires n <= |s| && MIN_FRAME_LEN <= n <= MAX_FRAME_LEN && s[0] == SYNC_0 && n == WireLen(s)
    requires Accepts(s[..n])
    ensures Judge(s) == Good(n)
    ensures Taken(s, n) == FrameOf(s[..n], BlankFrame())
  {
    hide Value, Accepts;
  }

  class Receiver {
    const rxBuf: array<Byte>
    var rxLen: nat
    /** Every frame handed to the dispatcher so far. */
    var dispatched: seq<Frame>
    /** Every octet the radio delivered so far. */
    ghost var stream: seq<Byte>

    ghost predicate Valid()
      reads this, rxBuf
    {
      && rxBuf.Length == RX_BUF_LEN
      && rxLen <= RX_BUF_LEN
      && InStep(stream, dispatched, rxBuf[..rxLen])
    }

    constructor ()
      ensures Valid() && fresh(rxBuf)
      ensures rxLen == 0 && dispatched == [] && stream == []
    {
      rxBuf := new Byte[RX_BUF_LEN];
      rxLen := 0;
      dispatched := [];
      stream := [];
    }

    /** Drops the first `n` octets of the buffer: memmove and a shorter length. */
    method Drop(n: nat)
      requires n <= rxLen <= rxBuf.Length
      modifies this`rxLen, rxBuf
      ensures rxLen == old(rxLen) - n
      ensures rxBuf[..rxLen] == old(rxBuf[n..rxLen])
    {
      forall i | 0 <= i < rxLen - n {
        rxBuf[i] := rxBuf[n + i];
      }
      rxLen := rxLen - n;
    }

    /** The bounded scan for the first sync octet. */
    method FindSync() returns (pos: nat)
      requires rxLen <= rxBuf.Length
      ensures pos <= rxLen && SYNC_0 !in rxBuf[..pos]
      ensures pos < rxLen ==> rxBuf[pos] == SYNC_0
    {
      pos := 0;
      while pos < rxLen
        invariant pos <= rxLen && SYNC_0 !in rxBuf[..pos]
      {
        if rxBuf[pos] == SYNC_0 { return; }
        pos := pos + 1;
      }
    }

    /** Steps 3 to 7 of an attempt: the buffer starts with a sync octet. */
    method TryFrame() returns (stop: bool)
      requires Valid() && rxLen >= MIN_FRAME_LEN && rxBuf[0] == SYNC_0
      modifies this`rxLen, this`dispatched, rxBuf
      ensures Valid() && rxLen <= old(rxLen)
      ensures old(dispatched) <= dispatched
      ensures !stop || old(rxLen) >= MAX_FRAME_LEN ==> rxLen < old(rxLen)
      ensures stop ==> Parse(rxBuf[..rxLen]).frames == []
    {
      hide Value, Accepts, Taken, FrameOf;
      ghost var s := rxBuf[..rxLen];
      var totalLen := HEADER_LEN + Value(rxBuf[9]) + CRC_LEN;
      assert WireLen(s) == totalLen;
      if totalLen > MAX_FRAME_LEN {
        Drop(1);
        assert rxBuf[..rxLen] == s[1..];
        return false;
      }
      if rxLen < totalLen {
        return true;
      }
      var ok, frame := Decode(rxBuf, totalLen, BlankFrame());
      assert rxBuf[..totalLen] == s[..totalLen];
      if !ok {
        Drop(1);
        assert rxBuf[..rxLen] == s[1..];
        return false;
      }
      TakenIs(s, totalLen);
      Drop(totalLen);
      assert rxBuf[..rxLen] == s[totalLen..];
      assert Parse(s).frames == [frame] + Parse(s[totalLen..]).frames;
      assert dispatched + Parse(s).frames == (dispatched + [frame]) + Parse(s[totalLen..]).frames;
      dispatched := dispatched + [frame];
      return false;
    }

    /** One attempt of the outer loop; `stop` says that the loop returns. */
    method Attempt() returns (stop: bool)
      requires Valid()
      modifies this`rxLen, this`dispatched, rxBuf
      ensures Valid() && rxLen <= old(rxLen)
      ensures old(dispatched) <= dispatched
      ensures !stop || old(rxLen) >= MAX_FRAME_LEN ==> rxLen < old(rxLen)
      ensures stop ==> Parse(rxBuf[..rxLen]).frames == []
    {
      hide Parse;
      ghost var whole := rxBuf[..rxLen];
      if rxLen < MIN_FRAME_LEN {
        ParseShort(whole);
        return true;
      }
      var syncPos := FindSync();
      assert rxBuf[..syncPos] == whole[..syncPos];
      if syncPos == rxLen {
        ParseWithoutSync(whole);
        ParseWithoutSync([]);
        rxLen := 0;
        return true;
      }
      assert whole[syncPos] == SYNC_0;
      ParseSkips(whole, syncPos);
      if syncPos > 0 {
        Drop(syncPos);
      }
      assert rxBuf[..rxLen] == whole[syncPos..];
      if rxLen < MIN_FRAME_LEN {
        ParseShort(rxBuf[..rxLen]);
        return true;
      }
      assert rxBuf[0] == rxBuf[..rxLen][0] == whole[syncPos];
      stop := TryFrame();
    }

    method ProcessBuffer()
      requires Valid()
      modifies this`rxLen, this`dispatched, rxBuf
      ensures Valid() && rxLen <= old(rxLen)
      ensures old(dispatched) <= dispatched
      ensures old(rxLen) >= MAX_FRAME_LEN ==> rxLen < old(rxLen)
      ensures rxLen == old(rxLen) ==> Parse(rxBuf[..rxLen]).frames == []
    {
      var attempt := 0;
      while attempt < MAX_FRAMES_PER_POLL
        invariant Valid()
        invariant old(dispatched) <= dispatched
        invariant rxLen + attempt <= old(rxLen)
        invariant attempt > 0 ==> rxLen < old(rxLen)
      {
        var stop := Attempt();
        if stop { return; }
        attempt := attempt + 1;
      }
    }

    /**
     The receive half of `poll`. The radio driver hands over `received`, at most the free space.
     */
    method Poll(received: seq<Byte>)
      requires Valid() && |received| <= RX_BUF_LEN - rxLen
      modifies this, rxBuf
      ensures Valid() && stream == old(stream) + received
      ensures old(dispatched) <= dispatched <= Parse(stream).frames
      ensures rxLen <= old(rxLen) + |received|
      ensures old(rxLen) + |received| == RX_BUF_LEN ==> rxLen < RX_BUF_LEN
      ensures rxLen == old(rxLen) + |received| ==> dispatched == Parse(stream).frames
    {
      hide Value, Accepts, Taken;
      if rxLen < RX_BUF_LEN {
        ghost var before := rxBuf[..rxLen];
        forall i | 0 <= i < |received| {
          rxBuf[rxLen + i] := received[i];
        }
        InStepAppend(stream, dispatched, before, received);
        assert rxBuf[..rxLen + |received|] == before + received;
        stream := stream + received;
        rxLen := rxLen + |received|;
      } else {
        assert stream == stream + received;
      }
      ghost var s := rxBuf[..rxLen];
      if rxLen >= MIN_FRAME_LEN {
        ProcessBuffer();
      } else {
        ParseShort(s);
      }
    }
  }

  /** A silent radio: polling goes on until a poll leaves the buffer as it was. */
  method PollUntilQuiet(r: Receiver)
    requires r.Valid()
    modifies r, r.rxBuf
    ensures r.Valid() && r.stream == old(r.stream)
    ensures r.dispatched == Parse(r.stream).frames
  {
    var before := r.rxLen + 1;
    while r.rxLen != before
      invariant r.Valid() && r.stream == old(r.stream)
      invariant r.rxLen <= before
      invariant r.rxLen == before ==> r.dispatched == Parse(r.stream).frames
      decreases before
    {
      before := r.rxLen;
      r.Poll([]);
      assert old(r.stream) + [] == old(r.stream);
    }
  }

  /** However one octet stream was cut into polls, the dispatched frames agree as far as they go. */
  lemma ChunkIndependence(a: Receiver, b: Receiver)
    requires a.Valid() && b.Valid() && a.stream == b.stream
    ensures a.dispatched <= Parse(a.stream).frames
    ensures a.dispatched <= b.dispatched || b.dispatched <= a.dispatched
  {
    hide Parse;
  }

  /** A receiver at rest has dispatched every frame of its stream that nothing overlaps or holds up. */
  lemma FrameReachesDispatcher(r: Receiver, noise: seq<Byte>, f: Frame, t: seq<Byte>)
    requires WellFormed(f) && r.Valid() && r.stream == noise + (Wire(f) + t)
    requires Parse(r.rxBuf[..r.rxLen]).frames == []
    ensures Value(f.len) <= MAX_PAYLOAD_LEN
    ensures || Clean(f) in r.dispatched
            || Overlapped(r.stream, |noise|)
            || (StalledBefore(r.stream, |noise|) && |t| < MAX_FRAME_LEN - MIN_FRAME_LEN)
  {
    hide Parse, Wire, WellFormed, Overlapped, Clean, StalledBefore, TakesAt, Value;
    RecoveredUnlessOverlapped(noise, f, t);
  }
}
