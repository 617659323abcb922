/**
 Reassembly of a fragmented command (src/comms/radio_dispatcher.cpp:1038-1194): segments in any order, with
 repetitions, among any other traffic and any number of polls, give back the data exactly once.
 */
module Reassembly {
  import opened Bytes
  import opened Wrappers
  import opened Clock32
  import opened RadioProtocol
  import opened CommandQueue
  import opened CommandPath

  // ----- Cutting data into segments -----

  predicate Sendable(d: seq<Byte>) {
    0 < |d| <= FRAG_BUF_LEN
  }

  /** Ceiling division. */
  function Segments(d: seq<Byte>): (n: nat)
    requires Sendable(d)
    ensures 0 < n <= MAX_FRAG_SEGMENTS
    ensures (n - 1) * MAX_FRAG_PAYLOAD < |d| <= n * MAX_FRAG_PAYLOAD
  {
    (|d| + MAX_FRAG_PAYLOAD - 1) / MAX_FRAG_PAYLOAD
  }

  function Chunk(d: seq<Byte>, k: nat): (c: seq<Byte>)
    requires Sendable(d) && k < Segments(d)
    ensures |c| <= MAX_FRAG_PAYLOAD
  {
    var from := k * MAX_FRAG_PAYLOAD;
    if |d| - from > MAX_FRAG_PAYLOAD then d[from..from + MAX_FRAG_PAYLOAD] else d[from..]
  }

  /** `f` is segment `k` of transfer `id` of `d`. */
  predicate Carries(f: Frame, id: nat, d: seq<Byte>, k: nat)
    requires Sendable(d)
  {
    && k < Segments(d)
    && FRAG_HEADER_LEN <= Value(f.len) <= MAX_PAYLOAD_LEN
    && DecodeFrag(f) == Some(FragHeader(id, k, Segments(d)))
    && SegmentData(f) == Chunk(d, k)
  }

  predicate IsCommand(f: Frame) {
    f.msgType == COMMAND && (f.node == NODE_ROCKET || f.node == NODE_BROADCAST)
  }

  // ----- Traffic -----

  /** A received frame, or the drain of the queue at the end of a poll. */
  datatype Step = Got(frame: Frame, now: nat) | Drained(results: nat -> Byte)

  predicate StepFits(s: Step) {
    s.Got? ==> Value(s.frame.len) <= MAX_PAYLOAD_LEN && s.now < TWO32
  }

  ghost predicate AllFits(steps: seq<Step>) {
    forall s :: s in steps ==> StepFits(s)
  }

  function Take(i: Inbox, s: Step): (r: Inbox)
    requires InboxSane(i) && StepFits(s)
    ensures InboxSane(r)
  {
    match s
    case Got(f, now) => Dispatch(i, f, now)
    case Drained(results) => Drain(i, results)
  }

  function Deliver(i: Inbox, steps: seq<Step>): (r: Inbox)
    requires InboxSane(i) && AllFits(steps)
    ensures InboxSane(r)
    decreases |steps|
  {
    if steps == [] then i
    else
      var n := |steps| - 1;
      assert steps[n] in steps;
      Take(Deliver(i, steps[..n]), steps[n])
  }

  predicate PlainCommand(s: Step) {
    s.Got? && IsCommand(s.frame) && !HasFlag(s.frame.flags, FLAG_FRAGMENT)
  }

  /** A segment that the receiver understands, of whatever transfer. */
  predicate IsSegment(s: Step) {
    && s.Got? && IsCommand(s.frame) && DecodeFrag(s.frame).Some?
    && DecodeFrag(s.frame).value.totalSegments <= MAX_FRAG_SEGMENTS
  }

  /** A segment of this transfer. */
  predicate Mine(s: Step, id: nat, d: seq<Byte>)
    requires Sendable(d)
  {
    && IsSegment(s) && DecodeFrag(s.frame).value.transferId == id
    && DecodeFrag(s.frame).value.totalSegments == Segments(d)
  }

  function SegmentOf(s: Step): nat {
    if IsSegment(s) then DecodeFrag(s.frame).value.segmentNum else 0
  }

  /** Anything may arrive, but what claims to be a segment of the transfer is one. */
  ghost predicate Traffic(steps: seq<Step>, id: nat, d: seq<Byte>)
    requires Sendable(d)
  {
    forall s :: s in steps ==> Genuine(s, id, d)
  }

  predicate Genuine(s: Step, id: nat, d: seq<Byte>)
    requires Sendable(d)
  {
    StepFits(s) && (Mine(s, id, d) ==> Carries(s.frame, id, d, SegmentOf(s)))
  }

  /** The number of the last command that was not a segment; a command that repeats it is dropped. */
  function LastNumber(steps: seq<Step>, seen: Option<Byte>): Option<Byte>
    decreases |steps|
  {
    if steps == [] then seen
    else
      var n := |steps| - 1;
      if PlainCommand(steps[n]) then Some(steps[n].frame.seqNo) else LastNumber(steps[..n], seen)
  }

  predicate Heard(before: seq<Step>, s: Step, seen: Option<Byte>) {
    s.Got? && LastNumber(before, seen) != Some(s.frame.seqNo)
  }

  /** The segments that have arrived, starting with the number `seen` remembered. */
  function Have(steps: seq<Step>, id: nat, d: seq<Byte>, seen: Option<Byte>): set<nat>
    requires Sendable(d)
    decreases |steps|
  {
    if steps == [] then {}
    else
      var n := |steps| - 1;
      Have(steps[..n], id, d, seen)
      + if Mine(steps[n], id, d) && Heard(steps[..n], steps[n], seen) then {SegmentOf(steps[n])} else {}
  }

  /** When the last segment arrived that was not a repetition. */
  function LastNew(steps: seq<Step>, id: nat, d: seq<Byte>, seen: Option<Byte>): (t: nat)
    requires Sendable(d) && AllFits(steps)
    ensures t < TWO32
    decreases |steps|
  {
    if steps == [] then 0
    else
      var n := |steps| - 1;
      assert steps[n] in steps;
      if Have(steps, id, d, seen) != Have(steps[..n], id, d, seen) then StepTime(steps[n])
      else LastNew(steps[..n], id, d, seen)
  }

  function StepTime(s: Step): (t: nat)
    requires StepFits(s)
    ensures t < TWO32
  {
    if s.Got? then s.now else 0
  }

  /** A segment that arrives now opens a session: there is none, or it has gone stale. */
  predicate Free(s: Session, now: nat)
    requires SessionSane(s) && now < TWO32
  {
    !s.active || Since(now, s.lastActivityMs) >= FRAG_TIMEOUT_MS
  }

  /**
   No other transfer comes first or is still going, and no segment of any transfer arrives 30 s or more after the last
   new one: the receiver would take it for the start of a transfer.
   */
  ghost predicate Timely(steps: seq<Step>, id: nat, d: seq<Byte>, i: Inbox)
    requires Sendable(d) && AllFits(steps) && InboxSane(i)
    decreases |steps|
  {
    steps == [] || (
      var n := |steps| - 1;
      assert steps[n] in steps;
      && Timely(steps[..n], id, d, i)
      && (IsSegment(steps[n]) && Heard(steps[..n], steps[n], i.seen) ==>
            if Have(steps[..n], id, d, i.seen) == {} then Mine(steps[n], id, d) && Free(i.session, StepTime(steps[n]))
            else Since(StepTime(steps[n]), LastNew(steps[..n], id, d, i.seen)) < FRAG_TIMEOUT_MS))
  }

  function AllSegments(d: seq<Byte>): set<nat>
    requires Sendable(d)
  {
    Below(Segments(d))
  }

  function Below(n: nat): (s: set<nat>)
    ensures forall k: nat :: k in s <==> k < n
  {
    if n == 0 then {} else Below(n - 1) + {n - 1}
  }

  // ----- What an open session holds -----

  /** Octets received so far, segment by segment. */
  function Octets(received: seq<bool>, d: seq<Byte>, n: nat): nat
    requires Sendable(d) && n <= Segments(d) && |received| == MAX_FRAG_SEGMENTS
  {
    if n == 0 then 0
    else Octets(received, d, n - 1) + if received[n - 1] then |Chunk(d, n - 1)| else 0
  }

  ghost predicate Keeps(s: Session, id: nat, d: seq<Byte>, have: set<nat>)
    requires Sendable(d)
  {
    && SessionSane(s) && s.active && s.transferId == id && s.totalSegments == Segments(d)
    && have <= AllSegments(d)
    && (forall k: nat :: k < MAX_FRAG_SEGMENTS ==> (s.received[k] <==> k in have))
    && (forall j: nat :: j < |d| && j / MAX_FRAG_PAYLOAD in have ==> s.data[j] == d[j])
    && s.dataLen == Octets(s.received, d, Segments(d))
  }

  lemma {:induction false} OctetsGrow(received: seq<bool>, d: seq<Byte>, k: nat, n: nat)
    requires Sendable(d) && n <= Segments(d) && |received| == MAX_FRAG_SEGMENTS
    requires k < Segments(d) && !received[k]
    ensures Octets(received[k := true], d, n) == Octets(received, d, n) + if k < n then |Chunk(d, k)| else 0
  {
    if n > 0 {
      OctetsGrow(received, d, k, n - 1);
    }
  }

  lemma {:induction false} OctetsBound(received: seq<bool>, d: seq<Byte>, n: nat)
    requires Sendable(d) && n <= Segments(d) && |received| == MAX_FRAG_SEGMENTS
    ensures Octets(received, d, n) <= if n < Segments(d) then n * MAX_FRAG_PAYLOAD else |d|
    ensures (forall k :: 0 <= k < n ==> received[k]) ==>
              Octets(received, d, n) == if n < Segments(d) then n * MAX_FRAG_PAYLOAD else |d|
  {
    if n > 0 {
      OctetsBound(received, d, n - 1);
    }
  }

  lemma NothingYet(s: Session, id: nat, d: seq<Byte>)
    requires Sendable(d)
    requires SessionSane(s) && s.active && s.transferId == id && s.totalSegments == Segments(d) && s.dataLen == 0
    requires forall k :: 0 <= k < MAX_FRAG_SEGMENTS ==> !s.received[k]
    ensures Keeps(s, id, d, {})
  {
    NoOctets(s.received, d, Segments(d));
  }

  lemma {:induction false} NoOctets(received: seq<bool>, d: seq<Byte>, n: nat)
    requires Sendable(d) && n <= Segments(d) && |received| == MAX_FRAG_SEGMENTS
    requires forall k :: 0 <= k < MAX_FRAG_SEGMENTS ==> !received[k]
    ensures Octets(received, d, n) == 0
  {
    if n > 0 {
      NoOctets(received, d, n - 1);
    }
  }

  /** The octet at `j` after a segment was stored. */
  lemma SplicedAt(buf: seq<Byte>, d: seq<Byte>, k: nat, j: nat)
    requires Sendable(d) && k < Segments(d) && |buf| == FRAG_BUF_LEN && j < |d|
    ensures Splice(buf, k * MAX_FRAG_PAYLOAD, Chunk(d, k))[j]
         == if j / MAX_FRAG_PAYLOAD == k then d[j] else buf[j]
  {
    var from := k * MAX_FRAG_PAYLOAD;
    var c := Chunk(d, k);
    assert |c| == if |d| - from > MAX_FRAG_PAYLOAD then MAX_FRAG_PAYLOAD else |d| - from;
    if from <= j < from + |c| {
      assert c[j - from] == d[j];
    }
  }

  lemma StoredKeeps(s: Session, id: nat, d: seq<Byte>, have: set<nat>, k: nat, now: nat)
    requires Sendable(d) && k < Segments(d) && k !in have && now < TWO32
    requires Keeps(s, id, d, have)
    ensures Keeps(Stored(s, k, Chunk(d, k), now), id, d, have + {k})
  {
    hide Chunk, Splice;
    var t := Stored(s, k, Chunk(d, k), now);
    OctetsGrow(s.received, d, k, Segments(d));
    OctetsBound(t.received, d, Segments(d));
    forall j: nat | j < |d| && j / MAX_FRAG_PAYLOAD in have + {k}
      ensures t.data[j] == d[j]
    {
      SplicedAt(s.data, d, k, j);
    }
  }

  /** A session that has every segment holds the data and its length. */
  lemma CompleteIsData(s: Session, id: nat, d: seq<Byte>, have: set<nat>)
    requires Sendable(d) && Keeps(s, id, d, have)
    ensures AllReceived(s) <==> have == AllSegments(d)
    ensures AllReceived(s) ==> s.data[..|d|] == d && s.dataLen == |d|
  {
    if AllReceived(s) {
      assert forall k: nat :: k in AllSegments(d) ==> s.received[k];
      OctetsBound(s.received, d, Segments(d));
      forall j: nat | j < |d| ensures s.data[j] == d[j] {
        assert j / MAX_FRAG_PAYLOAD in AllSegments(d);
      }
    }
  }

  // ----- One step -----

  /** Whatever is not a segment of this transfer, or is dropped, leaves the session alone. */
  lemma OtherStep(i: Inbox, s: Step, id: nat, d: seq<Byte>)
    requires InboxSane(i) && StepFits(s) && Sendable(d)
    requires s.Got? && IsSegment(s) && i.seen != Some(s.frame.seqNo) ==>
               && !Mine(s, id, d) && i.session.active
               && i.session.transferId == id && i.session.totalSegments == Segments(d)
               && Since(s.now, i.session.lastActivityMs) < FRAG_TIMEOUT_MS
    ensures var r := Take(i, s);
            && r.session == i.session
            && r.seen == (if PlainCommand(s) then Some(s.frame.seqNo) else i.seen)
            && (r.offered == i.offered || (PlainCommand(s) && r.offered == i.offered + [s.frame]))
  {
    hide HasFlag, Value, ByPriority, DecodeFrag, Segments, SessionSane;
    Unflagged(s);
  }

  lemma Unflagged(s: Step)
    ensures s.Got? && IsCommand(s.frame) && DecodeFrag(s.frame).Some? ==> HasFlag(s.frame.flags, FLAG_FRAGMENT)
  {
  }

  /** The session a segment of this transfer meets. */
  lemma SessionMet(s: Session, id: nat, d: seq<Byte>, have: set<nat>, k: nat, now: nat)
    requires Sendable(d) && k < Segments(d) && now < TWO32 && SessionSane(s)
    requires if have == {} then Free(s, now)
             else Keeps(s, id, d, have) && Since(now, s.lastActivityMs) < FRAG_TIMEOUT_MS
    ensures var o := Opened(s, FragHeader(id, k, Segments(d)), now);
            && Keeps(o, id, d, have)
            && (have != {} ==> o == s)
  {
    if have == {} {
      NothingYet(Opened(s, FragHeader(id, k, Segments(d)), now), id, d);
    }
  }

  lemma SegmentStep(i: Inbox, s: Step, id: nat, d: seq<Byte>, have: set<nat>)
    requires InboxSane(i) && Sendable(d) && Mine(s, id, d) && Genuine(s, id, d) && i.seen != Some(s.frame.seqNo)
    requires have != AllSegments(d)
    requires if have == {} then Free(i.session, s.now)
             else Keeps(i.session, id, d, have) && Since(s.now, i.session.lastActivityMs) < FRAG_TIMEOUT_MS
    ensures SegmentOf(s) < Segments(d)
    ensures var k := SegmentOf(s);
            var o := Opened(i.session, FragHeader(id, k, Segments(d)), s.now);
            var t := Stored(o, k, Chunk(d, k), s.now);
            && Keeps(o, id, d, have)
            && (k in have ==> Take(i, s) == Answer(i, s.frame, NO_FAILURE, 0))
            && (k !in have && have + {k} != AllSegments(d) ==>
                  Keeps(t, id, d, have + {k}) && Take(i, s) == Answer(i.(session := t), s.frame, NO_FAILURE, 0))
            && (have + {k} == AllSegments(d) ==>
                  && t.data[..|d|] == d && t.dataLen == |d|
                  && Take(i, s)
                     == Offer(Answer(i, s.frame, NO_FAILURE, 0).(session := NoSession(), seen := Some(s.frame.seqNo)),
                              Assembled(s.frame, t)))
  {
    hide Keeps, Stored, Opened, NoSession, Chunk, Offer, Assembled, Value, AllSegments, AllReceived, Segments;
    SegmentHeader(s, id, d);
    var k := SegmentOf(s);
    SessionMet(i.session, id, d, have, k, s.now);
    var o := Opened(i.session, FragHeader(id, k, Segments(d)), s.now);
    KeepsFields(o, id, d, have, k);
    if k !in have {
      var t := Stored(o, k, Chunk(d, k), s.now);
      StoredKeeps(o, id, d, have, k, s.now);
      CompleteIsData(t, id, d, have + {k});
    } else {
      assert have + {k} == have;
    }
  }

  lemma SegmentHeader(s: Step, id: nat, d: seq<Byte>)
    requires Sendable(d) && Mine(s, id, d) && Genuine(s, id, d)
    ensures SegmentOf(s) < Segments(d) <= MAX_FRAG_SEGMENTS && SegmentOf(s) in AllSegments(d)
    ensures DecodeFrag(s.frame) == Some(FragHeader(id, SegmentOf(s), Segments(d)))
    ensures FRAG_HEADER_LEN <= Value(s.frame.len) <= MAX_PAYLOAD_LEN
    ensures SegmentData(s.frame) == Chunk(d, SegmentOf(s))
    ensures IsCommand(s.frame) && HasFlag(s.frame.flags, FLAG_FRAGMENT)
  {
  }

  lemma KeepsFields(s: Session, id: nat, d: seq<Byte>, have: set<nat>, k: nat)
    requires Sendable(d) && Keeps(s, id, d, have) && k < Segments(d)
    ensures SessionSane(s) && s.active && s.transferId == id && s.totalSegments == Segments(d)
    ensures s.received[k] <==> k in have
    ensures have <= AllSegments(d)
  {
  }

  /** How a segment that is not dropped is answered. */
  function SegmentCode(s: Session, f: Frame, now: nat): Byte
    requires SessionSane(s) && now < TWO32
  {
    match DecodeFrag(f)
    case None => INVALID_PARAM
    case Some(h) =>
      if MAX_FRAG_SEGMENTS < h.totalSegments then INVALID_PARAM
      else if Free(s, now) || (s.transferId == h.transferId && s.totalSegments == h.totalSegments) then NO_FAILURE
      else QUEUE_FULL
  }

  /**
   A segment is refused as invalid if it is malformed or its transfer too long, as too much if another transfer is
   going on, and otherwise accepted; only then does the session change.
   */
  lemma SegmentAnswered(i: Inbox, f: Frame, now: nat)
    requires InboxSane(i) && Value(f.len) <= MAX_PAYLOAD_LEN && now < TWO32
    requires HasFlag(f.flags, FLAG_FRAGMENT) && i.seen != Some(f.seqNo)
    ensures var r, code := Handle(i, f, now), SegmentCode(i.session, f, now);
            && |r.log| > |i.log| && r.log[..|i.log| + 1] == i.log + [Reply(f.seqNo, f.node, code, 0)]
            && (code != NO_FAILURE ==> r.session == i.session && r.offered == i.offered)
  {
    hide HasFlag, Value, Stored, Assembled, AllReceived, NoSession, DecodeFrag;
  }

  // ----- Whole transfers -----

  /** Every command offered since `from` came from another frame of the traffic. */
  ghost predicate OffersOthers(offered: seq<Frame>, from: nat, steps: seq<Step>) {
    from <= |offered| && forall k :: from <= k < |offered| ==> Sent(offered[k], steps)
  }

  /** `f` arrived as a command that was not a segment. */
  ghost predicate Sent(f: Frame, steps: seq<Step>) {
    exists s :: s in steps && PlainCommand(s) && s.frame == f
  }

  /** Before the last segment: the session holds what arrived, and nothing was reassembled. */
  ghost predicate Underway(i: Inbox, steps: seq<Step>, id: nat, d: seq<Byte>)
    requires InboxSane(i) && AllFits(steps) && Sendable(d)
  {
    var r, have := Deliver(i, steps), Have(steps, id, d, i.seen);
    && r.seen == LastNumber(steps, i.seen)
    && (if have == {} then r.session == i.session
        else Keeps(r.session, id, d, have) && r.session.lastActivityMs == LastNew(steps, id, d, i.seen))
    && |i.offered| <= |r.offered| && i.offered == r.offered[..|i.offered|]
    && OffersOthers(r.offered, |i.offered|, steps)
  }

  /** What the link promises while a transfer is under way. */
  ghost predicate Delivery(i: Inbox, steps: seq<Step>, id: nat, d: seq<Byte>) {
    && InboxSane(i) && Sendable(d) && AllFits(steps) && Traffic(steps, id, d) && Timely(steps, id, d, i)
  }

  lemma {:induction false} TransferUnderway(i: Inbox, steps: seq<Step>, id: nat, d: seq<Byte>)
    requires Delivery(i, steps, id, d) && Have(steps, id, d, i.seen) != AllSegments(d)
    ensures Underway(i, steps, id, d)
    decreases |steps|
  {
    hide Take, Keeps, AllSegments, StepFits, IsSegment, Mine, SegmentOf, InboxSane, Segments, HasFlag, Genuine,
         PlainCommand;
    if steps != [] {
      var n := |steps| - 1;
      var s := steps[n];
      assert s in steps;
      ShorterDelivery(i, steps, id, d);
      FewerSegments(steps, id, d, i.seen);
      TransferUnderway(i, steps[..n], id, d);
      NextUnderway(i, steps[..n], s, id, d);
      assert steps == steps[..n] + [s];
    }
  }

  lemma ShorterDelivery(i: Inbox, steps: seq<Step>, id: nat, d: seq<Byte>)
    requires Delivery(i, steps, id, d) && steps != []
    ensures Delivery(i, steps[..|steps| - 1], id, d)
  {
    hide Genuine, StepFits, InboxSane;
  }

  lemma {:induction false} HaveAreSegments(steps: seq<Step>, id: nat, d: seq<Byte>, seen: Option<Byte>)
    requires Sendable(d) && Traffic(steps, id, d)
    ensures Have(steps, id, d, seen) <= AllSegments(d)
    decreases |steps|
  {
    hide Genuine, Mine, SegmentOf, AllSegments, Heard;
    if steps != [] {
      var n := |steps| - 1;
      HaveAreSegments(steps[..n], id, d, seen);
      assert Genuine(steps[n], id, d);
      if Mine(steps[n], id, d) {
        SegmentHeader(steps[n], id, d);
      }
    }
  }

  lemma FewerSegments(steps: seq<Step>, id: nat, d: seq<Byte>, seen: Option<Byte>)
    requires Sendable(d) && Traffic(steps, id, d) && steps != [] && Have(steps, id, d, seen) != AllSegments(d)
    ensures Have(steps[..|steps| - 1], id, d, seen) != AllSegments(d)
  {
    hide AllSegments;
    HaveAreSegments(steps, id, d, seen);
  }

  lemma NextUnderway(i: Inbox, before: seq<Step>, s: Step, id: nat, d: seq<Byte>)
    requires Delivery(i, before, id, d) && Delivery(i, before + [s], id, d) && Underway(i, before, id, d)
    requires Have(before + [s], id, d, i.seen) != AllSegments(d) && Have(before, id, d, i.seen) != AllSegments(d)
    ensures Underway(i, before + [s], id, d)
  {
    hide Take, Keeps, AllSegments, StepFits, IsSegment, Mine, SegmentOf, InboxSane, Segments, Sent, Genuine,
         PlainCommand, Opened, NoSession, Assembled, Offer, Chunk;
    var steps := before + [s];
    assert steps[|steps| - 1] == s && steps[..|steps| - 1] == before && s in steps;
    var q, have := Deliver(i, before), Have(before, id, d, i.seen);
    MoreSteps(before, s);
    KindOf(s, id, d);
    if Mine(s, id, d) && Heard(before, s, i.seen) {
      SegmentStep(q, s, id, d, have);
      OthersGrow(i.offered, q.offered, q.offered, before, s);
      var k := SegmentOf(s);
      assert Have(steps, id, d, i.seen) == have + {k};
      if k in have {
        assert have + {k} == have;
      } else {
        assert LastNew(steps, id, d, i.seen) == s.now;
      }
    } else {
      if have != {} {
        KeepsFields(q.session, id, d, have, 0);
      }
      OtherStep(q, s, id, d);
      assert Have(steps, id, d, i.seen) == have + {} == have;
      OthersGrow(i.offered, q.offered, Deliver(i, steps).offered, before, s);
    }
  }

  lemma KindOf(s: Step, id: nat, d: seq<Byte>)
    requires Sendable(d)
    ensures Mine(s, id, d) ==> IsSegment(s) && !PlainCommand(s)
    ensures IsSegment(s) ==> s.Got?
    ensures StepFits(s) && s.Got? ==> StepTime(s) == s.now
  {
  }

  lemma OthersGrow(first: seq<Frame>, offered: seq<Frame>, next: seq<Frame>, before: seq<Step>, s: Step)
    requires |first| <= |offered| && first == offered[..|first|] && OffersOthers(offered, |first|, before)
    requires next == offered || (PlainCommand(s) && next == offered + [s.frame])
    ensures |first| <= |next| && first == next[..|first|] && OffersOthers(next, |first|, before + [s])
  {
    hide Sent, PlainCommand;
    MoreSteps(before, s);
  }

  lemma MoreSteps(before: seq<Step>, s: Step)
    ensures forall f :: Sent(f, before) ==> Sent(f, before + [s])
    ensures PlainCommand(s) ==> Sent(s.frame, before + [s])
  {
    assert s in before + [s];
  }

  /**
   The round trip. When the last missing segment arrives, the buffer holds exactly the data, its first
   200 octets at most are offered as one unfragmented command, and the session is over. Before that nothing
   of the transfer was offered.
   */
  lemma ReassembledOnce(i: Inbox, before: seq<Step>, last: Step, id: nat, d: seq<Byte>)
    requires Delivery(i, before + [last], id, d)
    requires Have(before, id, d, i.seen) != AllSegments(d) && Have(before + [last], id, d, i.seen) == AllSegments(d)
    ensures Delivery(i, before, id, d) && Underway(i, before, id, d)
    ensures last.Got?
    ensures var q, r := Deliver(i, before), Deliver(i, before + [last]);
            exists t: Session :: SessionSane(t)
              && t.data[..|d|] == d && t.dataLen == |d|
              && r.session == NoSession()
              && r.offered == q.offered + [Assembled(last.frame, t)]
              && Same(Assembled(last.frame, t), last.frame, d)
  {
    hide Take, Keeps, AllSegments, StepFits, IsSegment, Mine, SegmentOf, InboxSane, Segments, Assembled,
         NoSession, Stored, Opened, OffersOthers, Genuine, PlainCommand;
    var steps := before + [last];
    assert steps[|steps| - 1] == last && steps[..|steps| - 1] == before && last in steps;
    ShorterDelivery(i, steps, id, d);
    TransferUnderway(i, before, id, d);
    KindOf(last, id, d);
    assert Mine(last, id, d) && Heard(before, last, i.seen);
    var q, have := Deliver(i, before), Have(before, id, d, i.seen);
    SegmentStep(q, last, id, d, have);
    SaneSession(q);
    SegmentHeader(last, id, d);
    var k := SegmentOf(last);
    var o := Opened(q.session, FragHeader(id, k, Segments(d)), last.now);
    var t := Stored(o, k, Chunk(d, k), last.now);
    StoredSane(o, k, Chunk(d, k), last.now);
    AssembledIs(last.frame, t, d);
  }

  lemma SaneSession(i: Inbox)
    requires InboxSane(i)
    ensures SessionSane(i.session)
  {
  }

  lemma StoredSane(s: Session, k: nat, c: seq<Byte>, now: nat)
    requires SessionSane(s) && now < TWO32 && k < MAX_FRAG_SEGMENTS && |c| <= MAX_FRAG_PAYLOAD
    ensures SessionSane(Stored(s, k, c, now))
  {
  }

  /** The command is `d` cut at 200 octets, unfragmented, with the marks of the frame it came on. */
  predicate Same(command: Frame, carrier: Frame, d: seq<Byte>) {
    && Value(command.len) == CopyLen(|d|)
    && command.payload[..CopyLen(|d|)] == d[..CopyLen(|d|)]
    && !HasFlag(command.flags, FLAG_FRAGMENT)
    && (HasFlag(command.flags, FLAG_ACK_REQ) <==> HasFlag(carrier.flags, FLAG_ACK_REQ))
    && command.seqNo == carrier.seqNo && command.node == carrier.node && command.msgType == carrier.msgType
  }

  lemma AssembledIs(f: Frame, t: Session, d: seq<Byte>)
    requires SessionSane(t) && Sendable(d) && t.data[..|d|] == d && t.dataLen == |d|
    ensures Same(Assembled(f, t), f, d)
  {
    hide WithoutFlag, HasFlag, Value, ToByte;
    ValueOfByte(CopyLen(|d|));
    FlagCleared(f.flags);
    assert t.data[..CopyLen(|d|)] == t.data[..|d|][..CopyLen(|d|)];
  }

  lemma FlagCleared(flags: Byte)
    ensures !HasFlag(WithoutFlag(flags, FLAG_FRAGMENT), FLAG_FRAGMENT)
    ensures HasFlag(WithoutFlag(flags, FLAG_FRAGMENT), FLAG_ACK_REQ) <==> HasFlag(flags, FLAG_ACK_REQ)
  {
  }
}
