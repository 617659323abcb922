/** The sending half of a fragmented transfer (src/comms/radio_dispatcher.cpp:1209-1371). */
module FragSender {
  import opened Bytes
  import opened Wrappers
  import opened Clock32
  import opened RadioProtocol
  import opened CommandPath
  import opened Reassembly
  import RetryBuffer

  datatype SendSession = SendSession(active: bool, transferId: nat, totalSegments: nat, nextSegment: nat,
                                     lastSentMs: nat, interFrameMs: nat, msgType: Byte,
                                     data: seq<Byte>, dataLen: nat)

  /** A frame for the radio; the last one of a transfer goes through `sendReliable`. */
  datatype Outgoing = Outgoing(frame: Frame, now: nat, reliable: bool)

  /** A call of `pumpFragSend`: the clock and the transmit counter it finds. */
  datatype Pump = Pump(now: nat, seqNo: Byte)

  function NoSending(): SendSession {
    SendSession(false, 0, 0, 0, 0, 0, 0, seq(FRAG_BUF_LEN, _ => 0), 0)
  }

  /** The payload at the front of the zeroed buffer. */
  function Padded(d: seq<Byte>): (p: seq<Byte>)
    requires |d| <= FRAG_BUF_LEN
    ensures |p| == FRAG_BUF_LEN && p[..|d|] == d
  {
    d + seq(FRAG_BUF_LEN - |d|, _ => 0)
  }

  function Armed(id: nat, d: seq<Byte>, msgType: Byte, interFrameMs: nat): SendSession
    requires Sendable(d)
  {
    SendSession(true, id, Segments(d), 0, 0, interFrameMs, msgType, Padded(d), |d|)
  }

  /** What the sessions of the code always satisfy: one is active only while segments are left. */
  predicate Sending(s: SendSession) {
    && |s.data| == FRAG_BUF_LEN && s.lastSentMs < TWO32 && s.transferId < 0x1_0000
    && (s.active ==>
          && 0 < s.dataLen <= FRAG_BUF_LEN && s.totalSegments == Segments(s.data[..s.dataLen])
          && s.nextSegment < s.totalSegments)
  }

  /** The frame of segment `k`. */
  function SegmentFrame(id: nat, d: seq<Byte>, k: nat, msgType: Byte, seqNo: Byte): Frame
    requires Sendable(d) && k < Segments(d)
  {
    var skeleton := BlankFrame().(ver := PROTOCOL_VERSION, node := NODE_ROCKET, msgType := msgType, seqNo := seqNo);
    FragFrame(skeleton, FragHeader(id, k, Segments(d)), Chunk(d, k))
  }

  function LastOf(f: Frame): Frame {
    f.(flags := WithFlag(f.flags, FLAG_ACK_REQ))
  }

  predicate Waits(s: SendSession, now: nat)
    requires s.lastSentMs < TWO32 && now < TWO32
  {
    s.lastSentMs != 0 && Since(now, s.lastSentMs) < s.interFrameMs
  }

  /** `pumpFragSend` */
  function PumpOne(s: SendSession, p: Pump): (r: (SendSession, Option<Outgoing>))
    requires Sending(s) && p.now < TWO32
    ensures Sending(r.0)
  {
    if !s.active || Waits(s, p.now) then (s, None)
    else
      var f := SegmentFrame(s.transferId, s.data[..s.dataLen], s.nextSegment, s.msgType, p.seqNo);
      if s.nextSegment == s.totalSegments - 1 then (NoSending(), Some(Outgoing(LastOf(f), p.now, true)))
      else (s.(lastSentMs := p.now, nextSegment := s.nextSegment + 1), Some(Outgoing(f, p.now, false)))
  }

  function PumpAll(s: SendSession, ps: seq<Pump>): (r: (SendSession, seq<Outgoing>))
    requires Sending(s) && forall p :: p in ps ==> p.now < TWO32
    ensures Sending(r.0)
    decreases |ps|
  {
    if ps == [] then (s, [])
    else
      var (before, out) := PumpAll(s, ps[..|ps| - 1]);
      assert ps[|ps| - 1] in ps;
      var (after, more) := PumpOne(before, ps[|ps| - 1]);
      (after, if more.Some? then out + [more.value] else out)
  }

  // ----- What a transfer puts on the air -----

  /** `o` is segment `k` of the transfer; only the last one asks for an acknowledgement. */
  predicate IsSegmentOf(o: Outgoing, id: nat, d: seq<Byte>, k: nat, msgType: Byte)
    requires Sendable(d)
  {
    && k < Segments(d) && (o.reliable <==> k == Segments(d) - 1)
    && var f := SegmentFrame(id, d, k, msgType, o.frame.seqNo);
       o.frame == if o.reliable then LastOf(f) else f
  }

  /** Two segments are a gap apart, unless the first went out at clock reading 0. */
  predicate Gap(a: Outgoing, b: Outgoing, interFrameMs: nat) {
    a.now < TWO32 && b.now < TWO32 && (a.now != 0 ==> Since(b.now, a.now) >= interFrameMs)
  }

  ghost predicate Progress(r: (SendSession, seq<Outgoing>), id: nat, d: seq<Byte>, msgType: Byte, interFrameMs: nat)
    requires Sendable(d)
  {
    var out := r.1;
    && |out| <= Segments(d)
    && (forall k :: 0 <= k < |out| ==> IsSegmentOf(out[k], id, d, k, msgType))
    && (forall k :: 0 <= k < |out| - 1 ==> Gap(out[k], out[k + 1], interFrameMs))
    && r.0 == (if |out| == Segments(d) then NoSending()
               else Armed(id, d, msgType, interFrameMs).(nextSegment := |out|,
                                                         lastSentMs := if out == [] then 0 else out[|out| - 1].now))
  }

  lemma ProgressStep(r: (SendSession, seq<Outgoing>), p: Pump, id: nat, d: seq<Byte>, msgType: Byte, interFrameMs: nat)
    requires Sendable(d) && Progress(r, id, d, msgType, interFrameMs) && p.now < TWO32 && id < 0x1_0000
    requires Sending(r.0)
    ensures var (after, more) := PumpOne(r.0, p);
            Progress((after, if more.Some? then r.1 + [more.value] else r.1), id, d, msgType, interFrameMs)
  {
    hide SegmentFrame, Padded, LastOf, Segments;
    var n := |r.1|;
    if n < Segments(d) && !Waits(r.0, p.now) {
      assert r.0.data[..r.0.dataLen] == d by { PaddedFront(d); }
      SeqNoKept(id, d, n, msgType, p.seqNo);
    }
  }

  lemma PaddedFront(d: seq<Byte>)
    requires Sendable(d)
    ensures Padded(d)[..|d|] == d
  {
  }

  lemma SeqNoKept(id: nat, d: seq<Byte>, k: nat, msgType: Byte, seqNo: Byte)
    requires Sendable(d) && k < Segments(d)
    ensures SegmentFrame(id, d, k, msgType, seqNo).seqNo == seqNo
    ensures LastOf(SegmentFrame(id, d, k, msgType, seqNo)).seqNo == seqNo
  {
    hide WithFlag, ToByte, Low, High;
  }

  lemma ArmedSends(id: nat, d: seq<Byte>, msgType: Byte, interFrameMs: nat)
    requires Sendable(d) && id < 0x1_0000
    ensures Sending(Armed(id, d, msgType, interFrameMs))
  {
  }

  /** Every run of pumps sends the segments in order, each once, the right distance apart, and then stops. */
  lemma {:induction false} SegmentsInOrder(id: nat, d: seq<Byte>, msgType: Byte, interFrameMs: nat, ps: seq<Pump>)
    requires Sendable(d) && id < 0x1_0000 && forall p :: p in ps ==> p.now < TWO32
    ensures Sending(Armed(id, d, msgType, interFrameMs))
    ensures Progress(PumpAll(Armed(id, d, msgType, interFrameMs), ps), id, d, msgType, interFrameMs)
    decreases |ps|
  {
    hide PumpOne, Sending, Progress;
    ArmedSends(id, d, msgType, interFrameMs);
    if ps == [] {
      NothingSentYet(id, d, msgType, interFrameMs);
    } else {
      var n := |ps| - 1;
      assert ps[n] in ps;
      SegmentsInOrder(id, d, msgType, interFrameMs, ps[..n]);
      ProgressStep(PumpAll(Armed(id, d, msgType, interFrameMs), ps[..n]), ps[n], id, d, msgType, interFrameMs);
    }
  }

  lemma NothingSentYet(id: nat, d: seq<Byte>, msgType: Byte, interFrameMs: nat)
    requires Sendable(d) && id < 0x1_0000
    ensures Progress((Armed(id, d, msgType, interFrameMs), []), id, d, msgType, interFrameMs)
  {
  }

  /** Pumps far enough apart for the rate limit. */
  ghost predicate Unhurried(ps: seq<Pump>, interFrameMs: nat) {
    && (forall p :: p in ps ==> p.now < TWO32)
    && forall i :: 0 <= i < |ps| - 1 ==> Since(ps[i + 1].now, ps[i].now) >= interFrameMs
  }

  /** A pump that need not wait sends the next segment, unless all are out. */
  lemma PumpSends(r: (SendSession, seq<Outgoing>), p: Pump, id: nat, d: seq<Byte>, msgType: Byte, interFrameMs: nat)
    requires Sendable(d) && Progress(r, id, d, msgType, interFrameMs) && p.now < TWO32 && Sending(r.0)
    requires forall o :: o in r.1 ==> o.now < TWO32
    requires r.1 != [] && |r.1| < Segments(d) ==> Since(p.now, r.1[|r.1| - 1].now) >= interFrameMs
    ensures |r.1| <= Segments(d)
    ensures var more := PumpOne(r.0, p).1;
            (more.Some? <==> |r.1| < Segments(d)) && (more.Some? ==> more.value.now == p.now)
  {
    hide SegmentFrame, LastOf, Padded, Segments;
  }

  /** Every pump has sent, as long as there was a segment left. */
  predicate SentAt(out: seq<Outgoing>, ps: seq<Pump>, n: nat) {
    && |out| == (if |ps| < n then |ps| else n)
    && forall k :: 0 <= k < |out| ==> out[k].now == ps[k].now
  }

  /** Unhurried pumps send one segment each until the transfer is complete. */
  lemma {:induction false} TransferCompletes(id: nat, d: seq<Byte>, msgType: Byte, interFrameMs: nat, ps: seq<Pump>)
    requires Sendable(d) && id < 0x1_0000 && Unhurried(ps, interFrameMs)
    ensures Sending(Armed(id, d, msgType, interFrameMs))
    ensures SentAt(PumpAll(Armed(id, d, msgType, interFrameMs), ps).1, ps, Segments(d))
    decreases |ps|
  {
    hide Sending, Segments, Progress, PumpOne, SentAt;
    ArmedSends(id, d, msgType, interFrameMs);
    var s := Armed(id, d, msgType, interFrameMs);
    if ps == [] {
      NoneSent(Segments(d));
    } else {
      var n := |ps| - 1;
      assert ps[n] in ps;
      TransferCompletes(id, d, msgType, interFrameMs, ps[..n]);
      SegmentsInOrder(id, d, msgType, interFrameMs, ps[..n]);
      var (before, out) := PumpAll(s, ps[..n]);
      LastSentAt(out, ps, Segments(d), interFrameMs);
      PumpSends((before, out), ps[n], id, d, msgType, interFrameMs);
      SentOnce(out, ps, Segments(d), PumpOne(before, ps[n]).1);
    }
  }

  lemma NoneSent(n: nat)
    ensures SentAt([], [], n)
  {
  }

  lemma LastSentAt(out: seq<Outgoing>, ps: seq<Pump>, n: nat, interFrameMs: nat)
    requires ps != [] && Unhurried(ps, interFrameMs) && SentAt(out, ps[..|ps| - 1], n)
    ensures forall o :: o in out ==> o.now < TWO32
    ensures out != [] && |out| < n ==> Since(ps[|ps| - 1].now, out[|out| - 1].now) >= interFrameMs
  {
  }

  lemma SentOnce(out: seq<Outgoing>, ps: seq<Pump>, n: nat, more: Option<Outgoing>)
    requires ps != [] && SentAt(out, ps[..|ps| - 1], n)
    requires (more.Some? <==> |out| < n) && (more.Some? ==> more.value.now == ps[|ps| - 1].now)
    ensures SentAt(if more.Some? then out + [more.value] else out, ps, n)
  {
  }

  // ----- Every segment sent is one the receiver understands -----

  /** Whatever sequence number and acknowledgement flag it was sent with. */
  lemma SegmentCarries(o: Outgoing, id: nat, d: seq<Byte>, k: nat, msgType: Byte)
    requires Sendable(d) && id < 0x1_0000 && IsSegmentOf(o, id, d, k, msgType)
    ensures Carries(o.frame, id, d, k)
    ensures KnownType(msgType) ==> WellFormed(o.frame)
    ensures o.frame.msgType == msgType && o.frame.node == NODE_ROCKET
  {
    hide WithFlag, HasFlag, ToByte, Low, High, Value, Word16, ReservedClear, Segments, Chunk;
    var h := FragHeader(id, k, Segments(d));
    var skeleton := BlankFrame().(ver := PROTOCOL_VERSION, node := NODE_ROCKET, msgType := msgType,
                                  seqNo := o.frame.seqNo);
    SegmentBound(d, k);
    FragRoundTrip(skeleton, h, Chunk(d, k));
    FlagSet(skeleton.flags);
    AckFlagHarmless(WithFlag(skeleton.flags, FLAG_FRAGMENT));
    NoReservedBits();
    var f := SegmentFrame(id, d, k, msgType, o.frame.seqNo);
    assert f == FragFrame(skeleton, h, Chunk(d, k));
    assert DecodeFrag(LastOf(f)) == DecodeFrag(f);
  }

  lemma SegmentBound(d: seq<Byte>, k: nat)
    requires Sendable(d) && k < Segments(d)
    ensures Segments(d) <= MAX_FRAG_SEGMENTS && |Chunk(d, k)| <= MAX_FRAG_PAYLOAD
  {
  }

  lemma NoReservedBits()
    ensures ReservedClear(0)
  {
  }

  lemma AckFlagHarmless(flags: Byte)
    ensures HasFlag(WithFlag(flags, FLAG_ACK_REQ), FLAG_FRAGMENT) <==> HasFlag(flags, FLAG_FRAGMENT)
    ensures ReservedClear(flags) ==> ReservedClear(WithFlag(flags, FLAG_ACK_REQ))
  {
  }

  // ----- From buffer to buffer -----

  /** `f` is a frame as it was sent, or the copy of it that a retransmission puts on the air. */
  predicate CopyOf(f: Frame, sent: Frame) {
    f == sent || f == RetryBuffer.Resent(sent)
  }

  /** A step of the receiving link: whatever bears the identifier and count of the transfer is the sender's. */
  ghost predicate FromSender(s: Step, out: seq<Outgoing>, id: nat, d: seq<Byte>)
    requires Sendable(d)
  {
    StepFits(s) && (Mine(s, id, d) ==> exists k :: 0 <= k < |out| && CopyOf(s.frame, out[k].frame))
  }

  /** The retransmit flag changes nothing a receiver of segments looks at. */
  lemma CopyCarries(f: Frame, sent: Frame, id: nat, d: seq<Byte>, k: nat)
    requires Sendable(d) && Carries(sent, id, d, k) && CopyOf(f, sent)
    ensures Carries(f, id, d, k) && f.msgType == sent.msgType && f.node == sent.node
  {
    hide WithFlag, HasFlag, Value, Word16, Segments, Chunk;
    RetransmitFlagHarmless(sent.flags);
    assert DecodeFrag(f) == DecodeFrag(sent);
  }

  lemma RetransmitFlagHarmless(flags: Byte)
    ensures HasFlag(WithFlag(flags, FLAG_RETRANSMIT), FLAG_FRAGMENT) <==> HasFlag(flags, FLAG_FRAGMENT)
  {
  }

  lemma SenderTraffic(s: Step, out: seq<Outgoing>, id: nat, d: seq<Byte>)
    requires Sendable(d) && id < 0x1_0000 && FromSender(s, out, id, d)
    requires |out| <= Segments(d) && forall k :: 0 <= k < |out| ==> IsSegmentOf(out[k], id, d, k, COMMAND)
    ensures Genuine(s, id, d)
  {
    hide IsSegmentOf, Carries, StepFits, Segments, CopyOf, DecodeFrag;
    if Mine(s, id, d) {
      var k :| 0 <= k < |out| && CopyOf(s.frame, out[k].frame);
      SegmentCarries(out[k], id, d, k, COMMAND);
      CopyCarries(s.frame, out[k].frame, id, d, k);
      CarriesHeader(s.frame, id, d, k);
    }
  }

  lemma CarriesHeader(f: Frame, id: nat, d: seq<Byte>, k: nat)
    requires Sendable(d) && Carries(f, id, d, k)
    ensures DecodeFrag(f).Some? && DecodeFrag(f).value.segmentNum == k
  {
  }

  /**
   What `startFragSend` and `pumpFragSend` emit, delivered in any order with repetitions among other traffic,
   is reassembled to the octets that were handed in.
   */
  lemma FragmentationRoundTrip(ps: seq<Pump>, interFrameMs: nat, i: Inbox, before: seq<Step>, last: Step,
                               id: nat, d: seq<Byte>)
    requires Sendable(d) && id < 0x1_0000 && forall p :: p in ps ==> p.now < TWO32
    requires InboxSane(i)
    requires Sending(Armed(id, d, COMMAND, interFrameMs))
    requires forall s :: s in before + [last] ==>
               FromSender(s, PumpAll(Armed(id, d, COMMAND, interFrameMs), ps).1, id, d)
    requires AllFits(before + [last]) && AllFits(before) && Timely(before + [last], id, d, i)
    requires Have(before, id, d, i.seen) != AllSegments(d) && Have(before + [last], id, d, i.seen) == AllSegments(d)
    ensures last.Got?
    ensures var q, r := Deliver(i, before), Deliver(i, before + [last]);
            exists t: Session :: SessionSane(t)
              && t.data[..|d|] == d && t.dataLen == |d|
              && r.offered == q.offered + [Assembled(last.frame, t)]
              && Same(Assembled(last.frame, t), last.frame, d)
  {
    hide Deliver, Have, Same, Assembled, AllSegments, Timely, FromSender, InboxSane, Mine, Genuine, PumpAll,
         StepFits;
    var out := PumpAll(Armed(id, d, COMMAND, interFrameMs), ps).1;
    SegmentsInOrder(id, d, COMMAND, interFrameMs, ps);
    forall s | s in before + [last]
      ensures Genuine(s, id, d)
    {
      SenderTraffic(s, out, id, d);
    }
    ReassembledOnce(i, before, last, id, d);
  }

  // ----- The session in place -----

  class BulkSender {
    var active: bool
    var transferId: nat
    var totalSegments: nat
    var nextSegment: nat
    var lastSentMs: nat
    var interFrameMs: nat
    var msgType: Byte
    const data: array<Byte>
    var dataLen: nat
    var nextTransferId: nat

    ghost function Session(): SendSession
      reads this, data
    {
      SendSession(active, transferId, totalSegments, nextSegment, lastSentMs, interFrameMs, msgType, data[..], dataLen)
    }

    ghost predicate Valid()
      reads this, data
    {
      data.Length == FRAG_BUF_LEN && nextTransferId < 0x1_0000 && Sending(Session())
    }

    constructor ()
      ensures Valid() && fresh(data) && Session() == NoSending() && nextTransferId == 1
    {
      active, transferId, totalSegments, nextSegment := false, 0, 0, 0;
      lastSentMs, interFrameMs, msgType, dataLen, nextTransferId := 0, 0, 0, 0, 1;
      data := new Byte[FRAG_BUF_LEN](_ => 0);
      new;
      assert data[..] == NoSending().data;
    }

    method ClearSession()
      requires data.Length == FRAG_BUF_LEN
      modifies this, data
      ensures Session() == NoSending() && nextTransferId == old(nextTransferId)
    {
      active, transferId, totalSegments, nextSegment := false, 0, 0, 0;
      lastSentMs, interFrameMs, msgType, dataLen := 0, 0, 0, 0;
      forall k | 0 <= k < FRAG_BUF_LEN {
        data[k] := 0;
      }
      assert data[..] == NoSending().data;
    }

    /** A session in progress is abandoned. Transfer identifiers count up and wrap at 16 bits. */
    method StartFragSend(d: seq<Byte>, msgType: Byte, interFrameMs: nat) returns (ok: bool)
      requires Valid()
      modifies this, data
      ensures Valid()
      ensures ok <==> Sendable(d)
      ensures !ok ==> Session() == old(Session()) && nextTransferId == old(nextTransferId)
      ensures ok ==> Session() == Armed(old(nextTransferId), d, msgType, interFrameMs)
      ensures ok ==> nextTransferId == (old(nextTransferId) + 1) % 0x1_0000
    {
      if |d| == 0 { return false; }
      if |d| > MAX_FRAG_SEGMENTS * MAX_FRAG_PAYLOAD { return false; }
      var totalSegs := (|d| + MAX_FRAG_PAYLOAD - 1) / MAX_FRAG_PAYLOAD;
      ClearSession();
      CopyInto(data, 0, d);
      assert data[..] == Padded(d);
      active, transferId, totalSegments, nextSegment := true, nextTransferId, totalSegs, 0;
      this.interFrameMs, this.msgType, dataLen := interFrameMs, msgType, |d|;
      nextTransferId := (nextTransferId + 1) % 0x1_0000;
      return true;
    }

    method PumpFragSend(p: Pump) returns (out: Option<Outgoing>)
      requires Valid() && p.now < TWO32
      modifies this, data
      ensures Valid() && nextTransferId == old(nextTransferId)
      ensures (Session(), out) == PumpOne(old(Session()), p)
    {
      hide LastOf, FragFrame, WithFlag, NoSending;
      out := None;
      if !active { return; }
      if lastSentMs != 0 && Since(p.now, lastSentMs) < interFrameMs { return; }
      var seg, total := nextSegment, totalSegments;
      var offset := seg * MAX_FRAG_PAYLOAD;
      var remaining := dataLen - offset;
      var chunkLen := if remaining > MAX_FRAG_PAYLOAD then MAX_FRAG_PAYLOAD else remaining;
      ghost var d := data[..][..dataLen];
      ChunkIs(d, seg, chunkLen);
      assert data[offset..offset + chunkLen] == d[offset..offset + chunkLen];
      hide Chunk;
      var skeleton := BlankFrame().(ver := PROTOCOL_VERSION, node := NODE_ROCKET, msgType := msgType, seqNo := p.seqNo);
      var encoded, f := EncodeFrag(skeleton, FragHeader(transferId, seg, total), data[offset..offset + chunkLen]);
      if !encoded {
        assert false;
      }
      if seg == total - 1 {
        out := Some(Outgoing(LastOf(f), p.now, true));
        ClearSession();
        SilentSends();
      } else {
        out := Some(Outgoing(f, p.now, false));
        lastSentMs := p.now;
        nextSegment := seg + 1;
      }
    }
  }

  lemma ChunkIs(d: seq<Byte>, k: nat, n: nat)
    requires Sendable(d) && k < Segments(d)
    requires n == if |d| - k * MAX_FRAG_PAYLOAD > MAX_FRAG_PAYLOAD then MAX_FRAG_PAYLOAD else |d| - k * MAX_FRAG_PAYLOAD
    ensures Chunk(d, k) == d[k * MAX_FRAG_PAYLOAD..k * MAX_FRAG_PAYLOAD + n]
  {
  }

  lemma SilentSends()
    ensures Sending(NoSending())
  {
  }
}
