/**
 From a received COMMAND frame to its execution: duplicate detection, acknowledgement, reassembly of
 fragmented commands and the priority queue drained at the end of each poll
 (src/comms/radio_dispatcher.cpp:253-291, 930-1017 and 1038-1194).
 */
module CommandPath {
  import opened Bytes
  import opened Wrappers
  import opened Clock32
  import opened RadioProtocol
  import opened CommandQueue

  const CMD_QUEUE_DEPTH := 8
  const MAX_FRAG_SEGMENTS := 16
  const FRAG_TIMEOUT_MS := 30000
  const FRAG_BUF_LEN := MAX_FRAG_SEGMENTS * MAX_FRAG_PAYLOAD

  const NO_FAILURE: Byte := 0x00
  const UNKNOWN_TYPE: Byte := 0x02
  const QUEUE_FULL: Byte := 0x06
  const INVALID_PARAM: Byte := 0x07
  const ROUTING_FAIL: Byte := 0x08

  /**
   What the dispatcher does to the outside: an ACK or NACK frame, a heartbeat, a call of
   `executeCommand`, or a call of `clearRetryForSeq`.
   */
  datatype Event =
    | Reply(seqNo: Byte, node: Byte, code: Byte, data: Byte)
    | Heartbeat
    | Execute(frame: Frame)
    | Confirmed(seqNo: Byte)

  /** The one reassembly session. */
  datatype Session = Session(active: bool, transferId: nat, totalSegments: nat, lastActivityMs: nat,
                             received: seq<bool>, data: seq<Byte>, dataLen: nat)

  /** `waiting` is the queue in arrival order; `offered` every command that ever asked for a place in it. */
  datatype Inbox = Inbox(waiting: seq<Frame>, seen: Option<Byte>, session: Session,
                         log: seq<Event>, offered: seq<Frame>)

  function NoSession(): Session {
    Session(false, 0, 0, 0, seq(MAX_FRAG_SEGMENTS, _ => false), seq(FRAG_BUF_LEN, _ => 0), 0)
  }

  predicate SessionSane(s: Session) {
    && s.totalSegments <= MAX_FRAG_SEGMENTS && s.lastActivityMs < TWO32
    && |s.received| == MAX_FRAG_SEGMENTS && |s.data| == FRAG_BUF_LEN
  }

  predicate InboxSane(i: Inbox) {
    SessionSane(i.session) && |i.waiting| <= CMD_QUEUE_DEPTH
  }

  function EmptyInbox(): Inbox {
    Inbox([], None, NoSession(), [], [])
  }

  // ----- Steps -----

  function Answer(i: Inbox, f: Frame, code: Byte, data: Byte): Inbox {
    i.(log := i.log + [Reply(f.seqNo, f.node, code, data)])
  }

  /** `enqueueCmd` and the NACK for a full queue. */
  function Offer(i: Inbox, f: Frame): Inbox {
    var o := i.(offered := i.offered + [f]);
    if |i.waiting| < CMD_QUEUE_DEPTH then o.(waiting := i.waiting + [f])
    else if HasFlag(f.flags, FLAG_ACK_REQ) then Answer(o, f, QUEUE_FULL, f.payload[1])
    else o
  }

  function Handle(i: Inbox, f: Frame, now: nat): (r: Inbox)
    requires InboxSane(i) && Value(f.len) <= MAX_PAYLOAD_LEN && now < TWO32
    ensures InboxSane(r)
  {
    if i.seen == Some(f.seqNo) then i
    else if HasFlag(f.flags, FLAG_FRAGMENT) then Fragment(i, f, now)
    else Offer(Answer(i, f, NO_FAILURE, 0).(seen := Some(f.seqNo)), f)
  }

  /** The session a segment falls into: a stale one is dropped, a missing one opened. */
  function Opened(s: Session, h: FragHeader, now: nat): (r: Session)
    requires SessionSane(s) && now < TWO32 && h.totalSegments <= MAX_FRAG_SEGMENTS
    ensures SessionSane(r) && r.active
  {
    if s.active && Since(now, s.lastActivityMs) < FRAG_TIMEOUT_MS then s
    else NoSession().(active := true, transferId := h.transferId, totalSegments := h.totalSegments,
                      lastActivityMs := now)
  }

  function SegmentData(f: Frame): (d: seq<Byte>)
    requires FRAG_HEADER_LEN <= Value(f.len) <= MAX_PAYLOAD_LEN
    ensures |d| <= MAX_FRAG_PAYLOAD
  {
    f.payload[FRAG_HEADER_LEN..Value(f.len)]
  }

  function Stored(s: Session, k: nat, d: seq<Byte>, now: nat): (r: Session)
    requires SessionSane(s) && now < TWO32 && k < MAX_FRAG_SEGMENTS && |d| <= MAX_FRAG_PAYLOAD
    ensures SessionSane(r)
  {
    s.(received := s.received[k := true],
       data := Splice(s.data, k * MAX_FRAG_PAYLOAD, d),
       dataLen := (s.dataLen + |d|) % 0x1_0000,
       lastActivityMs := now)
  }

  predicate AllReceived(s: Session)
    requires SessionSane(s)
  {
    forall k :: 0 <= k < s.totalSegments ==> s.received[k]
  }

  function WithoutFlag(flags: Byte, flag: Byte): Byte {
    flags & (0xFF ^ flag)
  }

  function CopyLen(dataLen: nat): (n: nat)
    ensures n <= MAX_PAYLOAD_LEN
  {
    if dataLen <= MAX_PAYLOAD_LEN then dataLen else MAX_PAYLOAD_LEN
  }

  /** The reassembled command rides on the frame of the last segment; at most 200 octets fit. */
  function Assembled(f: Frame, s: Session): Frame
    requires SessionSane(s)
  {
    f.(flags := WithoutFlag(f.flags, FLAG_FRAGMENT),
       payload := s.data[..CopyLen(s.dataLen)] + f.payload[CopyLen(s.dataLen)..],
       len := ToByte(CopyLen(s.dataLen)))
  }

  /** `handleFragmentedCommand` */
  function Fragment(i: Inbox, f: Frame, now: nat): (r: Inbox)
    requires InboxSane(i) && Value(f.len) <= MAX_PAYLOAD_LEN && now < TWO32
    ensures InboxSane(r)
  {
    match DecodeFrag(f)
    case None => Answer(i, f, INVALID_PARAM, 0)
    case Some(h) =>
      if h.totalSegments > MAX_FRAG_SEGMENTS then Answer(i, f, INVALID_PARAM, 0)
      else
        var s := Opened(i.session, h, now);
        if s.transferId != h.transferId || s.totalSegments != h.totalSegments then Answer(i, f, QUEUE_FULL, 0)
        else if s.received[h.segmentNum] then Answer(i.(session := s), f, NO_FAILURE, 0)
        else
          var t := Stored(s, h.segmentNum, SegmentData(f), now);
          var acked := Answer(i.(session := t), f, NO_FAILURE, 0);
          if AllReceived(t) then Offer(acked.(session := NoSession(), seen := Some(f.seqNo)), Assembled(f, t))
          else acked
  }

  /** Execution of one command and its completion report. */
  function Completion(f: Frame, result: Byte): seq<Event> {
    [Execute(f)]
    + if HasFlag(f.flags, FLAG_ACK_REQ)
      then [Reply(f.seqNo, f.node, result, if result != NO_FAILURE then f.payload[1] else 0)] else []
  }

  /** Executions in order; `results` tells the outcome of the n-th `executeCommand`. */
  function Completions(fs: seq<Frame>, results: nat -> Byte, n: nat): seq<Event>
    decreases |fs|
  {
    if fs == [] then [] else Completion(fs[0], results(n)) + Completions(fs[1..], results, n + 1)
  }

  /** `drainCmdQueue` */
  function Drain(i: Inbox, results: nat -> Byte): (r: Inbox)
    ensures InboxSane(i) ==> InboxSane(r)
  {
    i.(waiting := [], log := i.log + Completions(ByPriority(i.waiting), results, 0))
  }

  /** `dispatchFrame` */
  function Dispatch(i: Inbox, f: Frame, now: nat): (r: Inbox)
    requires InboxSane(i) && Value(f.len) <= MAX_PAYLOAD_LEN && now < TWO32
    ensures InboxSane(r)
  {
    if f.node != NODE_ROCKET && f.node != NODE_BROADCAST then
      if f.msgType == COMMAND then i.(log := i.log + [Reply(f.seqNo, NODE_GROUND, ROUTING_FAIL, f.node)]) else i
    else if f.msgType == COMMAND then Handle(i, f, now)
    else if f.msgType == HEARTBEAT then i.(log := i.log + [Heartbeat])
    else if f.msgType == TELEMETRY || f.msgType == EVENT then i
    else if f.msgType == ACK then
      if Value(f.len) >= MinPayload(ACK) then i.(log := i.log + [Confirmed(f.payload[0])]) else i
    else i.(log := i.log + [Reply(f.seqNo, NODE_GROUND, UNKNOWN_TYPE, f.msgType)])
  }

  /** A poll that received `frames`, at one reading of the clock. */
  function DispatchAll(i: Inbox, frames: seq<Frame>, now: nat): (r: Inbox)
    requires InboxSane(i) && AllFit(frames) && now < TWO32
    ensures InboxSane(r)
  {
    if frames == [] then i
    else
      var n := |frames| - 1;
      assert frames[n] in frames;
      Dispatch(DispatchAll(i, frames[..n], now), frames[n], now)
  }

  predicate AllFit(frames: seq<Frame>) {
    forall f :: f in frames ==> Value(f.len) <= MAX_PAYLOAD_LEN
  }

  datatype PollInput = PollInput(frames: seq<Frame>, now: nat, results: nat -> Byte)

  predicate PollOk(p: PollInput) {
    AllFit(p.frames) && p.now < TWO32
  }

  function Poll(i: Inbox, p: PollInput): (r: Inbox)
    requires InboxSane(i) && PollOk(p)
    ensures InboxSane(r)
  {
    Drain(DispatchAll(i, p.frames, p.now), p.results)
  }

  // ----- The fields and arrays of the dispatcher -----

  class CommandHandler {
    const cmdQueue: array<PendingCmd>
    var cmdQueueCount: nat
    var lastRxSeq: Byte
    var seenFirst: bool
    var fragActive: bool
    var transferId: nat
    var totalSegments: nat
    var lastActivityMs: nat
    const received: array<bool>
    const data: array<Byte>
    var dataLen: nat
    /** Frames sent and commands run, oldest first. */
    var log: seq<Event>
    ghost var offered: seq<Frame>

    ghost function FragSession(): Session
      reads this, received, data
    {
      Session(fragActive, transferId, totalSegments, lastActivityMs, received[..], data[..], dataLen)
    }

    ghost function Now(): Inbox
      reads this, cmdQueue, received, data
    {
      Inbox(Waiting(cmdQueue[..]), if seenFirst then Some(lastRxSeq) else None, FragSession(), log, offered)
    }

    /** Slots fill from the front; they are freed only by a complete drain. */
    ghost predicate Valid()
      reads this, cmdQueue, received, data
    {
      && cmdQueue.Length == CMD_QUEUE_DEPTH
      && received.Length == MAX_FRAG_SEGMENTS && data.Length == FRAG_BUF_LEN
      && SessionSane(FragSession())
      && Tagged(cmdQueue[..])
      && Packed(cmdQueue[..], cmdQueueCount)
    }

    constructor ()
      ensures Valid() && Now() == EmptyInbox()
      ensures fresh(cmdQueue) && fresh(received) && fresh(data)
    {
      cmdQueue := new PendingCmd[CMD_QUEUE_DEPTH](_ => PendingCmd(BlankFrame(), 0, false));
      received := new bool[MAX_FRAG_SEGMENTS](_ => false);
      data := new Byte[FRAG_BUF_LEN](_ => 0);
      cmdQueueCount, lastRxSeq, seenFirst := 0, 0, false;
      fragActive, transferId, totalSegments, lastActivityMs, dataLen := false, 0, 0, 0, 0;
      log, offered := [], [];
      new;
      IdleSlots(cmdQueue[..]);
      assert received[..] == NoSession().received && data[..] == NoSession().data;
    }

    method SendAckNack(f: Frame, code: Byte, failureData: Byte)
      requires Valid()
      modifies this`log
      ensures Valid() && Now() == Answer(old(Now()), f, code, failureData)
    {
      log := log + [Reply(f.seqNo, f.node, code, failureData)];
    }

    /** Takes the first free slot. */
    method EnqueueCmd(f: Frame) returns (ok: bool)
      requires Valid()
      modifies this`cmdQueueCount, this`offered, cmdQueue
      ensures Valid()
      ensures ok <==> old(cmdQueueCount) < CMD_QUEUE_DEPTH
      ensures Now() == old(Now()).(waiting := if ok then old(Now()).waiting + [f] else old(Now()).waiting,
                                   offered := old(offered) + [f])
    {
      hide Waiting, CommandPriority, NoSession;
      offered := offered + [f];
      if cmdQueueCount >= CMD_QUEUE_DEPTH { return false; }
      var i := 0;
      while i < CMD_QUEUE_DEPTH
        invariant i <= cmdQueueCount
      {
        if !cmdQueue[i].active {
          cmdQueue[i] := PendingCmd(f, CommandPriority(f.payload[1]), true);
          cmdQueueCount := cmdQueueCount + 1;
          PackedGrows(old(cmdQueue[..]), i, cmdQueue[i]);
          assert cmdQueue[..] == old(cmdQueue[..])[i := cmdQueue[i]];
          return true;
        }
        i := i + 1;
      }
      assert false;
    }

    /** The first active slot of the lowest priority value; none when the queue is empty. */
    method FindBest() returns (best: Option<nat>)
      requires cmdQueue.Length == CMD_QUEUE_DEPTH && Tagged(cmdQueue[..])
      ensures best.None? ==> forall k :: 0 <= k < cmdQueue.Length ==> !cmdQueue[k].active
      ensures best.Some? ==> Best(cmdQueue[..], best.value)
    {
      hide CommandPriority;
      best := None;
      var bestPrio := 0xFF;
      var i := 0;
      while i < CMD_QUEUE_DEPTH
        invariant i <= CMD_QUEUE_DEPTH
        invariant best.None? ==> bestPrio == 0xFF && forall k :: 0 <= k < i ==> !cmdQueue[k].active
        invariant best.Some? ==>
                    best.value < i && cmdQueue[best.value].active && cmdQueue[best.value].priority == bestPrio
        invariant best.Some? ==> forall k :: 0 <= k < i && cmdQueue[k].active ==> bestPrio <= cmdQueue[k].priority
        invariant best.Some? ==> forall k :: 0 <= k < best.value && cmdQueue[k].active ==>
                    bestPrio < cmdQueue[k].priority
      {
        if cmdQueue[i].active && cmdQueue[i].priority < bestPrio {
          best, bestPrio := Some(i), cmdQueue[i].priority;
        }
        i := i + 1;
      }
    }

    /** Executes everything queued; the queue and its count end at zero. */
    method DrainCmdQueue(results: nat -> Byte)
      requires Valid()
      modifies this`cmdQueueCount, this`log, cmdQueue
      ensures Valid() && cmdQueueCount == 0
      ensures Now() == Drain(old(Now()), results)
    {
      hide Waiting, ByPriority, Completion, NoSession, Best, Level, CommandPriority;
      ghost var all := ByPriority(Waiting(cmdQueue[..]));
      PackedCount(cmdQueue[..], cmdQueueCount);
      var n := 0;
      var more := true;
      while n < CMD_QUEUE_DEPTH && more
        invariant n <= CMD_QUEUE_DEPTH && Counted()
        invariant cmdQueueCount <= CMD_QUEUE_DEPTH - n
        invariant !more ==> cmdQueueCount == 0
        invariant log + Completions(ByPriority(Waiting(cmdQueue[..])), results, n)
               == old(log) + Completions(all, results, 0)
        decreases CMD_QUEUE_DEPTH - n, more
      {
        ghost var left, before := ByPriority(Waiting(cmdQueue[..])), log;
        more := DrainOne(results(n));
        if more {
          assert left == [left[0]] + left[1..];
          CompletionsFrom(before, left[0], left[1..], results, n);
          n := n + 1;
        }
      }
      EmptyOrder(Waiting(cmdQueue[..]), results, n);
      IdleSlots(cmdQueue[..]);
    }

    ghost predicate Counted()
      reads this, cmdQueue
    {
      cmdQueue.Length == CMD_QUEUE_DEPTH && Tagged(cmdQueue[..]) && cmdQueueCount == |Waiting(cmdQueue[..])|
    }

    /** Frees the best slot, then executes its command. */
    method DrainOne(result: Byte) returns (found: bool)
      requires Counted()
      modifies this`cmdQueueCount, this`log, cmdQueue
      ensures Counted()
      ensures found <==> old(cmdQueueCount) > 0
      ensures !found ==> cmdQueue[..] == old(cmdQueue[..]) && cmdQueueCount == old(cmdQueueCount) && log == old(log)
      ensures found ==> var all := old(ByPriority(Waiting(cmdQueue[..])));
                        && all != [] && ByPriority(Waiting(cmdQueue[..])) == all[1..]
                        && cmdQueueCount == old(cmdQueueCount) - 1 && log == old(log) + Completion(all[0], result)
    {
      hide Waiting, ByPriority, Completion, Best, Level, CommandPriority;
      var best := FindBest();
      IdleSlots(cmdQueue[..]);
      if best.None? { return false; }
      var b := best.value;
      BestInRange(cmdQueue[..], b);
      PickIsNext(cmdQueue[..], b);
      var cmd := cmdQueue[b];
      cmdQueue[b] := cmd.(active := false);
      assert cmdQueue[..] == old(cmdQueue[..])[b := cmd.(active := false)];
      cmdQueueCount := cmdQueueCount - 1;
      ExecuteAndReport(cmd.frame, result);
      return true;
    }

    method ExecuteAndReport(f: Frame, result: Byte)
      modifies this`log
      ensures log == old(log) + Completion(f, result)
    {
      log := log + [Execute(f)];
      if HasFlag(f.flags, FLAG_ACK_REQ) {
        var diag := if result != NO_FAILURE then f.payload[1] else 0;
        log := log + [Reply(f.seqNo, f.node, result, diag)];
      }
    }

    // ----- Reassembly -----

    method ClearSession()
      requires Valid()
      modifies this`fragActive, this`transferId, this`totalSegments, this`lastActivityMs, this`dataLen, received, data
      ensures Valid() && Now() == old(Now()).(session := NoSession())
    {
      hide Waiting, CommandPriority;
      fragActive, transferId, totalSegments, lastActivityMs, dataLen := false, 0, 0, 0, 0;
      forall k | 0 <= k < MAX_FRAG_SEGMENTS {
        received[k] := false;
      }
      forall k | 0 <= k < FRAG_BUF_LEN {
        data[k] := 0;
      }
      assert received[..] == NoSession().received;
      assert data[..] == NoSession().data;
      assert FragSession() == NoSession();
      assert cmdQueue[..] == old(cmdQueue[..]);
    }

    /** Drops a stale session and opens one for this segment if none is left. */
    method OpenSession(h: FragHeader, now: nat)
      requires Valid() && now < TWO32 && h.totalSegments <= MAX_FRAG_SEGMENTS
      modifies this`fragActive, this`transferId, this`totalSegments, this`lastActivityMs, this`dataLen, received, data
      ensures Valid() && Now() == old(Now()).(session := Opened(old(Now()).session, h, now))
    {
      hide Waiting, CommandPriority, NoSession;
      if fragActive && Since(now, lastActivityMs) >= FRAG_TIMEOUT_MS {
        ClearSession();
        BlankSession();
      }
      if !fragActive {
        ClearSession();
        BlankSession();
        fragActive, transferId, totalSegments, lastActivityMs := true, h.transferId, h.totalSegments, now;
      }
    }

    method StoreSegment(k: nat, d: seq<Byte>, now: nat)
      requires Valid() && now < TWO32 && k < MAX_FRAG_SEGMENTS && |d| <= MAX_FRAG_PAYLOAD
      modifies this`lastActivityMs, this`dataLen, received, data
      ensures Valid() && Now() == old(Now()).(session := Stored(old(Now()).session, k, d, now))
    {
      hide Waiting, CommandPriority, NoSession, Splice;
      var offset := k * MAX_FRAG_PAYLOAD;
      if |d| > 0 {
        if offset + |d| <= data.Length {
          CopyInto(data, offset, d);
          dataLen := (dataLen + |d|) % 0x1_0000;
        } else {
          assert false;
        }
      } else {
        SpliceNothing(data[..], offset, d);
        dataLen := dataLen % 0x1_0000;
      }
      received[k] := true;
      lastActivityMs := now;
      assert received[..] == old(received[..])[k := true];
    }

    method CheckAllReceived() returns (all: bool)
      requires Valid()
      ensures all == AllReceived(Now().session)
    {
      all := true;
      var k := 0;
      while k < totalSegments && all
        invariant k <= totalSegments
        invariant all ==> forall j :: 0 <= j < k ==> received[j]
        invariant !all ==> k < totalSegments && !received[k]
        decreases totalSegments - k, all
      {
        if !received[k] { all := false; } else { k := k + 1; }
      }
    }

    /** Assembles the command, closes the session and offers the command to the queue. */
    method Complete(f: Frame)
      requires Valid()
      modifies this, cmdQueue, received, data
      ensures Valid()
      ensures Now() == Offer(old(Now()).(session := NoSession(), seen := Some(f.seqNo)),
                             Assembled(f, old(Now()).session))
    {
      hide Waiting, CommandPriority, WithoutFlag, ToByte, NoSession;
      var copyLen := if dataLen <= MAX_PAYLOAD_LEN then dataLen else MAX_PAYLOAD_LEN;
      var payload: Payload := data[..copyLen] + f.payload[copyLen..];
      var command := f.(flags := WithoutFlag(f.flags, FLAG_FRAGMENT), payload := payload, len := ToByte(copyLen));
      assert data[..copyLen] == data[..][..copyLen];
      assert command == Assembled(f, Now().session);
      ClearSession();
      lastRxSeq, seenFirst := f.seqNo, true;
      OfferCmd(command);
    }

    method OfferCmd(f: Frame)
      requires Valid()
      modifies this`cmdQueueCount, this`offered, this`log, cmdQueue
      ensures Valid() && Now() == Offer(old(Now()), f)
    {
      hide Waiting, CommandPriority, NoSession;
      PackedCount(cmdQueue[..], cmdQueueCount);
      var ok := EnqueueCmd(f);
      if !ok {
        if HasFlag(f.flags, FLAG_ACK_REQ) {
          SendAckNack(f, QUEUE_FULL, f.payload[1]);
        }
      }
    }

    method HandleFragmentedCommand(f: Frame, now: nat)
      requires Valid() && Value(f.len) <= MAX_PAYLOAD_LEN && now < TWO32
      modifies this, cmdQueue, received, data
      ensures Valid() && InboxSane(old(Now())) && Now() == Fragment(old(Now()), f, now)
    {
      hide Waiting, CommandPriority, NoSession, Valid, Now, Opened, Stored, Assembled, Offer;
      NowIsSane();
      var frag := DecodeFrag(f);
      if frag.None? {
        SendAckNack(f, INVALID_PARAM, 0);
        return;
      }
      var h := frag.value;
      if h.totalSegments > MAX_FRAG_SEGMENTS {
        SendAckNack(f, INVALID_PARAM, 0);
        return;
      }
      OpenSession(h, now);
      MismatchIsOld(old(Now()).session, h, now);
      SessionFields();
      if transferId != h.transferId || totalSegments != h.totalSegments {
        SendAckNack(f, QUEUE_FULL, 0);
        return;
      }
      if received[h.segmentNum] {
        SendAckNack(f, NO_FAILURE, 0);
        return;
      }
      StoreSegment(h.segmentNum, SegmentData(f), now);
      SendAckNack(f, NO_FAILURE, 0);
      var all := CheckAllReceived();
      if all {
        Complete(f);
      }
    }

    lemma NowIsSane()
      requires Valid()
      ensures InboxSane(Now())
    {
    }

    lemma SessionFields()
      requires Valid()
      ensures Now().session.transferId == transferId && Now().session.totalSegments == totalSegments
      ensures Now().session.received == received[..] && received.Length == MAX_FRAG_SEGMENTS
    {
    }

    // ----- The command handler -----

    method HandleCommand(f: Frame, now: nat)
      requires Valid() && Value(f.len) <= MAX_PAYLOAD_LEN && now < TWO32
      modifies this, cmdQueue, received, data
      ensures Valid() && InboxSane(old(Now())) && Now() == Handle(old(Now()), f, now)
    {
      hide Waiting, CommandPriority, NoSession, Fragment, HasFlag;
      NowIsSane();
      if seenFirst && f.seqNo == lastRxSeq { return; }
      if HasFlag(f.flags, FLAG_FRAGMENT) {
        HandleFragmentedCommand(f, now);
        return;
      }
      SendAckNack(f, NO_FAILURE, 0);
      lastRxSeq, seenFirst := f.seqNo, true;
      OfferCmd(f);
    }

    method DispatchFrame(f: Frame, now: nat)
      requires Valid() && Value(f.len) <= MAX_PAYLOAD_LEN && now < TWO32
      modifies this, cmdQueue, received, data
      ensures Valid() && InboxSane(old(Now())) && Now() == Dispatch(old(Now()), f, now)
    {
      hide Waiting, CommandPriority, NoSession, Handle;
      NowIsSane();
      if f.node != NODE_ROCKET && f.node != NODE_BROADCAST {
        if f.msgType == COMMAND {
          log := log + [Reply(f.seqNo, NODE_GROUND, ROUTING_FAIL, f.node)];
        }
        return;
      }
      if f.msgType == COMMAND {
        HandleCommand(f, now);
      } else if f.msgType == HEARTBEAT {
        log := log + [Heartbeat];
      } else if f.msgType == TELEMETRY || f.msgType == EVENT {
      } else if f.msgType == ACK {
        if Value(f.len) >= MinPayload(ACK) {
          log := log + [Confirmed(f.payload[0])];
        }
      } else {
        log := log + [Reply(f.seqNo, NODE_GROUND, UNKNOWN_TYPE, f.msgType)];
      }
    }

    /** Every frame the receiver extracted, then the queue. */
    method PollFrames(p: PollInput)
      requires Valid() && PollOk(p)
      modifies this, cmdQueue, received, data
      ensures Valid() && cmdQueueCount == 0
      ensures InboxSane(old(Now())) && Now() == Poll(old(Now()), p)
    {
      hide Waiting, CommandPriority, NoSession, Dispatch, Valid, Now, Drain;
      NowIsSane();
      var k := 0;
      assert p.frames[..0] == [];
      while k < |p.frames|
        invariant k <= |p.frames| && Valid()
        invariant Now() == DispatchAll(old(Now()), p.frames[..k], p.now)
      {
        assert p.frames[..k + 1][..k] == p.frames[..k];
        assert p.frames[k] in p.frames;
        DispatchFrame(p.frames[k], p.now);
        k := k + 1;
      }
      assert p.frames[..k] == p.frames;
      DrainCmdQueue(p.results);
    }
  }

  lemma BlankSession()
    ensures !NoSession().active && SessionSane(NoSession())
    ensures NoSession().dataLen == 0
  {
  }

  lemma SpliceNothing(s: seq<Byte>, at: nat, d: seq<Byte>)
    requires at <= |s| && d == []
    ensures Splice(s, at, d) == s
  {
  }

  /** A segment of another transfer finds the session as it was. */
  lemma MismatchIsOld(s: Session, h: FragHeader, now: nat)
    requires SessionSane(s) && now < TWO32 && h.totalSegments <= MAX_FRAG_SEGMENTS
    ensures var o := Opened(s, h, now);
            o.transferId != h.transferId || o.totalSegments != h.totalSegments ==> o == s
  {
  }

  predicate Packed(slots: seq<PendingCmd>, count: nat) {
    count <= |slots| && forall i :: 0 <= i < |slots| ==> (slots[i].active <==> i < count)
  }

  lemma PackedCount(slots: seq<PendingCmd>, count: nat)
    requires Packed(slots, count)
    ensures |Waiting(slots)| == count
  {
    hide Waiting;
    WaitingConcat(slots[..count], slots[count..]);
    assert slots == slots[..count] + slots[count..];
    BusySlots(slots[..count]);
    IdleSlots(slots[count..]);
  }

  lemma PackedGrows(slots: seq<PendingCmd>, i: nat, x: PendingCmd)
    requires Packed(slots, i) && i < |slots| && x.active
    ensures Waiting(slots[i := x]) == Waiting(slots) + [x.frame]
  {
    var grown := slots[i := x];
    assert Waiting([x]) == [x.frame] && Waiting([slots[i]]) == [];
    hide Waiting;
    WaitingSplit(slots, i);
    WaitingSplit(grown, i);
    AroundUpdate(slots, i, x);
    IdleSlots(slots[i + 1..]);
    assert Waiting(slots[i + 1..]) == [];
  }

  lemma BestInRange(slots: seq<PendingCmd>, i: nat)
    requires Best(slots, i)
    ensures i < |slots| && slots[i].active
  {
  }

  lemma CompletionsFrom(before: seq<Event>, f: Frame, rest: seq<Frame>, results: nat -> Byte, n: nat)
    ensures before + Completions([f] + rest, results, n)
         == before + Completion(f, results(n)) + Completions(rest, results, n + 1)
  {
    assert ([f] + rest)[1..] == rest;
  }

  lemma EmptyOrder(fs: seq<Frame>, results: nat -> Byte, n: nat)
    requires fs == []
    ensures Completions(ByPriority(fs), results, n) == []
  {
  }
}
