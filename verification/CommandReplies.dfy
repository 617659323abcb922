/** Acknowledgement of commands: what a poll of any traffic answers, number by number and code by code. */
module CommandReplies {
  import opened Bytes
  import opened Wrappers
  import opened Clock32
  import opened RadioProtocol
  import opened CommandQueue
  import opened CommandPath
  import opened CommandRuns

  // ----- Counting -----

  /** Replies to number `s`, of one code or of any. */
  function RepliesTo(log: seq<Event>, s: Byte, code: Option<Byte>): nat {
    if log == [] then 0 else RepliesTo(log[1..], s, code) + if Matches(log[0], s, code) then 1 else 0
  }

  predicate Matches(e: Event, s: Byte, code: Option<Byte>) {
    e.Reply? && e.seqNo == s && (code.Some? ==> e.code == code.value)
  }

  function Numbered(fs: seq<Frame>, s: Byte): nat {
    if fs == [] then 0 else Numbered(fs[1..], s) + if fs[0].seqNo == s then 1 else 0
  }

  /** Commands that ask for a completion report. */
  function Asking(fs: seq<Frame>, s: Byte): nat {
    if fs == [] then 0
    else Asking(fs[1..], s) + if fs[0].seqNo == s && HasFlag(fs[0].flags, FLAG_ACK_REQ) then 1 else 0
  }

  lemma {:induction false} RepliesConcat(a: seq<Event>, b: seq<Event>, s: Byte, code: Option<Byte>)
    ensures RepliesTo(a + b, s, code) == RepliesTo(a, s, code) + RepliesTo(b, s, code)
  {
    hide Matches;
    if a == [] {
      assert a + b == b;
    } else {
      assert (a + b)[1..] == a[1..] + b && (a + b)[0] == a[0];
      RepliesConcat(a[1..], b, s, code);
    }
  }

  lemma OneMoreEvent(log: seq<Event>, e: Event, s: Byte, code: Option<Byte>)
    ensures RepliesTo(log + [e], s, code) == RepliesTo(log, s, code) + if Matches(e, s, code) then 1 else 0
  {
    hide Matches;
    RepliesConcat(log, [e], s, code);
    assert RepliesTo([e], s, code) == RepliesTo([], s, code) + if Matches(e, s, code) then 1 else 0;
  }

  lemma {:induction false} CountsConcat(a: seq<Frame>, b: seq<Frame>, s: Byte)
    ensures Numbered(a + b, s) == Numbered(a, s) + Numbered(b, s)
    ensures Asking(a + b, s) == Asking(a, s) + Asking(b, s)
  {
    hide HasFlag;
    if a == [] {
      assert a + b == b;
    } else {
      assert (a + b)[1..] == a[1..] + b && (a + b)[0] == a[0];
      CountsConcat(a[1..], b, s);
    }
  }

  lemma {:induction false} AskingByLevel(fs: seq<Frame>, s: Byte)
    ensures Asking(OfLevel(fs, 0), s) + Asking(OfLevel(fs, 1), s) + Asking(OfLevel(fs, 2), s)
              + Asking(OfLevel(fs, 3), s)
         == Asking(fs, s)
  {
    hide HasFlag, CommandPriority;
    if fs != [] {
      AskingByLevel(fs[1..], s);
      LevelAsking(fs, 0, s);
      LevelAsking(fs, 1, s);
      LevelAsking(fs, 2, s);
      LevelAsking(fs, 3, s);
    }
  }

  lemma LevelAsking(fs: seq<Frame>, p: nat, s: Byte)
    requires fs != []
    ensures Asking(OfLevel(fs, p), s)
         == Asking(OfLevel(fs[1..], p), s)
            + if Level(fs[0]) == p && fs[0].seqNo == s && HasFlag(fs[0].flags, FLAG_ACK_REQ) then 1 else 0
  {
    hide HasFlag, CommandPriority;
    if Level(fs[0]) == p {
      assert OfLevel(fs, p)[1..] == OfLevel(fs[1..], p);
    } else {
      assert OfLevel(fs, p) == OfLevel(fs[1..], p);
    }
  }

  lemma AskingByPriority(fs: seq<Frame>, s: Byte)
    ensures Asking(ByPriority(fs), s) == Asking(fs, s)
  {
    hide Asking, OfLevel;
    CountsConcat(OfLevel(fs, 0) + OfLevel(fs, 1) + OfLevel(fs, 2), OfLevel(fs, 3), s);
    CountsConcat(OfLevel(fs, 0) + OfLevel(fs, 1), OfLevel(fs, 2), s);
    CountsConcat(OfLevel(fs, 0), OfLevel(fs, 1), s);
    AskingByLevel(fs, s);
  }

  lemma {:induction false} CompletionsReply(fs: seq<Frame>, results: nat -> Byte, n: nat, s: Byte)
    ensures RepliesTo(Completions(fs, results, n), s, None) == Asking(fs, s)
  {
    hide HasFlag;
    if fs != [] {
      CompletionsReply(fs[1..], results, n + 1, s);
      RepliesConcat(Completion(fs[0], results(n)), Completions(fs[1..], results, n + 1), s, None);
      CompletionReplies(fs[0], results(n), s);
    }
  }

  lemma CompletionReplies(f: Frame, result: Byte, s: Byte)
    ensures RepliesTo(Completion(f, result), s, None) == if f.seqNo == s && HasFlag(f.flags, FLAG_ACK_REQ) then 1 else 0
  {
    hide HasFlag;
    OneMoreEvent([], Execute(f), s, None);
    assert [] + [Execute(f)] == [Execute(f)];
    if HasFlag(f.flags, FLAG_ACK_REQ) {
      OneMoreEvent([Execute(f)], Completion(f, result)[1], s, None);
      assert [Execute(f)] + [Completion(f, result)[1]] == Completion(f, result);
    }
  }

  // ----- One frame -----

  /** The frame is answered on the spot: a refused destination, a new command or segment, an unknown type. */
  predicate AnsweredAtOnce(i: Inbox, f: Frame) {
    if f.node != NODE_ROCKET && f.node != NODE_BROADCAST then f.msgType == COMMAND
    else if f.msgType == COMMAND then i.seen != Some(f.seqNo)
    else !KnownType(f.msgType)
  }

  /** Every frame of number `s` is of a known type and, if a command, unfragmented and meant for this receiver. */
  predicate Plain(f: Frame, s: Byte) {
    f.seqNo == s ==> KnownType(f.msgType)
                     && (f.msgType == COMMAND ==> (f.node == NODE_ROCKET || f.node == NODE_BROADCAST)
                                                  && !HasFlag(f.flags, FLAG_FRAGMENT))
  }

  /** Offers that find no place are answered once more with QUEUE_FULL if they asked. */
  function Refusals(code: Option<Byte>, n: nat): nat {
    if code == None || code == Some(QUEUE_FULL) then n else 0
  }

  /** Of the answers on the spot, those of the code asked about: to plain frames all of them say NO_FAILURE. */
  function AtOnce(n: nat, code: Option<Byte>): nat {
    if code == None || code == Some(NO_FAILURE) then n else 0
  }

  function NewOffers(i: Inbox, r: Inbox): seq<Frame> {
    if |i.offered| <= |r.offered| then r.offered[|i.offered|..] else []
  }

  /** From `i` to `r`: `n` answers on the spot, and one refusal for each asking offer that does not wait. */
  predicate Balanced(i: Inbox, r: Inbox, s: Byte, code: Option<Byte>, n: nat) {
    && |i.offered| <= |r.offered| && i.offered == r.offered[..|i.offered|]
    && RepliesTo(r.log, s, code) + Refusals(code, Asking(r.waiting, s))
       == RepliesTo(i.log, s, code) + Refusals(code, Asking(i.waiting, s)) + n
         + Refusals(code, Asking(NewOffers(i, r), s))
  }

  lemma BalancedTransitive(i: Inbox, r: Inbox, q: Inbox, s: Byte, code: Option<Byte>, n: nat, m: nat)
    requires Balanced(i, r, s, code, n) && Balanced(r, q, s, code, m)
    ensures Balanced(i, q, s, code, n + m)
    ensures NewOffers(i, q) == NewOffers(i, r) + NewOffers(r, q)
  {
    hide RepliesTo, Asking;
    Extended(i.offered, r.offered, q.offered);
    CountsConcat(NewOffers(i, r), NewOffers(r, q), s);
  }

  /** An event noted, and the session or the last number changed. */
  lemma NoteBalances(i: Inbox, e: Event, session: Session, seen: Option<Byte>, s: Byte, code: Option<Byte>)
    ensures Balanced(i, i.(log := i.log + [e], session := session, seen := seen), s, code,
                     if Matches(e, s, code) then 1 else 0)
    ensures NewOffers(i, i.(log := i.log + [e], session := session, seen := seen)) == []
  {
    hide RepliesTo, Matches;
    OneMoreEvent(i.log, e, s, code);
  }

  lemma OfferBalances(i: Inbox, f: Frame, s: Byte, code: Option<Byte>)
    ensures Balanced(i, Offer(i, f), s, code, 0) && NewOffers(i, Offer(i, f)) == [f]
  {
    hide RepliesTo, HasFlag;
    OneMoreEvent(i.log, Reply(f.seqNo, f.node, QUEUE_FULL, f.payload[1]), s, code);
    CountsConcat(i.waiting, [f], s);
    OneAsking(f, s);
    assert NewOffers(i, Offer(i, f)) == [f];
  }

  lemma OneAsking(f: Frame, s: Byte)
    ensures Asking([f], s) == if f.seqNo == s && HasFlag(f.flags, FLAG_ACK_REQ) then 1 else 0
    ensures Numbered([f], s) == if f.seqNo == s then 1 else 0
  {
    hide HasFlag;
    assert [f][1..] == [];
  }

  lemma SameBalances(i: Inbox, s: Byte, code: Option<Byte>)
    ensures Balanced(i, i, s, code, 0) && NewOffers(i, i) == []
  {
    hide RepliesTo, Asking;
    NothingAsked(s);
  }

  lemma NothingAsked(s: Byte)
    ensures Asking([], s) == 0 && Numbered([], s) == 0
  {
  }

  /** A segment is answered exactly once; a completed command is offered under the number of its last segment. */
  lemma FragmentBalances(i: Inbox, f: Frame, now: nat, s: Byte, code: Option<Byte>)
    requires InboxSane(i) && Value(f.len) <= MAX_PAYLOAD_LEN && now < TWO32
    requires code.Some? ==> f.seqNo != s
    ensures Balanced(i, Fragment(i, f, now), s, code, AtOnce(if f.seqNo == s then 1 else 0, code))
    ensures forall x :: x in NewOffers(i, Fragment(i, f, now)) ==> x.seqNo == f.seqNo
  {
    hide Balanced, Offer, Opened, Stored, NoSession, Value, Assembled, NewOffers;
    var none := Reply(f.seqNo, f.node, NO_FAILURE, 0);
    NoteBalances(i, Reply(f.seqNo, f.node, INVALID_PARAM, 0), i.session, i.seen, s, code);
    NoteBalances(i, Reply(f.seqNo, f.node, QUEUE_FULL, 0), i.session, i.seen, s, code);
    match DecodeFrag(f)
    case None =>
    case Some(h) =>
      if h.totalSegments <= MAX_FRAG_SEGMENTS {
        var o := Opened(i.session, h, now);
        OpenedIsSane(i.session, h, now);
        NoteBalances(i, none, o, i.seen, s, code);
        if o.transferId == h.transferId && o.totalSegments == h.totalSegments && !o.received[h.segmentNum] {
          FragmentDataFits(f);
          var t := Stored(o, h.segmentNum, SegmentData(f), now);
          StoredIsSane(o, h.segmentNum, SegmentData(f), now);
          NoteBalances(i, none, t, i.seen, s, code);
          if AllReceived(t) {
            NoteBalances(i, none, NoSession(), Some(f.seqNo), s, code);
            var r := i.(log := i.log + [none], session := NoSession(), seen := Some(f.seqNo));
            var x := Assembled(f, t);
            AssembledNumber(f, t);
            OfferBalances(r, x, s, code);
            BalancedTransitive(i, r, Offer(r, x), s, code, AtOnce(if f.seqNo == s then 1 else 0, code), 0);
            assert [] + [x] == [x];
          }
        }
      }
  }

  lemma AssembledNumber(f: Frame, t: Session)
    requires SessionSane(t)
    ensures Assembled(f, t).seqNo == f.seqNo
  {
    hide WithoutFlag, ToByte;
  }

  /** One received frame, whatever it is. */
  lemma DispatchBalances(i: Inbox, f: Frame, now: nat, s: Byte, code: Option<Byte>)
    requires InboxSane(i) && Value(f.len) <= MAX_PAYLOAD_LEN && now < TWO32
    requires code.Some? ==> Plain(f, s)
    ensures Balanced(i, Dispatch(i, f, now), s, code,
                     AtOnce(if f.seqNo == s && AnsweredAtOnce(i, f) then 1 else 0, code))
    ensures Plain(f, s) ==>
              Numbered(NewOffers(i, Dispatch(i, f, now)), s) == if f.seqNo == s && AnsweredAtOnce(i, f) then 1 else 0
  {
    hide Balanced, Offer, Fragment, Value, HasFlag, NewOffers;
    SameBalances(i, s, code);
    NothingAsked(s);
    OneAsking(f, s);
    NoteBalances(i, Reply(f.seqNo, NODE_GROUND, ROUTING_FAIL, f.node), i.session, i.seen, s, code);
    NoteBalances(i, Reply(f.seqNo, NODE_GROUND, UNKNOWN_TYPE, f.msgType), i.session, i.seen, s, code);
    NoteBalances(i, Heartbeat, i.session, i.seen, s, code);
    NoteBalances(i, Confirmed(f.payload[0]), i.session, i.seen, s, code);
    if (f.node == NODE_ROCKET || f.node == NODE_BROADCAST) && f.msgType == COMMAND && i.seen != Some(f.seqNo) {
      if HasFlag(f.flags, FLAG_FRAGMENT) {
        FragmentBalances(i, f, now, s, code);
        if f.seqNo != s {
          NumberedOther(NewOffers(i, Fragment(i, f, now)), f.seqNo, s);
        }
      } else {
        var ack := Reply(f.seqNo, f.node, NO_FAILURE, 0);
        NoteBalances(i, ack, i.session, Some(f.seqNo), s, code);
        var r := i.(log := i.log + [ack], session := i.session, seen := Some(f.seqNo));
        OfferBalances(r, f, s, code);
        BalancedTransitive(i, r, Offer(r, f), s, code, AtOnce(if f.seqNo == s then 1 else 0, code), 0);
        assert [] + [f] == [f];
      }
    }
  }

  lemma {:induction false} NumberedOther(fs: seq<Frame>, n: Byte, s: Byte)
    requires n != s && forall x :: x in fs ==> x.seqNo == n
    ensures Numbered(fs, s) == 0
  {
    if fs != [] {
      NumberedOther(fs[1..], n, s);
    }
  }

  // ----- One poll -----

  /** Frames of number `s` answered on the spot. */
  function Immediate(i: Inbox, frames: seq<Frame>, now: nat, s: Byte): nat
    requires InboxSane(i) && AllFit(frames) && now < TWO32
    decreases |frames|
  {
    if frames == [] then 0
    else
      var n := |frames| - 1;
      var q := DispatchAll(i, frames[..n], now);
      Immediate(i, frames[..n], now, s) + if frames[n].seqNo == s && AnsweredAtOnce(q, frames[n]) then 1 else 0
  }

  predicate AllPlain(frames: seq<Frame>, s: Byte) {
    forall f :: f in frames ==> Plain(f, s)
  }

  lemma {:induction false} DispatchAllBalances(i: Inbox, frames: seq<Frame>, now: nat, s: Byte, code: Option<Byte>)
    requires InboxSane(i) && AllFit(frames) && now < TWO32
    requires code.Some? ==> AllPlain(frames, s)
    ensures Balanced(i, DispatchAll(i, frames, now), s, code, AtOnce(Immediate(i, frames, now, s), code))
    ensures AllPlain(frames, s) ==>
              Numbered(NewOffers(i, DispatchAll(i, frames, now)), s) == Immediate(i, frames, now, s)
    decreases |frames|
  {
    hide Balanced, Dispatch, InboxSane, Plain, NewOffers, AnsweredAtOnce, Numbered, Asking, Value;
    if frames == [] {
      SameBalances(i, s, code);
      NothingAsked(s);
    } else {
      var n := |frames| - 1;
      var f := frames[n];
      assert f in frames;
      DispatchAllBalances(i, frames[..n], now, s, code);
      var q := DispatchAll(i, frames[..n], now);
      DispatchBalances(q, f, now, s, code);
      var one := if f.seqNo == s && AnsweredAtOnce(q, f) then 1 else 0;
      BalancedTransitive(i, q, Dispatch(q, f, now), s, code,
                         AtOnce(Immediate(i, frames[..n], now, s), code), AtOnce(one, code));
      CountsConcat(NewOffers(i, q), NewOffers(q, Dispatch(q, f, now)), s);
    }
  }

  /** A poll is what its frames gather and then the drain of the accepted offers. */
  lemma PollLog(i: Inbox, p: PollInput)
    requires InboxSane(i) && PollOk(p) && i.waiting == []
    ensures Offers(i, p) == NewOffers(i, DispatchAll(i, p.frames, p.now))
    ensures DispatchAll(i, p.frames, p.now).waiting == Accepted(Offers(i, p))
    ensures Poll(i, p).log == DispatchAll(i, p.frames, p.now).log
                              + Completions(ByPriority(Accepted(Offers(i, p))), p.results, 0)
  {
    hide DispatchAll, InboxSane, ByPriority, Completions, Executions;
    DispatchAllGathers(i, p.frames, p.now);
    assert i.waiting + Offers(i, p) == Offers(i, p);
  }

  lemma Settled(i: Inbox, r: Inbox, offers: seq<Frame>, s: Byte, code: Option<Byte>, n: nat)
    requires Balanced(i, r, s, code, n) && i.waiting == [] && r.waiting == Accepted(offers) && NewOffers(i, r) == offers
    ensures RepliesTo(r.log, s, code) == RepliesTo(i.log, s, code) + n + Refusals(code, Asking(Refused(offers), s))
    ensures Asking(offers, s) == Asking(Accepted(offers), s) + Asking(Refused(offers), s)
  {
    hide RepliesTo, Asking, Accepted, Refused;
    NothingAsked(s);
    AcceptedOrRefused(offers);
    CountsConcat(Accepted(offers), Refused(offers), s);
  }

  /**
   In any poll, whatever its traffic: the replies to number `s` are one for each frame answered on the spot and
   one for each offered command that asked for completion.
   */
  lemma AnsweredExactly(i: Inbox, p: PollInput, s: Byte)
    requires InboxSane(i) && PollOk(p) && i.waiting == []
    ensures RepliesTo(Poll(i, p).log, s, None)
         == RepliesTo(i.log, s, None) + Immediate(i, p.frames, p.now, s) + Asking(Offers(i, p), s)
  {
    hide RepliesTo, Asking, Poll, ByPriority, Completions, InboxSane, DispatchAll, Balanced, NewOffers, Immediate;
    PollLog(i, p);
    var g, offers := DispatchAll(i, p.frames, p.now), Offers(i, p);
    DispatchAllBalances(i, p.frames, p.now, s, None);
    Settled(i, g, offers, s, None, Immediate(i, p.frames, p.now, s));
    RepliesConcat(g.log, Completions(ByPriority(Accepted(offers)), p.results, 0), s, None);
    CompletionsReply(ByPriority(Accepted(offers)), p.results, 0, s);
    AskingByPriority(Accepted(offers), s);
  }

  /** What one poll says to number `s`, taken apart. */
  ghost predicate AnsweredByCode(i: Inbox, p: PollInput, s: Byte)
    requires InboxSane(i) && PollOk(p)
  {
    var g, offers := DispatchAll(i, p.frames, p.now), Offers(i, p);
    var drained := Completions(ByPriority(Accepted(offers)), p.results, 0);
    && Poll(i, p).log == g.log + drained
    && RepliesTo(g.log, s, Some(NO_FAILURE)) == RepliesTo(i.log, s, Some(NO_FAILURE)) + Numbered(offers, s)
    && RepliesTo(g.log, s, Some(QUEUE_FULL)) == RepliesTo(i.log, s, Some(QUEUE_FULL)) + Asking(Refused(offers), s)
    && (forall c :: c != NO_FAILURE && c != QUEUE_FULL ==>
          RepliesTo(g.log, s, Some(c)) == RepliesTo(i.log, s, Some(c)))
    && RepliesTo(drained, s, None) == Asking(Accepted(offers), s)
    && RepliesTo(Poll(i, p).log, s, None) == RepliesTo(i.log, s, None) + Numbered(offers, s) + Asking(offers, s)
  }

  /**
   Among any other traffic: if the frames of number `s` are plain, then every command offered under `s` got exactly
   one acceptance, a refused one a QUEUE_FULL exactly if it asked, and an accepted one a completion exactly if it
   asked; nothing else was said to `s`.
   */
  lemma OneAcceptanceOneCompletion(i: Inbox, p: PollInput, s: Byte)
    requires InboxSane(i) && PollOk(p) && i.waiting == [] && AllPlain(p.frames, s)
    ensures AnsweredByCode(i, p, s)
  {
    hide RepliesTo, Asking, Numbered, Poll, ByPriority, Completions, InboxSane, DispatchAll, Balanced, NewOffers,
         Immediate, AllPlain;
    PollLog(i, p);
    var g, offers := DispatchAll(i, p.frames, p.now), Offers(i, p);
    forall code: Option<Byte>
      ensures RepliesTo(g.log, s, code)
           == RepliesTo(i.log, s, code) + AtOnce(Numbered(offers, s), code) + Refusals(code, Asking(Refused(offers), s))
    {
      DispatchAllBalances(i, p.frames, p.now, s, code);
      Settled(i, g, offers, s, code, AtOnce(Immediate(i, p.frames, p.now, s), code));
    }
    DispatchAllBalances(i, p.frames, p.now, s, None);
    AnsweredExactly(i, p, s);
    CompletionsReply(ByPriority(Accepted(offers)), p.results, 0, s);
    AskingByPriority(Accepted(offers), s);
  }

  // ----- Which commands are offered -----

  predicate IsOwnCommand(f: Frame) {
    f.msgType == COMMAND && (f.node == NODE_ROCKET || f.node == NODE_BROADCAST)
  }

  /** No frame is a segment for this receiver; anything else may be among them. */
  predicate Unfragmented(frames: seq<Frame>) {
    forall f :: f in frames ==> IsOwnCommand(f) ==> !HasFlag(f.flags, FLAG_FRAGMENT)
  }

  /** The commands for this receiver, in order. */
  function OwnCommands(frames: seq<Frame>): seq<Frame>
    decreases |frames|
  {
    if frames == [] then []
    else
      var n := |frames| - 1;
      OwnCommands(frames[..n]) + if IsOwnCommand(frames[n]) then [frames[n]] else []
  }

  /** The commands whose sequence number differs from that of the command before them. */
  function NewOnes(fs: seq<Frame>, seen: Option<Byte>): seq<Frame>
    decreases |fs|
  {
    if fs == [] then []
    else
      var n := |fs| - 1;
      NewOnes(fs[..n], seen) + if LastSeq(fs[..n], seen) == Some(fs[n].seqNo) then [] else [fs[n]]
  }

  function LastSeq(fs: seq<Frame>, seen: Option<Byte>): Option<Byte> {
    if fs == [] then seen else Some(fs[|fs| - 1].seqNo)
  }

  function Acceptance(f: Frame, before: nat): seq<Event> {
    [Reply(f.seqNo, f.node, NO_FAILURE, 0)]
    + if before >= CMD_QUEUE_DEPTH && HasFlag(f.flags, FLAG_ACK_REQ)
      then [Reply(f.seqNo, f.node, QUEUE_FULL, f.payload[1])] else []
  }

  /** What is said at once to a frame after commands of which `got` were new and `last` was the last number. */
  function Told(f: Frame, got: seq<Frame>, last: Option<Byte>): seq<Event> {
    if f.node != NODE_ROCKET && f.node != NODE_BROADCAST then
      if f.msgType == COMMAND then [Reply(f.seqNo, NODE_GROUND, ROUTING_FAIL, f.node)] else []
    else if f.msgType == COMMAND then if last == Some(f.seqNo) then [] else Acceptance(f, |got|)
    else if f.msgType == HEARTBEAT then [Heartbeat]
    else if f.msgType == TELEMETRY || f.msgType == EVENT then []
    else if f.msgType == ACK then if Value(f.len) >= MinPayload(ACK) then [Confirmed(f.payload[0])] else []
    else [Reply(f.seqNo, NODE_GROUND, UNKNOWN_TYPE, f.msgType)]
  }

  function ToldAll(frames: seq<Frame>, seen: Option<Byte>): seq<Event>
    decreases |frames|
  {
    if frames == [] then []
    else
      var n := |frames| - 1;
      var own := OwnCommands(frames[..n]);
      ToldAll(frames[..n], seen) + Told(frames[n], NewOnes(own, seen), LastSeq(own, seen))
  }

  /** The inbox after a poll's frames, in terms of the frames alone. */
  function After(i: Inbox, frames: seq<Frame>): Inbox {
    var own := OwnCommands(frames);
    i.(waiting := Accepted(NewOnes(own, i.seen)), seen := LastSeq(own, i.seen),
       log := i.log + ToldAll(frames, i.seen), offered := i.offered + NewOnes(own, i.seen))
  }

  lemma {:induction false} UnfragmentedDispatch(i: Inbox, frames: seq<Frame>, now: nat)
    requires InboxSane(i) && AllFit(frames) && now < TWO32 && i.waiting == [] && Unfragmented(frames)
    ensures DispatchAll(i, frames, now) == After(i, frames)
    decreases |frames|
  {
    hide HasFlag, Value, InboxSane, Dispatch, Told, NewOnes;
    if frames == [] {
      NothingNew(i.seen);
      assert i.log + [] == i.log && i.offered + [] == i.offered;
    } else {
      var n := |frames| - 1;
      assert frames[n] in frames;
      UnfragmentedDispatch(i, frames[..n], now);
      NextFrame(i, frames[..n], frames[n], now);
      assert frames == frames[..n] + [frames[n]];
    }
  }

  lemma NothingNew(seen: Option<Byte>)
    ensures NewOnes([], seen) == []
  {
  }

  lemma NextFrame(i: Inbox, before: seq<Frame>, f: Frame, now: nat)
    requires InboxSane(After(i, before)) && Value(f.len) <= MAX_PAYLOAD_LEN && now < TWO32
    requires IsOwnCommand(f) ==> !HasFlag(f.flags, FLAG_FRAGMENT)
    ensures Dispatch(After(i, before), f, now) == After(i, before + [f])
  {
    hide HasFlag, Value, InboxSane, Fragment, Acceptance, OwnCommands, NewOnes, LastSeq, ToldAll, Accepted;
    var own, q := OwnCommands(before), After(i, before);
    var got, last := NewOnes(own, i.seen), LastSeq(own, i.seen);
    OneMoreTold(i.log, before, f, i.seen);
    OneMoreOwn(before, f, i.seen);
    if IsOwnCommand(f) {
      AcceptedHere(q, f, got);
      assert got + [] == got && i.offered + (got + [f]) == (i.offered + got) + [f];
    } else {
      assert q.log + [] == q.log;
    }
  }

  lemma OneMoreOwn(before: seq<Frame>, f: Frame, seen: Option<Byte>)
    ensures var own, next := OwnCommands(before), OwnCommands(before + [f]);
            if !IsOwnCommand(f) then next == own
            else && LastSeq(next, seen) == Some(f.seqNo)
                 && NewOnes(next, seen)
                    == NewOnes(own, seen) + if LastSeq(own, seen) == Some(f.seqNo) then [] else [f]
  {
    var own := OwnCommands(before);
    assert (before + [f])[..|before|] == before && (before + [f])[|before|] == f;
    assert own + [] == own;
    assert (own + [f])[..|own|] == own;
  }

  lemma OneMoreTold(log: seq<Event>, before: seq<Frame>, f: Frame, seen: Option<Byte>)
    ensures var own := OwnCommands(before);
            log + ToldAll(before + [f], seen)
            == (log + ToldAll(before, seen)) + Told(f, NewOnes(own, seen), LastSeq(own, seen))
  {
    hide Told, NewOnes, LastSeq, OwnCommands;
    assert (before + [f])[..|before|] == before;
  }

  /** Acceptance of a new command that finds `got` offers of this poll before it. */
  lemma AcceptedHere(q: Inbox, f: Frame, got: seq<Frame>)
    requires q.waiting == Accepted(got)
    ensures var r := Offer(Answer(q, f, NO_FAILURE, 0).(seen := Some(f.seqNo)), f);
            && r == q.(seen := Some(f.seqNo), log := q.log + Acceptance(f, |got|),
                       waiting := Accepted(got + [f]), offered := q.offered + [f])
  {
    hide HasFlag;
  }

  /**
   A poll without segments, event by event, from its frames alone: what each frame is told at once, then the new
   commands' executions in priority order with the reports asked for.
   */
  lemma PollWithoutFragments(i: Inbox, p: PollInput)
    requires InboxSane(i) && PollOk(p) && i.waiting == [] && Unfragmented(p.frames)
    ensures var offers := NewOnes(OwnCommands(p.frames), i.seen);
            && Offers(i, p) == offers
            && Poll(i, p).log == i.log + ToldAll(p.frames, i.seen)
                                 + Completions(ByPriority(Accepted(offers)), p.results, 0)
            && Poll(i, p).seen == LastSeq(OwnCommands(p.frames), i.seen)
  {
    hide DispatchAll, InboxSane, NewOnes, ToldAll, Completions, ByPriority, OwnCommands, Unfragmented;
    UnfragmentedDispatch(i, p.frames, p.now);
  }

  /** The `k`-th command does not repeat the number of the one before it. */
  predicate NewAt(fs: seq<Frame>, seen: Option<Byte>, k: nat)
    requires k < |fs|
  {
    LastSeq(fs[..k], seen) != Some(fs[k].seqNo)
  }

  predicate AllNew(fs: seq<Frame>, seen: Option<Byte>) {
    forall k :: 0 <= k < |fs| ==> NewAt(fs, seen, k)
  }

  /** Only a repetition right behind its original is recognised as one. */
  lemma {:induction false} NothingDroppedIff(fs: seq<Frame>, seen: Option<Byte>)
    ensures NewOnes(fs, seen) == fs <==> AllNew(fs, seen)
    decreases |fs|
  {
    if fs != [] {
      var n := |fs| - 1;
      NewOnesShorter(fs[..n], seen);
      NewAtPrefix(fs, seen);
      NewOnesLast(fs, seen);
      hide NewOnes, NewAt, AllNew, LastSeq;
      NothingDroppedIff(fs[..n], seen);
      assert fs == fs[..n] + [fs[n]];
      ExtendsIff(NewOnes(fs, seen), fs, NewOnes(fs[..n], seen), fs[..n], fs[n], NewAt(fs, seen, n));
    }
  }

  lemma NewAtPrefix(fs: seq<Frame>, seen: Option<Byte>)
    requires fs != []
    ensures var n := |fs| - 1;
            AllNew(fs, seen) <==> AllNew(fs[..n], seen) && NewAt(fs, seen, n)
  {
    hide LastSeq;
    var n := |fs| - 1;
    forall k | 0 <= k < n ensures NewAt(fs[..n], seen, k) == NewAt(fs, seen, k) {
      assert fs[..n][..k] == fs[..k];
    }
    hide NewAt;
    if AllNew(fs[..n], seen) {
      forall k | 0 <= k < n ensures NewAt(fs, seen, k) {
        assert NewAt(fs[..n], seen, k);
      }
    }
  }

  lemma NewOnesLast(fs: seq<Frame>, seen: Option<Byte>)
    requires fs != []
    ensures var n := |fs| - 1;
            NewOnes(fs, seen) == NewOnes(fs[..n], seen) + if NewAt(fs, seen, n) then [fs[n]] else []
  {
    hide LastSeq;
  }

  lemma ExtendsIff<T>(a: seq<T>, b: seq<T>, before: seq<T>, prefix: seq<T>, x: T, more: bool)
    requires a == before + (if more then [x] else []) && b == prefix + [x] && |before| <= |prefix|
    ensures a == b <==> before == prefix && more
  {
    if a == b && more {
      assert before == a[..|before|] && prefix == b[..|prefix|];
    }
  }

  lemma {:induction false} NewOnesShorter(fs: seq<Frame>, seen: Option<Byte>)
    ensures |NewOnes(fs, seen)| <= |fs|
    decreases |fs|
  {
    if fs != [] {
      NewOnesShorter(fs[..|fs| - 1], seen);
    }
  }

  /** A retransmission that arrives behind another command is a new command. */
  lemma LateRepetitionRunsTwice(a: Frame, b: Frame)
    requires a.seqNo != b.seqNo
    ensures NewOnes([a, b, a], None) == [a, b, a]
  {
    var fs := [a, b, a];
    assert fs[..2] == [a, b] && fs[..1] == [a] && fs[..0] == [];
    assert NewAt(fs, None, 0) && NewAt(fs, None, 1) && NewAt(fs, None, 2);
    NothingDroppedIff(fs, None);
  }

}
