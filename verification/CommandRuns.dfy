/** Exactly-once execution of commands over polls and runs of polls. */
module CommandRuns {
  import opened Bytes
  import opened Wrappers
  import opened Clock32
  import opened RadioProtocol
  import opened CommandQueue
  import opened CommandPath

  /** What was executed, in order. */
  function Executions(log: seq<Event>): seq<Frame> {
    if log == [] then []
    else (if log[0].Execute? then [log[0].frame] else []) + Executions(log[1..])
  }

  /** The queue takes the first eight offers of a poll. */
  function Accepted(offers: seq<Frame>): seq<Frame> {
    if |offers| <= CMD_QUEUE_DEPTH then offers else offers[..CMD_QUEUE_DEPTH]
  }

  lemma {:induction false} ExecutionsConcat(a: seq<Event>, b: seq<Event>)
    ensures Executions(a + b) == Executions(a) + Executions(b)
  {
    if a == [] {
      assert a + b == b;
    } else {
      assert (a + b)[1..] == a[1..] + b && (a + b)[0] == a[0];
      ExecutionsConcat(a[1..], b);
    }
  }

  lemma {:induction false} CompletionsExecute(fs: seq<Frame>, results: nat -> Byte, n: nat)
    ensures Executions(Completions(fs, results, n)) == fs
  {
    if fs != [] {
      var head := Completion(fs[0], results(n));
      var rest := Completions(fs[1..], results, n + 1);
      CompletionsExecute(fs[1..], results, n + 1);
      ExecutionsConcat(head, rest);
      CompletionRunsOne(fs[0], results(n));
      assert fs == [fs[0]] + fs[1..];
    }
  }

  lemma CompletionRunsOne(f: Frame, result: Byte)
    ensures Executions(Completion(f, result)) == [f]
  {
    hide HasFlag;
    var log := Completion(f, result);
    assert log[0] == Execute(f);
    assert Executions([]) == [];
    if |log| == 2 {
      assert log[1..][0].Reply? && log[1..][1..] == [];
    }
  }

  // ----- One poll -----

  /** At `at` command `f` is executed, and reported right behind that exactly if it asked, with its own result. */
  predicate ReportedAt(log: seq<Event>, at: nat, f: Frame, result: Byte) {
    && at < |log| && log[at] == Execute(f)
    && if HasFlag(f.flags, FLAG_ACK_REQ) then
         && at + 1 < |log|
         && log[at + 1] == Reply(f.seqNo, f.node, result, if result == NO_FAILURE then 0 else f.payload[1])
       else at + 1 < |log| ==> log[at + 1].Execute?
  }

  /** The `k`-th command of a drain is executed behind the ones before it and reported with the `k`-th result. */
  lemma {:induction false} CompletionAt(fs: seq<Frame>, results: nat -> Byte, n: nat, k: nat)
    requires k < |fs|
    ensures var log := Completions(fs, results, n);
            && (log != [] ==> log[0].Execute?)
            && exists at: nat :: at < |log| && ReportedAt(log, at, fs[k], results(n + k))
                                 && Executions(log[..at]) == fs[..k]
    decreases |fs|
  {
    hide HasFlag, ReportedAt, Completion;
    var log, first, rest := Completions(fs, results, n), Completion(fs[0], results(n)),
                            Completions(fs[1..], results, n + 1);
    FirstExecutes(fs[1..], results, n + 1);
    FirstRuns(fs[0], results(n));
    FirstReported(fs[0], results(n), rest);
    if k == 0 {
      assert log[..0] == [];
    } else {
      CompletionAt(fs[1..], results, n + 1, k - 1);
      var at: nat :| at < |rest| && ReportedAt(rest, at, fs[1..][k - 1], results(n + k))
                     && Executions(rest[..at]) == fs[1..][..k - 1];
      ReportedLater(first, rest, at, fs[k], results(n + k));
      assert log[..|first| + at] == first + rest[..at];
      ExecutionsConcat(first, rest[..at]);
      assert [fs[0]] + fs[1..][..k - 1] == fs[..k];
    }
  }

  lemma FirstReported(f: Frame, result: Byte, rest: seq<Event>)
    requires rest != [] ==> rest[0].Execute?
    ensures var log := Completion(f, result) + rest;
            log != [] && log[0].Execute? && ReportedAt(log, 0, f, result)
  {
    hide HasFlag;
  }

  lemma ReportedLater(first: seq<Event>, rest: seq<Event>, at: nat, f: Frame, result: Byte)
    requires ReportedAt(rest, at, f, result)
    ensures |first| + at <= |first + rest| && at <= |rest| && ReportedAt(first + rest, |first| + at, f, result)
  {
    hide HasFlag;
  }

  lemma FirstExecutes(fs: seq<Frame>, results: nat -> Byte, n: nat)
    ensures Completions(fs, results, n) != [] ==> Completions(fs, results, n)[0].Execute?
  {
    hide HasFlag;
  }

  lemma FirstRuns(f: Frame, result: Byte)
    ensures Executions(Completion(f, result)) == [f]
  {
    hide HasFlag;
    var reply := Reply(f.seqNo, f.node, result, if result != NO_FAILURE then f.payload[1] else 0);
    assert [Execute(f)][1..] == [] && [reply][1..] == [];
    ExecutionsConcat([Execute(f)], [reply]);
    ExecutionsConcat([Execute(f)], []);
  }

  /** From `i` to `r` some commands were offered and nothing was executed. */
  predicate Gathered(i: Inbox, r: Inbox) {
    && |i.offered| <= |r.offered| && i.offered == r.offered[..|i.offered|]
    && r.waiting == Accepted(i.waiting + r.offered[|i.offered|..])
    && Executions(r.log) == Executions(i.log)
  }

  lemma GatheredRefl(i: Inbox)
    requires |i.waiting| <= CMD_QUEUE_DEPTH
    ensures Gathered(i, i)
  {
    assert i.waiting + i.offered[|i.offered|..] == i.waiting;
  }

  lemma GatheredTransitive(i: Inbox, r: Inbox, q: Inbox)
    requires Gathered(i, r) && Gathered(r, q)
    ensures Gathered(i, q)
  {
    hide Executions;
    var a, b := r.offered[|i.offered|..], q.offered[|r.offered|..];
    Extended(i.offered, r.offered, q.offered);
    AcceptedTwice(i.waiting + a, b);
    Regroup(i.waiting, a, b);
    hide Accepted;
  }

  lemma Extended<T>(i: seq<T>, r: seq<T>, q: seq<T>)
    requires |i| <= |r| <= |q| && i == r[..|i|] && r == q[..|r|]
    ensures i == q[..|i|] && q[|i|..] == r[|i|..] + q[|r|..]
  {
  }

  lemma Regroup<T>(a: seq<T>, b: seq<T>, c: seq<T>)
    ensures a + (b + c) == (a + b) + c
  {
  }

  lemma AcceptedTwice(a: seq<Frame>, b: seq<Frame>)
    ensures Accepted(Accepted(a) + b) == Accepted(a + b)
  {
  }

  lemma AnswerGathers(i: Inbox, f: Frame, code: Byte, data: Byte, s: Session, seen: Option<Byte>)
    requires |i.waiting| <= CMD_QUEUE_DEPTH
    ensures Gathered(i, Answer(i, f, code, data).(session := s, seen := seen))
  {
    GatheredRefl(i);
    ExecutionsConcat(i.log, [Reply(f.seqNo, f.node, code, data)]);
    assert Executions([Reply(f.seqNo, f.node, code, data)]) == [];
  }

  lemma OfferGathers(i: Inbox, f: Frame)
    requires |i.waiting| <= CMD_QUEUE_DEPTH
    ensures Gathered(i, Offer(i, f))
    ensures Offer(i, f).offered == i.offered + [f]
  {
    var r := Offer(i, f);
    assert r.offered == i.offered + [f];
    ExecutionsConcat(i.log, [Reply(f.seqNo, f.node, QUEUE_FULL, f.payload[1])]);
    assert Executions([Reply(f.seqNo, f.node, QUEUE_FULL, f.payload[1])]) == [];
  }

  lemma FragmentGathers(i: Inbox, f: Frame, now: nat)
    requires InboxSane(i) && Value(f.len) <= MAX_PAYLOAD_LEN && now < TWO32
    ensures Gathered(i, Fragment(i, f, now))
  {
    hide Executions, Gathered, Answer, Offer, Opened, Stored, Assembled, NoSession, Value;
    match DecodeFrag(f)
    case None => AnswerGathers(i, f, INVALID_PARAM, 0, i.session, i.seen); AnswerKeeps(i, f, INVALID_PARAM, 0);
    case Some(h) =>
      AnswerKeeps(i, f, INVALID_PARAM, 0);
      AnswerKeeps(i, f, QUEUE_FULL, 0);
      AnswerGathers(i, f, INVALID_PARAM, 0, i.session, i.seen);
      AnswerGathers(i, f, QUEUE_FULL, 0, i.session, i.seen);
      if h.totalSegments <= MAX_FRAG_SEGMENTS {
        var s := Opened(i.session, h, now);
        OpenedIsSane(i.session, h, now);
        AnswerWith(i, f, NO_FAILURE, 0, s);
        AnswerGathers(i, f, NO_FAILURE, 0, s, i.seen);
        if s.transferId == h.transferId && s.totalSegments == h.totalSegments && !s.received[h.segmentNum] {
          FragmentDataFits(f);
          var t := Stored(s, h.segmentNum, SegmentData(f), now);
          AnswerWith(i, f, NO_FAILURE, 0, t);
          AnswerGathers(i, f, NO_FAILURE, 0, t, i.seen);
          StoredIsSane(s, h.segmentNum, SegmentData(f), now);
          if AllReceived(t) {
            AnswerGathers(i, f, NO_FAILURE, 0, NoSession(), Some(f.seqNo));
            AnswerDone(i, f, t);
            var r := Answer(i, f, NO_FAILURE, 0).(session := NoSession(), seen := Some(f.seqNo));
            OfferGathers(r, Assembled(f, t));
            GatheredTransitive(i, r, Offer(r, Assembled(f, t)));
          }
        }
      }
  }

  lemma AnswerKeeps(i: Inbox, f: Frame, code: Byte, data: Byte)
    ensures Answer(i, f, code, data).(session := i.session, seen := i.seen) == Answer(i, f, code, data)
  {
  }

  lemma AnswerWith(i: Inbox, f: Frame, code: Byte, data: Byte, s: Session)
    ensures Answer(i, f, code, data).(session := s, seen := i.seen) == Answer(i.(session := s), f, code, data)
  {
  }

  lemma AnswerDone(i: Inbox, f: Frame, t: Session)
    ensures Answer(i.(session := t), f, NO_FAILURE, 0).(session := NoSession(), seen := Some(f.seqNo))
         == Answer(i, f, NO_FAILURE, 0).(session := NoSession(), seen := Some(f.seqNo))
    ensures |Answer(i, f, NO_FAILURE, 0).waiting| == |i.waiting|
  {
  }

  lemma OpenedIsSane(s: Session, h: FragHeader, now: nat)
    requires SessionSane(s) && now < TWO32 && h.totalSegments <= MAX_FRAG_SEGMENTS
    ensures SessionSane(Opened(s, h, now))
  {
  }

  lemma StoredIsSane(s: Session, k: nat, d: seq<Byte>, now: nat)
    requires SessionSane(s) && now < TWO32 && k < MAX_FRAG_SEGMENTS && |d| <= MAX_FRAG_PAYLOAD
    ensures SessionSane(Stored(s, k, d, now))
  {
  }

  lemma FragmentDataFits(f: Frame)
    requires DecodeFrag(f).Some? && Value(f.len) <= MAX_PAYLOAD_LEN
    ensures FRAG_HEADER_LEN <= Value(f.len) && |SegmentData(f)| <= MAX_FRAG_PAYLOAD
  {
  }

  lemma DispatchGathers(i: Inbox, f: Frame, now: nat)
    requires InboxSane(i) && Value(f.len) <= MAX_PAYLOAD_LEN && now < TWO32
    ensures Gathered(i, Dispatch(i, f, now))
  {
    hide Executions, Gathered, Offer, Fragment, Value, HasFlag;
    GatheredRefl(i);
    AnswerGathers(i, f, NO_FAILURE, 0, i.session, Some(f.seqNo));
    var acked := Answer(i, f, NO_FAILURE, 0).(seen := Some(f.seqNo));
    assert acked == Answer(i, f, NO_FAILURE, 0).(session := i.session, seen := Some(f.seqNo));
    OfferGathers(acked, f);
    GatheredTransitive(i, acked, Offer(acked, f));
    FragmentGathers(i, f, now);
    LogGathers(i, Reply(f.seqNo, NODE_GROUND, ROUTING_FAIL, f.node));
    LogGathers(i, Heartbeat);
    LogGathers(i, Confirmed(f.payload[0]));
    LogGathers(i, Reply(f.seqNo, NODE_GROUND, UNKNOWN_TYPE, f.msgType));
  }

  lemma LogGathers(i: Inbox, e: Event)
    requires |i.waiting| <= CMD_QUEUE_DEPTH && !e.Execute?
    ensures Gathered(i, i.(log := i.log + [e]))
  {
    GatheredRefl(i);
    ExecutionsConcat(i.log, [e]);
    assert Executions([e]) == [];
  }

  lemma {:induction false} DispatchAllGathers(i: Inbox, frames: seq<Frame>, now: nat)
    requires InboxSane(i) && AllFit(frames) && now < TWO32
    ensures Gathered(i, DispatchAll(i, frames, now))
    decreases |frames|
  {
    hide Dispatch, Gathered, InboxSane;
    if frames == [] {
      assert |i.waiting| <= CMD_QUEUE_DEPTH by { SaneQueue(i); }
      GatheredRefl(i);
    } else {
      var n := |frames| - 1;
      assert frames[n] in frames && AllFit(frames[..n]);
      var r := DispatchAll(i, frames[..n], now);
      DispatchAllGathers(i, frames[..n], now);
      DispatchGathers(r, frames[n], now);
      GatheredTransitive(i, r, Dispatch(r, frames[n], now));
    }
  }

  lemma SaneQueue(i: Inbox)
    requires InboxSane(i)
    ensures |i.waiting| <= CMD_QUEUE_DEPTH
  {
  }

  /** What this poll offered to the queue. */
  function Offers(i: Inbox, p: PollInput): seq<Frame>
    requires InboxSane(i) && PollOk(p)
  {
    var r := DispatchAll(i, p.frames, p.now);
    if |i.offered| <= |r.offered| then r.offered[|i.offered|..] else []
  }

  /** A poll executes its accepted offers in priority order and leaves an empty queue. */
  lemma PollExecutes(i: Inbox, p: PollInput)
    requires InboxSane(i) && PollOk(p) && i.waiting == []
    ensures Poll(i, p).waiting == []
    ensures Poll(i, p).offered == i.offered + Offers(i, p)
    ensures Executions(Poll(i, p).log) == Executions(i.log) + ByPriority(Accepted(Offers(i, p)))
  {
    hide Executions, DispatchAll, ByPriority, InboxSane;
    DispatchAllGathers(i, p.frames, p.now);
    var r := DispatchAll(i, p.frames, p.now);
    assert r.waiting == Accepted(Offers(i, p)) by {
      assert i.waiting + Offers(i, p) == Offers(i, p);
    }
    ExecutionsConcat(r.log, Completions(ByPriority(r.waiting), p.results, 0));
    CompletionsExecute(ByPriority(r.waiting), p.results, 0);
  }

  // ----- Runs of polls -----

  function Polls(i: Inbox, ps: seq<PollInput>): (r: Inbox)
    requires InboxSane(i) && forall p :: p in ps ==> PollOk(p)
    ensures InboxSane(r)
    decreases |ps|
  {
    if ps == [] then i
    else
      var n := |ps| - 1;
      assert ps[n] in ps;
      Poll(Polls(i, ps[..n]), ps[n])
  }

  /** The offers of a poll that found the queue full. */
  function Refused(offers: seq<Frame>): seq<Frame> {
    if |offers| <= CMD_QUEUE_DEPTH then [] else offers[CMD_QUEUE_DEPTH..]
  }

  /** The accepted offers of each poll of a run, in priority order, one poll after the other. */
  function InOrder(i: Inbox, ps: seq<PollInput>): seq<Frame>
    requires InboxSane(i) && forall p :: p in ps ==> PollOk(p)
    decreases |ps|
  {
    if ps == [] then []
    else
      var n := |ps| - 1;
      assert ps[n] in ps;
      InOrder(i, ps[..n]) + ByPriority(Accepted(Offers(Polls(i, ps[..n]), ps[n])))
  }

  function RefusedOver(i: Inbox, ps: seq<PollInput>): seq<Frame>
    requires InboxSane(i) && forall p :: p in ps ==> PollOk(p)
    decreases |ps|
  {
    if ps == [] then []
    else
      var n := |ps| - 1;
      assert ps[n] in ps;
      RefusedOver(i, ps[..n]) + Refused(Offers(Polls(i, ps[..n]), ps[n]))
  }

  /** What any run executes, in which order. */
  lemma {:induction false} RunExecutes(i: Inbox, ps: seq<PollInput>)
    requires InboxSane(i) && i.waiting == [] && forall p :: p in ps ==> PollOk(p)
    ensures Polls(i, ps).waiting == []
    ensures Executions(Polls(i, ps).log) == Executions(i.log) + InOrder(i, ps)
    decreases |ps|
  {
    hide Executions, Poll, ByPriority, InboxSane, Offers;
    if ps == [] {
      assert Executions(i.log) + [] == Executions(i.log);
    } else {
      var n := |ps| - 1;
      assert ps[n] in ps;
      RunExecutes(i, ps[..n]);
      PollExecutes(Polls(i, ps[..n]), ps[n]);
    }
  }

  /** Over any run every offered command is executed exactly once or was refused, and nothing else is executed. */
  lemma {:induction false} EveryOfferOnce(i: Inbox, ps: seq<PollInput>)
    requires InboxSane(i) && i.waiting == [] && forall p :: p in ps ==> PollOk(p)
    ensures multiset(Polls(i, ps).offered)
              == multiset(i.offered) + multiset(InOrder(i, ps)) + multiset(RefusedOver(i, ps))
    decreases |ps|
  {
    hide Executions, Poll, ByPriority, InboxSane, Offers, Accepted, Refused;
    if ps != [] {
      var n := |ps| - 1;
      assert ps[n] in ps;
      EveryOfferOnce(i, ps[..n]);
      RunExecutes(i, ps[..n]);
      var q := Polls(i, ps[..n]);
      PollExecutes(q, ps[n]);
      ByPriorityIsStableSort(Accepted(Offers(q, ps[n])));
      AcceptedOrRefused(Offers(q, ps[n]));
    }
  }

  lemma AcceptedOrRefused(offers: seq<Frame>)
    ensures offers == Accepted(offers) + Refused(offers)
  {
  }
}
