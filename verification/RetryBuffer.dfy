/**
 Retransmission of frames that ask for an acknowledgement (src/comms/radio_dispatcher.cpp:742-874).
 Time is the true time in milliseconds; the code sees it modulo 2^32.
 */
module RetryBuffer {
  import opened Bytes
  import opened Clock32
  import opened RadioProtocol

  const MAX_RETRY_SLOTS := 4
  const ACK_TIMEOUT_MS := 1000
  const MAX_RETRIES := 3

  datatype RetrySlot = RetrySlot(frame: Frame, sentMs: nat, retries: nat, active: bool)

  /** A frame handed to the radio at true time `t` on behalf of the `ticket`-th reliable send. */
  datatype Transmission = Transmission(ticket: nat, frame: Frame, t: nat)

  /** `tickets` names the send a slot works for; `sends` counts them; `air` is all that was sent reliably. */
  datatype Buffer = Buffer(slots: seq<RetrySlot>, tickets: seq<nat>, sends: nat, air: seq<Transmission>)

  predicate BufferSane(b: Buffer) {
    && |b.slots| == |b.tickets| == MAX_RETRY_SLOTS
    && forall i :: 0 <= i < MAX_RETRY_SLOTS ==> SlotSane(b.slots[i])
  }

  /** Only encodable frames are ever kept, so a retransmission always goes out. */
  predicate SlotSane(s: RetrySlot) {
    s.sentMs < TWO32 && (s.active ==> Encodable(s.frame) && s.retries <= MAX_RETRIES)
  }

  function Idle(): RetrySlot {
    RetrySlot(BlankFrame(), 0, 0, false)
  }

  function NoRetries(): Buffer {
    Buffer(seq(MAX_RETRY_SLOTS, _ => Idle()), seq(MAX_RETRY_SLOTS, _ => 0), 0, [])
  }

  function Resent(f: Frame): Frame {
    f.(flags := WithFlag(f.flags, FLAG_RETRANSMIT))
  }

  function Asked(f: Frame): Frame {
    f.(flags := WithFlag(f.flags, FLAG_ACK_REQ))
  }

  lemma ResentEncodable(f: Frame)
    ensures Encodable(f) ==> Encodable(Resent(f))
    ensures Resent(Resent(f)) == Resent(f)
    ensures HasFlag(f.flags, FLAG_ACK_REQ) ==> HasFlag(Resent(f).flags, FLAG_ACK_REQ)
    ensures HasFlag(Asked(f).flags, FLAG_ACK_REQ)
  {
    hide Value;
  }

  // ----- Steps -----

  predicate Due(s: RetrySlot, now: nat)
    requires s.sentMs < TWO32 && now < TWO32
  {
    s.active && Since(now, s.sentMs) >= ACK_TIMEOUT_MS
  }

  /** What `processRetries` does with one slot. */
  function PollSlot(s: RetrySlot, now: nat): (r: RetrySlot)
    requires SlotSane(s) && now < TWO32
    ensures SlotSane(r)
  {
    ResentEncodable(s.frame);
    if !Due(s, now) then s
    else if s.retries >= MAX_RETRIES then s.(active := false)
    else s.(frame := Resent(s.frame), retries := s.retries + 1, sentMs := now)
  }

  /** The frame a poll puts on the air for one slot. */
  function Emitted(s: RetrySlot, ticket: nat, t: nat): (out: seq<Transmission>)
    requires SlotSane(s)
  {
    if Due(s, Millis(t)) && s.retries < MAX_RETRIES then [Transmission(ticket, Resent(s.frame), t)] else []
  }

  /** Slots from `i` on. */
  function PollFrom(b: Buffer, i: nat, t: nat): (r: Buffer)
    requires BufferSane(b) && i <= MAX_RETRY_SLOTS
    ensures BufferSane(r)
    decreases MAX_RETRY_SLOTS - i
  {
    if i == MAX_RETRY_SLOTS then b
    else
      PollFrom(b.(slots := b.slots[i := PollSlot(b.slots[i], Millis(t))],
                  air := b.air + Emitted(b.slots[i], b.tickets[i], t)), i + 1, t)
  }

  /** The first free slot, or their number. */
  function FreeSlot(slots: seq<RetrySlot>): (i: nat)
    ensures i <= |slots| && (i < |slots| ==> !slots[i].active)
    ensures forall k :: 0 <= k < i ==> slots[k].active
  {
    if slots == [] || !slots[0].active then 0 else 1 + FreeSlot(slots[1..])
  }

  function Send(b: Buffer, f: Frame, t: nat, radioOk: bool): (r: Buffer)
    requires BufferSane(b)
    ensures BufferSane(r)
  {
    if !Encodable(Asked(f)) || !radioOk then b
    else
      var sent := b.(sends := b.sends + 1, air := b.air + [Transmission(b.sends, Asked(f), t)]);
      var i := FreeSlot(b.slots);
      if i == MAX_RETRY_SLOTS then sent
      else sent.(slots := b.slots[i := RetrySlot(Asked(f), Millis(t), 0, true)], tickets := b.tickets[i := b.sends])
  }

  /** The first active slot of that sequence number, or their number. */
  function SlotOf(slots: seq<RetrySlot>, seqNo: Byte): (i: nat)
    ensures i <= |slots| && (i < |slots| ==> slots[i].active && slots[i].frame.seqNo == seqNo)
    ensures forall k :: 0 <= k < i ==> !(slots[k].active && slots[k].frame.seqNo == seqNo)
  {
    if slots == [] || (slots[0].active && slots[0].frame.seqNo == seqNo) then 0 else 1 + SlotOf(slots[1..], seqNo)
  }

  function Acked(b: Buffer, seqNo: Byte): (r: Buffer)
    requires BufferSane(b)
    ensures BufferSane(r)
  {
    var i := SlotOf(b.slots, seqNo);
    if i == MAX_RETRY_SLOTS then b else b.(slots := b.slots[i := b.slots[i].(active := false)])
  }

  datatype Step =
    | Reliable(frame: Frame, t: nat, radioOk: bool)
    | AckFor(seqNo: Byte, t: nat)
    | Polled(t: nat)

  function Take(b: Buffer, s: Step): (r: Buffer)
    requires BufferSane(b)
    ensures BufferSane(r)
  {
    match s
    case Reliable(f, t, ok) => Send(b, f, t, ok)
    case AckFor(n, _) => Acked(b, n)
    case Polled(t) => PollFrom(b, 0, t)
  }

  function Run(steps: seq<Step>): (b: Buffer)
    ensures BufferSane(b)
    decreases |steps|
  {
    if steps == [] then NoRetries() else Take(Run(steps[..|steps| - 1]), steps[|steps| - 1])
  }

  // ----- Transmissions of one send -----

  function Series(air: seq<Transmission>, ticket: nat): (s: seq<Transmission>)
    decreases |air|
  {
    if air == [] then []
    else
      var n := |air| - 1;
      Series(air[..n], ticket) + if air[n].ticket == ticket then [air[n]] else []
  }

  lemma SeriesGrows(air: seq<Transmission>, x: Transmission, ticket: nat)
    ensures Series(air + [x], ticket) == Series(air, ticket) + if x.ticket == ticket then [x] else []
    ensures Series(air + [], ticket) == Series(air, ticket)
  {
    assert (air + [x])[..|air|] == air;
    assert air + [] == air;
  }

  /** At most 1 + MAX_RETRIES sends, a timeout apart, the later ones marked and otherwise the same. */
  predicate WithinBounds(s: seq<Transmission>) {
    && |s| <= 1 + MAX_RETRIES
    && (forall j :: 0 <= j < |s| - 1 ==> Spaced(s[j], s[j + 1]))
    && (forall j :: 0 <= j < |s| ==> s[j].frame == if j == 0 then s[0].frame else Resent(s[0].frame))
    && (s != [] ==> HasFlag(s[0].frame.flags, FLAG_ACK_REQ))
  }

  predicate Spaced(a: Transmission, b: Transmission) {
    a.t + ACK_TIMEOUT_MS <= b.t
  }

  /** An active slot stands for the transmissions of its ticket so far. */
  predicate StandsFor(s: RetrySlot, series: seq<Transmission>, now: nat) {
    s.active ==>
      && |series| == s.retries + 1
      && s.frame == series[s.retries].frame
      && s.sentMs == Millis(series[s.retries].t) && series[s.retries].t <= now
  }

  ghost predicate Kept(b: Buffer, now: nat) {
    && BufferSane(b)
    && (forall k: nat :: WithinBounds(Series(b.air, k)))
    && (forall k: nat :: k >= b.sends ==> Series(b.air, k) == [])
    && (forall i :: 0 <= i < MAX_RETRY_SLOTS && b.slots[i].active ==> b.tickets[i] < b.sends)
    && (forall i, j :: 0 <= i < j < MAX_RETRY_SLOTS && b.slots[i].active && b.slots[j].active ==>
        b.tickets[i] != b.tickets[j])
    && (forall i :: 0 <= i < MAX_RETRY_SLOTS ==> StandsFor(b.slots[i], Series(b.air, b.tickets[i]), now))
  }

  lemma PollSlotKeeps(s: RetrySlot, series: seq<Transmission>, ticket: nat, last: nat, t: nat)
    requires SlotSane(s) && WithinBounds(series) && StandsFor(s, series, last) && last <= t
    ensures WithinBounds(series + Emitted(s, ticket, t))
    ensures StandsFor(PollSlot(s, Millis(t)), series + Emitted(s, ticket, t), t)
  {
    hide Encodable, HasFlag, Resent, Millis;
    assert series + [] == series;
    if Due(s, Millis(t)) && s.retries < MAX_RETRIES {
      ClockUnderstates(t, series[s.retries].t);
      ResentEncodable(series[0].frame);
      Extended(series, Emitted(s, ticket, t)[0]);
    }
  }

  lemma Extended(series: seq<Transmission>, x: Transmission)
    requires WithinBounds(series) && 0 < |series| <= MAX_RETRIES
    requires x.t >= series[|series| - 1].t + ACK_TIMEOUT_MS && x.frame == Resent(series[0].frame)
    ensures WithinBounds(series + [x])
  {
    hide Resent, HasFlag;
    var s := series + [x];
    forall j | 0 <= j < |s| - 1 ensures Spaced(s[j], s[j + 1]) {
      if j < |series| - 1 {
        assert Spaced(series[j], series[j + 1]);
      }
    }
  }

  lemma KeptLater(b: Buffer, last: nat, t: nat)
    requires Kept(b, last) && last <= t
    ensures Kept(b, t)
  {
    hide SlotSane, WithinBounds, Series;
  }

  /** One slot of a poll: its own transmissions grow, the others stay. */
  lemma PollOneKeeps(b: Buffer, i: nat, t: nat)
    requires Kept(b, t) && i < MAX_RETRY_SLOTS
    ensures Kept(b.(slots := b.slots[i := PollSlot(b.slots[i], Millis(t))],
                    air := b.air + Emitted(b.slots[i], b.tickets[i], t)), t)
  {
    hide Series, WithinBounds, StandsFor, PollSlot, Emitted;
    var s, out := b.slots[i], Emitted(b.slots[i], b.tickets[i], t);
    var r := b.(slots := b.slots[i := PollSlot(s, Millis(t))], air := b.air + out);
    EmittedShape(s, b.tickets[i], t);
    forall k: nat
      ensures Series(r.air, k) == Series(b.air, k) + if k == b.tickets[i] then out else []
    {
      assert Series(b.air, k) + [] == Series(b.air, k);
      if out == [] {
        assert r.air == b.air;
      } else {
        assert out == [out[0]];
        SeriesGrows(b.air, out[0], k);
      }
    }
    PollSlotKeeps(s, Series(b.air, b.tickets[i]), b.tickets[i], t, t);
    forall k: nat | k != b.tickets[i] ensures Series(r.air, k) == Series(b.air, k) {
      assert Series(b.air, k) + [] == Series(b.air, k);
    }
    KeptAfterPoll(b, r, i, t);
  }

  lemma EmittedShape(s: RetrySlot, ticket: nat, t: nat)
    requires SlotSane(s)
    ensures Emitted(s, ticket, t) == []
              || (s.active && |Emitted(s, ticket, t)| == 1 && Emitted(s, ticket, t)[0].ticket == ticket)
    ensures SlotSane(PollSlot(s, Millis(t))) && (PollSlot(s, Millis(t)).active ==> s.active)
  {
  }

  lemma KeptAfterPoll(b: Buffer, r: Buffer, i: nat, t: nat)
    requires Kept(b, t) && i < MAX_RETRY_SLOTS
    requires r.sends == b.sends && r.tickets == b.tickets && |r.slots| == MAX_RETRY_SLOTS
    requires forall j :: 0 <= j < MAX_RETRY_SLOTS && j != i ==> r.slots[j] == b.slots[j]
    requires SlotSane(r.slots[i]) && (r.slots[i].active ==> b.slots[i].active)
    requires forall k: nat :: k != b.tickets[i] ==> Series(r.air, k) == Series(b.air, k)
    requires WithinBounds(Series(r.air, b.tickets[i])) && StandsFor(r.slots[i], Series(r.air, b.tickets[i]), t)
    requires b.slots[i].active || Series(r.air, b.tickets[i]) == Series(b.air, b.tickets[i])
    ensures Kept(r, t)
  {
    hide Series, WithinBounds, SlotSane;
    forall j | 0 <= j < MAX_RETRY_SLOTS
      ensures StandsFor(r.slots[j], Series(r.air, r.tickets[j]), t)
    {
      if j != i && r.slots[j].active && b.tickets[j] == b.tickets[i] {
        assert !b.slots[i].active;
      }
    }
  }

  lemma {:induction false} PollKeeps(b: Buffer, i: nat, t: nat)
    requires Kept(b, t) && i <= MAX_RETRY_SLOTS
    ensures Kept(PollFrom(b, i, t), t)
    decreases MAX_RETRY_SLOTS - i
  {
    hide Kept, PollSlot, Emitted;
    if i < MAX_RETRY_SLOTS {
      assert BufferSane(b) by { KeptSane(b, t); }
      PollOneKeeps(b, i, t);
      PollKeeps(b.(slots := b.slots[i := PollSlot(b.slots[i], Millis(t))],
                   air := b.air + Emitted(b.slots[i], b.tickets[i], t)), i + 1, t);
    }
  }

  lemma KeptSane(b: Buffer, t: nat)
    requires Kept(b, t)
    ensures BufferSane(b)
  {
  }

  lemma SendKeeps(b: Buffer, f: Frame, t: nat, ok: bool)
    requires Kept(b, t)
    ensures Kept(Send(b, f, t, ok), t)
  {
    hide Series, WithinBounds, Asked, Millis, HasFlag, Encodable, Spaced, Resent;
    if Encodable(Asked(f)) && ok {
      var x := Transmission(b.sends, Asked(f), t);
      var r := Send(b, f, t, ok);
      NewlySent(RetrySlot(Asked(f), Millis(t), 0, true), x);
      hide SlotSane, StandsFor;
      forall k: nat
        ensures Series(r.air, k) == if k == b.sends then [x] else Series(b.air, k)
      {
        SeriesGrows(b.air, x, k);
        assert Series(b.air, k) + [] == Series(b.air, k);
      }
      ResentEncodable(f);
      FirstWithinBounds(x);
    }
  }

  lemma NewlySent(s: RetrySlot, x: Transmission)
    requires s.active && s.frame == x.frame && s.retries == 0 && s.sentMs == Millis(x.t)
    ensures StandsFor(s, [x], x.t)
    ensures forall q: RetrySlot, series: seq<Transmission>, now: nat ::
              !q.active ==> StandsFor(q, series, now)
  {
  }

  lemma FirstWithinBounds(x: Transmission)
    requires HasFlag(x.frame.flags, FLAG_ACK_REQ)
    ensures WithinBounds([x])
  {
  }

  lemma AckedKeeps(b: Buffer, seqNo: Byte, t: nat)
    requires Kept(b, t)
    ensures Kept(Acked(b, seqNo), t)
  {
    hide Series, WithinBounds;
  }

  predicate InOrder(steps: seq<Step>) {
    forall i, j :: 0 <= i < j < |steps| ==> steps[i].t <= steps[j].t
  }

  /** Every reliable send of every run stays within its bounds. */
  lemma {:induction false} RetriesBounded(steps: seq<Step>)
    requires InOrder(steps)
    ensures Kept(Run(steps), if steps == [] then 0 else steps[|steps| - 1].t)
    ensures forall k: nat :: WithinBounds(Series(Run(steps).air, k))
    decreases |steps|
  {
    hide Take, WithinBounds;
    if steps == [] {
      NothingSent();
    } else {
      var n := |steps| - 1;
      RetriesBounded(steps[..n]);
      var b, t := Run(steps[..n]), steps[n].t;
      KeptLater(b, if n == 0 then 0 else steps[n - 1].t, t);
      TakeKeeps(b, steps[n]);
    }
  }

  lemma NothingSent()
    ensures Kept(NoRetries(), 0)
    ensures forall k: nat :: WithinBounds(Series([], k))
  {
  }

  lemma TakeKeeps(b: Buffer, s: Step)
    requires Kept(b, s.t)
    ensures Kept(Take(b, s), s.t)
  {
    hide Kept;
    KeptSane(b, s.t);
    match s
    case Reliable(f, t, ok) => SendKeeps(b, f, t, ok);
    case AckFor(n, t) => AckedKeeps(b, n, t);
    case Polled(t) => PollKeeps(b, 0, t);
  }

  // ----- Slots are freed -----

  /** A poll of the buffer polls every slot. */
  lemma PollIsSlotwise(b: Buffer, t: nat, i: nat, j: nat)
    requires BufferSane(b) && i <= MAX_RETRY_SLOTS && j < MAX_RETRY_SLOTS
    ensures PollFrom(b, i, t).slots[j] == if j < i then b.slots[j] else PollSlot(b.slots[j], Millis(t))
    decreases MAX_RETRY_SLOTS - i
  {
    hide PollSlot, Emitted;
    if i < MAX_RETRY_SLOTS {
      PollIsSlotwise(b.(slots := b.slots[i := PollSlot(b.slots[i], Millis(t))],
                        air := b.air + Emitted(b.slots[i], b.tickets[i], t)), t, i + 1, j);
    }
  }

  /** While a slot is active its last send lies less than a timeout back and was not late. */
  ghost predicate Pending(s: RetrySlot, last: nat, first: nat, retries: nat, gap: nat) {
    s.active ==> retries <= s.retries <= MAX_RETRIES
                 && exists at: nat :: SentAt(s, at, last) && at <= Latest(first, s.retries - retries, gap)
  }

  predicate SentAt(s: RetrySlot, at: nat, last: nat) {
    s.sentMs == Millis(at) && at <= last < at + ACK_TIMEOUT_MS
  }

  /** The latest time of the `n`-th retransmission from now. */
  function Latest(first: nat, n: nat, gap: nat): nat {
    if n == 0 then first else Latest(first, n - 1, gap) + ACK_TIMEOUT_MS + gap
  }

  lemma LatestBound(first: nat, n: nat, gap: nat)
    requires n <= MAX_RETRIES
    ensures Latest(first, n, gap) <= first + MAX_RETRIES * (ACK_TIMEOUT_MS + gap)
  {
    assert Latest(first, 1, gap) == first + ACK_TIMEOUT_MS + gap;
    assert Latest(first, 2, gap) == first + 2 * (ACK_TIMEOUT_MS + gap);
    assert Latest(first, 3, gap) == first + 3 * (ACK_TIMEOUT_MS + gap);
    assert n == 0 || n == 1 || n == 2 || n == 3;
  }

  lemma OnePoll(s: RetrySlot, last: nat, first: nat, retries: nat, gap: nat, t: nat)
    requires SlotSane(s) && Pending(s, last, first, retries, gap)
    requires last <= t <= last + gap && gap + ACK_TIMEOUT_MS <= TWO32
    ensures Pending(PollSlot(s, Millis(t)), t, first, retries, gap)
  {
    hide Encodable, Resent, Millis;
    if s.active {
      var at: nat :| SentAt(s, at, last) && at <= Latest(first, s.retries - retries, gap);
      ClockUnderstates(t, at);
      MillisSmall(t - at);
      var r := PollSlot(s, Millis(t));
      if !Due(s, Millis(t)) {
        assert SentAt(r, at, t);
      } else if s.retries < MAX_RETRIES {
        assert SentAt(r, t, t);
        assert Latest(first, r.retries - retries, gap)
               == Latest(first, s.retries - retries, gap) + ACK_TIMEOUT_MS + gap;
      }
    }
  }

  lemma MillisSmall(t: nat)
    ensures t < TWO32 ==> Millis(t) == t
  {
  }

  // ----- Runs from a buffer on -----

  function Onward(b: Buffer, steps: seq<Step>): (r: Buffer)
    requires BufferSane(b)
    ensures BufferSane(r)
    decreases |steps|
  {
    if steps == [] then b else Take(Onward(b, steps[..|steps| - 1]), steps[|steps| - 1])
  }

  lemma {:induction false} RunOnward(before: seq<Step>, after: seq<Step>)
    ensures Run(before + after) == Onward(Run(before), after)
    decreases |after|
  {
    if after == [] {
      assert before + after == before;
    } else {
      var n := |after| - 1;
      RunOnward(before, after[..n]);
      assert (before + after)[..|before + after| - 1] == before + after[..n];
    }
  }

  /** Slot `j` works for the `k`-th reliable send. */
  predicate WorksFor(b: Buffer, j: nat, k: nat)
    requires BufferSane(b) && j < MAX_RETRY_SLOTS
  {
    b.slots[j].active && b.tickets[j] == k
  }

  /** The send is over: no slot works for it, and none ever will. */
  predicate Over(b: Buffer, k: nat)
    requires BufferSane(b)
  {
    k < b.sends && forall j :: 0 <= j < MAX_RETRY_SLOTS ==> !WorksFor(b, j, k)
  }

  /** The time of the last poll. */
  function LastPoll(start: nat, steps: seq<Step>): nat
    decreases |steps|
  {
    if steps == [] then start
    else if steps[|steps| - 1].Polled? then steps[|steps| - 1].t
    else LastPoll(start, steps[..|steps| - 1])
  }

  /** The polls among the steps come in time order, the first within `gap` of `start` and each within it of the last. */
  predicate Attended(start: nat, steps: seq<Step>, gap: nat)
    decreases |steps|
  {
    steps == [] || (
      var before, s := steps[..|steps| - 1], steps[|steps| - 1];
      Attended(start, before, gap)
      && (s.Polled? ==> LastPoll(start, before) <= s.t <= LastPoll(start, before) + gap))
  }

  /** Whatever slot works for the send is on schedule. */
  ghost predicate OnSchedule(b: Buffer, k: nat, last: nat, first: nat, gap: nat)
    requires BufferSane(b)
  {
    k < b.sends && forall j :: 0 <= j < MAX_RETRY_SLOTS && WorksFor(b, j, k) ==>
      Pending(b.slots[j], last, first, 0, gap)
  }

  lemma StepOnSchedule(b: Buffer, s: Step, k: nat, last: nat, first: nat, gap: nat)
    requires BufferSane(b) && OnSchedule(b, k, last, first, gap) && gap + ACK_TIMEOUT_MS <= TWO32
    requires s.Polled? ==> last <= s.t <= last + gap
    ensures OnSchedule(Take(b, s), k, if s.Polled? then s.t else last, first, gap)
  {
    hide Pending, SlotSane, Encodable, Asked, PollSlot, Millis;
    if s.Polled? {
      PollTickets(b, 0, s.t);
      forall j | 0 <= j < MAX_RETRY_SLOTS && WorksFor(Take(b, s), j, k)
        ensures Pending(Take(b, s).slots[j], s.t, first, 0, gap)
      {
        PollIsSlotwise(b, s.t, 0, j);
        SaneSlot(b, j);
        PolledWasActive(b.slots[j], Millis(s.t));
        OnePoll(b.slots[j], last, first, 0, gap, s.t);
      }
    }
  }

  lemma SaneSlot(b: Buffer, j: nat)
    requires BufferSane(b) && j < MAX_RETRY_SLOTS
    ensures SlotSane(b.slots[j])
  {
  }

  lemma PolledWasActive(s: RetrySlot, now: nat)
    requires SlotSane(s) && now < TWO32
    ensures PollSlot(s, now).active ==> s.active
  {
  }

  lemma {:induction false} PollTickets(b: Buffer, i: nat, t: nat)
    requires BufferSane(b) && i <= MAX_RETRY_SLOTS
    ensures PollFrom(b, i, t).tickets == b.tickets && PollFrom(b, i, t).sends == b.sends
    decreases MAX_RETRY_SLOTS - i
  {
    hide PollSlot, Emitted;
    if i < MAX_RETRY_SLOTS {
      PollTickets(b.(slots := b.slots[i := PollSlot(b.slots[i], Millis(t))],
                     air := b.air + Emitted(b.slots[i], b.tickets[i], t)), i + 1, t);
    }
  }

  lemma {:induction false} StaysOnSchedule(b: Buffer, steps: seq<Step>, k: nat, first: nat, gap: nat)
    requires BufferSane(b) && OnSchedule(b, k, first, first, gap) && gap + ACK_TIMEOUT_MS <= TWO32
    requires Attended(first, steps, gap)
    ensures OnSchedule(Onward(b, steps), k, LastPoll(first, steps), first, gap)
    decreases |steps|
  {
    hide Take, OnSchedule, BufferSane;
    if steps != [] {
      var before, s := steps[..|steps| - 1], steps[|steps| - 1];
      StaysOnSchedule(b, before, k, first, gap);
      StepOnSchedule(Onward(b, before), s, k, LastPoll(first, before), first, gap);
    }
  }

  lemma PendingEnds(s: RetrySlot, last: nat, first: nat, gap: nat)
    requires Pending(s, last, first, 0, gap)
    requires last >= first + MAX_RETRIES * (ACK_TIMEOUT_MS + gap) + ACK_TIMEOUT_MS
    ensures !s.active
  {
    hide Latest;
    if s.active {
      LatestBound(first, s.retries, gap);
    }
  }

  /**
   Every reliable send ends without any acknowledgement: whatever was sent and confirmed before and meanwhile, once
   it was polled for long enough no slot works for it.
   */
  lemma EverySendEnds(before: seq<Step>, f: Frame, t: nat, after: seq<Step>, gap: nat)
    requires InOrder(before + [Reliable(f, t, true)]) && Encodable(Asked(f))
    requires Attended(t, after, gap) && gap + ACK_TIMEOUT_MS <= TWO32
    requires LastPoll(t, after) >= t + MAX_RETRIES * (ACK_TIMEOUT_MS + gap) + ACK_TIMEOUT_MS
    ensures Over(Run(before + [Reliable(f, t, true)] + after), Run(before).sends)
  {
    hide Encodable, Kept, Take, Pending, OnSchedule;
    var steps := before + [Reliable(f, t, true)];
    var k := Run(before).sends;
    assert steps[..|steps| - 1] == before;
    PrefixInOrder(before, Reliable(f, t, true));
    RetriesBounded(before);
    SentOnSchedule(Run(before), if before == [] then 0 else before[|before| - 1].t, f, t, gap);
    RunOnward(steps, after);
    StaysOnSchedule(Run(steps), after, k, t, gap);
    var r := Onward(Run(steps), after);
    ScheduleMeans(r, k, LastPoll(t, after), t, gap);
    forall j | 0 <= j < MAX_RETRY_SLOTS ensures !WorksFor(r, j, k) {
      if WorksFor(r, j, k) {
        PendingEnds(r.slots[j], LastPoll(t, after), t, gap);
      }
    }
  }

  lemma PrefixInOrder(before: seq<Step>, s: Step)
    requires InOrder(before + [s])
    ensures InOrder(before)
  {
    forall i, j | 0 <= i < j < |before| ensures before[i].t <= before[j].t {
      assert (before + [s])[i].t <= (before + [s])[j].t;
    }
  }

  lemma ScheduleMeans(b: Buffer, k: nat, last: nat, first: nat, gap: nat)
    requires BufferSane(b) && OnSchedule(b, k, last, first, gap)
    ensures k < b.sends
    ensures forall j :: 0 <= j < MAX_RETRY_SLOTS && WorksFor(b, j, k) ==> Pending(b.slots[j], last, first, 0, gap)
  {
  }

  lemma SentOnSchedule(b: Buffer, last: nat, f: Frame, t: nat, gap: nat)
    requires Kept(b, last) && Encodable(Asked(f))
    ensures OnSchedule(Take(b, Reliable(f, t, true)), b.sends, t, t, gap)
  {
    hide Encodable, Asked, Series, WithinBounds, Millis;
    var r := Take(b, Reliable(f, t, true));
    forall j | 0 <= j < MAX_RETRY_SLOTS && WorksFor(r, j, b.sends)
      ensures Pending(r.slots[j], t, t, 0, gap)
    {
      assert SentAt(r.slots[j], t, t);
    }
  }

  // ----- After an acknowledgement -----

  lemma StepStaysOver(b: Buffer, s: Step, k: nat)
    requires BufferSane(b) && Over(b, k)
    ensures Over(Take(b, s), k) && Series(Take(b, s).air, k) == Series(b.air, k)
  {
    hide Series, Encodable, Asked, PollSlot, Emitted, SlotSane, Millis;
    match s
    case Polled(t) =>
      PollTickets(b, 0, t);
      PollStaysOver(b, 0, t, k);
    case AckFor(n, t) =>
      forall j | 0 <= j < MAX_RETRY_SLOTS ensures !WorksFor(Acked(b, n), j, k) {
        assert !WorksFor(b, j, k);
      }
    case Reliable(f, t, ok) =>
      SeriesGrows(b.air, Transmission(b.sends, Asked(f), t), k);
      assert Series(b.air, k) + [] == Series(b.air, k);
      forall j | 0 <= j < MAX_RETRY_SLOTS ensures !WorksFor(Send(b, f, t, ok), j, k) {
        assert !WorksFor(b, j, k);
      }
  }

  lemma {:induction false} PollStaysOver(b: Buffer, i: nat, t: nat, k: nat)
    requires BufferSane(b) && Over(b, k) && i <= MAX_RETRY_SLOTS
    ensures Over(PollFrom(b, i, t), k) && Series(PollFrom(b, i, t).air, k) == Series(b.air, k)
    decreases MAX_RETRY_SLOTS - i
  {
    hide Series, PollSlot, Emitted, SlotSane, Millis;
    if i < MAX_RETRY_SLOTS {
      var s, out := b.slots[i], Emitted(b.slots[i], b.tickets[i], t);
      SaneSlot(b, i);
      EmittedShape(s, b.tickets[i], t);
      var next := b.(slots := b.slots[i := PollSlot(s, Millis(t))], air := b.air + out);
      assert Series(next.air, k) == Series(b.air, k) by {
        assert !WorksFor(b, i, k);
        assert Series(b.air, k) + [] == Series(b.air, k);
        if out == [] {
          assert next.air == b.air;
        } else {
          assert out == [out[0]];
          SeriesGrows(b.air, out[0], k);
        }
      }
      assert Over(next, k) by {
        forall j | 0 <= j < MAX_RETRY_SLOTS ensures !WorksFor(next, j, k) {
          assert !WorksFor(b, j, k);
        }
      }
      PollStaysOver(next, i + 1, t, k);
    }
  }

  lemma {:induction false} StaysOver(b: Buffer, steps: seq<Step>, k: nat)
    requires BufferSane(b) && Over(b, k)
    ensures Over(Onward(b, steps), k) && Series(Onward(b, steps).air, k) == Series(b.air, k)
    decreases |steps|
  {
    hide Take, Over, Series, BufferSane;
    if steps != [] {
      StaysOver(b, steps[..|steps| - 1], k);
      StepStaysOver(Onward(b, steps[..|steps| - 1]), steps[|steps| - 1], k);
    }
  }

  /** An ACK ends a send exactly if its slot is the first active one of that sequence number. */
  lemma AckEndsIff(b: Buffer, last: nat, i: nat, seqNo: Byte, t: nat)
    requires Kept(b, last) && i < MAX_RETRY_SLOTS && b.slots[i].active
    ensures Over(Take(b, AckFor(seqNo, t)), b.tickets[i]) <==> SlotOf(b.slots, seqNo) == i
  {
    hide Series, WithinBounds, StandsFor, SlotSane;
    var a, k := Take(b, AckFor(seqNo, t)), b.tickets[i];
    if SlotOf(b.slots, seqNo) == i {
      forall j | 0 <= j < MAX_RETRY_SLOTS ensures !WorksFor(a, j, k) {
        if j < i {
          assert b.slots[j].active ==> b.tickets[j] != b.tickets[i];
        } else if i < j {
          assert b.slots[j].active ==> b.tickets[i] != b.tickets[j];
        }
      }
    } else {
      assert WorksFor(a, i, k);
    }
  }

  /** After its ACK nothing more of a send ever goes on the air. */
  lemma AckSilences(b: Buffer, last: nat, i: nat, seqNo: Byte, t: nat, after: seq<Step>)
    requires Kept(b, last) && i < MAX_RETRY_SLOTS && b.slots[i].active && SlotOf(b.slots, seqNo) == i
    ensures var r := Onward(b, [AckFor(seqNo, t)] + after);
            Over(r, b.tickets[i]) && Series(r.air, b.tickets[i]) == Series(b.air, b.tickets[i])
  {
    hide Kept, Series, Over;
    KeptSane(b, last);
    AckEndsIff(b, last, i, seqNo, t);
    OnwardOnward(b, AckFor(seqNo, t), after);
    StaysOver(Take(b, AckFor(seqNo, t)), after, b.tickets[i]);
  }

  lemma {:induction false} OnwardOnward(b: Buffer, s: Step, after: seq<Step>)
    requires BufferSane(b)
    ensures Onward(b, [s] + after) == Onward(Take(b, s), after)
    decreases |after|
  {
    hide Take;
    if after == [] {
      assert [s] + after == [s];
      assert [s][..0] == [];
    } else {
      var n := |after| - 1;
      OnwardOnward(b, s, after[..n]);
      assert ([s] + after)[..|after|] == [s] + after[..n];
    }
  }

  // ----- Retransmissions happen -----

  /**
   What a reliable send that obtains a slot and no acknowledgement puts on the air, told from the polls alone: a copy
   at every first poll a timeout or more after the transmission before, until MAX_RETRIES copies are out.
   */
  function Planned(k: nat, f: Frame, t: nat, steps: seq<Step>): (plan: seq<Transmission>)
    ensures 1 <= |plan| <= 1 + MAX_RETRIES
    decreases |steps|
  {
    if steps == [] then [Transmission(k, Asked(f), t)]
    else
      var plan, s := Planned(k, f, t, steps[..|steps| - 1]), steps[|steps| - 1];
      if s.Polled? && |plan| <= MAX_RETRIES && plan[|plan| - 1].t + ACK_TIMEOUT_MS <= s.t then
        plan + [Transmission(k, Resent(Asked(f)), s.t)]
      else plan
  }

  /** Slot `j` alone works for send `k`, stands at the end of its plan, and its last transmission is recent. */
  predicate Serves(b: Buffer, j: nat, k: nat, plan: seq<Transmission>, last: nat)
    requires BufferSane(b)
  {
    && j < MAX_RETRY_SLOTS && plan != [] && b.tickets[j] == k
    && b.slots[j] == RetrySlot(plan[|plan| - 1].frame, Millis(plan[|plan| - 1].t), |plan| - 1, true)
    && plan[|plan| - 1].t <= last < plan[|plan| - 1].t + ACK_TIMEOUT_MS
    && forall m :: 0 <= m < MAX_RETRY_SLOTS && m != j ==> !WorksFor(b, m, k)
  }

  ghost predicate OnPlan(b: Buffer, k: nat, plan: seq<Transmission>, last: nat)
    requires BufferSane(b)
  {
    && k < b.sends && Series(b.air, k) == plan
    && ((exists j :: Serves(b, j, k, plan, last)) || (|plan| == 1 + MAX_RETRIES && Over(b, k)))
  }

  lemma {:induction false} PollAdds(b: Buffer, i: nat, j: nat, t: nat, k: nat)
    requires BufferSane(b) && i <= MAX_RETRY_SLOTS && j < MAX_RETRY_SLOTS && b.tickets[j] == k
    requires forall m :: 0 <= m < MAX_RETRY_SLOTS && m != j ==> !WorksFor(b, m, k)
    ensures Series(PollFrom(b, i, t).air, k) == Series(b.air, k) + if i <= j then Emitted(b.slots[j], k, t) else []
    ensures forall m :: 0 <= m < MAX_RETRY_SLOTS && m != j ==> !WorksFor(PollFrom(b, i, t), m, k)
    decreases MAX_RETRY_SLOTS - i
  {
    hide Series, PollSlot, Emitted, SlotSane, Millis;
    if i < MAX_RETRY_SLOTS {
      var s, out := b.slots[i], Emitted(b.slots[i], b.tickets[i], t);
      SaneSlot(b, i);
      EmittedShape(s, b.tickets[i], t);
      var next := b.(slots := b.slots[i := PollSlot(s, Millis(t))], air := b.air + out);
      assert i != j ==> !WorksFor(b, i, k);
      SeriesOf(b.air, out, b.tickets[i], k);
      forall m | 0 <= m < MAX_RETRY_SLOTS && m != j ensures !WorksFor(next, m, k) {
        assert !WorksFor(b, m, k);
      }
      PollAdds(next, i + 1, j, t, k);
      SeriesEnds(Series(b.air, k), Emitted(b.slots[j], k, t));
    } else {
      SeriesEnds(Series(b.air, k), []);
    }
  }

  lemma SeriesOf(air: seq<Transmission>, out: seq<Transmission>, ticket: nat, k: nat)
    requires out == [] || (|out| == 1 && out[0].ticket == ticket)
    ensures Series(air + out, k) == Series(air, k) + if ticket == k then out else []
  {
    hide Series;
    SeriesEnds(Series(air, k), []);
    if out == [] {
      assert air + out == air;
    } else {
      assert out == [out[0]];
      SeriesGrows(air, out[0], k);
    }
  }

  lemma SeriesEnds(a: seq<Transmission>, b: seq<Transmission>)
    ensures a + [] == a && (a + []) + b == a + b && (a + b) + [] == a + b
  {
  }

  /** A poll of the slot at the end of the plan: wait, send the next copy, or give up. */
  lemma PollOnPlan(b: Buffer, j: nat, k: nat, f: Frame, plan: seq<Transmission>, last: nat, gap: nat, t: nat)
    requires BufferSane(b) && OnPlan(b, k, plan, last) && Serves(b, j, k, plan, last) && |plan| <= 1 + MAX_RETRIES
    requires Resent(plan[|plan| - 1].frame) == Resent(Asked(f))
    requires last <= t <= last + gap && gap + ACK_TIMEOUT_MS <= TWO32
    ensures var due := plan[|plan| - 1].t + ACK_TIMEOUT_MS <= t;
            OnPlan(PollFrom(b, 0, t), k,
                   if due && |plan| <= MAX_RETRIES then plan + [Transmission(k, Resent(Asked(f)), t)] else plan, t)
  {
    hide Series, Encodable, Resent, Asked, Millis, SlotSane;
    var at := plan[|plan| - 1].t;
    var r := PollFrom(b, 0, t);
    SaneSlot(b, j);
    ClockUnderstates(t, at);
    MillisSmall(t - at);
    PollTickets(b, 0, t);
    PollIsSlotwise(b, t, 0, j);
    PollAdds(b, 0, j, t, k);
    assert Due(b.slots[j], Millis(t)) <==> at + ACK_TIMEOUT_MS <= t;
    SeriesEnds(plan, []);
    if at + ACK_TIMEOUT_MS <= t {
      if |plan| <= MAX_RETRIES {
        assert Serves(r, j, k, plan + [Transmission(k, Resent(Asked(f)), t)], t);
      } else {
        assert Over(r, k);
      }
    } else {
      assert Serves(r, j, k, plan, t);
    }
  }

  lemma StepOnPlan(b: Buffer, s: Step, k: nat, f: Frame, plan: seq<Transmission>, last: nat, gap: nat)
    requires BufferSane(b) && OnPlan(b, k, plan, last) && 1 <= |plan| <= 1 + MAX_RETRIES
    requires Resent(plan[|plan| - 1].frame) == Resent(Asked(f)) && plan[|plan| - 1].frame.seqNo == f.seqNo
    requires s.Polled? ==> last <= s.t <= last + gap && gap + ACK_TIMEOUT_MS <= TWO32
    requires s.AckFor? ==> s.seqNo != f.seqNo
    ensures OnPlan(Take(b, s), k,
                   if s.Polled? && |plan| <= MAX_RETRIES && plan[|plan| - 1].t + ACK_TIMEOUT_MS <= s.t then
                     plan + [Transmission(k, Resent(Asked(f)), s.t)]
                   else plan,
                   if s.Polled? then s.t else last)
  {
    hide Series, Encodable, Asked, Resent, Millis, PollFrom, SlotSane;
    if Over(b, k) {
      forall j: nat ensures !Serves(b, j, k, plan, last) {
        assert j < MAX_RETRY_SLOTS ==> !WorksFor(b, j, k);
      }
      StepStaysOver(b, s, k);
    } else {
      var j :| Serves(b, j, k, plan, last);
      match s
      case Polled(t) => PollOnPlan(b, j, k, f, plan, last, gap, t);
      case AckFor(n, t) =>
        forall m | 0 <= m < MAX_RETRY_SLOTS && m != j ensures !WorksFor(Acked(b, n), m, k) {
          assert !WorksFor(b, m, k);
        }
        assert Serves(Acked(b, n), j, k, plan, last);
      case Reliable(g, t, ok) =>
        var r := Send(b, g, t, ok);
        SeriesGrows(b.air, Transmission(b.sends, Asked(g), t), k);
        SeriesEnds(plan, []);
        forall m | 0 <= m < MAX_RETRY_SLOTS && m != j ensures !WorksFor(r, m, k) {
          assert !WorksFor(b, m, k);
        }
        assert Serves(r, j, k, plan, last);
    }
  }

  lemma {:induction false} PlanCopies(k: nat, f: Frame, t: nat, steps: seq<Step>)
    ensures var plan := Planned(k, f, t, steps);
            && Resent(plan[|plan| - 1].frame) == Resent(Asked(f)) && plan[|plan| - 1].frame.seqNo == f.seqNo
    decreases |steps|
  {
    ResentEncodable(Asked(f));
    hide WithFlag;
    if steps != [] {
      PlanCopies(k, f, t, steps[..|steps| - 1]);
    }
  }

  lemma {:induction false} StaysOnPlan(b: Buffer, k: nat, f: Frame, t: nat, steps: seq<Step>, gap: nat)
    requires BufferSane(b) && OnPlan(b, k, [Transmission(k, Asked(f), t)], t)
    requires Attended(t, steps, gap) && gap + ACK_TIMEOUT_MS <= TWO32
    requires forall s :: s in steps && s.AckFor? ==> s.seqNo != f.seqNo
    ensures OnPlan(Onward(b, steps), k, Planned(k, f, t, steps), LastPoll(t, steps))
    decreases |steps|
  {
    hide Take, OnPlan, Resent, Asked, BufferSane;
    if steps != [] {
      var before, s := steps[..|steps| - 1], steps[|steps| - 1];
      assert s in steps;
      StaysOnPlan(b, k, f, t, before, gap);
      PlanCopies(k, f, t, before);
      StepOnPlan(Onward(b, before), s, k, f, Planned(k, f, t, before), LastPoll(t, before), gap);
    }
  }

  lemma SentOnPlan(b: Buffer, last: nat, f: Frame, t: nat)
    requires Kept(b, last) && Encodable(Asked(f))
    ensures var r, x := Take(b, Reliable(f, t, true)), Transmission(b.sends, Asked(f), t);
            && b.sends < r.sends && Series(r.air, b.sends) == [x]
            && if FreeSlot(b.slots) < MAX_RETRY_SLOTS then OnPlan(r, b.sends, [x], t) else Over(r, b.sends)
  {
    hide Encodable, Asked, Series, WithinBounds, Millis, StandsFor, SlotSane;
    var r, x, k := Take(b, Reliable(f, t, true)), Transmission(b.sends, Asked(f), t), b.sends;
    SeriesGrows(b.air, x, k);
    assert [] + [x] == [x];
    forall m | 0 <= m < MAX_RETRY_SLOTS ensures !WorksFor(b, m, k) {
      assert b.slots[m].active ==> b.tickets[m] < b.sends;
    }
    if FreeSlot(b.slots) < MAX_RETRY_SLOTS {
      assert Serves(r, FreeSlot(b.slots), k, [x], t);
    } else {
      assert forall m :: 0 <= m < MAX_RETRY_SLOTS ==> !WorksFor(b, m, k);
    }
  }

  /**
   Whatever was sent and confirmed before and meanwhile: a reliable send that finds a free slot and is not
   acknowledged is on the air exactly as planned.
   */
  lemma UnackedIsResent(before: seq<Step>, f: Frame, t: nat, after: seq<Step>, gap: nat)
    requires InOrder(before + [Reliable(f, t, true)]) && Encodable(Asked(f))
    requires FreeSlot(Run(before).slots) < MAX_RETRY_SLOTS
    requires Attended(t, after, gap) && gap + ACK_TIMEOUT_MS <= TWO32
    requires forall s :: s in after && s.AckFor? ==> s.seqNo != f.seqNo
    ensures var k := Run(before).sends;
            Series(Run(before + [Reliable(f, t, true)] + after).air, k) == Planned(k, f, t, after)
  {
    hide Encodable, Kept, Take, Series, Planned, Serves, Over, Asked;
    SendOnward(before, f, t, after);
    var k, b := Run(before).sends, Take(Run(before), Reliable(f, t, true));
    assert Planned(k, f, t, []) == [Transmission(k, Asked(f), t)] by { PlanStarts(k, f, t); }
    StaysOnPlan(b, k, f, t, after, gap);
  }

  lemma PlanStarts(k: nat, f: Frame, t: nat)
    ensures Planned(k, f, t, []) == [Transmission(k, Asked(f), t)]
  {
  }

  /** With all slots taken the frame is sent once and never again. */
  lemma WithoutSlotSentOnce(before: seq<Step>, f: Frame, t: nat, after: seq<Step>)
    requires InOrder(before + [Reliable(f, t, true)]) && Encodable(Asked(f))
    requires FreeSlot(Run(before).slots) == MAX_RETRY_SLOTS
    ensures var k := Run(before).sends;
            Series(Run(before + [Reliable(f, t, true)] + after).air, k) == [Transmission(k, Asked(f), t)]
  {
    hide Encodable, Kept, Take, Series, Over, Asked;
    SendOnward(before, f, t, after);
    StaysOver(Take(Run(before), Reliable(f, t, true)), after, Run(before).sends);
  }

  lemma SendOnward(before: seq<Step>, f: Frame, t: nat, after: seq<Step>)
    requires InOrder(before + [Reliable(f, t, true)]) && Encodable(Asked(f))
    ensures Run(before + [Reliable(f, t, true)] + after) == Onward(Take(Run(before), Reliable(f, t, true)), after)
    ensures var b, k := Take(Run(before), Reliable(f, t, true)), Run(before).sends;
            && k < b.sends && Series(b.air, k) == [Transmission(k, Asked(f), t)]
            && if FreeSlot(Run(before).slots) < MAX_RETRY_SLOTS then OnPlan(b, k, [Transmission(k, Asked(f), t)], t)
               else Over(b, k)
  {
    hide Encodable, Kept, Take, Series, OnPlan, Over, Asked;
    var steps := before + [Reliable(f, t, true)];
    assert steps[..|steps| - 1] == before;
    PrefixInOrder(before, Reliable(f, t, true));
    RetriesBounded(before);
    SentOnPlan(Run(before), if before == [] then 0 else before[|before| - 1].t, f, t);
    RunOnward(steps, after);
  }

  lemma {:induction false} PlanFills(k: nat, f: Frame, t: nat, steps: seq<Step>, gap: nat)
    requires Attended(t, steps, gap)
    ensures var plan := Planned(k, f, t, steps);
            && plan[|plan| - 1].t <= Latest(t, |plan| - 1, gap)
            && (|plan| <= MAX_RETRIES ==> LastPoll(t, steps) < plan[|plan| - 1].t + ACK_TIMEOUT_MS)
    decreases |steps|
  {
    hide Resent, Asked;
    if steps != [] {
      PlanFills(k, f, t, steps[..|steps| - 1], gap);
    }
  }

  /** Attended long enough, it goes out exactly 1 + MAX_RETRIES times. */
  lemma UnackedIsSentFourTimes(before: seq<Step>, f: Frame, t: nat, after: seq<Step>, gap: nat)
    requires InOrder(before + [Reliable(f, t, true)]) && Encodable(Asked(f))
    requires FreeSlot(Run(before).slots) < MAX_RETRY_SLOTS
    requires Attended(t, after, gap) && gap + ACK_TIMEOUT_MS <= TWO32
    requires forall s :: s in after && s.AckFor? ==> s.seqNo != f.seqNo
    requires LastPoll(t, after) >= t + MAX_RETRIES * (ACK_TIMEOUT_MS + gap)
    ensures |Series(Run(before + [Reliable(f, t, true)] + after).air, Run(before).sends)| == 1 + MAX_RETRIES
  {
    hide Encodable, Series, Run, Attended, Latest, Asked, Planned;
    var k := Run(before).sends;
    UnackedIsResent(before, f, t, after, gap);
    PlanFills(k, f, t, after, gap);
    var n := |Planned(k, f, t, after)| - 1;
    if n < MAX_RETRIES {
      LatestStep(t, n, gap);
      LatestBound(t, n + 1, gap);
    }
  }

  lemma LatestStep(first: nat, n: nat, gap: nat)
    ensures Latest(first, n + 1, gap) == Latest(first, n, gap) + ACK_TIMEOUT_MS + gap
  {
  }

  // ----- The buffer in place -----

  class RetryQueue {
    const retrySlots: array<RetrySlot>
    ghost var tickets: seq<nat>
    ghost var sends: nat
    ghost var air: seq<Transmission>

    ghost function Now(): Buffer
      reads this, retrySlots
    {
      Buffer(retrySlots[..], tickets, sends, air)
    }

    ghost predicate Valid()
      reads this, retrySlots
    {
      BufferSane(Now())
    }

    constructor ()
      ensures Valid() && Now() == NoRetries() && fresh(retrySlots)
    {
      retrySlots := new RetrySlot[MAX_RETRY_SLOTS](_ => Idle());
      tickets, sends, air := seq(MAX_RETRY_SLOTS, _ => 0), 0, [];
      new;
      assert retrySlots[..] == NoRetries().slots;
    }

    method EnqueueRetry(f: Frame, now: nat, ghost ticket: nat) returns (ok: bool)
      requires Valid() && now < TWO32 && Encodable(f)
      modifies this`tickets, retrySlots
      ensures Valid() && sends == old(sends) && air == old(air)
      ensures var i := FreeSlot(old(retrySlots[..]));
              && (ok <==> i < MAX_RETRY_SLOTS)
              && retrySlots[..] == (if ok then old(retrySlots[..])[i := RetrySlot(f, now, 0, true)]
                                    else old(retrySlots[..]))
              && tickets == (if ok then old(tickets)[i := ticket] else old(tickets))
    {
      hide Encodable;
      var i := 0;
      while i < MAX_RETRY_SLOTS
        invariant i <= FreeSlot(retrySlots[..])
      {
        if !retrySlots[i].active {
          retrySlots[i] := RetrySlot(f, now, 0, true);
          tickets := tickets[i := ticket];
          return true;
        }
        i := i + 1;
      }
      return false;
    }

    method ProcessRetries(t: nat)
      requires Valid()
      modifies this`air, retrySlots
      ensures Valid() && Now() == PollFrom(old(Now()), 0, t)
    {
      hide Encodable, Resent;
      var now := Millis(t);
      var i := 0;
      while i < MAX_RETRY_SLOTS
        invariant i <= MAX_RETRY_SLOTS && Valid()
        invariant tickets == old(tickets) && sends == old(sends)
        invariant PollFrom(Now(), i, t) == PollFrom(old(Now()), 0, t)
      {
        ghost var b := Now();
        ResentEncodable(retrySlots[i].frame);
        ProcessSlot(i, t);
        assert Now() == b.(slots := b.slots[i := PollSlot(b.slots[i], now)],
                           air := b.air + Emitted(b.slots[i], b.tickets[i], t));
        i := i + 1;
      }
    }

    method ProcessSlot(i: nat, t: nat)
      requires Valid() && i < MAX_RETRY_SLOTS
      modifies this`air, retrySlots
      ensures Valid()
      ensures retrySlots[..] == old(retrySlots[..])[i := PollSlot(old(retrySlots[i]), Millis(t))]
      ensures air == old(air) + Emitted(old(retrySlots[i]), tickets[i], t)
    {
      hide Encodable, Resent, Millis;
      var slot, now := retrySlots[i], Millis(t);
      ResentEncodable(slot.frame);
      if !slot.active { return; }
      if Since(now, slot.sentMs) < ACK_TIMEOUT_MS { return; }
      if slot.retries >= MAX_RETRIES {
        retrySlots[i] := slot.(active := false);
        return;
      }
      var again := Resent(slot.frame);
      if Encodable(again) {
        air := air + [Transmission(tickets[i], again, t)];
        retrySlots[i] := slot.(frame := again, retries := slot.retries + 1, sentMs := now);
      }
    }

    method ClearRetryForSeq(seqNo: Byte)
      requires Valid()
      modifies retrySlots
      ensures Valid() && Now() == Acked(old(Now()), seqNo)
    {
      hide Encodable;
      var i := 0;
      while i < MAX_RETRY_SLOTS
        invariant i <= SlotOf(retrySlots[..], seqNo)
        invariant retrySlots[..] == old(retrySlots[..])
      {
        if retrySlots[i].active && retrySlots[i].frame.seqNo == seqNo {
          retrySlots[i] := retrySlots[i].(active := false);
          return;
        }
        i := i + 1;
      }
    }

    /** `radioOk`: the radio took the frame. */
    method SendReliable(frame: Frame, t: nat, radioOk: bool) returns (ok: bool)
      requires Valid()
      modifies this, retrySlots
      ensures Valid() && Now() == Send(old(Now()), frame, t, radioOk)
      ensures ok <==> radioOk && Encodable(Asked(frame))
    {
      hide Encodable;
      var f := frame.(flags := WithFlag(frame.flags, FLAG_ACK_REQ));
      assert f == Asked(frame);
      hide Asked;
      if !Encodable(f) { return false; }
      ok := radioOk;
      if ok {
        ghost var ticket := sends;
        air := air + [Transmission(ticket, f, t)];
        sends := sends + 1;
        var kept := EnqueueRetry(f, Millis(t), ticket);
      }
    }
  }
}
