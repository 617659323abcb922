/**
 Execution order of radio commands (src/comms/radio_dispatcher.cpp:880-1017): by priority level, and in
 arrival order within a level.
 */
module CommandQueue {
  import opened Bytes
  import opened RadioProtocol

  const LEVELS := 4

  const ARM_FLIGHT: Byte := 0x01
  const ABORT: Byte := 0x02
  const FIRE_PULSE_A: Byte := 0x03
  const FIRE_PULSE_B: Byte := 0x04
  const SET_MODE: Byte := 0x05
  const SET_FCS_ACTIVE: Byte := 0x06
  const REQUEST_TELEMETRY: Byte := 0x10
  const SET_TELEM_INTERVAL: Byte := 0x11
  const SET_CONFIG_PARAM: Byte := 0x22
  const FACTORY_RESET: Byte := 0x24

  function CommandPriority(id: Byte): (p: nat)
    ensures p < LEVELS
  {
    if id == ABORT || id == FIRE_PULSE_A || id == FIRE_PULSE_B || id == FACTORY_RESET then 0
    else if id == ARM_FLIGHT || id == SET_MODE || id == SET_FCS_ACTIVE || id == SET_CONFIG_PARAM then 1
    else if id == REQUEST_TELEMETRY || id == SET_TELEM_INTERVAL then 2
    else 3
  }

  /** Octet 1 of a command payload is its identifier. */
  function Level(f: Frame): (p: nat)
    ensures p < LEVELS
  {
    CommandPriority(f.payload[1])
  }

  /** The commands of one level, in arrival order. */
  function OfLevel(fs: seq<Frame>, p: nat): seq<Frame> {
    if fs == [] then []
    else (if Level(fs[0]) == p then [fs[0]] else []) + OfLevel(fs[1..], p)
  }

  function ByPriority(fs: seq<Frame>): seq<Frame> {
    OfLevel(fs, 0) + OfLevel(fs, 1) + OfLevel(fs, 2) + OfLevel(fs, 3)
  }

  // ----- ByPriority is the stable sort -----

  predicate Sorted(fs: seq<Frame>) {
    forall i, j :: 0 <= i < j < |fs| ==> Level(fs[i]) <= Level(fs[j])
  }

  lemma {:induction false} LevelConcat(a: seq<Frame>, b: seq<Frame>, p: nat)
    ensures OfLevel(a + b, p) == OfLevel(a, p) + OfLevel(b, p)
  {
    hide Level;
    if a == [] {
      assert a + b == b;
    } else {
      var front := if Level(a[0]) == p then [a[0]] else [];
      assert (a + b)[1..] == a[1..] + b && (a + b)[0] == a[0];
      assert OfLevel(a, p) == front + OfLevel(a[1..], p);
      assert OfLevel(a + b, p) == front + OfLevel(a[1..] + b, p);
      hide OfLevel;
      LevelConcat(a[1..], b, p);
    }
  }

  lemma {:induction false} LevelMembers(fs: seq<Frame>, p: nat)
    ensures forall f :: f in OfLevel(fs, p) ==> Level(f) == p && f in fs
  {
    if fs != [] {
      LevelMembers(fs[1..], p);
    }
  }

  /** A run of commands of one level. */
  predicate OnLevel(fs: seq<Frame>, p: nat) {
    forall i :: 0 <= i < |fs| ==> Level(fs[i]) == p
  }

  lemma {:induction false} LevelOfLevel(fs: seq<Frame>, p: nat, q: nat)
    requires OnLevel(fs, p)
    ensures OfLevel(fs, q) == if p == q then fs else []
  {
    if fs != [] {
      LevelOfLevel(fs[1..], p, q);
    }
  }

  lemma LevelIsOnLevel(fs: seq<Frame>, p: nat)
    ensures OnLevel(OfLevel(fs, p), p)
  {
    LevelMembers(fs, p);
  }

  lemma LevelFront(fs: seq<Frame>, p: nat)
    requires fs != []
    ensures multiset(OfLevel(fs, p))
              == multiset(OfLevel(fs[1..], p)) + if Level(fs[0]) == p then multiset{fs[0]} else multiset{}
  {
    hide CommandPriority;
  }

  lemma OneOfFour<T>(x: T, p: nat, a0: multiset<T>, a1: multiset<T>, a2: multiset<T>, a3: multiset<T>,
                     b0: multiset<T>, b1: multiset<T>, b2: multiset<T>, b3: multiset<T>)
    requires p < LEVELS
    requires b0 == a0 + (if p == 0 then multiset{x} else multiset{})
               && b1 == a1 + (if p == 1 then multiset{x} else multiset{})
    requires b2 == a2 + (if p == 2 then multiset{x} else multiset{})
               && b3 == a3 + (if p == 3 then multiset{x} else multiset{})
    ensures b0 + b1 + b2 + b3 == multiset{x} + (a0 + a1 + a2 + a3)
  {
  }

  lemma CountFront<T>(s: seq<T>)
    requires s != []
    ensures multiset(s) == multiset{s[0]} + multiset(s[1..])
  {
    assert s == [s[0]] + s[1..];
  }

  lemma {:induction false} LevelCounts(fs: seq<Frame>)
    ensures multiset(fs) == multiset(OfLevel(fs, 0)) + multiset(OfLevel(fs, 1))
                            + multiset(OfLevel(fs, 2)) + multiset(OfLevel(fs, 3))
  {
    if fs != [] {
      LevelCounts(fs[1..]);
      LevelFront(fs, 0);
      LevelFront(fs, 1);
      LevelFront(fs, 2);
      LevelFront(fs, 3);
      CountFront(fs);
      hide OfLevel, CommandPriority;
      var t := fs[1..];
      OneOfFour(fs[0], Level(fs[0]),
                multiset(OfLevel(t, 0)), multiset(OfLevel(t, 1)), multiset(OfLevel(t, 2)), multiset(OfLevel(t, 3)),
                multiset(OfLevel(fs, 0)), multiset(OfLevel(fs, 1)), multiset(OfLevel(fs, 2)), multiset(OfLevel(fs, 3)));
    }
  }

  /** Sorted by level, the same commands, and the arrival order kept within each level. */
  lemma ByPriorityIsStableSort(fs: seq<Frame>)
    ensures Sorted(ByPriority(fs))
    ensures multiset(ByPriority(fs)) == multiset(fs)
    ensures forall p: nat :: p < LEVELS ==> OfLevel(ByPriority(fs), p) == OfLevel(fs, p)
  {
    hide OfLevel, CommandPriority;
    LevelCounts(fs);
    LevelIsOnLevel(fs, 0);
    LevelIsOnLevel(fs, 1);
    LevelIsOnLevel(fs, 2);
    LevelIsOnLevel(fs, 3);
    forall p: nat | p < LEVELS
      ensures OfLevel(ByPriority(fs), p) == OfLevel(fs, p)
    {
      LevelOfJoin(OfLevel(fs, 0), OfLevel(fs, 1), OfLevel(fs, 2), OfLevel(fs, 3), p);
    }
  }

  lemma LevelOfJoin(a: seq<Frame>, b: seq<Frame>, c: seq<Frame>, d: seq<Frame>, p: nat)
    requires OnLevel(a, 0) && OnLevel(b, 1) && OnLevel(c, 2) && OnLevel(d, 3) && p < LEVELS
    ensures OfLevel(a + b + c + d, p) == if p == 0 then a else if p == 1 then b else if p == 2 then c else d
  {
    hide OfLevel;
    LevelConcat(a + b + c, d, p);
    LevelConcat(a + b, c, p);
    LevelConcat(a, b, p);
    LevelOfLevel(a, 0, p);
    LevelOfLevel(b, 1, p);
    LevelOfLevel(c, 2, p);
    LevelOfLevel(d, 3, p);
    OnlyPart(a, b, c, d, p);
  }

  lemma OnlyPart<T>(a: seq<T>, b: seq<T>, c: seq<T>, d: seq<T>, p: nat)
    requires p < LEVELS
    ensures (if p == 0 then a else []) + (if p == 1 then b else []) + (if p == 2 then c else [])
            + (if p == 3 then d else [])
         == if p == 0 then a else if p == 1 then b else if p == 2 then c else d
  {
  }

  // ----- Which commands go first -----

  /** ABORT, both pulses and FACTORY_RESET. */
  predicate Critical(f: Frame) {
    var id := f.payload[1];
    id == 0x02 || id == 0x03 || id == 0x04 || id == 0x24
  }

  /** Those, and ARM_FLIGHT, SET_MODE, SET_FCS_ACTIVE and SET_CONFIG_PARAM. */
  predicate Urgent(f: Frame) {
    var id := f.payload[1];
    Critical(f) || id == 0x01 || id == 0x05 || id == 0x06 || id == 0x22
  }

  /** Those, and REQUEST_TELEMETRY and SET_TELEM_INTERVAL; the rest are queries and unknown identifiers. */
  predicate Prompt(f: Frame) {
    var id := f.payload[1];
    Urgent(f) || id == 0x10 || id == 0x11
  }

  /** No command is executed ahead of one of a more pressing kind. */
  lemma CriticalFirst(fs: seq<Frame>, i: nat, j: nat)
    requires i < j < |ByPriority(fs)|
    ensures var r := ByPriority(fs);
            && (Critical(r[j]) ==> Critical(r[i])) && (Urgent(r[j]) ==> Urgent(r[i])) && (Prompt(r[j]) ==> Prompt(r[i]))
  {
    ByPriorityIsStableSort(fs);
    hide ByPriority;
  }

  /** No other order is sorted and stable. */
  lemma {:induction false} StableSortIsUnique(fs: seq<Frame>, s: seq<Frame>)
    requires Sorted(s)
    requires forall p: nat :: p < LEVELS ==> OfLevel(s, p) == OfLevel(fs, p)
    ensures s == ByPriority(fs)
  {
    SortedIsByPriority(s);
  }

  lemma {:induction false} SortedIsByPriority(s: seq<Frame>)
    requires Sorted(s)
    ensures s == ByPriority(s)
  {
    hide OfLevel, CommandPriority, ByPriority;
    if s == [] {
      NothingToOrder();
    } else {
      var x, rest := s[0], s[1..];
      SortedIsByPriority(rest);
      forall q: nat | q <= Level(x)
        ensures OfLevel([], q) == [] && (q < Level(x) ==> OfLevel(rest, q) == [])
      {
        LevelOfLevel([], q, q);
        NoneBelow(rest, Level(x), q);
      }
      NextByPriority([], x, rest);
      assert s == [] + [x] + rest && [] + rest == rest;
    }
  }

  lemma NothingToOrder()
    ensures ByPriority([]) == []
  {
  }

  lemma NoneBelow(s: seq<Frame>, p: nat, q: nat)
    requires forall i :: 0 <= i < |s| ==> p <= Level(s[i])
    ensures q < p ==> OfLevel(s, q) == []
  {
    hide OfLevel, CommandPriority;
    LevelMembers(s, q);
    assert OfLevel(s, q) != [] ==> OfLevel(s, q)[0] in OfLevel(s, q);
  }

  /** A command before which nothing as urgent waits is next. */
  lemma NextByPriority(a: seq<Frame>, x: Frame, b: seq<Frame>)
    requires forall q: nat :: q <= Level(x) ==> OfLevel(a, q) == [] && (q < Level(x) ==> OfLevel(b, q) == [])
    ensures ByPriority(a + [x] + b) == [x] + ByPriority(a + b)
  {
    hide OfLevel, CommandPriority;
    SplitLevel(a, x, b, 0);
    SplitLevel(a, x, b, 1);
    SplitLevel(a, x, b, 2);
    SplitLevel(a, x, b, 3);
  }

  lemma SplitLevel(a: seq<Frame>, x: Frame, b: seq<Frame>, q: nat)
    requires q <= Level(x) ==> OfLevel(a, q) == [] && (q < Level(x) ==> OfLevel(b, q) == [])
    ensures q < Level(x) ==> OfLevel(a + [x] + b, q) == [] && OfLevel(a + b, q) == []
    ensures q == Level(x) ==> OfLevel(a + [x] + b, q) == [x] + OfLevel(b, q) && OfLevel(a + b, q) == OfLevel(b, q)
    ensures q > Level(x) ==> OfLevel(a + [x] + b, q) == OfLevel(a + b, q)
  {
    hide OfLevel, CommandPriority;
    LevelConcat(a + [x], b, q);
    LevelConcat(a, [x], q);
    LevelConcat(a, b, q);
    LevelOfLevel([x], Level(x), q);
  }

  // ----- The slots of the queue -----

  datatype PendingCmd = PendingCmd(frame: Frame, priority: nat, active: bool)

  /** The queued commands in slot order. */
  function Waiting(slots: seq<PendingCmd>): (w: seq<Frame>)
    ensures |w| <= |slots|
  {
    if slots == [] then [] else Pending(slots[0]) + Waiting(slots[1..])
  }

  function Pending(slot: PendingCmd): (w: seq<Frame>)
    ensures |w| <= 1
  {
    if slot.active then [slot.frame] else []
  }

  predicate Tagged(slots: seq<PendingCmd>) {
    forall i :: 0 <= i < |slots| ==> slots[i].active ==> slots[i].priority == Level(slots[i].frame)
  }

  lemma {:induction false} WaitingConcat(a: seq<PendingCmd>, b: seq<PendingCmd>)
    ensures Waiting(a + b) == Waiting(a) + Waiting(b)
  {
    if a == [] {
      assert a + b == b;
    } else {
      hide Pending;
      assert (a + b)[1..] == a[1..] + b && (a + b)[0] == a[0];
      WaitingConcat(a[1..], b);
      assert Waiting(a + b) == Pending(a[0]) + (Waiting(a[1..]) + Waiting(b));
    }
  }

  lemma WaitingSplit(slots: seq<PendingCmd>, i: nat)
    requires i < |slots|
    ensures Waiting(slots) == Waiting(slots[..i]) + Waiting([slots[i]]) + Waiting(slots[i + 1..])
  {
    hide *;
    Rejoin(slots, i);
    WaitingConcat(slots[..i] + [slots[i]], slots[i + 1..]);
    WaitingConcat(slots[..i], [slots[i]]);
  }

  lemma Rejoin<T>(s: seq<T>, i: nat)
    requires i < |s|
    ensures s == s[..i] + [s[i]] + s[i + 1..]
  {
  }

  lemma {:induction false} IdleSlots(slots: seq<PendingCmd>)
    ensures Waiting(slots) == [] <==> forall i :: 0 <= i < |slots| ==> !slots[i].active
  {
    if slots != [] {
      IdleSlots(slots[1..]);
      assert slots[1..] == [] || slots[1..][0] == slots[1];
      if Waiting(slots) == [] {
        forall i | 0 <= i < |slots| ensures !slots[i].active {
          if i > 0 { assert slots[i] == slots[1..][i - 1]; }
        }
      }
    }
  }

  lemma {:induction false} BusySlots(slots: seq<PendingCmd>)
    requires forall i :: 0 <= i < |slots| ==> slots[i].active
    ensures |Waiting(slots)| == |slots|
  {
    if slots != [] {
      BusySlots(slots[1..]);
    }
  }

  /** The slot `drainCmdQueue` picks: the first of the lowest priority value. */
  predicate Best(slots: seq<PendingCmd>, i: nat) {
    && i < |slots| && slots[i].active
    && (forall k :: 0 <= k < |slots| && slots[k].active ==> slots[i].priority <= slots[k].priority)
    && (forall k :: 0 <= k < i && slots[k].active ==> slots[i].priority < slots[k].priority)
  }

  lemma {:induction false} NoneOfLevel(slots: seq<PendingCmd>, q: nat)
    requires Tagged(slots) && forall k :: 0 <= k < |slots| && slots[k].active ==> slots[k].priority != q
    ensures OfLevel(Waiting(slots), q) == []
  {
    if slots != [] {
      assert Tagged(slots[1..]);
      NoneOfLevel(slots[1..], q);
      var head := Pending(slots[0]);
      assert OfLevel(head, q) == [];
      LevelConcat(head, Waiting(slots[1..]), q);
    }
  }

  lemma WaitingWithout(slots: seq<PendingCmd>, i: nat)
    requires i < |slots| && slots[i].active
    ensures Waiting(slots) == Waiting(slots[..i]) + [slots[i].frame] + Waiting(slots[i + 1..])
    ensures Waiting(slots[i := slots[i].(active := false)]) == Waiting(slots[..i]) + Waiting(slots[i + 1..])
  {
    var rest := slots[i := slots[i].(active := false)];
    assert Waiting([slots[i]]) == [slots[i].frame] && Waiting([rest[i]]) == [];
    hide Waiting, Pending;
    WaitingSplit(slots, i);
    WaitingSplit(rest, i);
    AroundUpdate(slots, i, rest[i]);
    NothingBetween(Waiting(slots[..i]), Waiting(slots[i + 1..]));
  }

  lemma NothingBetween<T>(a: seq<T>, b: seq<T>)
    ensures a + [] + b == a + b
  {
  }

  lemma AroundUpdate<T>(s: seq<T>, i: nat, x: T)
    requires i < |s|
    ensures s[i := x][..i] == s[..i] && s[i := x][i + 1..] == s[i + 1..]
  {
  }

  /** Executing the picked slot and then the rest in order is executing all in order. */
  lemma PickIsNext(slots: seq<PendingCmd>, i: nat)
    requires Tagged(slots) && Best(slots, i)
    ensures ByPriority(Waiting(slots))
         == [slots[i].frame] + ByPriority(Waiting(slots[i := slots[i].(active := false)]))
    ensures |Waiting(slots)| == |Waiting(slots[i := slots[i].(active := false)])| + 1
  {
    hide OfLevel, CommandPriority, Waiting, ByPriority;
    WaitingWithout(slots, i);
    var x := slots[i].frame;
    var before, after := slots[..i], slots[i + 1..];
    forall q: nat | q <= Level(x)
      ensures OfLevel(Waiting(before), q) == [] && (q < Level(x) ==> OfLevel(Waiting(after), q) == [])
    {
      NoneOfLevel(before, q);
      if q < Level(x) {
        NoneOfLevel(after, q);
      }
    }
    NextByPriority(Waiting(before), x, Waiting(after));
  }
}
