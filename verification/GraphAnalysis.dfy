/**
 The static checks of src/ams/mission_script_engine_parser.cpp:3436-3668 on the transition graph:
 breadth-first reachability and the iterative depth and cycle search.
 */
module GraphAnalysis {
  import opened MissionProgram

  // ----- The graph the analysis sees -----

  /** The state behind successor slot `child`, or the sentinel: transitions, then fallback, then on_error. */
  function Successor(sd: StateDef, child: nat): nat {
    if child < |sd.transitions| then
      if sd.transitions[child].resolved then sd.transitions[child].targetIndex else AMS_MAX_STATES
    else if child == |sd.transitions| && sd.fallback.Some? && sd.fallback.value.resolved then
      sd.fallback.value.index
    else if child == |sd.transitions| + 1 && sd.onError.Some? && sd.onError.value.resolved then
      sd.onError.value.index
    else AMS_MAX_STATES
  }

  function SlotCount(sd: StateDef): nat {
    |sd.transitions| + 2
  }

  predicate Edge(p: Program, s: nat, t: nat) {
    && s < |p.states| && t < |p.states|
    && exists c: nat :: c < SlotCount(p.states[s]) && Successor(p.states[s], c) == t
  }

  /** A route through the graph that starts in state 0. */
  ghost predicate Walk(p: Program, w: seq<nat>) {
    && w != [] && w[0] == 0
    && (forall i :: 0 <= i < |w| ==> w[i] < |p.states|)
    && (forall i :: 0 <= i < |w| - 1 ==> Edge(p, w[i], w[i + 1]))
  }

  predicate Simple(w: seq<nat>) {
    forall i, j :: 0 <= i < j < |w| ==> w[i] != w[j]
  }

  ghost predicate ReachableState(p: Program, s: nat) {
    exists w: seq<nat> :: Walk(p, w) && w[|w| - 1] == s
  }

  /** Some route from state 0 comes back to a state it has already visited. */
  ghost predicate CycleReachable(p: Program) {
    exists w: seq<nat> :: Walk(p, w) && !Simple(w)
  }

  /** The states are numbered below the sentinel. */
  predicate Sized(p: Program) {
    1 <= |p.states| <= AMS_MAX_STATES
  }

  lemma WalkExtends(p: Program, w: seq<nat>, t: nat)
    requires Walk(p, w) && Edge(p, w[|w| - 1], t)
    ensures Walk(p, w + [t])
  {
    var v := w + [t];
    forall i | 0 <= i < |v| - 1
      ensures Edge(p, v[i], v[i + 1])
    {
    }
  }

  lemma WalkPrefix(p: Program, w: seq<nat>, n: nat)
    requires Walk(p, w) && 0 < n <= |w|
    ensures Walk(p, w[..n])
  {
    forall i | 0 <= i < n - 1
      ensures Edge(p, w[..n][i], w[..n][i + 1])
    {
      assert Edge(p, w[i], w[i + 1]);
    }
  }

  // ----- Bit masks -----

  type Mask = bv16

  function Bit(s: nat): Mask
    requires s < 16
  {
    (1 as bv16) << s
  }

  function And(m: Mask, b: Mask): Mask {
    m & b
  }

  function Join(m: Mask, b: Mask): Mask {
    m | b
  }

  predicate Meet(m: Mask, b: Mask) {
    And(m, b) != 0
  }

  predicate Has(m: Mask, s: nat)
    requires s < 16
  {
    Meet(m, Bit(s))
  }

  function With(m: Mask, s: nat): Mask
    requires s < 16
  {
    Join(m, Bit(s))
  }

  lemma BitsApart(s: nat, t: nat)
    requires s < 16 && t < 16
    ensures Meet(Bit(s), Bit(t)) <==> s == t
  {
  }

  lemma MeetJoin(m: Mask, a: Mask, b: Mask)
    ensures Meet(Join(m, a), b) <==> Meet(m, b) || Meet(a, b)
  {
    hide And, Join;
    AndJoin(m, a, b);
    JoinZero(And(m, b), And(a, b));
  }

  lemma AndJoin(m: Mask, a: Mask, b: Mask)
    ensures And(Join(m, a), b) == Join(And(m, b), And(a, b))
  {
  }

  lemma JoinZero(a: Mask, b: Mask)
    ensures Join(a, b) != 0 <==> a != 0 || b != 0
  {
  }

  lemma MeetZero(b: Mask)
    ensures !Meet(0, b)
  {
  }

  lemma HasWith(m: Mask, s: nat, t: nat)
    requires s < 16 && t < 16
    ensures Has(With(m, s), t) <==> s == t || Has(m, t)
  {
    hide Bit, Meet, Join;
    BitsApart(s, t);
    MeetJoin(m, Bit(s), Bit(t));
  }

  lemma HasZero(t: nat)
    requires t < 16
    ensures !Has(0, t)
  {
    hide Bit, Meet;
    MeetZero(Bit(t));
  }

  // ----- Pigeonhole -----

  function Below(n: nat): (s: set<nat>)
    ensures forall x: nat :: x in s <==> x < n
    ensures |s| == n
  {
    if n == 0 then {} else Below(n - 1) + {n - 1}
  }

  /** A list without repetitions of numbers below `n` has at most `n` entries. */
  lemma DistinctBound(w: seq<nat>, n: nat)
    requires Simple(w) && forall i :: 0 <= i < |w| ==> w[i] < n
    ensures |w| <= n
  {
    DistinctInSet(w, Below(n));
  }

  lemma {:induction false} DistinctInSet(w: seq<nat>, a: set<nat>)
    requires Simple(w) && forall i :: 0 <= i < |w| ==> w[i] in a
    ensures |w| <= |a|
    decreases |w|
  {
    if w != [] {
      DistinctInSet(w[1..], a - {w[0]});
      assert |a - {w[0]}| == |a| - 1;
    }
  }

  // ----- Breadth-first reachability -----

  /** `w` holds every successor of `s` in slots below `c`. */
  predicate SlotsIn(p: Program, s: nat, c: nat, w: seq<nat>)
    requires s < |p.states|
  {
    forall k: nat :: k < c && Successor(p.states[s], k) < |p.states| ==> Successor(p.states[s], k) in w
  }

  ghost predicate Queue(p: Program, w: seq<nat>, reachable: Mask) {
    && w != [] && w[0] == 0 && Simple(w)
    && (forall i :: 0 <= i < |w| ==> w[i] < |p.states| && ReachableState(p, w[i]))
    && (forall t: nat :: t < 16 ==> (Has(reachable, t) <==> t in w))
  }

  /** The `visit` helper: a state not seen before joins the mask and the queue. */
  method Visit(p: Program, s: nat, t: nat, queue: array<nat>, tail: nat, reachable: Mask)
      returns (tail': nat, reachable': Mask)
    requires Sized(p) && queue.Length == AMS_MAX_STATES && tail <= queue.Length
    requires Queue(p, queue[..tail], reachable) && s < |p.states| && ReachableState(p, s)
    requires t < |p.states| ==> Edge(p, s, t)
    modifies queue
    ensures tail <= tail' <= queue.Length && queue[..tail] == old(queue[..tail])
    ensures Queue(p, queue[..tail'], reachable')
    ensures t < |p.states| ==> t in queue[..tail']
  {
    hide Has, With;
    tail', reachable' := tail, reachable;
    if t < |p.states| && !Has(reachable, t) {
      ghost var w := queue[..tail];
      EdgeReaches(p, s, t);
      DistinctBound(w + [t], |p.states|);
      reachable' := With(reachable, t);
      queue[tail] := t;
      tail' := tail + 1;
      assert queue[..tail'] == w + [t];
      forall u: nat | u < 16
        ensures Has(reachable', u) <==> u in w + [t]
      {
        HasWith(reachable, t, u);
      }
    }
  }

  lemma EdgeReaches(p: Program, s: nat, t: nat)
    requires ReachableState(p, s) && Edge(p, s, t)
    ensures ReachableState(p, t)
  {
    var w: seq<nat> :| Walk(p, w) && w[|w| - 1] == s;
    WalkExtends(p, w, t);
    assert (w + [t])[|w + [t]| - 1] == t;
  }

  lemma SlotEdge(p: Program, s: nat, c: nat)
    requires s < |p.states| && c < SlotCount(p.states[s])
    ensures Successor(p.states[s], c) < |p.states| ==> Edge(p, s, Successor(p.states[s], c))
  {
  }

  /** The body of the search loop: all successors of `s` are visited. */
  method Expand(p: Program, s: nat, queue: array<nat>, tail: nat, reachable: Mask)
      returns (tail': nat, reachable': Mask)
    requires Sized(p) && queue.Length == AMS_MAX_STATES && tail <= queue.Length
    requires Queue(p, queue[..tail], reachable) && s < |p.states| && ReachableState(p, s)
    modifies queue
    ensures tail <= tail' <= queue.Length && queue[..tail] == old(queue[..tail])
    ensures Queue(p, queue[..tail'], reachable')
    ensures SlotsIn(p, s, SlotCount(p.states[s]), queue[..tail'])
  {
    hide Has, With, Queue, ReachableState;
    var sd := p.states[s];
    tail', reachable' := tail, reachable;
    ghost var before := queue[..tail];
    ghost var w := before;
    var ti := 0;
    while ti < |sd.transitions|
      invariant ti <= |sd.transitions|
      invariant tail <= tail' <= queue.Length && queue[..tail] == before
      invariant Queue(p, queue[..tail'], reachable')
      invariant SlotsIn(p, s, ti, queue[..tail'])
    {
      SlotEdge(p, s, ti);
      w := queue[..tail'];
      if sd.transitions[ti].resolved {
        tail', reachable' := Visit(p, s, sd.transitions[ti].targetIndex, queue, tail', reachable');
      }
      assert queue[..tail] == queue[..|w|][..tail] == w[..tail];
      StillIn(p, s, ti, w, queue[..tail']);
      ti := ti + 1;
    }
    SlotEdge(p, s, ti);
    w := queue[..tail'];
    if sd.fallback.Some? && sd.fallback.value.resolved {
      tail', reachable' := Visit(p, s, sd.fallback.value.index, queue, tail', reachable');
    }
    assert queue[..tail] == queue[..|w|][..tail] == w[..tail];
    StillIn(p, s, ti, w, queue[..tail']);
    SlotEdge(p, s, ti + 1);
    w := queue[..tail'];
    if sd.onError.Some? && sd.onError.value.resolved {
      tail', reachable' := Visit(p, s, sd.onError.value.index, queue, tail', reachable');
    }
    assert queue[..tail] == queue[..|w|][..tail] == w[..tail];
    StillIn(p, s, ti + 1, w, queue[..tail']);
  }

  /** Visiting slot `c` adds it to the slots that are in. */
  lemma StillIn(p: Program, s: nat, c: nat, w: seq<nat>, v: seq<nat>)
    requires s < |p.states| && SlotsIn(p, s, c, w) && |w| <= |v| && v[..|w|] == w
    requires Successor(p.states[s], c) < |p.states| ==> Successor(p.states[s], c) in v
    ensures SlotsIn(p, s, c + 1, v)
  {
    assert forall x :: x in w ==> x in v;
  }

  method ComputeBfsReachability(p: Program) returns (reachable: Mask)
    requires Sized(p)
    ensures forall t: nat :: t < 16 ==> (Has(reachable, t) <==> t < |p.states| && ReachableState(p, t))
  {
    hide Has, With;
    var queue := new nat[AMS_MAX_STATES](_ => 0);
    var head, tail := 0, 0;
    queue[tail] := 0;
    tail := tail + 1;
    reachable := With(0, 0);
    assert queue[..1] == [0];
    StartReachable(p, reachable);
    while head < tail
      invariant head <= tail <= queue.Length
      invariant Queue(p, queue[..tail], reachable)
      invariant Expanded(p, queue[..tail], head)
      decreases AMS_MAX_STATES - head
    {
      var s := queue[head];
      ghost var w := queue[..tail];
      assert s == w[head];
      tail, reachable := Expand(p, s, queue, tail, reachable);
      ExpandedGrows(p, w, queue[..tail], head);
      head := head + 1;
    }
    ClosedHoldsAll(p, queue[..tail]);
  }

  /** The first `head` entries of the queue have all their successors in it. */
  predicate Expanded(p: Program, w: seq<nat>, head: nat)
    requires head <= |w| && forall i :: 0 <= i < |w| ==> w[i] < |p.states|
  {
    forall i :: 0 <= i < head ==> SlotsIn(p, w[i], SlotCount(p.states[w[i]]), w)
  }

  lemma ExpandedGrows(p: Program, w: seq<nat>, v: seq<nat>, head: nat)
    requires head < |w| <= |v| && v[..|w|] == w
    requires forall i :: 0 <= i < |v| ==> v[i] < |p.states|
    requires forall i :: 0 <= i < |w| ==> w[i] < |p.states|
    requires Expanded(p, w, head) && SlotsIn(p, w[head], SlotCount(p.states[w[head]]), v)
    ensures Expanded(p, v, head + 1)
  {
    assert forall x :: x in w ==> x in v;
    forall i | 0 <= i < head + 1
      ensures SlotsIn(p, v[i], SlotCount(p.states[v[i]]), v)
    {
      assert v[i] == w[i];
    }
  }

  lemma StartReachable(p: Program, m: Mask)
    requires Sized(p) && m == With(0, 0)
    ensures Queue(p, [0], m)
  {
    hide Has, With;
    assert Walk(p, [0]) && [0][|[0]| - 1] == 0;
    forall t: nat | t < 16
      ensures Has(m, t) <==> t in [0]
    {
      HasWith(0, 0, t);
      HasZero(t);
    }
  }

  /** A set of states that holds state 0 and all successors of its members holds every reachable one. */
  lemma ClosedHoldsAll(p: Program, w: seq<nat>)
    requires 0 in w
    requires forall s :: s in w ==> s < |p.states| && SlotsIn(p, s, SlotCount(p.states[s]), w)
    ensures forall t: nat :: ReachableState(p, t) ==> t in w
  {
    forall t: nat | ReachableState(p, t)
      ensures t in w
    {
      var v: seq<nat> :| Walk(p, v) && v[|v| - 1] == t;
      WalkStaysIn(p, w, v);
    }
  }

  lemma {:induction false} WalkStaysIn(p: Program, w: seq<nat>, v: seq<nat>)
    requires 0 in w && Walk(p, v)
    requires forall s :: s in w ==> s < |p.states| && SlotsIn(p, s, SlotCount(p.states[s]), w)
    ensures v[|v| - 1] in w
    decreases |v|
  {
    if |v| > 1 {
      var n := |v| - 1;
      WalkPrefix(p, v, n);
      WalkStaysIn(p, w, v[..n]);
      assert Edge(p, v[n - 1], v[n - 1 + 1]);
    }
  }
}
