/**
 The iterative depth and cycle search of src/ams/mission_script_engine_parser.cpp:3480-3558.

 `Step` is one round of its outer loop. A recursive search over simple paths (`Search`) gives the
 stack its meaning: what the frames still have to explore, joined with what was found, is constant.
 */
module DepthSearch {
  import opened MissionProgram
  import opened GraphAnalysis

  // ----- The machine -----

  datatype DfsFrame = DfsFrame(state: nat, depth: nat, mask: Mask, child: nat)

  datatype Dfs = Dfs(stack: seq<DfsFrame>, maxDepth: nat, hasCycle: bool)

  const STACK_SIZE := 11

  function Start(): Dfs {
    Dfs([DfsFrame(0, 0, With(0, 0), 0)], 0, false)
  }

  /** How the inner loop over the successor slots of a frame ends. */
  datatype ScanEnd = Exhausted | Cycle(child: nat) | Push(child: nat, suc: nat)

  predicate ScanOk(p: Program, f: DfsFrame) {
    f.state < |p.states| <= AMS_MAX_STATES
  }

  function Scan(p: Program, f: DfsFrame, child: nat, room: bool): (r: ScanEnd)
    requires ScanOk(p, f)
    decreases SlotCount(p.states[f.state]) - child
  {
    if child >= SlotCount(p.states[f.state]) then Exhausted
    else
      var suc := Successor(p.states[f.state], child);
      if suc < |p.states| && Has(f.mask, suc) then Cycle(child + 1)
      else if suc < |p.states| && room then Push(child + 1, suc)
      else Scan(p, f, child + 1, room)
  }

  function Pushed(f: DfsFrame, suc: nat): DfsFrame
    requires suc < 16
  {
    DfsFrame(suc, f.depth + 1, With(f.mask, suc), 0)
  }

  predicate StackOk(p: Program, d: Dfs) {
    forall i :: 0 <= i < |d.stack| ==> ScanOk(p, d.stack[i])
  }

  /** One round of the outer loop, as the code runs it: it goes on after a cycle was found. */
  function Step(p: Program, d: Dfs): Dfs
    requires StackOk(p, d) && d.stack != []
  {
    var n := |d.stack| - 1;
    var f := d.stack[n];
    var deepest := if f.depth > d.maxDepth then f.depth else d.maxDepth;
    if d.hasCycle then Dfs(d.stack, deepest, true)
    else
      match Scan(p, f, f.child, |d.stack| < STACK_SIZE)
      case Exhausted => Dfs(d.stack[..n], deepest, false)
      case Cycle(c) => Dfs(d.stack[n := f.(child := c)], deepest, true)
      case Push(c, suc) =>
        ScanPushes(p, f, f.child, |d.stack| < STACK_SIZE);
        Dfs(d.stack[n := f.(child := c)] + [Pushed(f, suc)], deepest, false)
  }

  lemma {:induction false} ScanPushes(p: Program, f: DfsFrame, child: nat, room: bool)
    requires ScanOk(p, f)
    ensures var r := Scan(p, f, child, room); r.Push? ==> room && r.suc < |p.states|
    decreases SlotCount(p.states[f.state]) - child
  {
    hide Has, Successor;
    if child < SlotCount(p.states[f.state]) {
      ScanPushes(p, f, child + 1, room);
    }
  }

  // ----- The meaning of a frame -----

  datatype Found = Found(depth: nat, cycle: bool)

  function Merge(a: Found, b: Found): Found {
    Found(if a.depth > b.depth then a.depth else b.depth, a.cycle || b.cycle)
  }

  predicate PathOk(p: Program, path: seq<nat>) {
    && path != [] && Simple(path)
    && forall i :: 0 <= i < |path| ==> path[i] < |p.states|
  }

  lemma PathShort(p: Program, path: seq<nat>)
    requires PathOk(p, path)
    ensures |path| <= |p.states|
  {
    DistinctBound(path, |p.states|);
  }

  /** Everything below a simple path: its successor slots from `child` on, each explored in full. */
  function Search(p: Program, path: seq<nat>, child: nat): (r: Found)
    requires PathOk(p, path)
    ensures r.depth >= |path| - 1
    decreases |p.states| + 1 - |path|, SlotCount(p.states[path[|path| - 1]]) - child
  {
    PathShort(p, path);
    var sd := p.states[path[|path| - 1]];
    if child >= SlotCount(sd) then Found(|path| - 1, false)
    else
      var suc := Successor(sd, child);
      var rest := Search(p, path, child + 1);
      if suc >= |p.states| then rest
      else if suc in path then Found(rest.depth, true)
      else Merge(Search(p, path + [suc], 0), rest)
  }

  // ----- The search answers the question about routes -----

  /** `w` goes on from `path` and takes one of its slots from `child` on. */
  ghost predicate Continues(p: Program, path: seq<nat>, child: nat, w: seq<nat>) {
    && PathOk(p, path) && Walk(p, w) && |w| > |path| && w[..|path|] == path
    && SlotLeads(p.states[path[|path| - 1]], child, w[|path|])
  }

  predicate SlotLeads(sd: StateDef, child: nat, t: nat) {
    exists c: nat :: child <= c < SlotCount(sd) && Successor(sd, c) == t
  }

  /** Without a cycle below the path, every route from it is simple and no longer than the depth. */
  lemma {:induction false} SearchCovers(p: Program, path: seq<nat>, child: nat, w: seq<nat>)
    requires Continues(p, path, child, w) && !Search(p, path, child).cycle
    ensures Simple(w) && |w| - 1 <= Search(p, path, child).depth
    decreases |w| - |path|, SlotCount(p.states[path[|path| - 1]]) - child
  {
    hide Successor, Walk;
    PathShort(p, path);
    var s := path[|path| - 1];
    var suc := Successor(p.states[s], child);
    if suc == w[|path|] {
      WalkInRange(p, w);
      var longer := path + [suc];
      assert PathOk(p, longer);
      assert w[..|longer|] == longer;
      if |w| == |longer| {
        assert w == longer;
      } else {
        NextSlot(p, longer, w);
        SearchCovers(p, longer, 0, w);
      }
    } else {
      SearchCovers(p, path, child + 1, w);
    }
  }

  lemma WalkInRange(p: Program, w: seq<nat>)
    requires Walk(p, w)
    ensures forall i :: 0 <= i < |w| ==> w[i] < |p.states|
  {
  }

  lemma NextSlot(p: Program, path: seq<nat>, w: seq<nat>)
    requires PathOk(p, path) && Walk(p, w) && |w| > |path| && w[..|path|] == path
    ensures Continues(p, path, 0, w)
  {
    assert Edge(p, w[|path| - 1], w[|path| - 1 + 1]);
    assert path[|path| - 1] == w[|path| - 1];
  }

  /** A cycle the search reports is one; the depth it reports is reached. */
  lemma {:induction false} SearchIsReal(p: Program, path: seq<nat>, child: nat)
    requires PathOk(p, path) && Walk(p, path)
    ensures Search(p, path, child).cycle ==> CycleReachable(p)
    ensures exists w: seq<nat> :: Walk(p, w) && |w| - 1 == Search(p, path, child).depth
    decreases |p.states| + 1 - |path|, SlotCount(p.states[path[|path| - 1]]) - child
  {
    hide Successor, Walk;
    PathShort(p, path);
    var s := path[|path| - 1];
    if child < SlotCount(p.states[s]) {
      SearchIsReal(p, path, child + 1);
      var suc := Successor(p.states[s], child);
      if suc < |p.states| {
        SlotEdge(p, s, child);
        WalkExtends(p, path, suc);
        var longer := path + [suc];
        if suc in path {
          var i :| 0 <= i < |path| && path[i] == suc;
          assert longer[i] == longer[|path|];
          assert !Simple(longer);
        } else {
          assert PathOk(p, longer);
          SearchIsReal(p, longer, 0);
        }
      }
    } else {
      assert |path| - 1 == Search(p, path, child).depth;
    }
  }

  function Whole(p: Program): Found
    requires Sized(p)
  {
    Search(p, [0], 0)
  }

  /** The search decides whether a cycle can be reached, and otherwise finds the longest route. */
  lemma WholeIsExact(p: Program)
    requires Sized(p)
    ensures Whole(p).cycle <==> CycleReachable(p)
    ensures !Whole(p).cycle ==> forall w: seq<nat> :: Walk(p, w) ==> |w| - 1 <= Whole(p).depth
    ensures exists w: seq<nat> :: Walk(p, w) && |w| - 1 == Whole(p).depth
  {
    assert Walk(p, [0]);
    SearchIsReal(p, [0], 0);
    if !Whole(p).cycle {
      forall w: seq<nat> | Walk(p, w)
        ensures Simple(w) && |w| - 1 <= Whole(p).depth
      {
        if |w| > 1 {
          assert w[..1] == [0];
          NextSlot(p, [0], w);
          SearchCovers(p, [0], 0, w);
        }
      }
    }
  }

  // ----- The invariant of the outer loop -----

  function PathOf(stack: seq<DfsFrame>): (path: seq<nat>)
    ensures |path| == |stack|
  {
    seq(|stack|, i requires 0 <= i < |stack| => stack[i].state)
  }

  ghost predicate FrameOk(p: Program, path: seq<nat>, f: DfsFrame) {
    && path != [] && f.state == path[|path| - 1] < |p.states|
    && f.depth == |path| - 1
    && (forall t: nat :: t < 16 ==> (Has(f.mask, t) <==> t in path))
  }

  ghost predicate FramesOk(p: Program, stack: seq<DfsFrame>) {
    forall i :: 0 <= i < |stack| ==> FrameOk(p, PathOf(stack)[..i + 1], stack[i])
  }

  ghost predicate Shape(p: Program, stack: seq<DfsFrame>) {
    && FramesOk(p, stack)
    && (stack != [] ==> PathOk(p, PathOf(stack)) && Walk(p, PathOf(stack)))
  }

  /** What the frames still have to explore. */
  ghost function Pending(p: Program, stack: seq<DfsFrame>): Found
    requires Shape(p, stack)
    decreases |stack|
  {
    if stack == [] then Found(0, false)
    else
      ShapePop(p, stack);
      Merge(Pending(p, stack[..|stack| - 1]), Search(p, PathOf(stack), stack[|stack| - 1].child))
  }

  lemma ShapePop(p: Program, stack: seq<DfsFrame>)
    requires Shape(p, stack) && stack != []
    ensures Shape(p, stack[..|stack| - 1])
  {
    hide Walk;
    var n := |stack| - 1;
    var path, pop := PathOf(stack), PathOf(stack[..n]);
    assert pop == path[..n];
    forall i | 0 <= i < n
      ensures FrameOk(p, pop[..i + 1], stack[i])
    {
      assert pop[..i + 1] == path[..i + 1];
    }
    if n > 0 {
      WalkPrefix(p, path, n);
    }
  }

  ghost predicate Inv(p: Program, d: Dfs) {
    && Sized(p) && Shape(p, d.stack)
    && (d.hasCycle ==> d.stack != [] && CycleReachable(p))
    && (!d.hasCycle ==> Merge(Found(d.maxDepth, false), Pending(p, d.stack)) == Whole(p))
  }

  lemma StartInv(p: Program)
    requires Sized(p)
    ensures Inv(p, Start())
  {
    hide Has, With;
    var stack := Start().stack;
    assert PathOf(stack) == [0] && PathOf(stack)[..1] == [0] && stack[..0] == [];
    assert Walk(p, [0]);
    forall t: nat | t < 16
      ensures Has(With(0, 0), t) <==> t in [0]
    {
      HasWith(0, 0, t);
      HasZero(t);
    }
    assert Pending(p, stack[..0]) == Found(0, false);
  }

  /** What the inner loop finds is what the search defines. */
  lemma {:induction false} ScanMeans(p: Program, path: seq<nat>, f: DfsFrame, child: nat)
    requires PathOk(p, path) && FrameOk(p, path, f) && Sized(p)
    ensures var r := Scan(p, f, child, true);
            match r
            case Exhausted => Search(p, path, child) == Found(|path| - 1, false)
            case Cycle(c) => c <= SlotCount(p.states[f.state]) && SlotTo(p, f.state, path)
            case Push(c, suc) =>
              && c <= SlotCount(p.states[f.state]) && child < c && suc < |p.states| && suc !in path
              && Edge(p, f.state, suc) && PathOk(p, path + [suc])
              && Search(p, path, child) == Merge(Search(p, path + [suc], 0), Search(p, path, c))
    decreases SlotCount(p.states[f.state]) - child
  {
    hide Successor, Has;
    PathShort(p, path);
    if child < SlotCount(p.states[f.state]) {
      var suc := Successor(p.states[f.state], child);
      SlotEdge(p, f.state, child);
      if suc < |p.states| {
        if suc !in path {
          assert PathOk(p, path + [suc]);
        }
      } else {
        ScanMeans(p, path, f, child + 1);
      }
    }
  }

  /** A successor slot leads back onto the path. */
  ghost predicate SlotTo(p: Program, s: nat, path: seq<nat>) {
    exists t: nat :: t in path && Edge(p, s, t)
  }

  lemma BackEdgeIsCycle(p: Program, path: seq<nat>)
    requires PathOk(p, path) && Walk(p, path) && SlotTo(p, path[|path| - 1], path)
    ensures CycleReachable(p)
  {
    hide Walk;
    var t: nat :| t in path && Edge(p, path[|path| - 1], t);
    WalkExtends(p, path, t);
    var i :| 0 <= i < |path| && path[i] == t;
    var longer := path + [t];
    assert longer[i] == longer[|path|];
  }

  lemma ShapeReplace(p: Program, stack: seq<DfsFrame>, c: nat)
    requires Shape(p, stack) && stack != []
    ensures Shape(p, stack[|stack| - 1 := stack[|stack| - 1].(child := c)])
    ensures PathOf(stack[|stack| - 1 := stack[|stack| - 1].(child := c)]) == PathOf(stack)
  {
    hide Walk, Has;
    var v := stack[|stack| - 1 := stack[|stack| - 1].(child := c)];
    assert PathOf(v) == PathOf(stack);
    forall i | 0 <= i < |v|
      ensures FrameOk(p, PathOf(v)[..i + 1], v[i])
    {
      assert FrameOk(p, PathOf(stack)[..i + 1], stack[i]);
    }
  }

  lemma ShapePush(p: Program, stack: seq<DfsFrame>, suc: nat)
    requires Sized(p) && Shape(p, stack) && stack != []
    requires suc !in PathOf(stack) && Edge(p, stack[|stack| - 1].state, suc)
    ensures Shape(p, stack + [Pushed(stack[|stack| - 1], suc)])
    ensures PathOf(stack + [Pushed(stack[|stack| - 1], suc)]) == PathOf(stack) + [suc]
  {
    hide Walk, Has, With;
    var f := stack[|stack| - 1];
    var v := stack + [Pushed(f, suc)];
    var path := PathOf(stack);
    assert PathOf(v) == path + [suc];
    assert path[..|stack|] == path && (path + [suc])[..|v|] == path + [suc];
    assert FrameOk(p, path[..|stack| - 1 + 1], f);
    WalkExtends(p, path, suc);
    forall i | 0 <= i < |v|
      ensures FrameOk(p, PathOf(v)[..i + 1], v[i])
    {
      if i < |stack| {
        assert PathOf(v)[..i + 1] == path[..i + 1];
        assert FrameOk(p, path[..i + 1], stack[i]);
      } else {
        forall t: nat | t < 16
          ensures Has(With(f.mask, suc), t) <==> t in path + [suc]
        {
          HasWith(f.mask, suc, t);
        }
      }
    }
  }

  /** The frames never outgrow the states, so the guard against a full stack drops nothing. */
  lemma StackNeverFull(p: Program, d: Dfs)
    requires Inv(p, d)
    ensures |d.stack| <= |p.states| < STACK_SIZE && StackOk(p, d)
  {
    hide Walk, Has;
    if d.stack != [] {
      PathShort(p, PathOf(d.stack));
    }
    forall i | 0 <= i < |d.stack|
      ensures ScanOk(p, d.stack[i])
    {
      assert FrameOk(p, PathOf(d.stack)[..i + 1], d.stack[i]);
    }
  }

  /** Each frame weighs its open slots, each level eight times the one above it. */
  function Pow8(e: nat): nat {
    if e == 0 then 1 else 8 * Pow8(e - 1)
  }

  function Weight(p: Program, stack: seq<DfsFrame>): nat
    requires |stack| <= STACK_SIZE && forall i :: 0 <= i < |stack| ==> ScanOk(p, stack[i])
  {
    if stack == [] then 0
    else
      var f := stack[|stack| - 1];
      assert ScanOk(p, f);
      var open := SlotCount(p.states[f.state]) - f.child;
      Weight(p, stack[..|stack| - 1]) + ((if open > 0 then open else 0) + 1) * Pow8(STACK_SIZE - |stack|)
  }

  /** The per-state bound on transitions that the parser enforces. */
  predicate Bounded(p: Program) {
    Sized(p) && forall sd :: sd in p.states ==> |sd.transitions| <= AMS_MAX_TRANSITIONS
  }

  lemma PowPositive(e: nat)
    ensures Pow8(e) > 0
  {
  }

  /** Replacing the top frame by one with fewer open slots, and then pushing, lowers the weight. */
  lemma WeightDrops(p: Program, stack: seq<DfsFrame>, c: nat, g: DfsFrame)
    requires 0 < |stack| < STACK_SIZE && Bounded(p)
    requires forall i :: 0 <= i < |stack| ==> ScanOk(p, stack[i])
    requires ScanOk(p, stack[|stack| - 1])
    requires stack[|stack| - 1].child < c <= SlotCount(p.states[stack[|stack| - 1].state])
    requires ScanOk(p, g) && g.child == 0
    ensures Weight(p, stack[|stack| - 1 := stack[|stack| - 1].(child := c)] + [g]) < Weight(p, stack)
    ensures Weight(p, stack[|stack| - 1 := stack[|stack| - 1].(child := c)]) < Weight(p, stack)
  {
    hide Pow8;
    var n := |stack| - 1;
    var f := stack[n];
    var v := stack[n := f.(child := c)];
    var u := v + [g];
    var e := STACK_SIZE - |stack|;
    assert v[..n] == stack[..n] && u[..|stack|] == v;
    PowStep(e);
    assert p.states[g.state] in p.states && p.states[f.state] in p.states;
    var slots := SlotCount(p.states[f.state]);
    var before, after, added := slots - f.child + 1, slots - c + 1, SlotCount(p.states[g.state]) + 1;
    assert Weight(p, stack) == Weight(p, stack[..n]) + before * Pow8(e);
    assert Weight(p, v) == Weight(p, stack[..n]) + after * Pow8(e);
    assert Weight(p, u) == Weight(p, v) + added * Pow8(e - 1);
    Lighter(before, after, added, Pow8(e), Pow8(e - 1));
  }

  lemma PowStep(e: nat)
    requires e > 0
    ensures Pow8(e) == 8 * Pow8(e - 1) && Pow8(e - 1) > 0
  {
    PowPositive(e - 1);
  }

  lemma Lighter(before: nat, after: nat, added: nat, m: nat, k: nat)
    requires after < before && added <= 7 && m == 8 * k && k > 0
    ensures after * m + added * k < before * m
    ensures after * m < before * m
  {
    MulMonotone(after + 1, before, m);
    MulMonotone(added, 7, k);
    assert (after + 1) * m == after * m + m;
  }

  lemma MulMonotone(a: nat, b: nat, m: nat)
    requires a <= b
    ensures a * m <= b * m
  {
  }

  /** One round keeps the invariant. */
  lemma StepKeeps(p: Program, d: Dfs)
    requires Inv(p, d) && d.stack != [] && StackOk(p, d)
    ensures Inv(p, Step(p, d))
    ensures d.hasCycle ==> Step(p, d).hasCycle
  {
    hide Walk, Has, With, Scan, Search, FrameOk, CycleReachable, Pending, Shape, Merge;
    StackNeverFull(p, d);
    if d.hasCycle { return; }
    var n := |d.stack| - 1;
    var f, path := d.stack[n], PathOf(d.stack);
    TopOfShape(p, d.stack);
    ScanMeans(p, path, f, f.child);
    PendingTop(p, d.stack);
    var deepest := if f.depth > d.maxDepth then f.depth else d.maxDepth;
    var found := Search(p, path, f.child);
    SearchDepth(p, path, f.child);
    MergeDeepest(d.maxDepth, f.depth, Pending(p, d.stack[..n]), found);
    match Scan(p, f, f.child, true)
    case Exhausted =>
    case Cycle(c) =>
      ShapeReplace(p, d.stack, c);
      BackEdgeIsCycle(p, path);
    case Push(c, suc) =>
      var v := d.stack[n := f.(child := c)];
      ShapeReplace(p, d.stack, c);
      PushPending(p, d.stack, c, suc);
      MergeAssociates(Pending(p, d.stack[..n]), Search(p, path, c), Search(p, path + [suc], 0));
      MergeCommutes(Search(p, path, c), Search(p, path + [suc], 0));
  }

  lemma MergeAssociates(a: Found, b: Found, c: Found)
    ensures Merge(Merge(a, b), c) == Merge(a, Merge(b, c))
  {
  }

  lemma MergeCommutes(a: Found, b: Found)
    ensures Merge(a, b) == Merge(b, a)
  {
  }

  /** Noting the depth of the top frame changes nothing, and makes its own entry superfluous. */
  lemma MergeDeepest(maxDepth: nat, depth: nat, below: Found, found: Found)
    requires found.depth >= depth
    ensures var deepest := if depth > maxDepth then depth else maxDepth;
            && Merge(Found(deepest, false), Merge(below, found)) == Merge(Found(maxDepth, false), Merge(below, found))
            && (found == Found(depth, false) ==>
                Merge(Found(deepest, false), below) == Merge(Found(maxDepth, false), Merge(below, found)))
  {
  }

  lemma TopOfShape(p: Program, stack: seq<DfsFrame>)
    requires Shape(p, stack) && stack != []
    ensures FrameOk(p, PathOf(stack), stack[|stack| - 1])
    ensures stack[|stack| - 1].depth == |stack| - 1
    ensures PathOk(p, PathOf(stack)) && Walk(p, PathOf(stack))
    ensures stack[|stack| - 1].state == PathOf(stack)[|stack| - 1]
  {
    hide Walk, Has;
    var n := |stack| - 1;
    assert PathOf(stack)[..n + 1] == PathOf(stack);
    assert FrameOk(p, PathOf(stack)[..n + 1], stack[n]);
  }

  lemma PendingTop(p: Program, stack: seq<DfsFrame>)
    requires Shape(p, stack) && stack != []
    ensures Shape(p, stack[..|stack| - 1]) && PathOk(p, PathOf(stack))
    ensures Pending(p, stack)
         == Merge(Pending(p, stack[..|stack| - 1]), Search(p, PathOf(stack), stack[|stack| - 1].child))
  {
    hide Walk, FrameOk, Search, Merge;
    ShapePop(p, stack);
  }

  lemma PushPending(p: Program, stack: seq<DfsFrame>, c: nat, suc: nat)
    requires Sized(p) && Shape(p, stack) && stack != [] && suc < |p.states|
    requires suc !in PathOf(stack) && Edge(p, stack[|stack| - 1].state, suc)
    requires PathOk(p, PathOf(stack)) && PathOk(p, PathOf(stack) + [suc])
    ensures var n := |stack| - 1;
            var u := stack[n := stack[n].(child := c)] + [Pushed(stack[n], suc)];
            && Shape(p, u) && Shape(p, stack[..n])
            && Pending(p, u) == Merge(Merge(Pending(p, stack[..n]), Search(p, PathOf(stack), c)),
                                      Search(p, PathOf(stack) + [suc], 0))
  {
    hide Walk, Has, With, FrameOk, Search, Merge, Pending, Shape;
    var n := |stack| - 1;
    var v := stack[n := stack[n].(child := c)];
    var u := v + [Pushed(stack[n], suc)];
    ShapeReplace(p, stack, c);
    assert Pushed(v[n], suc) == Pushed(stack[n], suc);
    ShapePush(p, v, suc);
    assert v[..n] == stack[..n] && u[..|u| - 1] == v;
    PendingTop(p, v);
    PendingTop(p, u);
  }

  lemma SearchDepth(p: Program, path: seq<nat>, child: nat)
    requires PathOk(p, path)
    ensures Search(p, path, child).depth >= |path| - 1
  {
  }

  lemma StepLighter(p: Program, d: Dfs)
    requires Inv(p, d) && Bounded(p) && d.stack != [] && StackOk(p, d) && !d.hasCycle
    requires StackOk(p, Step(p, d))
    ensures |d.stack| < STACK_SIZE && |Step(p, d).stack| <= STACK_SIZE
    ensures Weight(p, Step(p, d).stack) < Weight(p, d.stack)
  {
    hide Walk, Has, With, Scan, Search, FrameOk, CycleReachable, Weight;
    StackNeverFull(p, d);
    var n := |d.stack| - 1;
    var f, path := d.stack[n], PathOf(d.stack);
    assert path[..n + 1] == path;
    assert FrameOk(p, path, f);
    ScanMeans(p, path, f, f.child);
    ScanAdvances(p, f, f.child);
    match Scan(p, f, f.child, true)
    case Exhausted => WeightPops(p, d.stack);
    case Cycle(c) => WeightDrops(p, d.stack, c, DfsFrame(0, 0, 0, 0));
    case Push(c, suc) => WeightDrops(p, d.stack, c, Pushed(f, suc));
  }

  lemma WeightPops(p: Program, stack: seq<DfsFrame>)
    requires 0 < |stack| <= STACK_SIZE && forall i :: 0 <= i < |stack| ==> ScanOk(p, stack[i])
    ensures Weight(p, stack[..|stack| - 1]) < Weight(p, stack)
  {
    var f := stack[|stack| - 1];
    var open := SlotCount(p.states[f.state]) - f.child;
    PowPositive(STACK_SIZE - |stack|);
    MulMonotone(1, (if open > 0 then open else 0) + 1, Pow8(STACK_SIZE - |stack|));
  }

  lemma {:induction false} ScanAdvances(p: Program, f: DfsFrame, child: nat)
    requires ScanOk(p, f)
    ensures var r := Scan(p, f, child, true);
            !r.Exhausted? ==> child < r.child <= SlotCount(p.states[f.state])
    decreases SlotCount(p.states[f.state]) - child
  {
    hide Has, Successor;
    if child < SlotCount(p.states[f.state]) {
      ScanAdvances(p, f, child + 1);
    }
  }

  // ----- Runs of the loop as the code writes it -----

  /** The state of the search after `n` rounds of `while (dfsTop > 0)`. */
  ghost function Rounds(p: Program, n: nat): (d: Dfs)
    requires Sized(p)
    ensures Inv(p, d) && StackOk(p, d)
  {
    if n == 0 then
      StartInv(p);
      StackNeverFull(p, Start());
      Start()
    else
      var d := Rounds(p, n - 1);
      if d.stack == [] then d
      else
        StepKeeps(p, d);
        StackNeverFull(p, Step(p, d));
        Step(p, d)
  }

  /** The code's own loop comes to an end. */
  ghost predicate LoopHalts(p: Program)
    requires Sized(p)
  {
    exists n: nat :: Rounds(p, n).stack == []
  }

  lemma FinalAnswer(p: Program, d: Dfs)
    requires Inv(p, d) && (d.stack == [] || d.hasCycle)
    ensures d.hasCycle <==> CycleReachable(p)
    ensures !d.hasCycle ==> d.maxDepth == Whole(p).depth
  {
    hide CycleReachable;
    WholeIsExact(p);
  }

  lemma {:induction false} ReachesEnd(p: Program, n: nat) returns (m: nat)
    requires Bounded(p)
    ensures Rounds(p, m).stack == [] || Rounds(p, m).hasCycle
    decreases LightOf(p, n)
  {
    hide Inv, Step, Weight;
    var d := Rounds(p, n);
    if d.stack == [] || d.hasCycle {
      m := n;
    } else {
      var e := Rounds(p, n + 1);
      StackNeverFull(p, d);
      StepLighter(p, d);
      m := ReachesEnd(p, n + 1);
    }
  }

  ghost function LightOf(p: Program, n: nat): nat
    requires Sized(p)
  {
    StackNeverFull(p, Rounds(p, n));
    Weight(p, Rounds(p, n).stack)
  }

  /** The loop of the code comes to an end exactly when no cycle can be reached from state 0. */
  lemma LoopHaltsIff(p: Program)
    requires Bounded(p)
    ensures LoopHalts(p) <==> !CycleReachable(p)
  {
    hide CycleReachable;
    var m := ReachesEnd(p, 0);
    FinalAnswer(p, Rounds(p, m));
    if n: nat :| Rounds(p, n).stack == [] {
      FinalAnswer(p, Rounds(p, n));
    }
  }

  /** The smallest script on which the load-time check never returns: a state that leads to itself. */
  lemma LoopDivergesOnSelfLoop(p: Program)
    requires Bounded(p)
    requires |p.states[0].transitions| > 0 && p.states[0].transitions[0].resolved
    requires p.states[0].transitions[0].targetIndex == 0
    ensures !LoopHalts(p)
  {
    var w := [0, 0];
    assert Successor(p.states[0], 0) == 0;
    assert Edge(p, 0, 0);
    assert Walk(p, w) by {
      assert w[0 + 1] == 0;
    }
    assert w[0] == w[1];
    LoopHaltsIff(p);
  }

  // ----- The search with the exit its caller expects -----

  /** The inner loop: successor slots of one frame until one is pushed or closes a cycle. */
  method ScanSlots(p: Program, f: DfsFrame, room: bool)
      returns (child: nat, suc: nat, pushed: bool, cycle: bool)
    requires ScanOk(p, f)
    ensures pushed ==> !cycle && suc < |p.states| && Scan(p, f, f.child, room) == Push(child, suc)
    ensures cycle ==> Scan(p, f, f.child, room) == Cycle(child)
    ensures !pushed && !cycle ==> Scan(p, f, f.child, room) == Exhausted
  {
    hide Has, Successor;
    var sd := p.states[f.state];
    var totalSuccessors := |sd.transitions| + 2;
    pushed, cycle := false, false;
    child, suc := f.child, AMS_MAX_STATES;
    while child < totalSuccessors && !pushed && !cycle
      invariant !pushed && !cycle ==> Scan(p, f, f.child, room) == Scan(p, f, child, room)
      invariant pushed ==> !cycle && suc < |p.states| && Scan(p, f, f.child, room) == Push(child, suc)
      invariant cycle ==> Scan(p, f, f.child, room) == Cycle(child)
      decreases totalSuccessors - child
    {
      suc := Successor(sd, child);
      child := child + 1;
      if suc < |p.states| {
        if Has(f.mask, suc) {
          cycle := true;
        } else if room {
          pushed := true;
        }
      }
    }
  }

  /** One round of the outer loop on the frame stack. */
  method Round(p: Program, dfsStack: array<DfsFrame>, top: nat, depth: nat)
      returns (dfsTop: nat, maxDepth: nat, hasCycle: bool)
    requires dfsStack.Length == STACK_SIZE && 0 < top < STACK_SIZE
    requires StackOk(p, Dfs(dfsStack[..top], depth, false))
    modifies dfsStack
    ensures dfsTop <= STACK_SIZE
    ensures Dfs(dfsStack[..dfsTop], maxDepth, hasCycle) == Step(p, Dfs(old(dfsStack[..top]), depth, false))
  {
    hide Has, With, Scan, SlotCount, Successor;
    ghost var d := Dfs(dfsStack[..top], depth, false);
    var f := dfsStack[top - 1];
    assert f == d.stack[top - 1] && ScanOk(p, f);
    maxDepth, hasCycle := depth, false;
    if f.depth > maxDepth {
      maxDepth := f.depth;
    }
    var child, suc, pushed, cycle := ScanSlots(p, f, top < STACK_SIZE);
    hasCycle := cycle;
    dfsTop := top;
    dfsStack[top - 1] := f.(child := child);
    ghost var row := dfsStack[..top];
    assert row == d.stack[top - 1 := f.(child := child)];
    if pushed {
      dfsStack[dfsTop] := DfsFrame(suc, f.depth + 1, With(f.mask, suc), 0);
      dfsTop := dfsTop + 1;
      assert dfsStack[..top] == row;
      assert dfsStack[..dfsTop] == row + [Pushed(f, suc)];
    } else if !hasCycle {
      dfsTop := dfsTop - 1;
      assert dfsStack[..dfsTop] == row[..top - 1];
    }
  }

  method ComputeDfsMaxDepth(p: Program) returns (maxDepth: nat, hasCycle: bool)
    requires Bounded(p)
    ensures hasCycle <==> CycleReachable(p)
    ensures !hasCycle ==> LoopHalts(p)
    ensures !hasCycle ==> forall w: seq<nat> :: Walk(p, w) ==> |w| - 1 <= maxDepth
    ensures !hasCycle ==> exists w: seq<nat> :: Walk(p, w) && |w| - 1 == maxDepth
  {
    hide Has, With, Inv, Walk, CycleReachable, Step, Scan, Weight, Search, SlotCount, Successor;
    maxDepth, hasCycle := 0, false;
    var dfsStack := new DfsFrame[STACK_SIZE](_ => DfsFrame(0, 0, 0, 0));
    var dfsTop := 0;
    dfsStack[dfsTop] := DfsFrame(0, 0, With(0, 0), 0);
    dfsTop := dfsTop + 1;
    ghost var n := 0;
    assert dfsStack[..1] == Start().stack;
    while dfsTop > 0 && !hasCycle
      invariant 0 <= dfsTop <= STACK_SIZE
      invariant Rounds(p, n) == Dfs(dfsStack[..dfsTop], maxDepth, hasCycle)
      decreases LightOf(p, n)
    {
      ghost var d := Rounds(p, n);
      StackNeverFull(p, d);
      dfsTop, maxDepth, hasCycle := Round(p, dfsStack, dfsTop, maxDepth);
      assert Rounds(p, n + 1) == Step(p, d);
      StepLighter(p, d);
      n := n + 1;
    }
    FinalAnswer(p, Rounds(p, n));
    WholeIsExact(p);
  }
}
