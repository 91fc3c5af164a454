/** Enumerating the parent graph backwards from the target
    (aegis/queries/graph.py:531-546). */
module Routes {
  import opened Common
  import opened Lists
  import opened Multigraph
  import opened ShortestPaths
  import Store
  import Expansion

  const MAX_PATH_HOPS := 5
  const MAX_PATHS := 25

  // ------------------------------------------------------- sorted(parents[node])

  function InsertStep(x: Step, q: seq<Step>): seq<Step> {
    if q == [] || !Before(q[0].edge.id, x.edge.id) then [x] + q else [q[0]] + InsertStep(x, q[1..])
  }

  function SortSteps(q: seq<Step>): seq<Step> {
    if q == [] then [] else InsertStep(q[0], SortSteps(q[1..]))
  }

  lemma {:induction false} InsertStepKeeps(x: Step, q: seq<Step>)
    ensures multiset(InsertStep(x, q)) == multiset(q) + multiset{x}
  {
    if q == [] || !Before(q[0].edge.id, x.edge.id) {
    } else {
      InsertStepKeeps(x, q[1..]);
      assert q == [q[0]] + q[1..];
    }
  }

  lemma {:induction false} SortStepsKeeps(q: seq<Step>)
    ensures multiset(SortSteps(q)) == multiset(q)
  {
    if q == [] {
    } else {
      SortStepsKeeps(q[1..]);
      InsertStepKeeps(q[0], SortSteps(q[1..]));
      assert q == [q[0]] + q[1..];
    }
  }

  // ------------------------------------------------------------ what is enumerated

  /** The steps into a node at depth `d + 1`, in the order they are pushed. */
  ghost function Ways(rows: seq<Edge>, source: Id, d: nat, n: Id): seq<Step> {
    SortSteps(StepsInto(rows, Level(rows, source, d), n))
  }

  function Extend(step: Step, tail: Path): Path {
    Path([step.near] + tail.nodes, [step.edge] + tail.edges)
  }

  /** Every completion of `tail` back to the source, in the order the stack yields them. */
  ghost function Completions(rows: seq<Edge>, source: Id, n: Id, d: nat, tail: Path): seq<Path>
    decreases d, 0, 0
  {
    if d == 0 then [tail] else Through(rows, source, Ways(rows, source, d - 1, n), d - 1, tail)
  }

  ghost function Through(rows: seq<Edge>, source: Id, ways: seq<Step>, d: nat, tail: Path): seq<Path>
    decreases d, 1, |ways|
  {
    if ways == [] then []
    else Completions(rows, source, ways[|ways| - 1].near, d, Extend(ways[|ways| - 1], tail))
         + Through(rows, source, ways[..|ways| - 1], d, tail)
  }

  /** Nodes of the search tree below a stack entry: the measure of the loop. */
  ghost function Weight(rows: seq<Edge>, source: Id, n: Id, d: nat): nat
    decreases d, 0, 0
  {
    1 + if d == 0 then 0 else WeightOf(rows, source, Ways(rows, source, d - 1, n), d - 1)
  }

  ghost function WeightOf(rows: seq<Edge>, source: Id, ways: seq<Step>, d: nat): nat
    decreases d, 1, |ways|
  {
    if ways == [] then 0
    else Weight(rows, source, ways[|ways| - 1].near, d) + WeightOf(rows, source, ways[..|ways| - 1], d)
  }

  // ------------------------------------------------------------------ soundness

  /** `p` is `tail` with a walk from the source put before it. */
  ghost predicate Completes(rows: seq<Edge>, source: Id, d: nat, tail: Path, p: Path) {
    && IsPath(rows, p.nodes, p.edges) && |p.edges| == d + |tail.edges|
    && p.nodes[0] == source && p.nodes[d..] == tail.nodes && p.edges[d..] == tail.edges
  }

  ghost predicate Tail(rows: seq<Edge>, n: Id, tail: Path) {
    IsPath(rows, tail.nodes, tail.edges) && tail.nodes[0] == n
  }

  lemma WaysAre(rows: seq<Edge>, source: Id, d: nat, n: Id, step: Step)
    requires n in Level(rows, source, d + 1)
    ensures step in Ways(rows, source, d, n)
      <==> step.edge in rows && step.near in Level(rows, source, d) && step.edge.Links(step.near, n)
  {
    hide Within, StepsInto, SortSteps;
    var steps := StepsInto(rows, Level(rows, source, d), n);
    SortStepsKeeps(steps);
    SameElements(SortSteps(steps), steps);
    LevelsApart(rows, source, d, n);
    StepsAre(rows, Level(rows, source, d), n, step.edge, step.near);
    assert step == Step(step.edge, step.near);
  }

  lemma LevelsApart(rows: seq<Edge>, source: Id, d: nat, n: Id)
    requires n in Level(rows, source, d + 1)
    ensures n !in Level(rows, source, d)
  {
  }

  lemma ExtendTail(rows: seq<Edge>, n: Id, tail: Path, step: Step)
    requires Tail(rows, n, tail) && step.edge in rows && step.edge.Links(step.near, n)
    ensures Tail(rows, step.near, Extend(step, tail))
  {
  }

  lemma ExtendCompletes(rows: seq<Edge>, source: Id, d: nat, tail: Path, step: Step, p: Path)
    requires Completes(rows, source, d, Extend(step, tail), p)
    ensures Completes(rows, source, d + 1, tail, p)
    ensures p.edges[d] == step.edge && p.nodes[d] == step.near
  {
    var longer := Extend(step, tail);
    assert p.edges[d..][0] == p.edges[d] && p.nodes[d..][0] == p.nodes[d];
    assert p.nodes[d + 1..] == p.nodes[d..][1..] == longer.nodes[1..] == tail.nodes;
    assert p.edges[d + 1..] == p.edges[d..][1..] == longer.edges[1..] == tail.edges;
  }

  lemma {:induction false} CompletionsSound(rows: seq<Edge>, source: Id, n: Id, d: nat, tail: Path, p: Path)
    requires n in Level(rows, source, d) && Tail(rows, n, tail)
    requires p in Completions(rows, source, n, d, tail)
    ensures Completes(rows, source, d, tail, p)
    decreases d, 0, 0
  {
    hide Within, Ways, Tail, Completes;
    if d > 0 {
      var ways := Ways(rows, source, d - 1, n);
      forall i | 0 <= i < |ways|
        ensures ways[i].edge in rows && ways[i].near in Level(rows, source, d - 1) && ways[i].edge.Links(ways[i].near, n)
      {
        assert ways[i] in ways;
        WaysAre(rows, source, d - 1, n, ways[i]);
      }
      ThroughSound(rows, source, n, ways, d - 1, tail, p);
    } else {
      SourceCompletes(rows, source, n, tail);
    }
  }

  lemma SourceCompletes(rows: seq<Edge>, source: Id, n: Id, tail: Path)
    requires n in Level(rows, source, 0) && Tail(rows, n, tail)
    ensures Completes(rows, source, 0, tail, tail)
  {
  }

  lemma {:induction false} ThroughSound(rows: seq<Edge>, source: Id, n: Id, ways: seq<Step>, d: nat, tail: Path, p: Path)
    requires Tail(rows, n, tail)
    requires forall i :: 0 <= i < |ways| ==>
      ways[i].edge in rows && ways[i].near in Level(rows, source, d) && ways[i].edge.Links(ways[i].near, n)
    requires p in Through(rows, source, ways, d, tail)
    ensures Completes(rows, source, d + 1, tail, p)
    ensures exists i :: 0 <= i < |ways| && p.edges[d] == ways[i].edge
    decreases d, 1, |ways|
  {
    hide Within, Level;
    var step := ways[|ways| - 1];
    if p in Completions(rows, source, step.near, d, Extend(step, tail)) {
      ExtendTail(rows, n, tail, step);
      CompletionsSound(rows, source, step.near, d, Extend(step, tail), p);
      ExtendCompletes(rows, source, d, tail, step, p);
    } else {
      ThroughSound(rows, source, n, ways[..|ways| - 1], d, tail, p);
      var i :| 0 <= i < |ways[..|ways| - 1]| && p.edges[d] == ways[..|ways| - 1][i].edge;
      assert ways[i].edge == p.edges[d];
    }
  }

  // --------------------------------------------------------------- completeness

  /** On a walk that reaches a level-`d` node in `d` rows, every earlier node is on its level. */
  lemma PrefixOnLevel(rows: seq<Edge>, source: Id, d: nat, p: Path)
    requires IsPath(rows, p.nodes, p.edges) && p.nodes[0] == source && d + 1 <= |p.edges|
    requires p.nodes[d + 1] in Level(rows, source, d + 1)
    ensures p.nodes[d] in Level(rows, source, d)
    ensures p.edges[d] in rows && p.edges[d].Links(p.nodes[d], p.nodes[d + 1])
  {
    hide Within;
    PathWithin(rows, {source}, p.nodes[d], p.nodes[..d + 1], p.edges[..d]);
    if d > 0 {
      WithinStep(rows, {source}, d - 1, p.nodes[d + 1]);
    } else {
      WithinNext(rows, {source}, 0);
    }
  }

  lemma {:induction false} CompletionsComplete(rows: seq<Edge>, source: Id, n: Id, d: nat, tail: Path, p: Path)
    requires n in Level(rows, source, d) && Tail(rows, n, tail)
    requires Completes(rows, source, d, tail, p)
    ensures p in Completions(rows, source, n, d, tail)
    decreases d
  {
    hide Within, Level;
    assert p.nodes[d] == p.nodes[d..][0] == n;
    if d == 0 {
      assert p.nodes[0..] == p.nodes && p.edges[0..] == p.edges;
    } else {
      PrefixOnLevel(rows, source, d - 1, p);
      var step := Step(p.edges[d - 1], p.nodes[d - 1]);
      WaysAre(rows, source, d - 1, n, step);
      var ways := Ways(rows, source, d - 1, n);
      var i :| 0 <= i < |ways| && ways[i] == step;
      ExtendTail(rows, n, tail, step);
      assert p.nodes[d - 1..] == [p.nodes[d - 1]] + p.nodes[d..];
      assert p.edges[d - 1..] == [p.edges[d - 1]] + p.edges[d..];
      CompletionsComplete(rows, source, step.near, d - 1, Extend(step, tail), p);
      ThroughHas(rows, source, ways, d - 1, tail, i, p);
    }
  }

  lemma {:induction false} ThroughHas(rows: seq<Edge>, source: Id, ways: seq<Step>, d: nat, tail: Path, i: nat, p: Path)
    requires i < |ways| && p in Completions(rows, source, ways[i].near, d, Extend(ways[i], tail))
    ensures p in Through(rows, source, ways, d, tail)
    decreases |ways|
  {
    if i == |ways| - 1 {
    } else {
      ThroughHas(rows, source, ways[..|ways| - 1], d, tail, i, p);
    }
  }

  // ------------------------------------------------------------------ no repeats

  lemma ConcatNoRepeats(p: seq<Path>, q: seq<Path>)
    requires NoRepeats(p) && NoRepeats(q) && forall x :: x in p ==> x !in q
    ensures NoRepeats(p + q)
  {
    forall i, j | 0 <= i < j < |p + q| ensures (p + q)[i] != (p + q)[j] {
      if i < |p| <= j {
        assert p[i] in p && q[j - |p|] in q;
      }
    }
  }

  lemma WaysDistinct(rows: seq<Edge>, source: Id, d: nat, n: Id)
    requires DistinctIds(rows)
    ensures forall i, j :: 0 <= i < j < |Ways(rows, source, d, n)| ==>
      Ways(rows, source, d, n)[i].edge != Ways(rows, source, d, n)[j].edge
  {
    hide SortSteps, Level, StepsInto;
    var steps := StepsInto(rows, Level(rows, source, d), n);
    StepsDistinct(rows, Level(rows, source, d), n);
    SortStepsKeeps(steps);
    var ways := SortSteps(steps);
    forall i, j | 0 <= i < j < |ways| ensures ways[i].edge != ways[j].edge {
      var k, l := TwoPlaces(steps, ways, i, j);
    }
  }

  lemma {:induction false} CompletionsDistinct(rows: seq<Edge>, source: Id, n: Id, d: nat, tail: Path)
    requires DistinctIds(rows) && n in Level(rows, source, d) && Tail(rows, n, tail)
    ensures NoRepeats(Completions(rows, source, n, d, tail))
    decreases d, 0, 0
  {
    hide Within;
    if d == 0 {
    } else {
      var ways := Ways(rows, source, d - 1, n);
      WaysDistinct(rows, source, d - 1, n);
      forall i | 0 <= i < |ways|
        ensures ways[i].edge in rows && ways[i].near in Level(rows, source, d - 1) && ways[i].edge.Links(ways[i].near, n)
      {
        assert ways[i] in ways;
        WaysAre(rows, source, d - 1, n, ways[i]);
      }
      ThroughDistinct(rows, source, n, ways, d - 1, tail);
    }
  }

  lemma {:induction false} ThroughDistinct(rows: seq<Edge>, source: Id, n: Id, ways: seq<Step>, d: nat, tail: Path)
    requires DistinctIds(rows) && Tail(rows, n, tail)
    requires forall i :: 0 <= i < |ways| ==>
      ways[i].edge in rows && ways[i].near in Level(rows, source, d) && ways[i].edge.Links(ways[i].near, n)
    requires forall i, j :: 0 <= i < j < |ways| ==> ways[i].edge != ways[j].edge
    ensures NoRepeats(Through(rows, source, ways, d, tail))
    decreases d, 1, |ways|
  {
    hide Within, Level, DistinctIds;
    if ways == [] {
    } else {
      var step, front := ways[|ways| - 1], ways[..|ways| - 1];
      var first := Completions(rows, source, step.near, d, Extend(step, tail));
      ExtendTail(rows, n, tail, step);
      CompletionsDistinct(rows, source, step.near, d, Extend(step, tail));
      ThroughDistinct(rows, source, n, front, d, tail);
      forall p | p in first ensures p !in Through(rows, source, front, d, tail) {
        CompletionsSound(rows, source, step.near, d, Extend(step, tail), p);
        ExtendCompletes(rows, source, d, tail, step, p);
        if p in Through(rows, source, front, d, tail) {
          ThroughSound(rows, source, n, front, d, tail, p);
        }
      }
      ConcatNoRepeats(first, Through(rows, source, front, d, tail));
    }
  }

  // ----------------------------------------------------------------- the stack

  /** Stack entries are partial routes that start at a node whose depth is known. */
  ghost predicate Stacked(depth: map<Id, nat>, stack: seq<Path>) {
    forall i :: 0 <= i < |stack| ==> stack[i].nodes != [] && stack[i].nodes[0] in depth
  }

  /** What popping the whole stack would still yield. */
  ghost function Pending(rows: seq<Edge>, source: Id, depth: map<Id, nat>, stack: seq<Path>): seq<Path>
    requires Stacked(depth, stack)
  {
    if stack == [] then []
    else
      var top := stack[|stack| - 1];
      Completions(rows, source, top.nodes[0], depth[top.nodes[0]], top)
      + Pending(rows, source, depth, stack[..|stack| - 1])
  }

  ghost function Work(rows: seq<Edge>, source: Id, depth: map<Id, nat>, stack: seq<Path>): nat
    requires Stacked(depth, stack)
  {
    if stack == [] then 0
    else
      var top := stack[|stack| - 1];
      Weight(rows, source, top.nodes[0], depth[top.nodes[0]]) + Work(rows, source, depth, stack[..|stack| - 1])
  }

  lemma PushOne(rows: seq<Edge>, source: Id, depth: map<Id, nat>, stack: seq<Path>, p: Path)
    requires Stacked(depth, stack) && p.nodes != [] && p.nodes[0] in depth
    ensures Stacked(depth, stack + [p])
    ensures Pending(rows, source, depth, stack + [p])
      == Completions(rows, source, p.nodes[0], depth[p.nodes[0]], p) + Pending(rows, source, depth, stack)
    ensures Work(rows, source, depth, stack + [p])
      == Weight(rows, source, p.nodes[0], depth[p.nodes[0]]) + Work(rows, source, depth, stack)
  {
    assert (stack + [p])[..|stack|] == stack;
  }

  /** In a finished search a node of positive depth has its ways as sorted parents, all one
      level nearer. */
  lemma SearchedWays(rows: seq<Edge>, source: Id, h: nat, depth: map<Id, nat>, parents: map<Id, seq<Step>>, n: Id)
    requires Searched(rows, source, h, depth, parents) && n in depth
    ensures depth[n] == 0 <==> n == source
    ensures depth[n] > 0 ==> SortSteps(Entered(parents, n)) == Ways(rows, source, depth[n] - 1, n)
    ensures depth[n] > 0 ==> forall i :: 0 <= i < |SortSteps(Entered(parents, n))| ==>
      var m := SortSteps(Entered(parents, n))[i].near;
      m in depth && depth[m] == depth[n] - 1
  {
    hide Within, StepsInto, SortSteps;
    SourceAtZero(rows, source, depth[n], n);
    if depth[n] > 0 {
      var ways := Ways(rows, source, depth[n] - 1, n);
      forall i | 0 <= i < |ways| ensures ways[i].near in depth && depth[ways[i].near] == depth[n] - 1 {
        assert ways[i] in ways;
        WaysAre(rows, source, depth[n] - 1, n, ways[i]);
        LevelDepth(rows, source, h, depth, parents, ways[i].near, depth[n] - 1);
      }
    }
  }

  lemma SourceAtZero(rows: seq<Edge>, source: Id, d: nat, n: Id)
    requires n in Level(rows, source, d)
    ensures d == 0 <==> n == source
  {
    hide Within;
    WithinNext(rows, {source}, 0);
    if d > 0 { WithinGrows(rows, {source}, 0, d - 1); }
  }

  lemma LevelDepth(rows: seq<Edge>, source: Id, h: nat, depth: map<Id, nat>, parents: map<Id, seq<Step>>, m: Id, d: nat)
    requires Searched(rows, source, h, depth, parents) && m in Level(rows, source, d) && d <= h
    ensures m in depth && depth[m] == d
  {
    hide Within, StepsInto;
    WithinGrows(rows, {source}, d, h);
    WithinNext(rows, {source}, 0);
    assert m in Within(rows, {source}, d);
    var k := depth[m];
    WithinNext(rows, {source}, k);
    if k < d {
      assert m in Within(rows, {source}, k);
      WithinGrows(rows, {source}, k, d - 1);
    }
    if d < k {
      WithinGrows(rows, {source}, d, k - 1);
    }
  }

  /** Pushes the sorted parents of the popped entry. */
  method PushParents(top: Path, rest: seq<Path>, ghost rows: seq<Edge>, ghost source: Id, ghost h: nat,
                     depth: map<Id, nat>, parents: map<Id, seq<Step>>)
    returns (stack: seq<Path>)
    requires Searched(rows, source, h, depth, parents) && Stacked(depth, rest)
    requires top.nodes != [] && top.nodes[0] in depth && depth[top.nodes[0]] > 0
    ensures Stacked(depth, stack)
    ensures Pending(rows, source, depth, stack)
      == Completions(rows, source, top.nodes[0], depth[top.nodes[0]], top) + Pending(rows, source, depth, rest)
    ensures Work(rows, source, depth, stack)
      < Weight(rows, source, top.nodes[0], depth[top.nodes[0]]) + Work(rows, source, depth, rest)
  {
    hide Pending, Work, Ways, Stacked, SortSteps, Searched, Before;
    var node := top.nodes[0];
    SearchedWays(rows, source, h, depth, parents, node);
    var ways := SortSteps(if node in parents then parents[node] else []);
    ghost var d := depth[node] - 1;
    stack := rest;
    var j := 0;
    while j < |ways|
      invariant 0 <= j <= |ways|
      invariant Stacked(depth, stack)
      invariant Pending(rows, source, depth, stack)
        == Through(rows, source, ways[..j], d, top) + Pending(rows, source, depth, rest)
      invariant Work(rows, source, depth, stack)
        == WeightOf(rows, source, ways[..j], d) + Work(rows, source, depth, rest)
    {
      var step := ways[j];
      assert ways[..j + 1][..j] == ways[..j];
      if step.near in depth && depth[step.near] == depth[node] - 1 {
        PushOne(rows, source, depth, stack, Extend(step, top));
        stack := stack + [Extend(step, top)];
      }
      j := j + 1;
    }
    assert ways[..|ways|] == ways;
  }

  /** Walks the parents back from the target until the limit or the end. */
  method Enumerate(source: Id, target: Id, maxPaths: nat, ghost rows: seq<Edge>, ghost h: nat,
                   depth: map<Id, nat>, parents: map<Id, seq<Step>>)
    returns (found: seq<Path>)
    requires Searched(rows, source, h, depth, parents) && target in depth
    ensures var all := Completions(rows, source, target, depth[target], Path([target], []));
      && found <= all && |found| <= maxPaths && (|found| < maxPaths ==> found == all)
  {
    hide Completions, Weight, Searched;
    ghost var all := Completions(rows, source, target, depth[target], Path([target], []));
    found := [];
    var stack := [Path([target], [])];
    PushOne(rows, source, depth, [], Path([target], []));
    assert [] + stack == stack;
    while stack != [] && |found| < maxPaths
      invariant Stacked(depth, stack)
      invariant found + Pending(rows, source, depth, stack) == all
      invariant |found| <= maxPaths
      decreases Work(rows, source, depth, stack)
    {
      var top, rest := stack[|stack| - 1], stack[..|stack| - 1];
      SearchedWays(rows, source, h, depth, parents, top.nodes[0]);
      if top.nodes[0] == source {
        CompleteAlready(rows, source, top);
        found := found + [top];
        stack := rest;
      } else {
        stack := PushParents(top, rest, rows, source, h, depth, parents);
      }
    }
  }

  lemma CompleteAlready(rows: seq<Edge>, source: Id, top: Path)
    requires top.nodes != []
    ensures Completions(rows, source, top.nodes[0], 0, top) == [top]
    ensures Weight(rows, source, top.nodes[0], 0) == 1
  {
  }

  // ------------------------------------------------------------- the final order

  /** Python's order on lists of ids. */
  predicate ListBefore(p: seq<Id>, q: seq<Id>) {
    q != [] && (p == [] || Before(p[0], q[0]) || (p[0] == q[0] && ListBefore(p[1..], q[1..])))
  }

  lemma {:induction false} ListBeforeTransitive(p: seq<Id>, q: seq<Id>, r: seq<Id>)
    requires ListBefore(p, q) && ListBefore(q, r)
    ensures ListBefore(p, r)
  {
    hide Before;
    BeforeIsStrictOrder();
    if p == [] || p[0] != q[0] || q[0] != r[0] {
    } else {
      BeforeIrreflexive(p[0]);
      ListBeforeTransitive(p[1..], q[1..], r[1..]);
    }
  }

  lemma {:induction false} ListBeforeTotal(p: seq<Id>, q: seq<Id>)
    ensures ListBefore(p, q) || p == q || ListBefore(q, p)
  {
    hide Before;
    BeforeIsStrictOrder();
    if p == [] || q == [] || p[0] != q[0] {
    } else {
      ListBeforeTotal(p[1..], q[1..]);
      assert p == [p[0]] + p[1..] && q == [q[0]] + q[1..];
    }
  }

  lemma {:induction false} ListBeforeOneWay(p: seq<Id>, q: seq<Id>)
    requires ListBefore(p, q)
    ensures !ListBefore(q, p)
  {
    hide Before;
    BeforeIsStrictOrder();
    if p == [] || p[0] != q[0] {
    } else {
      BeforeIrreflexive(p[0]);
      ListBeforeOneWay(p[1..], q[1..]);
    }
  }

  /** The sort key: length, then node ids. */
  predicate RouteBefore(p: Path, q: Path) {
    |p.edges| < |q.edges| || (|p.edges| == |q.edges| && ListBefore(p.nodes, q.nodes))
  }

  lemma RouteBeforeIsWeak(p: Path, q: Path, r: Path)
    requires !RouteBefore(q, p) && !RouteBefore(r, q)
    ensures !RouteBefore(r, p)
  {
    if RouteBefore(r, p) && |r.edges| == |p.edges| {
      ListBeforeTotal(p.nodes, q.nodes);
      if p.nodes != q.nodes {
        ListBeforeTransitive(r.nodes, p.nodes, q.nodes);
      }
    }
  }

  /** No route comes before one listed earlier. */
  ghost predicate InRouteOrder(q: seq<Path>) {
    forall i, j | 0 <= i < j < |q| :: !RouteBefore(q[j], q[i])
  }

  function InsertPath(x: Path, q: seq<Path>): seq<Path> {
    if q == [] || !RouteBefore(q[0], x) then [x] + q else [q[0]] + InsertPath(x, q[1..])
  }

  /** Stable sort by length and nodes. */
  function SortPaths(q: seq<Path>): seq<Path> {
    if q == [] then [] else InsertPath(q[0], SortPaths(q[1..]))
  }

  lemma {:induction false} InsertPathOrders(x: Path, q: seq<Path>)
    requires InRouteOrder(q)
    ensures InRouteOrder(InsertPath(x, q))
  {
    hide RouteBefore;
    if q == [] {
    } else if !RouteBefore(q[0], x) {
      forall j | 0 <= j < |q| ensures !RouteBefore(q[j], x) {
        if j > 0 { RouteBeforeIsWeak(x, q[0], q[j]); }
      }
    } else {
      RouteBeforeOneWay(q[0], x);
      assert forall i :: 0 <= i < |q[1..]| ==> q[1..][i] == q[i + 1];
      InsertPathOrders(x, q[1..]);
      InsertPathKeeps(x, q[1..]);
      var rest := InsertPath(x, q[1..]);
      forall j | 0 <= j < |rest| ensures !RouteBefore(rest[j], q[0]) {
        assert rest[j] in multiset(rest);
        assert rest[j] == x || rest[j] in q[1..];
      }
    }
  }

  lemma RouteBeforeOneWay(p: Path, q: Path)
    requires RouteBefore(p, q)
    ensures !RouteBefore(q, p)
  {
    if |p.edges| == |q.edges| { ListBeforeOneWay(p.nodes, q.nodes); }
  }

  lemma {:induction false} SortPathsOrders(q: seq<Path>)
    ensures InRouteOrder(SortPaths(q))
  {
    if q == [] {
    } else {
      SortPathsOrders(q[1..]);
      InsertPathOrders(q[0], SortPaths(q[1..]));
    }
  }

  lemma {:induction false} InsertPathKeeps(x: Path, q: seq<Path>)
    ensures multiset(InsertPath(x, q)) == multiset(q) + multiset{x}
  {
    if q == [] || !RouteBefore(q[0], x) {
    } else {
      InsertPathKeeps(x, q[1..]);
      assert q == [q[0]] + q[1..];
    }
  }

  lemma {:induction false} SortPathsKeeps(q: seq<Path>)
    ensures multiset(SortPaths(q)) == multiset(q)
  {
    if q == [] {
    } else {
      SortPathsKeeps(q[1..]);
      InsertPathKeeps(q[0], SortPaths(q[1..]));
      assert q == [q[0]] + q[1..];
    }
  }

  // ------------------------------------------------------------------- the query

  lemma DistanceIsLevel(rows: seq<Edge>, source: Id, target: Id, d: nat, p: Path)
    requires target in Level(rows, source, d)
    ensures Joins(rows, source, target, p) ==> d <= |p.edges|
  {
    hide Within;
    WithinNext(rows, {source}, 0);
    if Joins(rows, source, target, p) && |p.edges| < d {
      PathWithin(rows, {source}, target, p.nodes, p.edges);
      WithinGrows(rows, {source}, |p.edges|, d - 1);
    }
  }

  /** The completions of the bare target at its own level are exactly the shortest routes. */
  lemma CompletionsAreShortest(rows: seq<Edge>, source: Id, target: Id, d: nat, maxHops: nat, p: Path)
    requires target in Level(rows, source, d) && d <= maxHops
    ensures p in Completions(rows, source, target, d, Path([target], []))
      <==> Shortest(rows, source, target, maxHops, p)
  {
    hide Within, Level, Completions;
    var tail := Path([target], []);
    assert Tail(rows, target, tail);
    DistanceIsLevel(rows, source, target, d, p);
    if p in Completions(rows, source, target, d, tail) {
      CompletionsSound(rows, source, target, d, tail, p);
      assert p.nodes[d] == p.nodes[d..][0];
      forall q | Joins(rows, source, target, q) ensures |p.edges| <= |q.edges| {
        DistanceIsLevel(rows, source, target, d, q);
      }
    }
    if Shortest(rows, source, target, maxHops, p) {
      LevelHasPath(rows, source, target, d, p);
      assert p.nodes[d..] == [target] && p.edges[d..] == [];
      CompletionsComplete(rows, source, target, d, tail, p);
    }
  }

  lemma LevelHasPath(rows: seq<Edge>, source: Id, target: Id, d: nat, p: Path)
    requires target in Level(rows, source, d)
    requires forall q :: Joins(rows, source, target, q) ==> |p.edges| <= |q.edges|
    requires Joins(rows, source, target, p)
    ensures |p.edges| == d
  {
    hide Within;
    WithinNext(rows, {source}, 0);
    DistanceIsLevel(rows, source, target, d, p);
    var nodes, edges := WithinPath(rows, {source}, d, target);
    assert Joins(rows, source, target, Path(nodes, edges));
  }

  lemma LevelUnique(rows: seq<Edge>, source: Id, d: nat, k: nat, n: Id)
    requires n in Level(rows, source, d) && n in Level(rows, source, k)
    ensures d == k
  {
    hide Within;
    WithinNext(rows, {source}, 0);
    if d < k { WithinGrows(rows, {source}, d, k - 1); }
    if k < d { WithinGrows(rows, {source}, k, d - 1); }
  }

  /** Every shortest route within the hop limit, in the order the stack yields them. */
  ghost function AllRoutes(rows: seq<Edge>, source: Id, target: Id, maxHops: nat): seq<Path> {
    if exists d: nat :: d <= maxHops && target in Level(rows, source, d) then
      var d: nat :| d <= maxHops && target in Level(rows, source, d);
      Completions(rows, source, target, d, Path([target], []))
    else []
  }

  lemma AllRoutesAtLevel(rows: seq<Edge>, source: Id, target: Id, maxHops: nat, d: nat)
    requires d <= maxHops && target in Level(rows, source, d)
    ensures AllRoutes(rows, source, target, maxHops) == Completions(rows, source, target, d, Path([target], []))
  {
    hide Level, Completions;
    var k: nat :| && k <= maxHops && target in Level(rows, source, k)
                  && AllRoutes(rows, source, target, maxHops)
                     == Completions(rows, source, target, k, Path([target], []));
    LevelUnique(rows, source, d, k, target);
  }

  lemma {:induction false} WithinHasLevel(rows: seq<Edge>, source: Id, n: Id, k: nat) returns (d: nat)
    requires n in Within(rows, {source}, k)
    ensures d <= k && n in Level(rows, source, d)
  {
    hide Within;
    WithinNext(rows, {source}, 0);
    if k == 0 {
      d := 0;
    } else if n in Within(rows, {source}, k - 1) {
      d := WithinHasLevel(rows, source, n, k - 1);
    } else {
      d := k;
    }
  }

  /** It has each shortest route once, and nothing else. */
  lemma RoutesAreAll(rows: seq<Edge>, source: Id, target: Id, maxHops: nat)
    requires DistinctIds(rows)
    ensures NoRepeats(AllRoutes(rows, source, target, maxHops))
    ensures forall p :: p in AllRoutes(rows, source, target, maxHops) <==> Shortest(rows, source, target, maxHops, p)
    ensures AllRoutes(rows, source, target, maxHops) == [] <==> target !in Within(rows, {source}, maxHops)
  {
    hide Within, Level, Completions, Shortest, AllRoutes, DistinctIds;
    if target in Within(rows, {source}, maxHops) {
      var d := WithinHasLevel(rows, source, target, maxHops);
      AllRoutesAtLevel(rows, source, target, maxHops, d);
      CompletionsDistinct(rows, source, target, d, Path([target], []));
      forall p ensures p in AllRoutes(rows, source, target, maxHops) <==> Shortest(rows, source, target, maxHops, p) {
        CompletionsAreShortest(rows, source, target, d, maxHops, p);
      }
      SomeRoute(rows, source, target, d, maxHops);
    } else {
      NoRoutes(rows, source, target, maxHops);
      forall p ensures !Shortest(rows, source, target, maxHops, p) {
        NoneWithin(rows, source, target, maxHops, p);
      }
    }
  }

  lemma SomeRoute(rows: seq<Edge>, source: Id, target: Id, d: nat, maxHops: nat)
    requires target in Level(rows, source, d) && d <= maxHops
    ensures exists p :: Shortest(rows, source, target, maxHops, p)
  {
    hide Within;
    WithinNext(rows, {source}, 0);
    var nodes, edges := WithinPath(rows, {source}, d, target);
    var p := Path(nodes, edges);
    forall q | Joins(rows, source, target, q) ensures |p.edges| <= |q.edges| {
      DistanceIsLevel(rows, source, target, d, q);
    }
    assert Shortest(rows, source, target, maxHops, p);
  }

  lemma NoRoutes(rows: seq<Edge>, source: Id, target: Id, maxHops: nat)
    requires target !in Within(rows, {source}, maxHops)
    ensures AllRoutes(rows, source, target, maxHops) == []
  {
    hide Within;
    forall d: nat | d <= maxHops ensures target !in Level(rows, source, d) {
      WithinNext(rows, {source}, 0);
      WithinGrows(rows, {source}, d, maxHops);
    }
  }

  lemma ShortList(all: seq<Path>, found: seq<Path>, maxPaths: nat)
    requires NoRepeats(all) && found <= all && |found| <= maxPaths && (|found| < maxPaths ==> found == all)
    ensures |found| == if |all| < maxPaths then |all| else maxPaths
    ensures (forall p | p in all :: p in found) <==> |all| <= maxPaths
  {
    if |all| > maxPaths {
      assert all[maxPaths] in all && all[maxPaths] !in found;
    }
  }

  /** All shortest routes within the hop limit, up to the count limit, by length and then node
      ids. What is returned is real, of true distance and without repeats, and nothing is
      missing exactly when all fit. */
  method ShortestRoutes(rows: seq<Edge>, source: Id, target: Id, maxHops: nat, maxPaths: nat)
    returns (found: seq<Path>)
    requires DistinctIds(rows) && maxPaths > 0
    ensures forall p :: p in found ==> Shortest(rows, source, target, maxHops, p)
    ensures NoRepeats(found) && InRouteOrder(found)
    ensures var all := AllRoutes(rows, source, target, maxHops);
      && |found| == (if |all| < maxPaths then |all| else maxPaths)
      && (forall p :: p in found <==> p in all[..|found|])
      && ((forall p :: Shortest(rows, source, target, maxHops, p) ==> p in found) <==> |all| <= maxPaths)
  {
    hide Within, Shortest, Completions, Searched, SortPaths, Level, AllRoutes, RouteBefore, DistinctIds;
    RoutesAreAll(rows, source, target, maxHops);
    ghost var all := AllRoutes(rows, source, target, maxHops);
    if source == target {
      SourceAtLevelZero(rows, source);
      AllRoutesAtLevel(rows, source, target, maxHops, 0);
      CompleteAlready(rows, source, Path([target], []));
      found := [Path([source], [])];
      ShortList(all, found, maxPaths);
      return;
    }
    var depth, parents, reachedAt := Search(rows, source, target, maxHops);
    if reachedAt.None? {
      ShortList(all, [], maxPaths);
      return [];
    }
    found := Enumerate(source, target, maxPaths, rows, reachedAt.value, depth, parents);
    TargetLevel(rows, source, reachedAt.value, depth, parents, target);
    AllRoutesAtLevel(rows, source, target, maxHops, depth[target]);
    ShortList(all, found, maxPaths);
    SortPathsKeeps(found);
    SortPathsOrders(found);
    PermutedNoRepeats(found, SortPaths(found));
    SameElements(found, SortPaths(found));
    found := SortPaths(found);
  }

  lemma SourceAtLevelZero(rows: seq<Edge>, source: Id)
    ensures source in Level(rows, source, 0)
  {
  }

  lemma TargetLevel(rows: seq<Edge>, source: Id, h: nat, depth: map<Id, nat>, parents: map<Id, seq<Step>>, n: Id)
    requires Searched(rows, source, h, depth, parents) && n in depth
    ensures n in Level(rows, source, depth[n])
  {
  }

  lemma NoneWithin(rows: seq<Edge>, source: Id, target: Id, maxHops: nat, p: Path)
    requires target !in Within(rows, {source}, maxHops)
    ensures !Shortest(rows, source, target, maxHops, p)
  {
    hide Within;
    if Shortest(rows, source, target, maxHops, p) {
      PathWithin(rows, {source}, target, p.nodes, p.edges);
      WithinGrows(rows, {source}, |p.edges|, maxHops);
    }
  }

  /** The routes of an answer to a request with clamped limits. The flag is raised exactly when at
      least as many routes exist as the limit allows, and nothing is missing exactly when at most
      that many do: it is raised for nothing when they are equally many. */
  ghost predicate Answered(rows: seq<Edge>, source: Id, target: Id, maxHops: int, maxPaths: int, found: seq<Path>,
                           truncated: bool)
  {
    var hops, cap := Expansion.Clamp(1, maxHops, MAX_PATH_HOPS), Expansion.Clamp(1, maxPaths, MAX_PATHS);
    var all := AllRoutes(rows, source, target, hops);
    && NoRepeats(found) && InRouteOrder(found) && |found| == (if |all| < cap then |all| else cap)
    && (forall p :: p in found ==> Shortest(rows, source, target, hops, p))
    && (truncated <==> |all| >= cap)
    && ((forall p :: Shortest(rows, source, target, hops, p) ==> p in found) <==> |all| <= cap)
  }

  /** The entity is an end of the request or lies on a route. */
  ghost predicate OnRoute(source: Id, target: Id, found: seq<Path>, n: Id) {
    n == source || n == target || exists p :: p in found && n in p.nodes
  }

  /** One request: both ends resolved through the map, the routes between them, their rows, and
      the entities on them as far as the entity table has them. */
  method Paths(rows: seq<Edge>, entities: set<Id>, canonical: map<Id, Id>, fromId: Id, toId: Id, maxHops: int,
               maxPaths: int)
    returns (found: seq<Path>, nodes: set<Id>, edges: set<Edge>, truncated: bool)
    requires DistinctIds(rows)
    ensures var source, target := Store.Lookup(canonical, fromId), Store.Lookup(canonical, toId);
      && Answered(rows, source, target, maxHops, maxPaths, found, truncated)
      && (forall n :: n in nodes <==> n in entities && OnRoute(source, target, found, n))
    ensures forall e :: e in edges <==> exists p :: p in found && e in p.edges
    ensures 1 <= maxHops <= 5 && 1 <= maxPaths <= 25 ==>
      var source := if fromId in canonical then canonical[fromId] else fromId;
      var target := if toId in canonical then canonical[toId] else toId;
      && (forall p :: p in found ==> Shortest(rows, source, target, maxHops, p))
      && |found| <= maxPaths && (truncated <==> |found| == maxPaths)
      && (|found| < maxPaths ==> forall p :: Shortest(rows, source, target, maxHops, p) ==> p in found)
    ensures |found| <= 25 && forall p :: p in found ==> |p.edges| <= 5
  {
    LimitsAre(maxHops, maxPaths);
    hide Shortest, AllRoutes, RouteBefore, OnRoute, EndsOf;
    var source, target := Store.Lookup(canonical, fromId), Store.Lookup(canonical, toId);
    var hops := Expansion.Clamp(1, maxHops, MAX_PATH_HOPS);
    var cap := Expansion.Clamp(1, maxPaths, MAX_PATHS);
    found := ShortestRoutes(rows, source, target, hops, cap);
    truncated := |found| >= cap;
    edges := set p, e | p in found && e in p.edges :: e;
    nodes := (EndsOf(edges) + {source, target}) * entities;
    forall n ensures n in EndsOf(edges) + {source, target} <==> OnRoute(source, target, found, n) {
      EndsOnRoute(rows, source, target, hops, found, edges, n);
    }
    forall p | p in found ensures |p.edges| <= 5 {
      WithinHops(rows, source, target, hops, p);
    }
  }

  /** A request is held to the hops and routes it asks for: at most five hops, and twenty-five routes. */
  lemma LimitsAre(maxHops: int, maxPaths: int)
    ensures 1 <= maxHops <= 5 ==> Expansion.Clamp(1, maxHops, MAX_PATH_HOPS) == maxHops
    ensures 1 <= maxPaths <= 25 ==> Expansion.Clamp(1, maxPaths, MAX_PATHS) == maxPaths
    ensures 1 <= Expansion.Clamp(1, maxHops, MAX_PATH_HOPS) <= 5 && 1 <= Expansion.Clamp(1, maxPaths, MAX_PATHS) <= 25
  {
  }

  lemma WithinHops(rows: seq<Edge>, source: Id, target: Id, hops: nat, p: Path)
    requires Shortest(rows, source, target, hops, p)
    ensures |p.edges| <= hops
  {
  }

  lemma PathEnds(rows: seq<Edge>, p: Path, n: Id)
    requires IsPath(rows, p.nodes, p.edges)
    ensures n in p.nodes <==> n == p.nodes[0] || exists e :: e in p.edges && n in e.Ends()
  {
    if e :| e in p.edges && n in e.Ends() {
      var i :| 0 <= i < |p.edges| && p.edges[i] == e;
      assert e.Links(p.nodes[i], p.nodes[i + 1]);
    }
    if n in p.nodes {
      var i :| 0 <= i < |p.nodes| && p.nodes[i] == n;
      if i > 0 {
        assert p.edges[i - 1].Links(p.nodes[i - 1], p.nodes[i]);
        assert p.edges[i - 1] in p.edges && n in p.edges[i - 1].Ends();
      }
    }
  }

  /** The ends of the rows of real routes are the entities on them. */
  lemma EndsOnRoute(rows: seq<Edge>, source: Id, target: Id, hops: nat, found: seq<Path>, edges: set<Edge>, n: Id)
    requires forall p :: p in found ==> Shortest(rows, source, target, hops, p)
    requires edges == set p, e | p in found && e in p.edges :: e
    ensures n in EndsOf(edges) || n == source || n == target <==> OnRoute(source, target, found, n)
  {
    hide EndsOf, IsPath, Shortest;
    InEnds(edges, n);
    forall p | p in found ensures n in p.nodes <==> n == source || exists e :: e in p.edges && n in e.Ends() {
      ShortestStarts(rows, source, target, hops, p);
      PathEnds(rows, p, n);
    }
  }

  lemma ShortestStarts(rows: seq<Edge>, source: Id, target: Id, hops: nat, p: Path)
    requires Shortest(rows, source, target, hops, p)
    ensures IsPath(rows, p.nodes, p.edges) && p.nodes[0] == source
  {
  }

  /** The flag raised for nothing: one route is asked for from an entity to itself, and there is one. */
  lemma FlagForNothing(rows: seq<Edge>, a: Id, maxHops: int, found: seq<Path>, truncated: bool)
    requires Answered(rows, a, a, maxHops, 1, found, truncated)
    ensures truncated && found == [Path([a], [])]
    ensures forall p :: Shortest(rows, a, a, Expansion.Clamp(1, maxHops, MAX_PATH_HOPS), p) ==> p in found
  {
    hide Shortest, AllRoutes, Completions;
    var hops := Expansion.Clamp(1, maxHops, MAX_PATH_HOPS);
    SourceAtLevelZero(rows, a);
    AllRoutesAtLevel(rows, a, a, hops, 0);
    CompleteAlready(rows, a, Path([a], []));
    assert found[0] in found;
    OnlyEmpty(rows, a, hops, found[0]);
  }

  lemma OnlyEmpty(rows: seq<Edge>, a: Id, hops: nat, p: Path)
    requires Shortest(rows, a, a, hops, p)
    ensures p == Path([a], [])
  {
    assert Joins(rows, a, a, Path([a], []));
  }

  /** What the hop clamp can cost: the routes within fewer hops are the routes within more if
      and only if the target is within the fewer, or not within the more either. When it is
      in between, the answer is empty and says nothing of it. */
  lemma FewerHopsIff(rows: seq<Edge>, source: Id, target: Id, fewer: nat, more: nat)
    requires DistinctIds(rows) && fewer <= more
    ensures (forall p :: Shortest(rows, source, target, fewer, p) <==> Shortest(rows, source, target, more, p))
      <==> target in Within(rows, {source}, fewer) || target !in Within(rows, {source}, more)
    ensures target !in Within(rows, {source}, fewer) ==> AllRoutes(rows, source, target, fewer) == []
  {
    hide Within, AllRoutes, DistinctIds;
    RoutesAreAll(rows, source, target, fewer);
    RoutesAreAll(rows, source, target, more);
    if target in Within(rows, {source}, fewer) {
      var p := AllRoutes(rows, source, target, fewer)[0];
      forall q | Shortest(rows, source, target, more, q) ensures Shortest(rows, source, target, fewer, q) {
        assert p in AllRoutes(rows, source, target, fewer);
        assert |q.edges| <= |p.edges|;
      }
    } else if target in Within(rows, {source}, more) {
      var p := AllRoutes(rows, source, target, more)[0];
      assert p in AllRoutes(rows, source, target, more);
    }
  }

  /** The silent clamp: along a line of more rows than are searched, the two ends have a route
      within the hops asked for, and the answer is empty and without the flag. */
  lemma LineUnanswered(ns: seq<Id>, maxHops: int, maxPaths: int, found: seq<Path>, truncated: bool)
    requires NoRepeats(ns) && MAX_PATH_HOPS < |ns| - 1 <= maxHops
    requires Answered(Line(ns), ns[0], ns[|ns| - 1], maxHops, maxPaths, found, truncated)
    ensures found == [] && !truncated
    ensures var rows, first, last := Line(ns), ns[0], ns[|ns| - 1];
      exists p :: Shortest(rows, first, last, maxHops, p)
  {
    hide Within, AllRoutes, DistinctIds, Line, Shortest, RouteBefore;
    var last := |ns| - 1;
    LineDistinct(ns);
    LineWithin(ns, MAX_PATH_HOPS);
    LineWithin(ns, last);
    WithinGrows(Line(ns), {ns[0]}, last, maxHops);
    FarEnd(ns);
    RoutesAreAll(Line(ns), ns[0], ns[last], MAX_PATH_HOPS);
    RoutesAreAll(Line(ns), ns[0], ns[last], maxHops);
    var p := AllRoutes(Line(ns), ns[0], ns[last], maxHops)[0];
    assert p in AllRoutes(Line(ns), ns[0], ns[last], maxHops);
  }

  lemma FarEnd(ns: seq<Id>)
    requires NoRepeats(ns) && MAX_PATH_HOPS < |ns| - 1
    ensures ns[|ns| - 1] in FirstNodes(ns, |ns|) && ns[|ns| - 1] !in FirstNodes(ns, MAX_PATH_HOPS + 1)
  {
    assert ns[..|ns|] == ns;
  }
}
