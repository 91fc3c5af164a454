/** The order of the routes returned, and which of them a count limit leaves out
    (aegis/queries/graph.py:531-546). */
module RouteOrder {
  import opened Common
  import opened Lists
  import opened Multigraph
  import opened ShortestPaths
  import opened Routes

  // ------------------------------------------------------------ as they are listed

  /** Where the two lists first differ, the first has the smaller id. */
  ghost predicate SmallerFirst(p: seq<Id>, q: seq<Id>) {
    exists k: nat :: SmallerAt(p, q, k)
  }

  predicate SmallerAt(p: seq<Id>, q: seq<Id>, k: nat) {
    k < |p| && k < |q| && p[..k] == q[..k] && Before(p[k], q[k])
  }

  lemma SmallerInside(p: seq<Id>, q: seq<Id>, k: nat)
    requires p != [] && q != [] && p[0] == q[0]
    ensures SmallerAt(p, q, k + 1) <==> SmallerAt(p[1..], q[1..], k)
  {
    hide Before;
    if k < |p[1..]| && k < |q[1..]| {
      assert p[..k + 1] == [p[0]] + p[1..][..k] && q[..k + 1] == [q[0]] + q[1..][..k];
      assert p[1..][..k] == p[..k + 1][1..] && q[1..][..k] == q[..k + 1][1..];
    }
  }

  lemma SmallerOutside(p: seq<Id>, q: seq<Id>, k: nat)
    requires p != [] && q != [] && SmallerAt(p, q, k)
    ensures if k == 0 then Before(p[0], q[0]) else p[0] == q[0]
  {
    if k > 0 {
      assert p[0] == p[..k][0] == q[..k][0] == q[0];
    }
  }

  lemma {:induction false} ListBeforeIff(p: seq<Id>, q: seq<Id>)
    requires |p| == |q|
    ensures ListBefore(p, q) <==> SmallerFirst(p, q)
  {
    hide SmallerAt, Before;
    if p == [] {
      forall k: nat ensures !SmallerAt(p, q, k) { NoneSmaller(q, k); }
    } else {
      ListBeforeIff(p[1..], q[1..]);
      if k: nat :| SmallerAt(p, q, k) {
        SmallerOutside(p, q, k);
        if k > 0 { SmallerInside(p, q, k - 1); }
      }
      if Before(p[0], q[0]) {
        FirstSmaller(p, q);
      } else if ListBefore(p, q) {
        var k: nat :| SmallerAt(p[1..], q[1..], k);
        SmallerInside(p, q, k);
      }
    }
  }

  lemma NoneSmaller(q: seq<Id>, k: nat)
    ensures !SmallerAt([], q, k)
  {
  }

  lemma FirstSmaller(p: seq<Id>, q: seq<Id>)
    requires p != [] && q != [] && Before(p[0], q[0])
    ensures SmallerAt(p, q, 0)
  {
  }

  /** Shortest routes are listed by their entities: of two, the one with the smaller id where they
      first differ. */
  lemma ListedByEntities(rows: seq<Edge>, source: Id, target: Id, maxHops: nat, found: seq<Path>, i: nat, j: nat)
    requires InRouteOrder(found) && forall p :: p in found ==> Shortest(rows, source, target, maxHops, p)
    requires i < j < |found|
    ensures found[i].nodes == found[j].nodes || SmallerFirst(found[i].nodes, found[j].nodes)
  {
    hide Shortest;
    var p, q := found[i], found[j];
    assert p in found && q in found && !RouteBefore(q, p);
    SameLength(rows, source, target, maxHops, p, q);
    ListBeforeTotal(p.nodes, q.nodes);
    ListBeforeIff(p.nodes, q.nodes);
  }

  lemma SameLength(rows: seq<Edge>, source: Id, target: Id, maxHops: nat, p: Path, q: Path)
    requires Shortest(rows, source, target, maxHops, p) && Shortest(rows, source, target, maxHops, q)
    ensures |p.edges| == |q.edges| && |p.nodes| == |q.nodes|
  {
  }

  // ------------------------------------------------------------ as they are found

  ghost predicate StepsAscend(q: seq<Step>) {
    forall i, j | 0 <= i < j < |q| :: !Before(q[j].edge.id, q[i].edge.id)
  }

  lemma {:induction false} InsertStepSorts(x: Step, q: seq<Step>)
    requires StepsAscend(q)
    ensures StepsAscend(InsertStep(x, q))
  {
    if q == [] {
    } else if !Before(q[0].edge.id, x.edge.id) {
      FrontAscends(x, q);
    } else {
      InsertStepSorts(x, q[1..]);
      InsertStepKeeps(x, q[1..]);
      BehindAscends(x, q, InsertStep(x, q[1..]));
    }
  }

  lemma BehindAscends(x: Step, q: seq<Step>, rest: seq<Step>)
    requires StepsAscend(q) && q != [] && Before(q[0].edge.id, x.edge.id)
    requires StepsAscend(rest) && multiset(rest) == multiset(q[1..]) + multiset{x}
    ensures StepsAscend([q[0]] + rest)
  {
    hide Before;
    SameElements(rest, q[1..] + [x]);
    forall s | s in rest ensures !Before(s.edge.id, q[0].edge.id) {
      if s != x {
        var k :| 0 <= k < |q[1..]| && q[1..][k] == s;
        assert q[k + 1] == s;
      } else {
        NotBack(q[0].edge.id, x.edge.id);
      }
    }
    ConsAscends(q[0], rest);
  }

  lemma NotBack(a: Id, b: Id)
    requires Before(a, b)
    ensures !Before(b, a)
  {
    hide Before;
    BeforeIsStrictOrder();
  }

  lemma FrontAscends(x: Step, q: seq<Step>)
    requires StepsAscend(q) && q != [] && !Before(q[0].edge.id, x.edge.id)
    ensures StepsAscend([x] + q)
  {
    hide Before;
    BeforeIsStrictOrder();
    forall s | s in q ensures !Before(s.edge.id, x.edge.id) {
      var k :| 0 <= k < |q| && q[k] == s;
      BeforeTotal(q[0].edge.id, s.edge.id);
    }
    ConsAscends(x, q);
  }

  lemma ConsAscends(x: Step, q: seq<Step>)
    requires StepsAscend(q) && forall s :: s in q ==> !Before(s.edge.id, x.edge.id)
    ensures StepsAscend([x] + q)
  {
    hide Before;
    forall i, j | 0 <= i < j < |q| + 1 ensures !Before(([x] + q)[j].edge.id, ([x] + q)[i].edge.id) {
      assert ([x] + q)[j] == q[j - 1] && q[j - 1] in q;
    }
  }

  lemma {:induction false} SortStepsSorts(q: seq<Step>)
    ensures StepsAscend(SortSteps(q))
  {
    if q == [] {
    } else {
      SortStepsSorts(q[1..]);
      InsertStepSorts(q[0], SortSteps(q[1..]));
    }
  }

  /** Read back from the target, where the two first part ways the first takes the row with the larger id. */
  ghost predicate LargerBack(p: Path, q: Path) {
    exists k :: 0 <= k < |p.edges| && LargerAt(p, q, k)
  }

  ghost predicate LargerAt(p: Path, q: Path, k: nat)
    requires k < |p.edges|
  {
    |p.edges| == |q.edges| && p.edges[k + 1..] == q.edges[k + 1..] && Before(q.edges[k].id, p.edges[k].id)
  }

  ghost predicate Descends(q: seq<Path>) {
    forall i, j | 0 <= i < j < |q| :: LargerBack(q[i], q[j])
  }

  lemma WaysAscend(rows: seq<Edge>, source: Id, d: nat, n: Id)
    requires DistinctIds(rows) && n in Level(rows, source, d + 1)
    ensures var ways := Ways(rows, source, d, n);
      && (forall i :: 0 <= i < |ways| ==> ways[i].edge in rows && ways[i].near in Level(rows, source, d)
                                          && ways[i].edge.Links(ways[i].near, n))
      && forall i, j | 0 <= i < j < |ways| :: Before(ways[i].edge.id, ways[j].edge.id)
  {
    hide Before, Level, SortSteps, StepsInto;
    var ways := Ways(rows, source, d, n);
    SortStepsSorts(StepsInto(rows, Level(rows, source, d), n));
    WaysDistinct(rows, source, d, n);
    forall i | 0 <= i < |ways|
      ensures ways[i].edge in rows && ways[i].near in Level(rows, source, d) && ways[i].edge.Links(ways[i].near, n)
    {
      assert ways[i] in ways;
      WaysAre(rows, source, d, n, ways[i]);
    }
    forall i, j | 0 <= i < j < |ways| ensures Before(ways[i].edge.id, ways[j].edge.id) {
      IdsApart(rows, ways[i].edge, ways[j].edge);
      BeforeTotal(ways[i].edge.id, ways[j].edge.id);
    }
  }

  lemma IdsApart(rows: seq<Edge>, e: Edge, f: Edge)
    requires DistinctIds(rows) && e in rows && f in rows && e != f
    ensures e.id != f.id
  {
    var i :| 0 <= i < |rows| && rows[i] == e;
    var j :| 0 <= j < |rows| && rows[j] == f;
  }

  lemma {:induction false} CompletionsDescend(rows: seq<Edge>, source: Id, n: Id, d: nat, tail: Path)
    requires DistinctIds(rows) && n in Level(rows, source, d) && Tail(rows, n, tail)
    ensures Descends(Completions(rows, source, n, d, tail))
    decreases d, 0, 0
  {
    hide Level, DistinctIds, Ways, Tail, Descends, Through;
    if d == 0 {
      OneDescends(tail);
    } else {
      WaysAscend(rows, source, d - 1, n);
      ThroughDescends(rows, source, n, Ways(rows, source, d - 1, n), d - 1, tail);
    }
  }

  lemma OneDescends(p: Path)
    ensures Descends([p]) && Descends([])
  {
  }

  lemma {:induction false} ThroughDescends(rows: seq<Edge>, source: Id, n: Id, ways: seq<Step>, d: nat, tail: Path)
    requires DistinctIds(rows) && Tail(rows, n, tail)
    requires forall i :: 0 <= i < |ways| ==>
      ways[i].edge in rows && ways[i].near in Level(rows, source, d) && ways[i].edge.Links(ways[i].near, n)
    requires forall i, j | 0 <= i < j < |ways| :: Before(ways[i].edge.id, ways[j].edge.id)
    ensures Descends(Through(rows, source, ways, d, tail))
    decreases d, 1, |ways|
  {
    hide Level, DistinctIds, Descends, Completions, Tail, Completes, Before, LargerBack;
    if ways == [] {
      OneDescends(tail);
    } else {
      var step, front := ways[|ways| - 1], ways[..|ways| - 1];
      var first, rest := Completions(rows, source, step.near, d, Extend(step, tail)),
          Through(rows, source, front, d, tail);
      ExtendTail(rows, n, tail, step);
      CompletionsDescend(rows, source, step.near, d, Extend(step, tail));
      ThroughDescends(rows, source, n, front, d, tail);
      forall p, q | p in first && q in rest ensures LargerBack(p, q) {
        CompletionsSound(rows, source, step.near, d, Extend(step, tail), p);
        ExtendCompletes(rows, source, d, tail, step, p);
        ThroughSound(rows, source, n, front, d, tail, q);
        PartHere(rows, source, d, tail, p, q);
      }
      ConcatDescends(first, rest);
    }
  }

  lemma PartHere(rows: seq<Edge>, source: Id, d: nat, tail: Path, p: Path, q: Path)
    requires Completes(rows, source, d + 1, tail, p) && Completes(rows, source, d + 1, tail, q)
    requires Before(q.edges[d].id, p.edges[d].id)
    ensures LargerBack(p, q)
  {
    hide Before;
    assert LargerAt(p, q, d);
  }

  lemma ConcatDescends(p: seq<Path>, q: seq<Path>)
    requires Descends(p) && Descends(q) && forall x, y :: x in p && y in q ==> LargerBack(x, y)
    ensures Descends(p + q)
  {
    hide LargerBack;
    forall i, j | 0 <= i < j < |p + q| ensures LargerBack((p + q)[i], (p + q)[j]) {
      if j < |p| {
      } else if i < |p| {
        assert p[i] in p && q[j - |p|] in q;
      }
    }
  }

  lemma AllDescend(rows: seq<Edge>, source: Id, target: Id, maxHops: nat)
    requires DistinctIds(rows)
    ensures Descends(AllRoutes(rows, source, target, maxHops))
  {
    hide Level, Completions, Descends, DistinctIds;
    if d: nat :| d <= maxHops && target in Level(rows, source, d) {
      AllRoutesAtLevel(rows, source, target, maxHops, d);
      CompletionsDescend(rows, source, target, d, Path([target], []));
    } else {
      OneDescends(Path([], []));
    }
  }

  /** What a count limit keeps: read back from the target, every route it keeps parts from every route
      it leaves out by a row with a larger id. */
  lemma KeptAreLarger(rows: seq<Edge>, source: Id, target: Id, maxHops: nat, found: seq<Path>, p: Path, q: Path)
    requires DistinctIds(rows)
    requires var all := AllRoutes(rows, source, target, maxHops);
      |found| <= |all| && forall x :: x in found <==> x in all[..|found|]
    requires p in found && q !in found && Shortest(rows, source, target, maxHops, q)
    ensures LargerBack(p, q)
  {
    hide AllRoutes, Shortest, DistinctIds, LargerBack;
    var all := AllRoutes(rows, source, target, maxHops);
    RoutesAreAll(rows, source, target, maxHops);
    AllDescend(rows, source, target, maxHops);
    var i :| 0 <= i < |all[..|found|]| && all[..|found|][i] == p;
    var j :| 0 <= j < |all| && all[j] == q;
    assert forall k :: 0 <= k < |found| ==> all[..|found|][k] == all[k] && all[k] in found;
  }
}
