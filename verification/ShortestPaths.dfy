/** All shortest routes between two entities: a breadth-first search that stops at the level
    reaching the target, then an enumeration of the parent graph
    (aegis/queries/graph.py:484-546). */
module ShortestPaths {
  import opened Common
  import opened Multigraph

  datatype Path = Path(nodes: seq<Id>, edges: seq<Edge>)

  /** The row and the nearer entity through which a node was reached. */
  datatype Step = Step(edge: Edge, near: Id)

  ghost predicate Joins(rows: seq<Edge>, source: Id, target: Id, p: Path) {
    Connects(rows, {source}, target, p.nodes, p.edges)
  }

  /** A real route of the true distance, within the hop limit. */
  ghost predicate Shortest(rows: seq<Edge>, source: Id, target: Id, maxHops: nat, p: Path) {
    && Joins(rows, source, target, p) && |p.edges| <= maxHops
    && forall q :: Joins(rows, source, target, q) ==> |p.edges| <= |q.edges|
  }

  function Reversed(p: Path): Path { Path(Back(p.nodes), Back(p.edges)) }

  lemma BackTwice<T>(q: seq<T>)
    ensures Back(Back(q)) == q
  {
  }

  /** The shortest routes back are the shortest routes there, reversed. */
  lemma RoutesBack(rows: seq<Edge>, source: Id, target: Id, maxHops: nat, p: Path)
    ensures Shortest(rows, source, target, maxHops, p) <==> Shortest(rows, target, source, maxHops, Reversed(p))
  {
    BackTwice(p.nodes);
    BackTwice(p.edges);
    forall a, b, q | Joins(rows, a, b, q) ensures Joins(rows, b, a, Reversed(q)) {
      WalkBack(rows, a, b, q.nodes, q.edges);
    }
    hide Connects;
    if Shortest(rows, source, target, maxHops, p) {
      ShortestBack(rows, source, target, maxHops, p);
    }
    if Shortest(rows, target, source, maxHops, Reversed(p)) {
      ShortestBack(rows, target, source, maxHops, Reversed(p));
    }
  }

  lemma ShortestBack(rows: seq<Edge>, source: Id, target: Id, maxHops: nat, p: Path)
    requires Shortest(rows, source, target, maxHops, p)
    ensures Shortest(rows, target, source, maxHops, Reversed(p))
  {
    hide Connects;
    WalkBack(rows, source, target, p.nodes, p.edges);
    forall q | Joins(rows, target, source, q) ensures |p.edges| <= |q.edges| {
      WalkBack(rows, target, source, q.nodes, q.edges);
      assert Joins(rows, source, target, Reversed(q));
    }
  }

  // ------------------------------------------------------------------- levels

  ghost function Level(rows: seq<Edge>, source: Id, d: nat): set<Id> {
    if d == 0 then {source} else Within(rows, {source}, d) - Within(rows, {source}, d - 1)
  }

  /** How `n` can be entered over one row from a set of nodes. */
  function StepFrom(row: Edge, near: set<Id>, n: Id): seq<Step> {
    if row.obj == n && row.subject in near then [Step(row, row.subject)]
    else if row.subject == n && row.obj in near then [Step(row, row.obj)]
    else []
  }

  /** Every way into `n` from the set, one entry per row, in row order. */
  function StepsInto(rows: seq<Edge>, near: set<Id>, n: Id): seq<Step> {
    if rows == [] then []
    else StepsInto(rows[..|rows| - 1], near, n) + StepFrom(rows[|rows| - 1], near, n)
  }

  lemma {:induction false} StepsAre(rows: seq<Edge>, near: set<Id>, n: Id, e: Edge, m: Id)
    requires n !in near
    ensures Step(e, m) in StepsInto(rows, near, n) <==> e in rows && m in near && e.Links(m, n)
  {
    if rows == [] {
    } else {
      var last := rows[|rows| - 1];
      StepsAre(rows[..|rows| - 1], near, n, e, m);
      assert rows == rows[..|rows| - 1] + [last];
      assert e in rows <==> e in rows[..|rows| - 1] || e == last;
      assert Step(e, m) in StepFrom(last, near, n) <==> e == last && m in near && e.Links(m, n);
    }
  }

  lemma {:induction false} StepsDistinct(rows: seq<Edge>, near: set<Id>, n: Id)
    requires DistinctIds(rows)
    ensures forall i, j :: 0 <= i < j < |StepsInto(rows, near, n)| ==>
      StepsInto(rows, near, n)[i].edge != StepsInto(rows, near, n)[j].edge
    ensures forall i :: 0 <= i < |StepsInto(rows, near, n)| ==> StepsInto(rows, near, n)[i].edge in rows
  {
    if rows == [] {
    } else {
      var front, last := rows[..|rows| - 1], rows[|rows| - 1];
      StepsDistinct(front, near, n);
      assert forall e :: e in front ==> e.id != last.id;
    }
  }

  /** A node first reached at distance `d` is entered from level `d - 1` and nowhere nearer. */
  lemma LevelEntered(rows: seq<Edge>, source: Id, d: nat, n: Id)
    requires n !in Within(rows, {source}, d)
    ensures n in Within(rows, {source}, d + 1) <==> StepsInto(rows, Level(rows, source, d), n) != []
  {
    hide Within;
    WithinNext(rows, {source}, if d == 0 then 0 else d - 1);
    WithinStep(rows, {source}, d, n);
    var near := Level(rows, source, d);
    var steps := StepsInto(rows, near, n);
    if d > 0 {
      WithinStep(rows, {source}, d - 1, n);
    }
    if e, m :| e in rows && m in Within(rows, {source}, d) && e.Links(m, n) {
      assert m in near;
      StepsAre(rows, near, n, e, m);
    }
    if steps != [] {
      StepsAre(rows, near, n, steps[0].edge, steps[0].near);
      assert steps[0] == Step(steps[0].edge, steps[0].near);
      assert steps[0] in steps;
    }
  }

  // -------------------------------------------------------- breadth-first search

  function Entered(parents: map<Id, seq<Step>>, n: Id): seq<Step> {
    if n in parents then parents[n] else []
  }

  /** Depths and parents after `h` complete hops. */
  ghost predicate Searched(rows: seq<Edge>, source: Id, h: nat, depth: map<Id, nat>, parents: map<Id, seq<Step>>) {
    && depth.Keys == Within(rows, {source}, h)
    && (forall n :: n in depth ==> depth[n] <= h && n in Level(rows, source, depth[n]))
    && (forall n :: n in depth && depth[n] > 0 ==>
          Entered(parents, n) == StepsInto(rows, Level(rows, source, depth[n] - 1), n))
    && (forall n :: n !in depth ==> Entered(parents, n) == [])
  }

  /** Depths and parents while a hop is looking at its rows. */
  ghost predicate Searching(rows: seq<Edge>, near: set<Id>, h: nat, depth0: map<Id, nat>, parents0: map<Id, seq<Step>>,
                            depth: map<Id, nat>, parents: map<Id, seq<Step>>)
  {
    && (forall n :: n in depth0 ==> n in depth && depth[n] == depth0[n] && Entered(parents, n) == Entered(parents0, n))
    && (forall n :: n !in depth0 ==>
          && Entered(parents, n) == StepsInto(rows, near, n)
          && (n in depth <==> StepsInto(rows, near, n) != [])
          && (n in depth ==> depth[n] == h))
  }

  predicate Enters(depth: map<Id, nat>, near: Id, far: Id, hop: nat) {
    && near in depth && depth[near] + 1 == hop
    && !(far in depth && depth[far] < hop)
  }

  /** One row in one direction. */
  method Enter(row: Edge, near: Id, far: Id, hop: nat, depth: map<Id, nat>, parents: map<Id, seq<Step>>, frontier: set<Id>)
    returns (depth': map<Id, nat>, parents': map<Id, seq<Step>>, frontier': set<Id>)
    ensures EnteredOne(row, near, far, hop, depth, parents, depth', parents')
    ensures frontier' == frontier + (depth'.Keys - depth.Keys)
  {
    depth', parents', frontier' := depth, parents, frontier;
    if near !in depth || depth[near] + 1 != hop {
      return;
    }
    if far in depth && depth[far] < hop {
      return;
    }
    if far !in depth {
      depth' := depth[far := hop];
      frontier' := frontier + {far};
    }
    parents' := parents[far := (if far in parents then parents[far] else []) + [Step(row, near)]];
  }

  lemma StepsNext(rows: seq<Edge>, i: nat, near: set<Id>, n: Id)
    requires i < |rows|
    ensures StepsInto(rows[..i + 1], near, n) == StepsInto(rows[..i], near, n) + StepFrom(rows[i], near, n)
  {
    assert rows[..i + 1][..i] == rows[..i];
  }

  /** The nodes a hop starts from are those at the last depth. */
  ghost predicate Starts(near: set<Id>, hop: nat, depth0: map<Id, nat>) {
    && (forall n :: n in near <==> n in depth0 && depth0[n] + 1 == hop)
    && (forall n :: n in depth0 ==> depth0[n] < hop)
  }

  /** What one direction of a row does to one node. */
  ghost predicate EnteredOne(row: Edge, near: Id, far: Id, hop: nat, depth: map<Id, nat>, parents: map<Id, seq<Step>>,
                             depth': map<Id, nat>, parents': map<Id, seq<Step>>)
  {
    forall n ::
      var hit := n == far && Enters(depth, near, far, hop);
      && Entered(parents', n) == (if hit then Entered(parents, n) + [Step(row, near)] else Entered(parents, n))
      && (n in depth' <==> n in depth || hit)
      && (n in depth' ==> depth'[n] == if n in depth then depth[n] else hop)
  }

  /** The two directions together offer exactly the row's way into a new node. */
  lemma BothDirections(row: Edge, near: set<Id>, hop: nat, depth0: map<Id, nat>, n: Id,
                       depth: map<Id, nat>, parents: map<Id, seq<Step>>,
                       d1: map<Id, nat>, p1: map<Id, seq<Step>>, d2: map<Id, nat>, p2: map<Id, seq<Step>>)
    requires Starts(near, hop, depth0)
    requires forall x :: x in depth0 ==> x in depth && depth[x] == depth0[x]
    requires forall x :: x !in depth0 && x in depth ==> depth[x] == hop
    requires EnteredOne(row, row.subject, row.obj, hop, depth, parents, d1, p1)
    requires EnteredOne(row, row.obj, row.subject, hop, d1, p1, d2, p2)
    ensures n in depth0 ==> n in d2 && d2[n] == depth0[n] && Entered(p2, n) == Entered(parents, n)
    ensures n !in depth0 ==>
      && Entered(p2, n) == Entered(parents, n) + StepFrom(row, near, n)
      && (n in d2 <==> n in depth || StepFrom(row, near, n) != [])
      && (n in d2 ==> d2[n] == hop)
  {
    assert row.subject in near <==> row.subject in depth && depth[row.subject] + 1 == hop;
    assert row.obj in near <==> row.obj in d1 && d1[row.obj] + 1 == hop;
  }

  /** Both directions of one row add exactly the ways it offers into new nodes. */
  method EnterBoth(row: Edge, hop: nat, depth: map<Id, nat>, parents: map<Id, seq<Step>>, frontier: set<Id>,
                   ghost rows: seq<Edge>, ghost i: nat, ghost near: set<Id>,
                   ghost depth0: map<Id, nat>, ghost parents0: map<Id, seq<Step>>)
    returns (depth': map<Id, nat>, parents': map<Id, seq<Step>>, frontier': set<Id>)
    requires i < |rows| && row == rows[i] && Starts(near, hop, depth0)
    requires Searching(rows[..i], near, hop, depth0, parents0, depth, parents)
    requires frontier == depth.Keys - depth0.Keys && depth0.Keys <= depth.Keys
    ensures depth0.Keys <= depth'.Keys
    ensures Searching(rows[..i + 1], near, hop, depth0, parents0, depth', parents')
    ensures frontier' == depth'.Keys - depth0.Keys
  {
    hide StepsInto, StepFrom, Searching, EnteredOne, Starts;
    var d1, p1, f1 := Enter(row, row.subject, row.obj, hop, depth, parents, frontier);
    depth', parents', frontier' := Enter(row, row.obj, row.subject, hop, d1, p1, f1);
    DepthGrows(row, row.subject, row.obj, hop, depth, parents, d1, p1);
    DepthGrows(row, row.obj, row.subject, hop, d1, p1, depth', parents');
    SearchingNext(rows, i, near, hop, depth0, parents0, depth, parents, d1, p1, depth', parents');
  }

  lemma DepthGrows(row: Edge, near: Id, far: Id, hop: nat, depth: map<Id, nat>, parents: map<Id, seq<Step>>,
                   depth': map<Id, nat>, parents': map<Id, seq<Step>>)
    requires EnteredOne(row, near, far, hop, depth, parents, depth', parents')
    ensures depth.Keys <= depth'.Keys
  {
  }

  lemma SearchingNext(rows: seq<Edge>, i: nat, near: set<Id>, hop: nat,
                      depth0: map<Id, nat>, parents0: map<Id, seq<Step>>,
                      depth: map<Id, nat>, parents: map<Id, seq<Step>>,
                      d1: map<Id, nat>, p1: map<Id, seq<Step>>, d2: map<Id, nat>, p2: map<Id, seq<Step>>)
    requires i < |rows| && Starts(near, hop, depth0)
    requires Searching(rows[..i], near, hop, depth0, parents0, depth, parents)
    requires EnteredOne(rows[i], rows[i].subject, rows[i].obj, hop, depth, parents, d1, p1)
    requires EnteredOne(rows[i], rows[i].obj, rows[i].subject, hop, d1, p1, d2, p2)
    ensures Searching(rows[..i + 1], near, hop, depth0, parents0, d2, p2)
    ensures depth0.Keys <= d2.Keys
  {
    hide StepsInto, StepFrom, EnteredOne, Starts, Entered;
    forall n
      ensures n in depth0 ==> n in d2 && d2[n] == depth0[n] && Entered(p2, n) == Entered(parents0, n)
      ensures n !in depth0 ==>
        && Entered(p2, n) == StepsInto(rows[..i + 1], near, n)
        && (n in d2 <==> StepsInto(rows[..i + 1], near, n) != [])
        && (n in d2 ==> d2[n] == hop)
    {
      StepsNext(rows, i, near, n);
      BothDirections(rows[i], near, hop, depth0, n, depth, parents, d1, p1, d2, p2);
    }
  }

  /** One complete hop. */
  method SearchHop(rows: seq<Edge>, hop: nat, current: set<Id>, depth: map<Id, nat>, parents: map<Id, seq<Step>>)
    returns (depth': map<Id, nat>, parents': map<Id, seq<Step>>, frontier: set<Id>)
    requires Starts(current, hop, depth)
    requires forall n :: n !in depth ==> Entered(parents, n) == []
    ensures Searching(rows, current, hop, depth, parents, depth', parents')
    ensures frontier == depth'.Keys - depth.Keys
  {
    hide StepsInto, Searching, Starts;
    depth', parents', frontier := depth, parents, {};
    var i := 0;
    SearchingStart(current, hop, depth, parents);
    assert rows[..0] == [];
    while i < |rows|
      invariant 0 <= i <= |rows|
      invariant Searching(rows[..i], current, hop, depth, parents, depth', parents')
      invariant frontier == depth'.Keys - depth.Keys && depth.Keys <= depth'.Keys
    {
      depth', parents', frontier :=
        EnterBoth(rows[i], hop, depth', parents', frontier, rows, i, current, depth, parents);
      i := i + 1;
    }
    assert rows[..|rows|] == rows;
  }

  lemma SearchingStart(near: set<Id>, hop: nat, depth: map<Id, nat>, parents: map<Id, seq<Step>>)
    requires forall n :: n !in depth ==> Entered(parents, n) == []
    ensures Searching([], near, hop, depth, parents, depth, parents)
  {
  }

  /** A complete hop takes the search one level further. */
  lemma HopSearched(rows: seq<Edge>, source: Id, h: nat, depth: map<Id, nat>, parents: map<Id, seq<Step>>,
                    depth': map<Id, nat>, parents': map<Id, seq<Step>>)
    requires Searched(rows, source, h, depth, parents)
    requires Searching(rows, Level(rows, source, h), h + 1, depth, parents, depth', parents')
    ensures Searched(rows, source, h + 1, depth', parents')
    ensures depth'.Keys - depth.Keys == Level(rows, source, h + 1)
  {
    hide StepsInto, Within, Level, Entered;
    WithinNext(rows, {source}, h);
    LevelNext(rows, source, h);
    forall n ensures n in depth' <==> n in Within(rows, {source}, h + 1) {
      if n !in depth {
        LevelEntered(rows, source, h, n);
      }
    }
    assert depth'.Keys == Within(rows, {source}, h + 1);
    forall n | n in depth'
      ensures depth'[n] <= h + 1 && n in Level(rows, source, depth'[n])
      ensures depth'[n] > 0 ==> Entered(parents', n) == StepsInto(rows, Level(rows, source, depth'[n] - 1), n)
    {
      if n in depth {
        assert depth'[n] == depth[n];
      }
    }
    forall n | n !in depth' ensures Entered(parents', n) == [] {
      LevelEntered(rows, source, h, n);
    }
  }

  lemma LevelNext(rows: seq<Edge>, source: Id, h: nat)
    ensures Level(rows, source, h + 1) == Within(rows, {source}, h + 1) - Within(rows, {source}, h)
  {
  }

  lemma SearchStarts(rows: seq<Edge>, source: Id, h: nat, depth: map<Id, nat>, parents: map<Id, seq<Step>>)
    requires Searched(rows, source, h, depth, parents)
    ensures Starts(Level(rows, source, h), h + 1, depth)
  {
    hide Within, StepsInto;
    WithinNext(rows, {source}, if h == 0 then 0 else h - 1);
    forall n ensures n in Level(rows, source, h) <==> n in depth && depth[n] == h {
      if n in depth && depth[n] < h {
        WithinGrows(rows, {source}, depth[n], if h == 0 then 0 else h - 1);
        WithinGrows(rows, {source}, 0, depth[n]);
      }
    }
  }

  lemma SearchedStart(rows: seq<Edge>, source: Id)
    ensures Searched(rows, source, 0, map[source := 0], map[])
  {
  }

  /** Levels up to and including the target's, or all within the hop limit. */
  method Search(rows: seq<Edge>, source: Id, target: Id, maxHops: nat)
    returns (depth: map<Id, nat>, parents: map<Id, seq<Step>>, reachedAt: Option<nat>)
    requires source != target
    ensures reachedAt.Some? ==>
      && target in depth && depth[target] == reachedAt.value <= maxHops
      && Searched(rows, source, reachedAt.value, depth, parents)
    ensures reachedAt.None? ==> target !in Within(rows, {source}, maxHops)
  {
    hide Within, StepsInto, Searched, Searching, Starts, Level;
    depth, parents, reachedAt := map[source := 0], map[], None;
    var frontier := {source};
    var h := 0;
    SearchedStart(rows, source);
    LevelZero(rows, source);
    while h < maxHops && frontier != {} && reachedAt.None?
      invariant 0 <= h <= maxHops
      invariant Searched(rows, source, h, depth, parents)
      invariant reachedAt.None? ==> frontier == Level(rows, source, h) && target !in depth
      invariant reachedAt.Some? ==> target in depth && depth[target] == reachedAt.value == h
    {
      SearchStarts(rows, source, h, depth, parents);
      UnreachedHaveNoParents(rows, source, h, depth, parents);
      ghost var depth0, parents0 := depth, parents;
      depth, parents, frontier := SearchHop(rows, h + 1, frontier, depth, parents);
      HopSearched(rows, source, h, depth0, parents0, depth, parents);
      NewDepth(rows, Level(rows, source, h), h + 1, depth0, parents0, depth, parents);
      h := h + 1;
      if target in depth {
        reachedAt := Some(depth[target]);
      }
    }
    if reachedAt.None? {
      SearchMissed(rows, source, h, depth, parents, frontier, maxHops);
    }
  }

  lemma LevelZero(rows: seq<Edge>, source: Id)
    ensures Level(rows, source, 0) == {source}
  {
  }

  lemma UnreachedHaveNoParents(rows: seq<Edge>, source: Id, h: nat, depth: map<Id, nat>, parents: map<Id, seq<Step>>)
    requires Searched(rows, source, h, depth, parents)
    ensures forall n :: n !in depth ==> Entered(parents, n) == []
  {
  }

  lemma NewDepth(rows: seq<Edge>, near: set<Id>, h: nat, depth0: map<Id, nat>, parents0: map<Id, seq<Step>>,
                 depth: map<Id, nat>, parents: map<Id, seq<Step>>)
    requires Searching(rows, near, h, depth0, parents0, depth, parents)
    ensures forall n :: n !in depth0 && n in depth ==> depth[n] == h
  {
  }

  lemma SearchMissed(rows: seq<Edge>, source: Id, h: nat, depth: map<Id, nat>, parents: map<Id, seq<Step>>,
                     frontier: set<Id>, maxHops: nat)
    requires Searched(rows, source, h, depth, parents) && frontier == Level(rows, source, h)
    requires h <= maxHops && (h == maxHops || frontier == {})
    ensures depth.Keys == Within(rows, {source}, maxHops)
  {
    hide StepsInto, Within;
    WithinNext(rows, {source}, if h == 0 then 0 else h - 1);
    if h < maxHops {
      assert h > 0;
      var far, near := Within(rows, {source}, h), Within(rows, {source}, h - 1);
      assert far <= near + (far - near);
      assert far == near;
      WithinStable(rows, {source}, h - 1, maxHops);
    }
  }
}
