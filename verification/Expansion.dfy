/** Hop-limited expansion under one budget for nodes and edges
    (aegis/queries/graph.py:209-224, 311-427). */
module Expansion {
  import opened Common
  import opened Lists
  import opened Store
  import opened Multigraph

  const MAX_HOPS := 3
  const MAX_ELEMENTS := 2000
  const MAX_SEEDS := 100

  function Clamp(low: int, x: int, high: int): int {
    var y := if x < high then x else high;
    if y < low then low else y
  }

  /** Admits rows while nodes and edges together stay inside the cap. */
  class Budget {
    const max: int
    var reached: set<Id>
    var edges: nat
    var full: bool

    constructor (max: int, reached: set<Id>)
      ensures this.max == max && this.reached == reached && edges == 0 && !full
    {
      this.max := max;
      this.reached := reached;
      edges := 0;
      full := false;
    }

    /** Takes the row and returns its new endpoints, or nothing when it does not fit. */
    method Admit(row: Edge) returns (added: Option<set<Id>>)
      modifies this
      ensures added.None? <==> old(edges) + |old(reached) + row.Ends()| + 1 > max
      ensures added.None? ==> full && reached == old(reached) && edges == old(edges)
      ensures added.Some? ==>
        && added.value == row.Ends() - old(reached)
        && reached == old(reached) + row.Ends() && edges == old(edges) + 1 && full == old(full)
    {
      var ends := {row.subject, row.obj} - reached;
      assert reached + row.Ends() == reached + ends && reached !! ends;
      if edges + |reached| + |ends| + 1 > max {
        full := true;
        return None;
      }
      edges := edges + 1;
      reached := reached + ends;
      return Some(ends);
    }
  }

  // -------------------------------------------------------------------- seeds

  ghost predicate SeedResolves(canonical: map<Id, Id>, seeds: seq<Id>, x: Id) {
    exists i :: 0 <= i < |seeds| && Lookup(canonical, seeds[i]) == x
  }

  lemma SeedSplit(canonical: map<Id, Id>, seeds: seq<Id>, x: Id)
    requires seeds != []
    ensures SeedResolves(canonical, seeds, x)
      <==> x == Lookup(canonical, seeds[|seeds| - 1]) || SeedResolves(canonical, seeds[..|seeds| - 1], x)
  {
    var front := seeds[..|seeds| - 1];
    if i :| 0 <= i < |front| && Lookup(canonical, front[i]) == x {
      assert seeds[i] == front[i];
    }
    if i :| 0 <= i < |seeds| && Lookup(canonical, seeds[i]) == x {
      if i < |front| { assert front[i] == seeds[i]; }
    }
  }

  /** Each answer where it first appears. */
  function FirstSeen(canonical: map<Id, Id>, seeds: seq<Id>): seq<Id> {
    if seeds == [] then []
    else
      var before := FirstSeen(canonical, seeds[..|seeds| - 1]);
      var e := Lookup(canonical, seeds[|seeds| - 1]);
      if e in before then before else before + [e]
  }

  lemma {:induction false} FirstSeenIs(canonical: map<Id, Id>, seeds: seq<Id>)
    ensures forall x :: x in FirstSeen(canonical, seeds) <==> SeedResolves(canonical, seeds, x)
    ensures NoRepeats(FirstSeen(canonical, seeds))
  {
    hide SeedResolves;
    if seeds == [] {
      NoSeeds(canonical);
    } else {
      FirstSeenIs(canonical, seeds[..|seeds| - 1]);
      forall x ensures x in FirstSeen(canonical, seeds) <==> SeedResolves(canonical, seeds, x) {
        SeedSplit(canonical, seeds, x);
      }
    }
  }

  lemma NoSeeds(canonical: map<Id, Id>)
    ensures forall x :: !SeedResolves(canonical, [], x)
  {
  }

  /** Seeds resolved through the map, each answer once, in order of first appearance. */
  method ResolveSeeds(canonical: map<Id, Id>, seeds: seq<Id>) returns (out: seq<Id>)
    ensures out == FirstSeen(canonical, seeds)
    ensures forall x :: x in out <==> SeedResolves(canonical, seeds, x)
    ensures NoRepeats(out)
  {
    hide SeedResolves;
    out := [];
    var i := 0;
    while i < |seeds|
      invariant 0 <= i <= |seeds|
      invariant out == FirstSeen(canonical, seeds[..i])
    {
      assert seeds[..i + 1][..i] == seeds[..i];
      var e := Lookup(canonical, seeds[i]);
      if e !in out {
        out := out + [e];
      }
      i := i + 1;
    }
    assert seeds[..|seeds|] == seeds;
    FirstSeenIs(canonical, seeds);
  }

  // ----------------------------------------------------------------- the walk

  /** The rows a walk of `hops` hops is about: an endpoint at distance below the limit. */
  function Wanted(rows: seq<Edge>, seeds: set<Id>, hops: nat): set<Edge> {
    if hops == 0 then {} else Touching(rows, Within(rows, seeds, hops - 1))
  }

  lemma {:induction false} WantedGrows(rows: seq<Edge>, seeds: set<Id>, j: nat, k: nat)
    requires j <= k
    ensures Wanted(rows, seeds, j) <= Wanted(rows, seeds, k)
  {
    hide Within;
    if j == 0 {
    } else {
      WithinGrows(rows, seeds, j - 1, k - 1);
    }
  }

  /** The walk before hop `h`: everything of the earlier hops, and the last layer to go on from. */
  ghost predicate Layer(rows: seq<Edge>, seeds: set<Id>, h: nat, frontier: set<Id>, collected: set<Edge>) {
    && collected == Wanted(rows, seeds, h)
    && (if h == 0 then frontier == seeds
        else frontier == Within(rows, seeds, h) - Within(rows, seeds, h - 1))
  }

  /** Everything of the first `h` hops and nothing beyond the next: cut mid-hop, if at all. */
  ghost predicate CutAt(rows: seq<Edge>, seeds: set<Id>, collected: set<Edge>, h: nat) {
    Wanted(rows, seeds, h) <= collected <= Wanted(rows, seeds, h + 1)
  }

  lemma NoEnds()
    ensures EndsOf({}) == {}
  {
  }

  lemma ReachedIsWithin(rows: seq<Edge>, seeds: set<Id>, h: nat)
    ensures seeds + EndsOf(Wanted(rows, seeds, h)) == Within(rows, seeds, h)
  {
    hide Within, Touching, EndsOf;
    WithinNext(rows, seeds, if h == 0 then 0 else h - 1);
    if h == 0 {
      assert EndsOf({}) == {} by { NoEnds(); }
    } else {
      var near := Within(rows, seeds, h - 1);
      WithinGrows(rows, seeds, 0, h - 1);
      forall n | n in near ensures n in seeds + EndsOf(Touching(rows, near)) {
        NearIsReached(rows, seeds, h - 1, n);
      }
    }
  }

  lemma {:induction false} NearIsReached(rows: seq<Edge>, seeds: set<Id>, k: nat, n: Id)
    requires n in Within(rows, seeds, k)
    ensures n in seeds || n in EndsOf(Touching(rows, Within(rows, seeds, k)))
  {
    if n in seeds {
    } else {
      var near := Within(rows, seeds, k - 1);
      if n in near {
        NearIsReached(rows, seeds, k - 1, n);
      }
      InEnds(Touching(rows, near), n);
      var e :| e in Touching(rows, near) && n in e.Ends();
      assert e in Touching(rows, Within(rows, seeds, k));
      InEnds(Touching(rows, Within(rows, seeds, k)), n);
    }
  }

  /** A whole hop adds exactly the rows touching the frontier. */
  lemma HopDone(rows: seq<Edge>, seeds: set<Id>, h: nat, frontier: set<Id>, before: set<Edge>, after: set<Edge>)
    requires Layer(rows, seeds, h, frontier, before)
    requires after == before + Touching(rows, frontier)
    ensures after == Wanted(rows, seeds, h + 1)
    ensures Layer(rows, seeds, h + 1, Within(rows, seeds, h + 1) - Within(rows, seeds, h), after)
  {
    hide Within;
    WithinNext(rows, seeds, if h == 0 then 0 else h - 1);
    if h > 0 { WithinGrows(rows, seeds, h - 1, h); }
  }

  lemma EmptyFrontier(rows: seq<Edge>, seeds: set<Id>, h: nat, collected: set<Edge>, hops: nat)
    requires Layer(rows, seeds, h, {}, collected) && h <= hops
    ensures collected == Wanted(rows, seeds, hops)
  {
    hide Within;
    WithinNext(rows, seeds, if h == 0 then 0 else h - 1);
    if h == 0 {
      if hops > 0 {
        assert EndsOf(Touching(rows, {})) == {};
        WithinStable(rows, seeds, 0, hops - 1);
      }
    } else {
      WithinGrows(rows, seeds, h - 1, h);
      var near, far := Within(rows, seeds, h - 1), Within(rows, seeds, h);
      assert far <= near + (far - near);
      assert far == near;
      if hops > h {
        WithinStable(rows, seeds, h - 1, hops - 1);
      }
    }
  }

  // -------------------------------------------------------------- what fits the budget

  /** The rows and every node reached with them are more than the budget allows. */
  predicate Over(seeds: set<Id>, es: set<Edge>, max: int) { |es| + |seeds + EndsOf(es)| > max }

  lemma {:induction false} SubsetSize<T>(a: set<T>, b: set<T>)
    requires a <= b
    ensures |a| <= |b|
  {
    if a == {} {
    } else {
      var x :| x in a;
      SubsetSize(a - {x}, b - {x});
    }
  }

  /** More rows never fit where fewer did not. */
  lemma OverGrows(seeds: set<Id>, few: set<Edge>, many: set<Edge>, max: int)
    requires few <= many && Over(seeds, few, max)
    ensures Over(seeds, many, max)
  {
    hide EndsOf;
    forall n | n in EndsOf(few) ensures n in EndsOf(many) {
      InEnds(few, n);
      InEnds(many, n);
    }
    SubsetSize(few, many);
    SubsetSize(seeds + EndsOf(few), seeds + EndsOf(many));
  }

  function Prefix(rows: seq<Edge>, i: nat): set<Edge>
    requires i <= |rows|
  {
    RowSet(rows[..i])
  }

  lemma PrefixMore(rows: seq<Edge>, i: nat)
    requires i < |rows|
    ensures Prefix(rows, i + 1) == Prefix(rows, i) + {rows[i]}
  {
    assert rows[..i + 1] == rows[..i] + [rows[i]];
  }

  lemma PrefixWhole(rows: seq<Edge>, i: nat)
    requires i <= |rows|
    ensures Prefix(rows, i) <= Prefix(rows, |rows|)
    ensures Prefix(rows, |rows|) == RowSet(rows)
  {
    assert rows[..|rows|] == rows;
  }

  lemma PrefixTaken(p: seq<Edge>, q: seq<Edge>)
    requires p <= q
    ensures Prefix(q, |p|) == RowSet(p)
  {
    assert q[..|p|] == p;
  }

  /** The rows of `some`, in row order. */
  function Among(rows: seq<Edge>, some: set<Edge>): seq<Edge> {
    if rows == [] then []
    else Among(rows[..|rows| - 1], some) + if rows[|rows| - 1] in some then [rows[|rows| - 1]] else []
  }

  lemma {:induction false} AmongAre(rows: seq<Edge>, some: set<Edge>)
    ensures forall e :: e in Among(rows, some) <==> e in rows && e in some
  {
    if rows == [] {
    } else {
      AmongAre(rows[..|rows| - 1], some);
      assert rows == rows[..|rows| - 1] + [rows[|rows| - 1]];
    }
  }

  lemma {:induction false} AmongGrows(rows: seq<Edge>, some: set<Edge>, i: nat)
    requires i <= |rows|
    ensures Among(rows[..i], some) <= Among(rows, some)
  {
    if i == |rows| {
      assert rows[..i] == rows;
    } else {
      AmongGrows(rows[..|rows| - 1], some, i);
      assert rows[..|rows| - 1][..i] == rows[..i];
    }
  }

  lemma AmongNext(rows: seq<Edge>, some: set<Edge>, i: nat)
    requires i < |rows|
    ensures Among(rows[..i + 1], some) == Among(rows[..i], some) + if rows[i] in some then [rows[i]] else []
  {
    assert rows[..i + 1][..i] == rows[..i];
  }

  /** The wanted rows as the walk comes to them: nearer hops first, row order inside a hop. */
  function WalkOrder(rows: seq<Edge>, seeds: set<Id>, hops: nat): seq<Edge> {
    if hops == 0 then []
    else WalkOrder(rows, seeds, hops - 1)
         + Among(rows, Wanted(rows, seeds, hops) - Wanted(rows, seeds, hops - 1))
  }

  lemma {:induction false} WalkOrderIsWanted(rows: seq<Edge>, seeds: set<Id>, hops: nat)
    ensures RowSet(WalkOrder(rows, seeds, hops)) == Wanted(rows, seeds, hops)
  {
    if hops == 0 {
    } else {
      hide Wanted;
      WalkOrderIsWanted(rows, seeds, hops - 1);
      WantedGrows(rows, seeds, hops - 1, hops);
      AmongAre(rows, Wanted(rows, seeds, hops) - Wanted(rows, seeds, hops - 1));
      WantedAreRows(rows, seeds, hops);
    }
  }

  lemma WantedAreRows(rows: seq<Edge>, seeds: set<Id>, hops: nat)
    ensures forall e :: e in Wanted(rows, seeds, hops) ==> e in rows
  {
  }

  lemma {:induction false} WalkOrderGrows(rows: seq<Edge>, seeds: set<Id>, j: nat, k: nat)
    requires j <= k
    ensures WalkOrder(rows, seeds, j) <= WalkOrder(rows, seeds, k)
    decreases k - j
  {
    hide Wanted, Among;
    if j == k {
    } else {
      WalkOrderGrows(rows, seeds, j, k - 1);
    }
  }

  /** As much of the list as fits, from its front: the first `n` rows, and the next one does not
      fit any more. */
  ghost predicate LongestFit(order: seq<Edge>, seeds: set<Id>, max: int, es: set<Edge>, n: nat) {
    && n <= |order| && es == Prefix(order, n)
    && (n > 0 ==> !Over(seeds, es, max))
    && (n < |order| ==> Over(seeds, Prefix(order, n + 1), max))
  }

  ghost predicate FitsFromFront(order: seq<Edge>, seeds: set<Id>, max: int, es: set<Edge>) {
    exists n: nat :: LongestFit(order, seeds, max, es, n)
  }

  /** Something is left over exactly when the whole list is too much. */
  lemma LeftOverIff(order: seq<Edge>, seeds: set<Id>, max: int, es: set<Edge>)
    requires FitsFromFront(order, seeds, max, es)
    ensures var all := RowSet(order);
      es <= all && (es != all <==> all != {} && Over(seeds, all, max))
  {
    hide Over;
    var n: nat :| LongestFit(order, seeds, max, es, n);
    PrefixWhole(order, n);
    if n < |order| {
      PrefixWhole(order, n + 1);
      OverGrows(seeds, Prefix(order, n + 1), Prefix(order, |order|), max);
      assert order[n] in order;
    }
  }

  /** What the budget has admitted so far. */
  ghost predicate Spent(budget: Budget, seeds: set<Id>, collected: set<Edge>)
    reads budget
  {
    && budget.reached == seeds + EndsOf(collected)
    && budget.edges == |collected|
    && (collected == {} || |collected| + |budget.reached| <= budget.max)
  }

  lemma EndsOfOneMore(es: set<Edge>, row: Edge)
    ensures EndsOf(es + {row}) == EndsOf(es) + row.Ends()
  {
    forall n ensures n in EndsOf(es + {row}) <==> n in EndsOf(es) + row.Ends() {
      InEnds(es + {row}, n);
      InEnds(es, n);
      if n in row.Ends() { assert row in es + {row}; }
    }
  }

  lemma SpendOne(seeds: set<Id>, collected: set<Edge>, row: Edge)
    requires row !in collected
    ensures EndsOf(collected + {row}) == EndsOf(collected) + row.Ends()
    ensures |collected + {row}| == |collected| + 1
  {
    EndsOfOneMore(collected, row);
  }

  method AdmitRow(budget: Budget, row: Edge, before: set<Edge>, ghost seeds: set<Id>)
    returns (after: set<Edge>, added: set<Id>)
    requires Spent(budget, seeds, before) && row !in before
    modifies budget
    ensures Spent(budget, seeds, after)
    ensures after == before || after == before + {row}
    ensures old(budget.full) ==> budget.full
    ensures !old(budget.full) ==> (budget.full <==> after == before)
    ensures old(budget.reached) <= budget.reached && added == budget.reached - old(budget.reached)
    ensures |after| == |before| + if after == before then 0 else 1
    ensures after == before ==> Over(seeds, before + {row}, budget.max)
  {
    hide EndsOf;
    SpendOne(seeds, before, row);
    assert seeds + EndsOf(before + {row}) == seeds + EndsOf(before) + row.Ends();
    var fits := budget.Admit(row);
    if fits.Some? {
      after, added := before + {row}, fits.value;
    } else {
      after, added := before, {};
    }
  }

  lemma InTouching(rows: seq<Edge>, nodes: set<Id>)
    ensures forall e :: e in Touching(rows, nodes) <==> e in rows && Touches(e, nodes)
  {
  }

  /** The rows of a hop, as they are looked at, up to the first that did not fit. */
  ghost predicate HopTook(q: seq<Edge>, seeds: set<Id>, max: int, before: set<Edge>, after: set<Edge>,
                          taken: seq<Edge>, full: bool)
  {
    && taken <= q && after == before + RowSet(taken)
    && (full <==> taken != q)
    && (full ==> Over(seeds, before + Prefix(q, |taken| + 1), max))
  }

  /** One hop: the rows touching the frontier, in order, until the budget is full. */
  method Hop(rows: seq<Edge>, frontier: set<Id>, budget: Budget, before: set<Edge>, ghost seeds: set<Id>)
    returns (after: set<Edge>, next: set<Id>, ghost taken: seq<Edge>)
    requires !budget.full && Spent(budget, seeds, before)
    modifies budget
    ensures Spent(budget, seeds, after)
    ensures before <= after <= before + Touching(rows, frontier)
    ensures budget.full <==> after != before + Touching(rows, frontier)
    ensures next == budget.reached - old(budget.reached)
    ensures HopTook(Among(rows, Touching(rows, frontier) - before), seeds, budget.max, before, after, taken,
                    budget.full)
  {
    hide EndsOf, Touching, Spent, Among, Over, Prefix;
    after, next, taken := before, {}, [];
    ghost var wanted := Touching(rows, frontier);
    ghost var q := Among(rows, wanted - before);
    InTouching(rows, frontier);
    AmongNone(wanted - before);
    var i := 0;
    while i < |rows| && !budget.full
      invariant 0 <= i <= |rows|
      invariant Spent(budget, seeds, after)
      invariant before <= after <= before + wanted && after == before + RowSet(taken)
      invariant next == budget.reached - old(budget.reached) && old(budget.reached) <= budget.reached
      invariant !budget.full ==> forall k :: 0 <= k < i && Touches(rows[k], frontier) ==> rows[k] in after
      invariant budget.full ==> after != before + wanted
      invariant !budget.full ==> taken == Among(rows[..i], wanted - before)
      invariant budget.full ==> HopTook(q, seeds, budget.max, before, after, taken, true)
    {
      var row := rows[i];
      AmongNext(rows, wanted - before, i);
      if Touches(row, frontier) && row !in after {
        assert row in wanted;
        ghost var was := after;
        var added;
        after, added := AdmitRow(budget, row, after, seeds);
        next := next + added;
        if budget.full {
          RefusedHere(rows, wanted - before, i, seeds, budget.max, before, after, taken);
        } else {
          taken := taken + [row];
        }
      } else if Touches(row, frontier) && row !in before {
        taken := taken + [row];
      }
      i := i + 1;
    }
    if !budget.full {
      assert forall e :: e in wanted ==> e in after;
      assert rows[..|rows|] == rows;
    }
  }

  lemma AmongNone(some: set<Edge>)
    ensures forall rows: seq<Edge> :: Among(rows[..0], some) == []
  {
  }

  /** The row at `i` was wanted and did not fit beside what was taken. */
  lemma RefusedHere(rows: seq<Edge>, some: set<Edge>, i: nat, seeds: set<Id>, max: int, before: set<Edge>,
                    after: set<Edge>, taken: seq<Edge>)
    requires i < |rows| && rows[i] in some && taken == Among(rows[..i], some)
    requires after == before + RowSet(taken) && Over(seeds, after + {rows[i]}, max)
    ensures HopTook(Among(rows, some), seeds, max, before, after, taken, true)
  {
    hide Over, Among;
    var q := Among(rows, some);
    AmongNext(rows, some, i);
    AmongGrows(rows, some, i + 1);
    PrefixTaken(taken + [rows[i]], q);
    assert before + Prefix(q, |taken| + 1) == after + {rows[i]};
  }

  /** A hop that ran over leaves the longest front of the whole walk that fits. */
  lemma CutFits(rows: seq<Edge>, seeds: set<Id>, h: nat, hops: nat, max: int, after: set<Edge>, taken: seq<Edge>)
    requires h < hops
    requires var W := Wanted(rows, seeds, h);
      HopTook(Among(rows, Wanted(rows, seeds, h + 1) - W), seeds, max, W, after, taken, true)
    requires after != {} ==> !Over(seeds, after, max)
    ensures FitsFromFront(WalkOrder(rows, seeds, hops), seeds, max, after)
  {
    hide Wanted, Over, Among, WalkOrder, Prefix, RowSet;
    var front, q := WalkOrder(rows, seeds, h), Among(rows, Wanted(rows, seeds, h + 1) - Wanted(rows, seeds, h));
    var order, more := WalkOrder(rows, seeds, hops), q[..|taken| + 1];
    WalkOrderIsWanted(rows, seeds, h);
    WalkOrderNext(rows, seeds, h);
    WalkOrderGrows(rows, seeds, h + 1, hops);
    PrefixTaken(front + taken, order);
    PrefixTaken(front + more, order);
    PrefixTaken(more, q);
    RowSetConcat(front, taken);
    RowSetConcat(front, more);
    assert LongestFit(order, seeds, max, after, |front| + |taken|);
  }

  lemma WalkOrderNext(rows: seq<Edge>, seeds: set<Id>, h: nat)
    ensures WalkOrder(rows, seeds, h + 1)
      == WalkOrder(rows, seeds, h) + Among(rows, Wanted(rows, seeds, h + 1) - Wanted(rows, seeds, h))
  {
  }

  lemma RowSetConcat(p: seq<Edge>, q: seq<Edge>)
    ensures RowSet(p + q) == RowSet(p) + RowSet(q)
    ensures p + q != [] ==> RowSet(p + q) != {}
  {
    if p + q != [] {
      assert (p + q)[0] in RowSet(p + q);
    }
  }

  lemma AllFits(rows: seq<Edge>, seeds: set<Id>, hops: nat, max: int)
    requires Wanted(rows, seeds, hops) != {} ==> !Over(seeds, Wanted(rows, seeds, hops), max)
    ensures FitsFromFront(WalkOrder(rows, seeds, hops), seeds, max, Wanted(rows, seeds, hops))
  {
    hide Wanted, Over;
    var order := WalkOrder(rows, seeds, hops);
    WalkOrderIsWanted(rows, seeds, hops);
    PrefixWhole(order, |order|);
    if |order| > 0 {
      assert order[0] in Wanted(rows, seeds, hops);
    }
    assert LongestFit(order, seeds, max, Wanted(rows, seeds, hops), |order|);
  }

  lemma SpentFits(budget: Budget, seeds: set<Id>, collected: set<Edge>)
    requires Spent(budget, seeds, collected)
    ensures collected != {} ==> !Over(seeds, collected, budget.max)
  {
  }

  /** A walk that has overrun its budget: cut inside hop `h`, with the longest front that fits. */
  ghost predicate Stopped(rows: seq<Edge>, seeds: set<Id>, hops: nat, max: int, collected: set<Edge>) {
    && collected < Wanted(rows, seeds, hops)
    && FitsFromFront(WalkOrder(rows, seeds, hops), seeds, max, collected)
    && exists h: nat :: h <= hops && CutAt(rows, seeds, collected, h)
  }

  /** One hop of the walk: a whole layer more, or the end of it. */
  method WalkHop(rows: seq<Edge>, seeds: set<Id>, h: nat, ghost hops: nat, frontier: set<Id>, budget: Budget,
                 before: set<Edge>)
    returns (after: set<Edge>, next: set<Id>)
    requires h < hops && !budget.full && Spent(budget, seeds, before) && Layer(rows, seeds, h, frontier, before)
    modifies budget
    ensures Spent(budget, seeds, after)
    ensures !budget.full ==> Layer(rows, seeds, h + 1, next, after)
    ensures budget.full ==> Stopped(rows, seeds, hops, budget.max, after)
  {
    hide Within, EndsOf, Touching, CutAt, Over, FitsFromFront, HopTook, Among, WalkOrder;
    ghost var taken;
    ReachedIsWithin(rows, seeds, h);
    WantedGrows(rows, seeds, h + 1, hops);
    HopDone(rows, seeds, h, frontier, before, before + Touching(rows, frontier));
    assert Touching(rows, frontier) - before == Wanted(rows, seeds, h + 1) - Wanted(rows, seeds, h);
    after, next, taken := Hop(rows, frontier, budget, before, seeds);
    if budget.full {
      CutBetween(rows, seeds, before, after, h);
      SpentFits(budget, seeds, after);
      CutFits(rows, seeds, h, hops, budget.max, after, taken);
    } else {
      ReachedIsWithin(rows, seeds, h + 1);
      assert next == Within(rows, seeds, h + 1) - Within(rows, seeds, h);
    }
  }

  /** Breadth-first expansion. The result is what fits of the wanted rows, nearer hops first and
      in row order, and `truncated` says exactly that they do not all fit. */
  method BreadthFirst(rows: seq<Edge>, seeds: set<Id>, hops: nat, maxElements: int)
    returns (collected: set<Edge>, truncated: bool)
    ensures collected <= Wanted(rows, seeds, hops)
    ensures FitsFromFront(WalkOrder(rows, seeds, hops), seeds, maxElements, collected)
    ensures truncated <==> collected != Wanted(rows, seeds, hops)
    ensures truncated <==> Wanted(rows, seeds, hops) != {} && Over(seeds, Wanted(rows, seeds, hops), maxElements)
    ensures exists h: nat :: h <= hops && CutAt(rows, seeds, collected, h)
    ensures |seeds| <= maxElements ==> |collected| + |seeds + EndsOf(collected)| <= maxElements
    ensures |seeds| >= maxElements ==> collected == {}
  {
    hide Within, EndsOf, Touching, CutAt, Over, FitsFromFront, Wanted, WalkOrder;
    var budget := new Budget(maxElements, seeds);
    var frontier := seeds;
    collected := {};
    NoEnds();
    WantedNone(rows, seeds);
    var h := 0;
    while h < hops && frontier != {} && !budget.full
      invariant 0 <= h <= hops
      invariant fresh(budget) && budget.max == maxElements
      invariant Spent(budget, seeds, collected)
      invariant !budget.full ==> Layer(rows, seeds, h, frontier, collected)
      invariant budget.full ==> Stopped(rows, seeds, hops, maxElements, collected)
    {
      hide Spent, Layer, Stopped;
      collected, frontier := WalkHop(rows, seeds, h, hops, frontier, budget, collected);
      h := h + 1;
    }
    if !budget.full {
      if frontier == {} {
        EmptyFrontier(rows, seeds, h, collected, hops);
      }
      WantedGrows(rows, seeds, hops, hops + 1);
      CutBetween(rows, seeds, collected, collected, hops);
      SpentFits(budget, seeds, collected);
      AllFits(rows, seeds, hops, maxElements);
    }
    truncated := budget.full;
    WalkOrderIsWanted(rows, seeds, hops);
    LeftOverIff(WalkOrder(rows, seeds, hops), seeds, maxElements, collected);
    BudgetHeld(seeds, collected, maxElements);
  }

  lemma WantedNone(rows: seq<Edge>, seeds: set<Id>)
    ensures Wanted(rows, seeds, 0) == {}
  {
  }

  lemma CutBetween(rows: seq<Edge>, seeds: set<Id>, before: set<Edge>, after: set<Edge>, h: nat)
    requires before == Wanted(rows, seeds, h) && before <= after <= Wanted(rows, seeds, h + 1)
    ensures CutAt(rows, seeds, after, h)
  {
  }

  lemma BudgetHeld(seeds: set<Id>, collected: set<Edge>, max: int)
    requires collected == {} || |collected| + |seeds + EndsOf(collected)| <= max
    ensures |seeds| <= max ==> |collected| + |seeds + EndsOf(collected)| <= max
    ensures |seeds| >= max ==> collected == {}
  {
    if collected == {} {
      NoEnds();
      assert seeds + {} == seeds;
    } else {
      SubsetSize(seeds, seeds + EndsOf(collected));
    }
  }

  lemma PrefixNext(rows: seq<Edge>, i: nat)
    requires DistinctIds(rows) && i < |rows|
    ensures rows[i] !in Prefix(rows, i) && Prefix(rows, i + 1) == Prefix(rows, i) + {rows[i]}
  {
    PrefixMore(rows, i);
    forall k | 0 <= k < i ensures rows[k] != rows[i] { assert rows[k].id != rows[i].id; }
  }

  lemma {:induction false} PrefixSize(rows: seq<Edge>, i: nat)
    requires DistinctIds(rows) && i <= |rows|
    ensures |Prefix(rows, i)| == i
  {
    hide Prefix, DistinctIds;
    if i == 0 {
      PrefixNone(rows);
    } else {
      PrefixNext(rows, i - 1);
      PrefixSize(rows, i - 1);
    }
  }

  lemma PrefixNone(rows: seq<Edge>)
    ensures Prefix(rows, 0) == {}
  {
  }

  /** Every row is judged in its turn: taken if it fits beside the rows taken before it. */
  ghost predicate TakenInTurn(rows: seq<Edge>, max: int, es: set<Edge>) {
    && (forall e | e in es :: e in rows)
    && forall k | 0 <= k < |rows| :: rows[k] in es <==> !Over({}, es * Prefix(rows, k) + {rows[k]}, max)
  }

  /** So no row that was passed over fits beside what was taken. */
  lemma NothingElseFits(rows: seq<Edge>, max: int, es: set<Edge>, k: nat)
    requires TakenInTurn(rows, max, es) && k < |rows| && rows[k] !in es
    ensures Over({}, es + {rows[k]}, max)
  {
    hide Over, Prefix;
    OverGrows({}, es * Prefix(rows, k) + {rows[k]}, es + {rows[k]}, max);
  }

  lemma TurnNext(rows: seq<Edge>, i: nat, max: int, es: set<Edge>, after: set<Edge>)
    requires DistinctIds(rows) && i < |rows| && TakenInTurn(rows[..i], max, es)
    requires after == if Over({}, es + {rows[i]}, max) then es else es + {rows[i]}
    ensures TakenInTurn(rows[..i + 1], max, after)
  {
    hide Over;
    var p, q := rows[..i], rows[..i + 1];
    PrefixNext(rows, i);
    forall k | 0 <= k < |q| ensures q[k] in after <==> !Over({}, after * Prefix(q, k) + {q[k]}, max) {
      assert q[..k] == rows[..k];
      if k < i {
        assert p[k] == q[k] && p[..k] == rows[..k];
        assert rows[i] !in Prefix(rows, k) && q[k] != rows[i] by { DistinctRows(rows, k, i); }
        assert after * Prefix(q, k) == es * Prefix(p, k);
      } else {
        assert after * Prefix(q, i) == es;
      }
    }
  }

  lemma DistinctRows(rows: seq<Edge>, k: nat, i: nat)
    requires DistinctIds(rows) && k < i < |rows|
    ensures rows[k] != rows[i] && rows[i] !in Prefix(rows, k)
  {
    forall l | 0 <= l < i ensures rows[l] != rows[i] { assert rows[l].id != rows[i].id; }
  }

  /** One row too many is fetched, to tell whether there are more. */
  function Fetched(rows: seq<Edge>, max: nat): seq<Edge> {
    if |rows| > max + 1 then rows[..max + 1] else rows
  }

  /** The overview without seeds: of the fetched rows, each that fits when its turn comes. Later
      rows may still fit after one that did not. */
  method Overview(rows: seq<Edge>, maxElements: nat) returns (collected: set<Edge>, truncated: bool)
    requires DistinctIds(rows)
    ensures collected <= RowSet(rows)
    ensures TakenInTurn(Fetched(rows, maxElements), maxElements, collected)
    ensures truncated <==> collected != RowSet(rows)
    ensures truncated <==> Over({}, RowSet(rows), maxElements)
    ensures |collected| + |EndsOf(collected)| <= maxElements
  {
    hide Prefix, DistinctIds, Over, EndsOf, TakenInTurn;
    var fetched := Fetched(rows, maxElements);
    var budget := new Budget(maxElements, {});
    collected := {};
    NoEnds();
    NoTurns(maxElements);
    FetchedDistinct(rows, maxElements);
    var i := 0;
    while i < |fetched|
      invariant 0 <= i <= |fetched|
      invariant fresh(budget) && budget.max == maxElements && Spent(budget, {}, collected)
      invariant TakenInTurn(fetched[..i], maxElements, collected)
      invariant budget.full <==> collected != Prefix(fetched, i)
      invariant collected <= Prefix(fetched, i)
    {
      hide Spent;
      PrefixNext(fetched, i);
      var added;
      ghost var was := collected;
      collected, added := AdmitRow(budget, fetched[i], collected, {});
      SpentFits(budget, {}, collected);
      TurnNext(fetched, i, maxElements, was, collected);
      i := i + 1;
    }
    assert fetched[..i] == fetched;
    SpentFits(budget, {}, collected);
    OverviewVerdict(rows, maxElements, collected, budget.full);
    truncated := budget.full || |fetched| > maxElements;
  }

  lemma NoTurns(max: int)
    ensures forall rows: seq<Edge> :: TakenInTurn(rows[..0], max, {}) && Prefix(rows, 0) == {}
  {
  }

  lemma FetchedDistinct(rows: seq<Edge>, max: nat)
    requires DistinctIds(rows)
    ensures DistinctIds(Fetched(rows, max))
  {
  }

  /** Having fetched one row too many is as good as having missed one, and a row is missed
      exactly when all together are too much. */
  lemma OverviewVerdict(rows: seq<Edge>, maxElements: nat, collected: set<Edge>, full: bool)
    requires DistinctIds(rows)
    requires var fetched := Fetched(rows, maxElements);
      && TakenInTurn(fetched, maxElements, collected) && (full <==> collected != Prefix(fetched, |fetched|))
    requires collected != {} ==> !Over({}, collected, maxElements)
    ensures var all := RowSet(rows);
      && collected <= all && (full || |Fetched(rows, maxElements)| > maxElements <==> collected != all)
      && (collected != all <==> Over({}, all, maxElements))
    ensures |collected| + |EndsOf(collected)| <= maxElements
  {
    hide Prefix, DistinctIds, EndsOf, TakenInTurn, Over;
    var fetched, all := Fetched(rows, maxElements), RowSet(rows);
    FetchedDistinct(rows, maxElements);
    PrefixWhole(fetched, |fetched|);
    PrefixSize(rows, |rows|);
    PrefixWhole(rows, |rows|);
    FitsIn(collected, maxElements);
    TakenAreRows(fetched, maxElements, collected);
    if collected != all {
      MissedIsOver(rows, maxElements, collected);
    }
  }

  lemma TakenAreRows(rows: seq<Edge>, max: int, es: set<Edge>)
    requires TakenInTurn(rows, max, es)
    ensures es <= RowSet(rows)
  {
  }

  lemma FitsIn(es: set<Edge>, max: nat)
    requires es != {} ==> !Over({}, es, max)
    ensures !Over({}, es, max) && |es| + |EndsOf(es)| <= max
  {
    NoEnds();
    assert {} + EndsOf(es) == EndsOf(es);
  }

  /** What was fetched and did not fit, or was one too many to fetch, is too much. */
  lemma MissedIsOver(rows: seq<Edge>, max: nat, es: set<Edge>)
    requires DistinctIds(rows) && TakenInTurn(Fetched(rows, max), max, es) && es != RowSet(rows)
    ensures Over({}, RowSet(rows), max)
  {
    hide Prefix, DistinctIds, EndsOf, TakenInTurn, Over;
    var fetched, all := Fetched(rows, max), RowSet(rows);
    TakenAreRows(fetched, max, es);
    if k :| 0 <= k < |fetched| && fetched[k] !in es {
      NothingElseFits(fetched, max, es, k);
      OverGrows({}, es + {fetched[k]}, all, max);
    } else {
      PrefixWhole(rows, |rows|);
      PrefixSize(rows, |rows|);
      assert fetched != rows;
      ManyAreOver(all, max);
    }
  }

  lemma ManyAreOver(es: set<Edge>, max: int)
    requires |es| > max
    ensures Over({}, es, max)
  {
  }

  function FirstSeeds(seedIds: seq<Id>): seq<Id> {
    if |seedIds| > MAX_SEEDS then seedIds[..MAX_SEEDS] else seedIds
  }

  ghost function ResolvedSet(canonical: map<Id, Id>, seedIds: seq<Id>): set<Id> {
    set i | 0 <= i < |FirstSeeds(seedIds)| :: Lookup(canonical, FirstSeeds(seedIds)[i])
  }

  /** The rows an expansion is about: everything in the overview, else what the hops reach. */
  ghost function Asked(rows: seq<Edge>, canonical: map<Id, Id>, seedIds: seq<Id>, maxHops: int): set<Edge> {
    if seedIds == [] then RowSet(rows)
    else Wanted(rows, ResolvedSet(canonical, seedIds), Clamp(0, maxHops, MAX_HOPS))
  }

  /** The element cap of a request. */
  function Cap(maxElements: int): int { Clamp(1, maxElements, MAX_ELEMENTS) }

  /** The rows asked about and what they reach are more than the element cap. */
  ghost predicate Overrun(rows: seq<Edge>, canonical: map<Id, Id>, seedIds: seq<Id>, maxHops: int, maxElements: int) {
    var asked := Asked(rows, canonical, seedIds, maxHops);
    asked != {} && Over(ResolvedSet(canonical, seedIds), asked, Cap(maxElements))
  }

  /** The edges of an answer: what fits of the walk, nearest hops first, or of the overview, each
      row in its turn. */
  ghost predicate AnsweredEdges(rows: seq<Edge>, canonical: map<Id, Id>, seedIds: seq<Id>, maxHops: int,
                                maxElements: int, edges: set<Edge>)
  {
    if seedIds == [] then TakenInTurn(Fetched(rows, Cap(maxElements)), Cap(maxElements), edges)
    else
      var seeds := ResolvedSet(canonical, seedIds);
      FitsFromFront(WalkOrder(rows, seeds, Clamp(0, maxHops, MAX_HOPS)), seeds, Cap(maxElements), edges)
  }

  /** What every answer of `Expand` is. */
  ghost predicate Answers(rows: seq<Edge>, canonical: map<Id, Id>, seedIds: seq<Id>, maxHops: int, maxElements: int,
                          edges: set<Edge>, truncated: bool)
  {
    && edges <= Asked(rows, canonical, seedIds, maxHops)
    && AnsweredEdges(rows, canonical, seedIds, maxHops, maxElements, edges)
    && (truncated <==> edges != Asked(rows, canonical, seedIds, maxHops))
    && (truncated <==> Overrun(rows, canonical, seedIds, maxHops, maxElements))
  }

  // -------------------------------------------------------------- what a clamp hides

  /** The rows the caller asked about, before the hop limit was clamped. */
  ghost function Requested(rows: seq<Edge>, canonical: map<Id, Id>, seedIds: seq<Id>, maxHops: int): set<Edge> {
    if seedIds == [] then RowSet(rows)
    else Wanted(rows, ResolvedSet(canonical, seedIds), if maxHops < 0 then 0 else maxHops)
  }

  /** More hops were asked for than are walked, and some row lies behind the last one walked. */
  ghost predicate RowsBeyond(rows: seq<Edge>, canonical: map<Id, Id>, seedIds: seq<Id>, maxHops: int) {
    && seedIds != [] && maxHops > MAX_HOPS
    && var seeds := ResolvedSet(canonical, seedIds);
       Wanted(rows, seeds, MAX_HOPS + 1) != Wanted(rows, seeds, MAX_HOPS)
  }

  /** A hop that adds no row is the last that could. */
  lemma WantedStable(rows: seq<Edge>, seeds: set<Id>, j: nat, k: nat)
    requires 0 < j <= k && Wanted(rows, seeds, j + 1) == Wanted(rows, seeds, j)
    ensures Wanted(rows, seeds, k) == Wanted(rows, seeds, j)
  {
    hide Within;
    ReachedIsWithin(rows, seeds, j);
    ReachedIsWithin(rows, seeds, j + 1);
    if j < k {
      WithinStable(rows, seeds, j, k - 1);
    }
  }

  lemma ClampHidesIff(rows: seq<Edge>, canonical: map<Id, Id>, seedIds: seq<Id>, maxHops: int)
    ensures Asked(rows, canonical, seedIds, maxHops) <= Requested(rows, canonical, seedIds, maxHops)
    ensures Asked(rows, canonical, seedIds, maxHops) != Requested(rows, canonical, seedIds, maxHops)
      <==> RowsBeyond(rows, canonical, seedIds, maxHops)
  {
    hide Wanted, ResolvedSet;
    if seedIds != [] && maxHops > MAX_HOPS {
      var seeds := ResolvedSet(canonical, seedIds);
      WantedGrows(rows, seeds, MAX_HOPS, MAX_HOPS + 1);
      WantedGrows(rows, seeds, MAX_HOPS + 1, maxHops);
      if Wanted(rows, seeds, MAX_HOPS + 1) == Wanted(rows, seeds, MAX_HOPS) {
        WantedStable(rows, seeds, MAX_HOPS, maxHops);
      }
    }
  }

  /** When the flag tells the truth about the hops the caller asked for: the clamped walk overruns
      the cap, or no row lies beyond it. An answer that is whole for the clamped hops says nothing
      of the rows behind them. */
  lemma ToldIff(rows: seq<Edge>, canonical: map<Id, Id>, seedIds: seq<Id>, maxHops: int, maxElements: int,
                edges: set<Edge>, truncated: bool)
    requires Answers(rows, canonical, seedIds, maxHops, maxElements, edges, truncated)
    ensures edges <= Requested(rows, canonical, seedIds, maxHops)
    ensures (truncated <==> edges != Requested(rows, canonical, seedIds, maxHops))
      <==> Overrun(rows, canonical, seedIds, maxHops, maxElements) || !RowsBeyond(rows, canonical, seedIds, maxHops)
  {
    hide Asked, Requested, RowsBeyond, Overrun, AnsweredEdges;
    ClampHidesIff(rows, canonical, seedIds, maxHops);
  }

  lemma LineAsked(ns: seq<Id>, maxHops: int)
    requires NoRepeats(ns) && |ns| > MAX_HOPS + 1 && maxHops > MAX_HOPS
    ensures var rows := Line(ns);
      && ResolvedSet(map[], [ns[0]]) == {ns[0]}
      && Asked(rows, map[], [ns[0]], maxHops) == RowSet(rows[..MAX_HOPS])
      && rows[MAX_HOPS] in Requested(rows, map[], [ns[0]], maxHops)
  {
    hide Within, Touching, Line, RowSet, FirstNodes, NoRepeats;
    var rows := Line(ns);
    assert ResolvedSet(map[], [ns[0]]) == {ns[0]} by { assert FirstSeeds([ns[0]])[0] == ns[0]; }
    LineWithin(ns, MAX_HOPS - 1);
    LineWithin(ns, MAX_HOPS);
    LineTouching(ns, MAX_HOPS);
    LineNext(ns, MAX_HOPS);
    WantedGrows(rows, {ns[0]}, MAX_HOPS + 1, maxHops);
  }

  lemma LineNext(ns: seq<Id>, k: nat)
    requires k + 1 < |ns|
    ensures |Line(ns)| == |ns| - 1 && Line(ns)[k] in Touching(Line(ns), FirstNodes(ns, k + 1))
  {
    assert ns[..k + 1][k] == ns[k];
  }

  lemma LineFits(ns: seq<Id>, k: nat)
    requires NoRepeats(ns) && 0 < k < |ns|
    ensures |RowSet(Line(ns)[..k])| == k
    ensures |{ns[0]} + EndsOf(RowSet(Line(ns)[..k]))| == k + 1
    ensures Line(ns)[k - 1] in RowSet(Line(ns)[..k])
  {
    hide EndsOf, NoRepeats;
    LineDistinct(ns);
    PrefixSize(Line(ns), k);
    LineEnds(ns, k);
    FirstSize(ns, k + 1);
    assert ns[..k + 1][0] == ns[0];
    assert {ns[0]} + FirstNodes(ns, k + 1) == FirstNodes(ns, k + 1);
    assert Line(ns)[..k][k - 1] == Line(ns)[k - 1];
  }

  lemma {:induction false} FirstSize(ns: seq<Id>, k: nat)
    requires NoRepeats(ns) && k <= |ns|
    ensures |FirstNodes(ns, k)| == k
  {
    if k == 0 {
      assert FirstNodes(ns, 0) == {};
    } else {
      FirstSize(ns, k - 1);
      FirstMore(ns, k - 1);
    }
  }

  /** The promise fails: on a line of more than three rows a request from one end for more than
      three hops, with room for seven elements, is answered by three rows and without the flag. */
  lemma LineUnflagged(ns: seq<Id>, maxHops: int, maxElements: int, edges: set<Edge>, truncated: bool)
    requires NoRepeats(ns) && |ns| > MAX_HOPS + 1 && maxHops > MAX_HOPS && maxElements >= 7
    requires Answers(Line(ns), map[], [ns[0]], maxHops, maxElements, edges, truncated)
    ensures !truncated && edges == RowSet(Line(ns)[..MAX_HOPS])
    ensures Line(ns)[MAX_HOPS] !in edges && Line(ns)[MAX_HOPS] in Requested(Line(ns), map[], [ns[0]], maxHops)
  {
    hide Asked, Requested, ResolvedSet, AnsweredEdges, EndsOf, Line, RowSet, NoRepeats;
    LineAsked(ns, maxHops);
    LineFits(ns, MAX_HOPS);
    NotAmongFirst(ns, MAX_HOPS);
  }

  lemma NotAmongFirst(ns: seq<Id>, k: nat)
    requires NoRepeats(ns) && k + 1 < |ns|
    ensures Line(ns)[k] !in RowSet(Line(ns)[..k])
  {
  }

  /** The edges of a request: clamped limits, then the overview or the walk. */
  method AnswerEdges(rows: seq<Edge>, canonical: map<Id, Id>, seedIds: seq<Id>, maxHops: int, maxElements: int)
    returns (seeds: set<Id>, edges: set<Edge>, truncated: bool)
    requires DistinctIds(rows)
    ensures seeds == ResolvedSet(canonical, seedIds)
    ensures Answers(rows, canonical, seedIds, maxHops, maxElements, edges, truncated)
    ensures seedIds != [] ==> exists h: nat :: h <= Clamp(0, maxHops, MAX_HOPS) && CutAt(rows, seeds, edges, h)
    ensures |seeds| <= Cap(maxElements) ==> |edges| + |seeds + EndsOf(edges)| <= Cap(maxElements)
    ensures |seeds| >= Cap(maxElements) ==> edges == {}
  {
    hide EndsOf, Wanted, Touching, CutAt, Over, FitsFromFront, TakenInTurn, WalkOrder, Fetched, ResolvedSet, DistinctIds,
      SeedResolves, NoRepeats;
    var hops := Clamp(0, maxHops, MAX_HOPS);
    var cap := Cap(maxElements);
    var resolved := ResolveSeeds(canonical, FirstSeeds(seedIds));
    seeds := set x | x in resolved;
    SeedsAre(canonical, seedIds, resolved);
    if resolved == [] {
      edges, truncated := Overview(rows, cap);
      NoneOver(cap);
      assert {} + EndsOf(edges) == EndsOf(edges);
    } else {
      edges, truncated := BreadthFirst(rows, seeds, hops, cap);
    }
  }

  lemma SeedsAre(canonical: map<Id, Id>, seedIds: seq<Id>, resolved: seq<Id>)
    requires forall x :: x in resolved <==> SeedResolves(canonical, FirstSeeds(seedIds), x)
    ensures (set x | x in resolved) == ResolvedSet(canonical, seedIds)
    ensures resolved == [] <==> seedIds == []
    ensures seedIds == [] ==> ResolvedSet(canonical, seedIds) == {}
  {
    if seedIds != [] {
      assert SeedResolves(canonical, FirstSeeds(seedIds), Lookup(canonical, FirstSeeds(seedIds)[0]));
    } else {
      NoSeeds(canonical);
      if resolved != [] { HasMember(resolved); }
    }
  }

  lemma NoneOver(max: nat)
    ensures !Over({}, {}, max)
  {
    NoEnds();
  }

  /** One request: clamped limits, and as nodes the ends of the rows and the entities asked
      about, as far as the entity table has them. */
  method Expand(rows: seq<Edge>, entities: set<Id>, canonical: map<Id, Id>, seedIds: seq<Id>, maxHops: int,
                maxElements: int)
    returns (nodes: set<Id>, edges: set<Edge>, truncated: bool)
    requires DistinctIds(rows)
    ensures Answers(rows, canonical, seedIds, maxHops, maxElements, edges, truncated)
    ensures nodes == (EndsOf(edges) + ResolvedSet(canonical, seedIds)) * entities
    ensures seedIds != [] ==> exists h: nat :: h <= Clamp(0, maxHops, MAX_HOPS)
                                               && CutAt(rows, ResolvedSet(canonical, seedIds), edges, h)
    ensures var cap := Cap(maxElements);
      && (|ResolvedSet(canonical, seedIds)| <= cap ==> |nodes| + |edges| <= cap)
      && (|ResolvedSet(canonical, seedIds)| >= cap ==> edges == {})
    ensures var seeds, asked := ResolvedSet(canonical, seedIds), Asked(rows, canonical, seedIds, maxHops);
      1 <= maxElements <= 2000 ==>
        && (|seeds| <= maxElements ==> |nodes| + |edges| <= maxElements)
        && (truncated <==> asked != {} && |asked| + |seeds + EndsOf(asked)| > maxElements)
    ensures maxElements > 2000 && |ResolvedSet(canonical, seedIds)| <= 2000 ==> |nodes| + |edges| <= 2000
    ensures maxElements < 1 && |ResolvedSet(canonical, seedIds)| <= 1 ==> |nodes| + |edges| <= 1
  {
    CapIs(maxElements);
    hide EndsOf, CutAt, ResolvedSet, Asked, AnsweredEdges, Cap;
    var seeds;
    seeds, edges, truncated := AnswerEdges(rows, canonical, seedIds, maxHops, maxElements);
    nodes := (EndsOf(edges) + seeds) * entities;
    assert EndsOf(edges) + seeds == seeds + EndsOf(edges);
    SubsetSize(nodes, EndsOf(edges) + seeds);
  }

  /** A request is held to the elements it asks for, at least one and at most two thousand. */
  lemma CapIs(maxElements: int)
    ensures 1 <= maxElements <= 2000 ==> Cap(maxElements) == maxElements
    ensures maxElements > 2000 ==> Cap(maxElements) == 2000
    ensures maxElements < 1 ==> Cap(maxElements) == 1
  {
  }

  /** The first hundred seeds count, each for what the map says of it or for itself. */
  lemma SeedsIff(canonical: map<Id, Id>, seedIds: seq<Id>, x: Id)
    ensures x in ResolvedSet(canonical, seedIds)
      <==> exists i :: 0 <= i < |seedIds| && i < 100
                       && x == if seedIds[i] in canonical then canonical[seedIds[i]] else seedIds[i]
  {
    var first := FirstSeeds(seedIds);
    assert |first| == if |seedIds| > 100 then 100 else |seedIds|;
    if i :| 0 <= i < |seedIds| && i < 100
            && x == if seedIds[i] in canonical then canonical[seedIds[i]] else seedIds[i] {
      assert x == Lookup(canonical, first[i]);
    }
    if x in ResolvedSet(canonical, seedIds) {
      var i :| 0 <= i < |first| && x == Lookup(canonical, first[i]);
      assert first[i] == seedIds[i];
    }
  }

  /** The rows a request is about: all of them in the overview; else those with an end to which a walk
      leads from a seed in fewer rows than hops were asked for, and fewer than three. */
  lemma AskedIff(rows: seq<Edge>, canonical: map<Id, Id>, seedIds: seq<Id>, maxHops: int, e: Edge)
    ensures e in Asked(rows, canonical, seedIds, maxHops)
      <==> e in rows && (seedIds == [] || exists n, nodes, edges ::
                           Connects(rows, ResolvedSet(canonical, seedIds), n, nodes, edges)
                           && (n == e.subject || n == e.obj) && |edges| < maxHops && |edges| < 3)
  {
    hide Within, ResolvedSet;
    if seedIds != [] {
      var seeds, hops := ResolvedSet(canonical, seedIds), Clamp(0, maxHops, MAX_HOPS);
      assert hops == if maxHops < 0 then 0 else if maxHops < 3 then maxHops else 3;
      if hops > 0 {
        WithinIsDistance(rows, seeds, hops - 1, e.subject);
        WithinIsDistance(rows, seeds, hops - 1, e.obj);
      }
    }
  }
}
