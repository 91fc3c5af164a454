/** The order in which the walk comes to the rows, which decides what a full budget leaves out
    (aegis/queries/graph.py:400-421). */
module ExpansionOrder {
  import opened Multigraph
  import opened Expansion
  import opened Common

  /** Some number of hops reaches the first row and not the second. */
  ghost predicate Nearer(rows: seq<Edge>, seeds: set<Id>, hops: nat, e: Edge, f: Edge) {
    exists h: nat :: h < hops && e in Wanted(rows, seeds, h) && f !in Wanted(rows, seeds, h)
  }

  /** The same numbers of hops reach both. */
  ghost predicate AsNear(rows: seq<Edge>, seeds: set<Id>, hops: nat, e: Edge, f: Edge) {
    forall h: nat :: h <= hops ==> (e in Wanted(rows, seeds, h) <==> f in Wanted(rows, seeds, h))
  }

  /** The first row comes before the second in the table's order. */
  ghost predicate Earlier(rows: seq<Edge>, e: Edge, f: Edge) {
    exists k, l :: 0 <= k < l < |rows| && rows[k] == e && rows[l] == f
  }

  lemma {:induction false} AmongInOrder(rows: seq<Edge>, some: set<Edge>, i: nat, j: nat)
    requires i < j < |Among(rows, some)|
    ensures Earlier(rows, Among(rows, some)[i], Among(rows, some)[j])
  {
    if rows == [] {
    } else {
      var front, last := rows[..|rows| - 1], rows[|rows| - 1];
      var q, all := Among(front, some), Among(rows, some);
      if j < |q| {
        AmongInOrder(front, some, i, j);
        var k, l :| 0 <= k < l < |front| && front[k] == q[i] && front[l] == q[j];
        assert rows[k] == q[i] && rows[l] == q[j];
      } else {
        AmongAre(front, some);
        assert all[i] == q[i] && q[i] in q;
        var k :| 0 <= k < |front| && front[k] == q[i];
        assert rows[k] == all[i] && rows[|rows| - 1] == all[j];
      }
    }
  }

  /** Of two rows the walk comes first to the nearer one, and of two as near to the one listed earlier. */
  lemma {:induction false} NearerFirst(rows: seq<Edge>, seeds: set<Id>, hops: nat, i: nat, j: nat)
    requires i < j < |WalkOrder(rows, seeds, hops)|
    ensures var e, f := WalkOrder(rows, seeds, hops)[i], WalkOrder(rows, seeds, hops)[j];
      Nearer(rows, seeds, hops, e, f) || (AsNear(rows, seeds, hops, e, f) && Earlier(rows, e, f))
  {
    hide Wanted, Earlier, Nearer, AsNear, Among;
    if hops == 0 {
    } else {
      var new_ := Wanted(rows, seeds, hops) - Wanted(rows, seeds, hops - 1);
      var before, now := WalkOrder(rows, seeds, hops - 1), Among(rows, new_);
      assert WalkOrder(rows, seeds, hops) == before + now;
      var e, f := (before + now)[i], (before + now)[j];
      WalkOrderIsWanted(rows, seeds, hops - 1);
      AmongAre(rows, new_);
      if j < |before| {
        NearerFirst(rows, seeds, hops - 1, i, j);
        assert e in before && f in before;
        OneMoreHop(rows, seeds, hops, e, f);
      } else if i < |before| {
        assert e in before && f in now;
        OneHopNearer(rows, seeds, hops, e, f);
      } else {
        assert e in now && f in now;
        AmongInOrder(rows, new_, i - |before|, j - |before|);
        OneHop(rows, seeds, hops, e, f);
      }
    }
  }

  lemma OneMoreHop(rows: seq<Edge>, seeds: set<Id>, hops: nat, e: Edge, f: Edge)
    requires hops > 0 && e in Wanted(rows, seeds, hops - 1) && f in Wanted(rows, seeds, hops - 1)
    ensures Nearer(rows, seeds, hops - 1, e, f) ==> Nearer(rows, seeds, hops, e, f)
    ensures AsNear(rows, seeds, hops - 1, e, f) ==> AsNear(rows, seeds, hops, e, f)
  {
    hide Wanted;
    WantedGrows(rows, seeds, hops - 1, hops);
  }

  lemma OneHopNearer(rows: seq<Edge>, seeds: set<Id>, hops: nat, e: Edge, f: Edge)
    requires hops > 0 && e in Wanted(rows, seeds, hops - 1) && f !in Wanted(rows, seeds, hops - 1)
    ensures Nearer(rows, seeds, hops, e, f)
  {
    hide Wanted;
  }

  lemma OneHop(rows: seq<Edge>, seeds: set<Id>, hops: nat, e: Edge, f: Edge)
    requires hops > 0 && e in Wanted(rows, seeds, hops) && f in Wanted(rows, seeds, hops)
    requires e !in Wanted(rows, seeds, hops - 1) && f !in Wanted(rows, seeds, hops - 1)
    ensures AsNear(rows, seeds, hops, e, f)
  {
    hide Wanted;
    forall h: nat | h < hops ensures Wanted(rows, seeds, h) <= Wanted(rows, seeds, hops - 1) {
      WantedGrows(rows, seeds, h, hops - 1);
    }
  }

  /** So of the rows asked about a full budget keeps the nearest: whatever it keeps is not farther than
      what it leaves out, and where it is as near it is listed earlier. */
  lemma KeptAreNearer(rows: seq<Edge>, seeds: set<Id>, hops: nat, max: int, kept: set<Edge>, e: Edge, f: Edge)
    requires FitsFromFront(WalkOrder(rows, seeds, hops), seeds, max, kept)
    requires e in kept && f in Wanted(rows, seeds, hops) && f !in kept
    ensures Nearer(rows, seeds, hops, e, f) || (AsNear(rows, seeds, hops, e, f) && Earlier(rows, e, f))
  {
    hide Wanted, WalkOrder, Over, Nearer, AsNear, Earlier;
    var order := WalkOrder(rows, seeds, hops);
    WalkOrderIsWanted(rows, seeds, hops);
    var n: nat :| LongestFit(order, seeds, max, kept, n);
    assert f in order;
    var i :| 0 <= i < n && order[i] == e;
    var j :| 0 <= j < |order| && order[j] == f;
    NearerFirst(rows, seeds, hops, i, j);
  }
}
