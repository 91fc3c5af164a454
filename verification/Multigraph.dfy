/** The rows a caller may see, as a finite multigraph in a fixed order, and distance in it. */
module Multigraph {
  import opened Common
  import opened Lists

  /** Parallel rows between two entities differ in their id. */
  datatype Edge = Edge(id: Id, subject: Id, obj: Id) {
    function Ends(): set<Id> { {subject, obj} }

    /** The row can be walked from `a` to `b`, in either direction. */
    predicate Links(a: Id, b: Id) { (subject == a && obj == b) || (subject == b && obj == a) }
  }

  ghost predicate DistinctIds(rows: seq<Edge>) {
    forall i, j :: 0 <= i < j < |rows| ==> rows[i].id != rows[j].id
  }

  predicate Touches(e: Edge, nodes: set<Id>) { e.subject in nodes || e.obj in nodes }

  function Touching(rows: seq<Edge>, nodes: set<Id>): set<Edge> {
    set e | e in rows && Touches(e, nodes)
  }

  function EndsOf(es: set<Edge>): set<Id> {
    (set e | e in es :: e.subject) + (set e | e in es :: e.obj)
  }

  /** Entities at distance at most `k` from the seeds. */
  function Within(rows: seq<Edge>, seeds: set<Id>, k: nat): set<Id> {
    if k == 0 then seeds
    else Within(rows, seeds, k - 1) + EndsOf(Touching(rows, Within(rows, seeds, k - 1)))
  }

  /** A walk through real rows, alternating nodes and rows. */
  ghost predicate IsPath(rows: seq<Edge>, nodes: seq<Id>, edges: seq<Edge>) {
    && |nodes| == |edges| + 1
    && forall i :: 0 <= i < |edges| ==> edges[i] in rows && edges[i].Links(nodes[i], nodes[i + 1])
  }

  ghost predicate Connects(rows: seq<Edge>, seeds: set<Id>, n: Id, nodes: seq<Id>, edges: seq<Edge>) {
    IsPath(rows, nodes, edges) && nodes[0] in seeds && nodes[|edges|] == n
  }

  lemma WithinNext(rows: seq<Edge>, seeds: set<Id>, k: nat)
    ensures Within(rows, seeds, 0) == seeds
    ensures Within(rows, seeds, k + 1) == Within(rows, seeds, k) + EndsOf(Touching(rows, Within(rows, seeds, k)))
  {
  }

  lemma InEnds(es: set<Edge>, n: Id)
    ensures n in EndsOf(es) <==> exists e :: e in es && n in e.Ends()
  {
    if e :| e in es && n in e.Ends() {
      assert e.subject in EndsOf(es) && e.obj in EndsOf(es);
    }
  }

  /** One more step of distance is one more row. */
  lemma WithinStep(rows: seq<Edge>, seeds: set<Id>, k: nat, n: Id)
    ensures n in Within(rows, seeds, k + 1)
      <==> n in Within(rows, seeds, k)
           || exists e, m :: e in rows && m in Within(rows, seeds, k) && e.Links(m, n)
  {
    var near := Within(rows, seeds, k);
    InEnds(Touching(rows, near), n);
    if e :| e in Touching(rows, near) && n in e.Ends() {
      var m := if n == e.subject then e.obj else e.subject;
      assert e.Links(m, n);
      assert m in near || n in near;
    }
    if e, m :| e in rows && m in near && e.Links(m, n) {
      assert e in Touching(rows, near) && n in e.Ends();
    }
  }

  lemma {:induction false} WithinGrows(rows: seq<Edge>, seeds: set<Id>, j: nat, k: nat)
    requires j <= k
    ensures Within(rows, seeds, j) <= Within(rows, seeds, k)
    decreases k - j
  {
    if j == k {
    } else {
      WithinGrows(rows, seeds, j + 1, k);
    }
  }

  lemma {:induction false} PathWithin(rows: seq<Edge>, seeds: set<Id>, n: Id, nodes: seq<Id>, edges: seq<Edge>)
    requires Connects(rows, seeds, n, nodes, edges)
    ensures n in Within(rows, seeds, |edges|)
    decreases |edges|
  {
    if edges == [] {
    } else {
      var j := |edges| - 1;
      PathWithin(rows, seeds, nodes[j], nodes[..j + 1], edges[..j]);
      WithinStep(rows, seeds, j, n);
    }
  }

  lemma {:induction false} WithinPath(rows: seq<Edge>, seeds: set<Id>, k: nat, n: Id)
    returns (nodes: seq<Id>, edges: seq<Edge>)
    requires n in Within(rows, seeds, k)
    ensures Connects(rows, seeds, n, nodes, edges) && |edges| <= k
  {
    hide Within, Connects;
    WithinNext(rows, seeds, if k == 0 then 0 else k - 1);
    if k == 0 {
      PathStarts(rows, seeds, n);
      nodes, edges := [n], [];
    } else if n in Within(rows, seeds, k - 1) {
      nodes, edges := WithinPath(rows, seeds, k - 1, n);
    } else {
      WithinStep(rows, seeds, k - 1, n);
      var e, m :| e in rows && m in Within(rows, seeds, k - 1) && e.Links(m, n);
      nodes, edges := WithinPath(rows, seeds, k - 1, m);
      PathExtends(rows, seeds, m, nodes, edges, e, n);
      nodes, edges := nodes + [n], edges + [e];
    }
  }

  lemma PathStarts(rows: seq<Edge>, seeds: set<Id>, n: Id)
    requires n in seeds
    ensures Connects(rows, seeds, n, [n], [])
  {
  }

  lemma PathExtends(rows: seq<Edge>, seeds: set<Id>, m: Id, nodes: seq<Id>, edges: seq<Edge>, e: Edge, n: Id)
    requires Connects(rows, seeds, m, nodes, edges) && e in rows && e.Links(m, n)
    ensures Connects(rows, seeds, n, nodes + [n], edges + [e])
  {
  }

  /** `Within` is distance: an entity is within `k` exactly when a walk of at most `k` rows
      leads to it from a seed. */
  lemma WithinIsDistance(rows: seq<Edge>, seeds: set<Id>, k: nat, n: Id)
    ensures n in Within(rows, seeds, k)
      <==> exists nodes, edges :: Connects(rows, seeds, n, nodes, edges) && |edges| <= k
  {
    if n in Within(rows, seeds, k) {
      var nodes, edges := WithinPath(rows, seeds, k, n);
    }
    if nodes, edges :| Connects(rows, seeds, n, nodes, edges) && |edges| <= k {
      PathWithin(rows, seeds, n, nodes, edges);
      WithinGrows(rows, seeds, |edges|, k);
    }
  }

  function Back<T>(q: seq<T>): seq<T> { seq(|q|, i requires 0 <= i < |q| => q[|q| - 1 - i]) }

  /** Rows are walked either way: a walk there is a walk back. */
  lemma WalkBack(rows: seq<Edge>, a: Id, b: Id, nodes: seq<Id>, edges: seq<Edge>)
    requires Connects(rows, {a}, b, nodes, edges)
    ensures Connects(rows, {b}, a, Back(nodes), Back(edges))
  {
    forall i | 0 <= i < |edges|
      ensures Back(edges)[i] in rows && Back(edges)[i].Links(Back(nodes)[i], Back(nodes)[i + 1])
    {
      var j := |edges| - 1 - i;
      assert edges[j] in rows && edges[j].Links(nodes[j], nodes[j + 1]);
    }
  }

  /** Once a step reaches nothing new, no later step does. */
  lemma {:induction false} WithinStable(rows: seq<Edge>, seeds: set<Id>, j: nat, k: nat)
    requires j <= k && Within(rows, seeds, j + 1) == Within(rows, seeds, j)
    ensures Within(rows, seeds, k) == Within(rows, seeds, j)
  {
    if j == k {
    } else {
      WithinStable(rows, seeds, j, k - 1);
    }
  }

  // ------------------------------------------------------------------- a line

  function RowSet(rows: seq<Edge>): set<Edge> { set e | e in rows }

  /** The rows that join each entity of the list to the next. */
  function Line(ns: seq<Id>): seq<Edge>
    requires ns != []
  {
    seq(|ns| - 1, i requires 0 <= i < |ns| - 1 => Edge(ns[i], ns[i], ns[i + 1]))
  }

  function FirstNodes(ns: seq<Id>, k: nat): set<Id>
    requires k <= |ns|
  {
    set n | n in ns[..k]
  }

  lemma LineDistinct(ns: seq<Id>)
    requires ns != [] && NoRepeats(ns)
    ensures DistinctIds(Line(ns))
  {
  }

  lemma LineTouching(ns: seq<Id>, k: nat)
    requires NoRepeats(ns) && k < |ns|
    ensures Touching(Line(ns), FirstNodes(ns, k)) == RowSet(Line(ns)[..k])
  {
    var rows := Line(ns);
    forall i | 0 <= i < |rows| ensures Touches(rows[i], FirstNodes(ns, k)) <==> i < k {
      if i < k {
        assert ns[..k][i] == ns[i];
      }
    }
    forall e ensures e in Touching(rows, FirstNodes(ns, k)) <==> e in RowSet(rows[..k]) {
      if e in rows {
        var i :| 0 <= i < |rows| && rows[i] == e;
        if i < k { assert rows[..k][i] == e; }
      }
    }
  }

  lemma LineEnds(ns: seq<Id>, k: nat)
    requires 0 < k < |ns|
    ensures EndsOf(RowSet(Line(ns)[..k])) == FirstNodes(ns, k + 1)
  {
    var rows := Line(ns)[..k];
    forall n ensures n in EndsOf(RowSet(rows)) <==> n in FirstNodes(ns, k + 1) {
      InEnds(RowSet(rows), n);
      if e :| e in RowSet(rows) && n in e.Ends() {
        var i :| 0 <= i < k && rows[i] == e;
        assert ns[..k + 1][i] == ns[i] && ns[..k + 1][i + 1] == ns[i + 1];
      }
      if n in FirstNodes(ns, k + 1) {
        var i :| 0 <= i < k + 1 && ns[i] == n;
        var j := if i < k then i else k - 1;
        assert rows[j] in RowSet(rows) && n in rows[j].Ends();
      }
    }
  }

  /** Along a line the distance is the place. */
  lemma {:induction false} LineWithin(ns: seq<Id>, k: nat)
    requires NoRepeats(ns) && k < |ns|
    ensures Within(Line(ns), {ns[0]}, k) == FirstNodes(ns, k + 1)
  {
    hide Within, Touching, EndsOf, NoRepeats, Line, RowSet;
    WithinNext(Line(ns), {ns[0]}, if k == 0 then 0 else k - 1);
    if k == 0 {
      assert ns[..1] == [ns[0]];
    } else {
      LineWithin(ns, k - 1);
      LineTouching(ns, k);
      LineEnds(ns, k);
      assert FirstNodes(ns, k) <= FirstNodes(ns, k + 1) by { FirstMore(ns, k); }
    }
  }

  lemma FirstMore(ns: seq<Id>, k: nat)
    requires k < |ns|
    ensures FirstNodes(ns, k + 1) == FirstNodes(ns, k) + {ns[k]}
  {
    assert ns[..k + 1] == ns[..k] + [ns[k]];
  }
}
