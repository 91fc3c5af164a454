/** Time segments: maximal half-open ranges over which the same claims hold
    (aegis/projections/edges.py:147-195). Dates are day ordinals. */
module Segments {
  import opened Common
  import opened Lists

  datatype Interval = Interval(start: int, end: int, claim: Id) {
    predicate Covers(t: int) { start <= t < end }
  }

  datatype Segment = Segment(low: int, high: int, claims: seq<Id>) {
    predicate Contains(t: int) { low <= t < high }
  }

  // ------------------------------------------------- sorted ids, as a specification

  ghost predicate Nondecreasing(q: seq<Id>) {
    forall i, j :: 0 <= i < j < |q| ==> q[i] == q[j] || Before(q[i], q[j])
  }

  /** `sorted(list)`: duplicates stay. */
  function InsertId(x: Id, q: seq<Id>): seq<Id> {
    if q == [] || x == q[0] || Before(x, q[0]) then [x] + q else [q[0]] + InsertId(x, q[1..])
  }

  function SortIds(q: seq<Id>): seq<Id> {
    if q == [] then [] else InsertId(q[0], SortIds(q[1..]))
  }

  lemma {:induction false} InsertPermutes(x: Id, q: seq<Id>)
    ensures multiset(InsertId(x, q)) == multiset(q) + multiset{x}
  {
    hide Before;
    if q == [] || x == q[0] || Before(x, q[0]) {
    } else {
      InsertPermutes(x, q[1..]);
      assert q == [q[0]] + q[1..];
    }
  }

  lemma {:induction false} InsertKeeps(x: Id, q: seq<Id>)
    requires Nondecreasing(q)
    ensures Nondecreasing(InsertId(x, q))
    ensures multiset(InsertId(x, q)) == multiset(q) + multiset{x}
  {
    hide Before;
    InsertPermutes(x, q);
    if q == [] {
    } else if x == q[0] || Before(x, q[0]) {
      forall j | 0 <= j < |q| ensures x == q[j] || Before(x, q[j]) {
        if j > 0 && x != q[0] && q[0] != q[j] { BeforeTransitive(x, q[0], q[j]); }
      }
    } else {
      InsertKeeps(x, q[1..]);
      BeforeTotal(x, q[0]);
      InsertAfterHead(x, q);
    }
  }

  lemma InsertAfterHead(x: Id, q: seq<Id>)
    requires Nondecreasing(q) && q != [] && Before(q[0], x)
    ensures forall y :: y in InsertId(x, q[1..]) ==> q[0] == y || Before(q[0], y)
  {
    hide Before, InsertId;
    InsertPermutes(x, q[1..]);
    forall y | y in InsertId(x, q[1..]) ensures q[0] == y || Before(q[0], y) {
      assert y in multiset(InsertId(x, q[1..]));
      assert y == x || y in q[1..];
    }
  }

  lemma {:induction false} SortSorts(q: seq<Id>)
    ensures Nondecreasing(SortIds(q)) && multiset(SortIds(q)) == multiset(q)
  {
    if q == [] {
    } else {
      SortSorts(q[1..]);
      InsertKeeps(q[0], SortIds(q[1..]));
      assert q == [q[0]] + q[1..];
    }
  }

  lemma SameHead(p: seq<Id>, q: seq<Id>)
    requires Nondecreasing(p) && Nondecreasing(q) && p != [] && q != []
    requires p[0] in q && q[0] in p
    ensures p[0] == q[0]
  {
    hide Before;
    var i :| 0 <= i < |q| && q[i] == p[0];
    var j :| 0 <= j < |p| && p[j] == q[0];
    if p[0] != q[0] {
      BeforeTransitive(p[0], q[0], p[0]);
      BeforeIrreflexive(p[0]);
    }
  }

  lemma TailElements(q: seq<Id>)
    requires q != []
    ensures multiset(q[1..]) == multiset(q) - multiset{q[0]}
  {
    assert q == [q[0]] + q[1..];
  }

  lemma TailSorted(q: seq<Id>)
    requires Nondecreasing(q) && q != []
    ensures Nondecreasing(q[1..])
  {
    hide Before;
  }

  /** A sorted list is determined by its elements with their multiplicities. */
  lemma {:induction false} SortedUnique(p: seq<Id>, q: seq<Id>)
    requires Nondecreasing(p) && Nondecreasing(q) && multiset(p) == multiset(q)
    ensures p == q
  {
    hide Nondecreasing;
    assert |p| == |multiset(p)| == |multiset(q)| == |q|;
    if p == [] {
    } else {
      assert p[0] in multiset(q) && q[0] in multiset(p);
      SameHead(p, q);
      TailElements(p);
      TailElements(q);
      TailSorted(p);
      TailSorted(q);
      SortedUnique(p[1..], q[1..]);
      assert p == [p[0]] + p[1..] && q == [q[0]] + q[1..];
    }
  }

  lemma SortIsOrderFree(p: seq<Id>, q: seq<Id>)
    requires multiset(p) == multiset(q)
    ensures SortIds(p) == SortIds(q)
  {
    SortSorts(p);
    SortSorts(q);
    SortedUnique(SortIds(p), SortIds(q));
  }

  // ------------------------------------------------------------------ meaning

  function CoveringAt(ivs: seq<Interval>, t: int): seq<Id> {
    if ivs == [] then []
    else (if ivs[0].Covers(t) then [ivs[0].claim] else []) + CoveringAt(ivs[1..], t)
  }

  /** The sorted ids of the intervals covering the instant `t`. */
  function Covering(ivs: seq<Interval>, t: int): seq<Id> {
    SortIds(CoveringAt(ivs, t))
  }

  /** What a segmentation must be: in order, apart, each carrying exactly the ids that cover
      its every instant, complete, and maximal. */
  ghost predicate Exact(ivs: seq<Interval>, out: seq<Segment>) {
    && InOrder(out)
    && (forall k, t :: 0 <= k < |out| && out[k].Contains(t) ==> Covering(ivs, t) == out[k].claims)
    && (forall t :: Covering(ivs, t) != [] ==> Holds(out, t))
    && (forall k :: 0 <= k < |out| - 1 && out[k].high == out[k + 1].low ==> out[k].claims != out[k + 1].claims)
  }

  ghost predicate InOrder(out: seq<Segment>) {
    && (forall k :: 0 <= k < |out| ==> out[k].low < out[k].high && out[k].claims != [])
    && (forall k, l :: 0 <= k < l < |out| ==> out[k].high <= out[l].low)
  }

  ghost predicate Holds(out: seq<Segment>, t: int) {
    exists k :: 0 <= k < |out| && out[k].Contains(t)
  }

  // --------------------------------------------------------------- uniqueness

  /** `Exact`, but only promising completeness from the instant `a` on. */
  ghost predicate ExactFrom(ivs: seq<Interval>, out: seq<Segment>, a: int) {
    && InOrder(out)
    && (forall k, t :: 0 <= k < |out| && out[k].Contains(t) ==> Covering(ivs, t) == out[k].claims)
    && (forall t :: a <= t && Covering(ivs, t) != [] ==> Holds(out, t))
    && (forall k :: 0 <= k < |out| - 1 && out[k].high == out[k + 1].low ==> out[k].claims != out[k + 1].claims)
    && (forall k :: 0 <= k < |out| ==> a <= out[k].low)
  }

  lemma FirstNoLater(ivs: seq<Interval>, p: seq<Segment>, q: seq<Segment>, a: int)
    requires ExactFrom(ivs, p, a) && ExactFrom(ivs, q, a) && p != []
    ensures q != [] && q[0].low <= p[0].low
  {
    hide Covering;
    assert p[0].Contains(p[0].low);
    assert Holds(q, p[0].low);
    var k :| 0 <= k < |q| && q[k].Contains(p[0].low);
    assert k == 0 || q[0].high <= q[k].low;
  }

  /** At the end of the first segment its claim set no longer covers. */
  lemma FirstStops(ivs: seq<Interval>, p: seq<Segment>, a: int)
    requires ExactFrom(ivs, p, a) && p != []
    ensures Covering(ivs, p[0].high) != p[0].claims
  {
    hide Covering;
    var t := p[0].high;
    if Covering(ivs, t) != [] {
      assert Holds(p, t);
      var k :| 0 <= k < |p| && p[k].Contains(t);
      assert forall j :: 1 < j < |p| ==> p[1].high <= p[j].low;
      assert k > 0 && p[0].high <= p[1].low;
      assert p[1].Contains(t);
    }
  }

  lemma FirstNoLonger(ivs: seq<Interval>, p: seq<Segment>, q: seq<Segment>, a: int)
    requires ExactFrom(ivs, p, a) && ExactFrom(ivs, q, a) && p != [] && q != []
    requires p[0].low == q[0].low
    ensures p[0].claims == q[0].claims && p[0].high >= q[0].high
  {
    hide Covering;
    FirstStops(ivs, p, a);
    assert p[0].Contains(p[0].low) && q[0].Contains(p[0].low);
    assert Covering(ivs, p[0].low) == p[0].claims && Covering(ivs, p[0].low) == q[0].claims;
    assert Covering(ivs, p[0].high) != q[0].claims;
    assert !q[0].Contains(p[0].high);
  }

  lemma {:induction false} ExactFromUnique(ivs: seq<Interval>, p: seq<Segment>, q: seq<Segment>, a: int)
    requires ExactFrom(ivs, p, a) && ExactFrom(ivs, q, a)
    ensures p == q
  {
    if p != [] {
      FirstNoLater(ivs, p, q, a);
      FirstNoLater(ivs, q, p, a);
      FirstNoLonger(ivs, p, q, a);
      FirstNoLonger(ivs, q, p, a);
      ExactTail(ivs, p, a);
      ExactTail(ivs, q, a);
      ExactFromUnique(ivs, p[1..], q[1..], p[0].high);
      assert p == [p[0]] + p[1..] && q == [q[0]] + q[1..];
    } else if q != [] {
      FirstNoLater(ivs, q, p, a);
    }
  }

  lemma ExactTail(ivs: seq<Interval>, p: seq<Segment>, a: int)
    requires ExactFrom(ivs, p, a) && p != []
    ensures ExactFrom(ivs, p[1..], p[0].high)
  {
    hide Covering;
    forall t | p[0].high <= t && Covering(ivs, t) != [] ensures Holds(p[1..], t) {
      assert Holds(p, t);
      var k :| 0 <= k < |p| && p[k].Contains(t);
      assert p[1..][k - 1].Contains(t);
    }
  }

  /** There is one exact segmentation: the description leaves nothing open. */
  lemma ExactUnique(ivs: seq<Interval>, p: seq<Segment>, q: seq<Segment>)
    requires Exact(ivs, p) && Exact(ivs, q)
    ensures p == q
  {
    hide Exact, ExactFrom;
    var x := if p == [] then 0 else p[0].low;
    var y := if q == [] then 0 else q[0].low;
    var a := if x < y then x else y;
    ExactIsFrom(ivs, p, a);
    ExactIsFrom(ivs, q, a);
    ExactFromUnique(ivs, p, q, a);
  }

  lemma ExactIsFrom(ivs: seq<Interval>, p: seq<Segment>, a: int)
    requires Exact(ivs, p) && (p != [] ==> a <= p[0].low)
    ensures ExactFrom(ivs, p, a)
  {
    hide Covering;
    forall k | 0 <= k < |p| ensures a <= p[k].low { assert k == 0 || p[0].high <= p[k].low; }
  }

  // ---------------------------------------------------------------- the sweep

  ghost function Bounds(ivs: seq<Interval>): set<int> {
    (set i | i in ivs :: i.start) + (set i | i in ivs :: i.end)
  }

  ghost function Days(s: set<int>): (q: seq<int>)
    ensures Ascending(q, Earlier) && |q| == |s| && forall x :: x in q <==> x in s
  {
    EarlierIsStrictOrder();
    Sorted(s, Earlier)
  }

  ghost function Cuts(ivs: seq<Interval>): seq<int> { Days(Bounds(ivs)) }

  ghost predicate CoversAlike(ivs: seq<Interval>, t: int, u: int) {
    forall i :: 0 <= i < |ivs| ==> (ivs[i].Covers(t) <==> ivs[i].Covers(u))
  }

  lemma {:induction false} CoveringAlike(ivs: seq<Interval>, t: int, u: int)
    requires CoversAlike(ivs, t, u)
    ensures CoveringAt(ivs, t) == CoveringAt(ivs, u)
  {
    if ivs == [] {
    } else {
      assert forall i :: 0 <= i < |ivs[1..]| ==> ivs[1..][i] == ivs[i + 1];
      CoveringAlike(ivs[1..], t, u);
    }
  }

  /** Between two consecutive cuts the covering set is constant. */
  lemma ConstantBetween(ivs: seq<Interval>, low: int, high: int, t: int)
    requires low <= t < high
    requires forall b :: b in Bounds(ivs) ==> b <= low || high <= b
    ensures Covering(ivs, t) == Covering(ivs, low)
  {
    forall i | 0 <= i < |ivs| ensures ivs[i].Covers(t) <==> ivs[i].Covers(low) {
      assert ivs[i].start in Bounds(ivs) && ivs[i].end in Bounds(ivs);
    }
    CoveringAlike(ivs, t, low);
  }

  lemma {:induction false} NothingCovers(ivs: seq<Interval>, t: int)
    requires forall i :: 0 <= i < |ivs| ==> !ivs[i].Covers(t)
    ensures Covering(ivs, t) == []
  {
    if ivs == [] {
    } else {
      NothingCovers(ivs[1..], t);
      SortSorts(CoveringAt(ivs[1..], t));
      SortSorts(CoveringAt(ivs, t));
      assert multiset(CoveringAt(ivs[1..], t)) == multiset{};
    }
  }

  /** Outside all bounds nothing is claimed. */
  lemma NothingOutside(ivs: seq<Interval>, t: int)
    requires (forall b :: b in Bounds(ivs) ==> t < b) || (forall b :: b in Bounds(ivs) ==> b <= t)
    ensures Covering(ivs, t) == []
  {
    forall i | 0 <= i < |ivs| ensures !ivs[i].Covers(t) {
      assert ivs[i].start in Bounds(ivs) && ivs[i].end in Bounds(ivs);
    }
    NothingCovers(ivs, t);
  }

  /** The claims of every elementary range from cut `n` on are those covering its start. */
  ghost predicate Elementary(ivs: seq<Interval>, cuts: seq<int>, out: seq<Segment>, n: nat)
    requires n < |cuts|
  {
    && InOrder(out)
    && (forall k, t :: 0 <= k < |out| && out[k].Contains(t) ==> Covering(ivs, t) == out[k].claims)
    && (forall k :: 0 <= k < |out| ==> out[k].high <= cuts[n])
    && (forall t :: t < cuts[n] && Covering(ivs, t) != [] ==> Holds(out, t))
  }

  lemma ConsecutiveCuts(ivs: seq<Interval>, n: nat, b: int)
    requires n + 1 < |Cuts(ivs)| && b in Bounds(ivs)
    ensures Cuts(ivs)[n] < Cuts(ivs)[n + 1] && (b <= Cuts(ivs)[n] || Cuts(ivs)[n + 1] <= b)
  {
    hide Days;
    var cuts := Cuts(ivs);
    assert Earlier(cuts[n], cuts[n + 1]);
    assert b in cuts;
    var j :| 0 <= j < |cuts| && cuts[j] == b;
    assert j < n ==> Earlier(cuts[j], cuts[n]);
    assert n + 1 < j ==> Earlier(cuts[n + 1], cuts[j]);
  }

  lemma ElementaryConstant(ivs: seq<Interval>, n: nat, t: int)
    requires n + 1 < |Cuts(ivs)| && Cuts(ivs)[n] <= t < Cuts(ivs)[n + 1]
    ensures Covering(ivs, t) == Covering(ivs, Cuts(ivs)[n])
  {
    hide Days, Covering, Cuts;
    forall b | b in Bounds(ivs) ensures b <= Cuts(ivs)[n] || Cuts(ivs)[n + 1] <= b {
      ConsecutiveCuts(ivs, n, b);
    }
    ConstantBetween(ivs, Cuts(ivs)[n], Cuts(ivs)[n + 1], t);
  }

  lemma ElementaryNext(ivs: seq<Interval>, cuts: seq<int>, out: seq<Segment>, n: nat, out': seq<Segment>)
    requires cuts == Cuts(ivs) && n + 1 < |cuts| && Elementary(ivs, cuts, out, n)
    requires var cov := Covering(ivs, cuts[n]);
      out' == if cov == [] then out else out + [Segment(cuts[n], cuts[n + 1], cov)]
    ensures Elementary(ivs, cuts, out', n + 1)
  {
    hide Covering, Cuts, Days;
    assert cuts[n] < cuts[n + 1] by {
      CutsRise(ivs, n);
    }
    forall t | cuts[n] <= t < cuts[n + 1] ensures Covering(ivs, t) == Covering(ivs, cuts[n]) {
      ElementaryConstant(ivs, n, t);
    }
    ElementaryHolds(ivs, cuts, out, n, out');
  }

  lemma ElementaryHolds(ivs: seq<Interval>, cuts: seq<int>, out: seq<Segment>, n: nat, out': seq<Segment>)
    requires n + 1 < |cuts| && (forall t :: t < cuts[n] && Covering(ivs, t) != [] ==> Holds(out, t))
    requires forall t | cuts[n] <= t < cuts[n + 1] :: Covering(ivs, t) == Covering(ivs, cuts[n])
    requires var cov := Covering(ivs, cuts[n]);
      out' == if cov == [] then out else out + [Segment(cuts[n], cuts[n + 1], cov)]
    ensures forall t :: t < cuts[n + 1] && Covering(ivs, t) != [] ==> Holds(out', t)
  {
    hide Covering;
    forall t | t < cuts[n + 1] && Covering(ivs, t) != [] ensures Holds(out', t) {
      if t < cuts[n] {
        assert Holds(out, t);
        var k :| 0 <= k < |out| && out[k].Contains(t);
        assert out'[k].Contains(t);
      } else {
        assert out'[|out|].Contains(t);
      }
    }
  }

  lemma CutsRise(ivs: seq<Interval>, n: nat)
    requires n + 1 < |Cuts(ivs)|
    ensures Cuts(ivs)[n] < Cuts(ivs)[n + 1]
  {
    assert Earlier(Cuts(ivs)[n], Cuts(ivs)[n + 1]);
  }

  lemma ElementaryStart(ivs: seq<Interval>, cuts: seq<int>)
    requires cuts == Cuts(ivs) && cuts != []
    ensures Elementary(ivs, cuts, [], 0)
  {
    hide Covering;
    forall t | t < cuts[0] ensures Covering(ivs, t) == [] {
      forall b | b in Bounds(ivs) ensures t < b {
        assert b in cuts;
        var j :| 0 <= j < |cuts| && cuts[j] == b;
        assert 0 < j ==> Earlier(cuts[0], cuts[j]);
      }
      NothingOutside(ivs, t);
    }
  }

  lemma ElementaryEnd(ivs: seq<Interval>, cuts: seq<int>, out: seq<Segment>)
    requires cuts == Cuts(ivs) && cuts != [] && Elementary(ivs, cuts, out, |cuts| - 1)
    ensures forall t :: Covering(ivs, t) != [] ==> Holds(out, t)
  {
    hide Covering;
    forall t | Covering(ivs, t) != [] ensures Holds(out, t) {
      if cuts[|cuts| - 1] <= t {
        forall b | b in Bounds(ivs) ensures b <= t {
          assert b in cuts;
          var j :| 0 <= j < |cuts| && cuts[j] == b;
          assert j < |cuts| - 1 ==> Earlier(cuts[j], cuts[|cuts| - 1]);
        }
        NothingOutside(ivs, t);
      }
    }
  }

  // ------------------------------------------------------------------- merging

  /** `merged` says the same as `parts`, with touching equals joined. */
  ghost predicate Joined(parts: seq<Segment>, merged: seq<Segment>) {
    && InOrder(merged)
    && (forall t :: Holds(parts, t) <==> Holds(merged, t))
    && (forall k, l, t :: 0 <= k < |parts| && 0 <= l < |merged| && parts[k].Contains(t) && merged[l].Contains(t)
          ==> parts[k].claims == merged[l].claims)
    && (forall k :: 0 <= k < |merged| - 1 && merged[k].high == merged[k + 1].low
          ==> merged[k].claims != merged[k + 1].claims)
    && (parts == [] <==> merged == [])
    && (parts != [] ==> merged[|merged| - 1].high == parts[|parts| - 1].high
                        && merged[|merged| - 1].claims == parts[|parts| - 1].claims)
  }

  /** One step of the merge loop. */
  function Append(merged: seq<Segment>, s: Segment): seq<Segment> {
    if merged != [] && merged[|merged| - 1].claims == s.claims && merged[|merged| - 1].high == s.low
    then merged[|merged| - 1 := merged[|merged| - 1].(high := s.high)]
    else merged + [s]
  }

  lemma HoldsAppend(parts: seq<Segment>, s: Segment, t: int)
    ensures Holds(parts + [s], t) <==> Holds(parts, t) || s.Contains(t)
  {
    if Holds(parts, t) {
      var k :| 0 <= k < |parts| && parts[k].Contains(t);
      assert (parts + [s])[k].Contains(t);
    }
    if s.Contains(t) { assert (parts + [s])[|parts|].Contains(t); }
  }

  lemma HoldsStretch(merged: seq<Segment>, s: Segment, t: int)
    requires InOrder(merged) && merged != [] && s.low < s.high
    requires merged[|merged| - 1].high == s.low
    ensures Holds(merged[|merged| - 1 := merged[|merged| - 1].(high := s.high)], t)
            <==> Holds(merged, t) || s.Contains(t)
  {
    var n := |merged| - 1;
    var out := merged[n := merged[n].(high := s.high)];
    if Holds(merged, t) {
      var k :| 0 <= k < |merged| && merged[k].Contains(t);
      assert out[k].Contains(t);
    }
    if s.Contains(t) { assert out[n].Contains(t); }
    if Holds(out, t) {
      var k :| 0 <= k < |out| && out[k].Contains(t);
      assert k < n ==> merged[k].Contains(t);
      assert k == n ==> merged[n].Contains(t) || s.Contains(t);
    }
  }

  lemma JoinNext(parts: seq<Segment>, merged: seq<Segment>, s: Segment)
    requires InOrder(parts + [s]) && Joined(parts, merged)
    ensures Joined(parts + [s], Append(merged, s))
  {
    hide Holds;
    var all := parts + [s];
    var out := Append(merged, s);
    JoinOrdered(parts, merged, s);
    forall t ensures Holds(all, t) <==> Holds(out, t) {
      HoldsAppend(parts, s, t);
      if |out| == |merged| {
        HoldsStretch(merged, s, t);
      } else {
        HoldsAppend(merged, s, t);
      }
    }
    forall k, l, t | 0 <= k < |all| && 0 <= l < |out| && all[k].Contains(t) && out[l].Contains(t)
      ensures all[k].claims == out[l].claims
    {
      JoinClaims(parts, merged, s, k, l, t);
    }
  }

  lemma JoinOrdered(parts: seq<Segment>, merged: seq<Segment>, s: Segment)
    requires InOrder(parts + [s]) && Joined(parts, merged)
    ensures var out := Append(merged, s);
      && InOrder(out) && s.low < s.high
      && (forall k :: 0 <= k < |out| - 1 && out[k].high == out[k + 1].low ==> out[k].claims != out[k + 1].claims)
      && out[|out| - 1].high == s.high && out[|out| - 1].claims == s.claims
  {
    hide Holds;
    var all := parts + [s];
    assert all[|parts|] == s;
    if parts != [] {
      assert all[|parts| - 1] == parts[|parts| - 1] && parts[|parts| - 1].high <= s.low;
    }
    forall k | 0 <= k < |merged| ensures merged[k].high <= s.low {
      assert k < |merged| - 1 ==> merged[k].high <= merged[|merged| - 1].low;
    }
  }

  lemma JoinClaims(parts: seq<Segment>, merged: seq<Segment>, s: Segment, k: nat, l: nat, t: int)
    requires InOrder(parts + [s]) && Joined(parts, merged)
    requires k < |parts| + 1 && l < |Append(merged, s)|
    requires (parts + [s])[k].Contains(t) && Append(merged, s)[l].Contains(t)
    ensures (parts + [s])[k].claims == Append(merged, s)[l].claims
  {
    var all := parts + [s];
    assert all[|parts|] == s;
    if k < |parts| {
      assert all[k] == parts[k] && all[k].high <= all[|parts|].low;
      assert t < s.low;
      assert l < |merged| && merged[l].Contains(t);
    } else {
      if parts != [] { assert all[|parts| - 1].high <= all[|parts|].low; }
      assert forall i :: 0 <= i < |merged| - 1 ==> merged[i].high <= merged[|merged| - 1].low;
    }
  }

  lemma JoinedIsExact(ivs: seq<Interval>, parts: seq<Segment>, merged: seq<Segment>)
    requires InOrder(parts) && Joined(parts, merged)
    requires forall k, t :: 0 <= k < |parts| && parts[k].Contains(t) ==> Covering(ivs, t) == parts[k].claims
    requires forall t :: Covering(ivs, t) != [] ==> Holds(parts, t)
    ensures Exact(ivs, merged)
  {
    hide Covering;
    forall l, t | 0 <= l < |merged| && merged[l].Contains(t) ensures Covering(ivs, t) == merged[l].claims {
      assert Holds(merged, t);
      assert Holds(parts, t);
      var k :| 0 <= k < |parts| && parts[k].Contains(t);
    }
  }

  // ------------------------------------------- the segmentation as a function

  ghost function Parts(ivs: seq<Interval>, n: nat): seq<Segment>
    requires n < |Cuts(ivs)|
  {
    if n == 0 then []
    else
      var cov := Covering(ivs, Cuts(ivs)[n - 1]);
      if cov == [] then Parts(ivs, n - 1)
      else Parts(ivs, n - 1) + [Segment(Cuts(ivs)[n - 1], Cuts(ivs)[n], cov)]
  }

  function Merge(parts: seq<Segment>): seq<Segment> {
    if parts == [] then [] else Append(Merge(parts[..|parts| - 1]), parts[|parts| - 1])
  }

  ghost function Segmentation(ivs: seq<Interval>): seq<Segment> {
    if Cuts(ivs) == [] then [] else Merge(Parts(ivs, |Cuts(ivs)| - 1))
  }

  lemma {:induction false} PartsElementary(ivs: seq<Interval>, n: nat)
    requires n < |Cuts(ivs)|
    ensures Elementary(ivs, Cuts(ivs), Parts(ivs, n), n)
  {
    hide Covering, Cuts, Elementary;
    if n == 0 {
      ElementaryStart(ivs, Cuts(ivs));
    } else {
      PartsElementary(ivs, n - 1);
      ElementaryNext(ivs, Cuts(ivs), Parts(ivs, n - 1), n - 1, Parts(ivs, n));
    }
  }

  lemma {:induction false} MergeJoins(parts: seq<Segment>)
    requires InOrder(parts)
    ensures Joined(parts, Merge(parts))
  {
    hide Joined;
    if parts == [] {
      JoinNothing();
    } else {
      var front := parts[..|parts| - 1];
      assert parts == front + [parts[|parts| - 1]];
      MergeJoins(front);
      JoinNext(front, Merge(front), parts[|parts| - 1]);
    }
  }

  lemma JoinNothing()
    ensures Joined([], [])
  {
  }

  lemma NothingEver(ivs: seq<Interval>)
    requires Cuts(ivs) == []
    ensures forall t :: Covering(ivs, t) == []
  {
    hide Covering;
    forall t ensures Covering(ivs, t) == [] {
      assert forall b :: b in Bounds(ivs) ==> b in Cuts(ivs);
      NothingOutside(ivs, t);
    }
  }

  /** Every input has its exact segmentation. */
  lemma SegmentationExact(ivs: seq<Interval>)
    ensures Exact(ivs, Segmentation(ivs))
  {
    hide Covering, Cuts, Joined, Parts, Merge;
    if Cuts(ivs) == [] {
      NothingEver(ivs);
    } else {
      var parts := Parts(ivs, |Cuts(ivs)| - 1);
      PartsElementary(ivs, |Cuts(ivs)| - 1);
      ElementaryEnd(ivs, Cuts(ivs), parts);
      MergeJoins(parts);
      JoinedIsExact(ivs, parts, Merge(parts));
    }
  }

  // ------------------------------------------------------------ order of input

  lemma {:induction false} CoveringAppend(p: seq<Interval>, q: seq<Interval>, t: int)
    ensures CoveringAt(p + q, t) == CoveringAt(p, t) + CoveringAt(q, t)
  {
    if p == [] {
      assert p + q == q;
    } else {
      assert (p + q)[1..] == p[1..] + q;
      CoveringAppend(p[1..], q, t);
    }
  }

  lemma CoveringTakeOut(q: seq<Interval>, j: nat, t: int)
    requires j < |q|
    ensures multiset(CoveringAt(q, t))
      == multiset(CoveringAt(q[..j] + q[j + 1..], t)) + multiset(if q[j].Covers(t) then [q[j].claim] else [])
  {
    var here := if q[j].Covers(t) then [q[j].claim] else [];
    assert q == q[..j] + q[j..] && q[j..][1..] == q[j + 1..];
    CoveringAppend(q[..j], q[j..], t);
    CoveringAppend(q[..j], q[j + 1..], t);
    assert CoveringAt(q[j..], t) == here + CoveringAt(q[j + 1..], t);
    hide CoveringAt;
    assert CoveringAt(q, t) == CoveringAt(q[..j], t) + (here + CoveringAt(q[j + 1..], t));
  }

  lemma {:induction false} CoveringOrderFree(p: seq<Interval>, q: seq<Interval>, t: int)
    requires multiset(p) == multiset(q)
    ensures multiset(CoveringAt(p, t)) == multiset(CoveringAt(q, t))
  {
    hide CoveringAt;
    assert |multiset(p)| == |p| && |multiset(q)| == |q|;
    if p == [] {
      assert q == [];
    } else {
      assert p[0] in multiset(q);
      var j :| 0 <= j < |q| && q[j] == p[0];
      CoveringTakeOut(p, 0, t);
      CoveringTakeOut(q, j, t);
      TakeOut(p, 0);
      TakeOut(q, j);
      CoveringOrderFree(p[..0] + p[1..], q[..j] + q[j + 1..], t);
    }
  }

  /** The segments do not depend on the order of the intervals. */
  lemma SegmentationOrderFree(p: seq<Interval>, q: seq<Interval>)
    requires multiset(p) == multiset(q)
    ensures Segmentation(p) == Segmentation(q)
  {
    hide Covering, Segmentation, CoveringAt, SortIds;
    forall t ensures Covering(p, t) == Covering(q, t) {
      CoveringOrderFree(p, q, t);
      SortIsOrderFree(CoveringAt(p, t), CoveringAt(q, t));
      CoveringIs(p, t);
      CoveringIs(q, t);
    }
    SegmentationExact(p);
    SegmentationExact(q);
    ExactUnique(p, Segmentation(p), Segmentation(q));
  }

  lemma CoveringIs(ivs: seq<Interval>, t: int)
    ensures Covering(ivs, t) == SortIds(CoveringAt(ivs, t))
  {
  }

  // ------------------------------------------------------------------ _segment

  method ListDays(s: set<int>) returns (q: seq<int>)
    ensures q == Days(s)
  {
    EarlierIsStrictOrder();
    q := List(s, Earlier);
  }

  method ElementaryRanges(ivs: seq<Interval>) returns (parts: seq<Segment>)
    ensures parts == if Cuts(ivs) == [] then [] else Parts(ivs, |Cuts(ivs)| - 1)
  {
    hide Covering, Days;
    var cuts := ListDays((set i | i in ivs :: i.start) + (set i | i in ivs :: i.end));
    assert cuts == Cuts(ivs);
    parts := [];
    var n := 0;
    while n + 1 < |cuts|
      invariant 0 <= n && (n < |cuts| || cuts == [])
      invariant parts == if cuts == [] then [] else Parts(ivs, n)
    {
      var covering := Covering(ivs, cuts[n]);
      if covering != [] {
        parts := parts + [Segment(cuts[n], cuts[n + 1], covering)];
      }
      n := n + 1;
    }
  }

  /** Cuts, elementary ranges, then neighbours with an identical claim set merged back. */
  method SegmentIntervals(ivs: seq<Interval>) returns (merged: seq<Segment>)
    ensures merged == Segmentation(ivs)
    ensures Exact(ivs, merged)
  {
    hide Covering, Cuts, Exact, Parts;
    var parts := ElementaryRanges(ivs);
    merged := [];
    var k := 0;
    while k < |parts|
      invariant 0 <= k <= |parts|
      invariant merged == Merge(parts[..k])
    {
      var s := parts[k];
      assert parts[..k + 1][..k] == parts[..k];
      if merged != [] && merged[|merged| - 1].claims == s.claims && merged[|merged| - 1].high == s.low {
        merged := merged[|merged| - 1 := merged[|merged| - 1].(high := s.high)];
      } else {
        merged := merged + [s];
      }
      k := k + 1;
    }
    assert parts[..|parts|] == parts;
    SegmentationExact(ivs);
  }
}
