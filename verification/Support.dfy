/** The support summary of an edge segment: how often its claims are corroborated and
    contradicted (aegis/projections/edges.py:198-290). */
module Support {
  import opened Common
  import opened Lists
  import opened Store

  datatype Kind = Corroborates | Contradicts

  /** A relation row is directional; what it says holds of both ends. */
  datatype Relation = Relation(source: Id, target: Id, kind: Kind)

  datatype Entry = Entry(claim: Id, corroboratedBy: nat, contradictedBy: nat)

  datatype Summary = Summary(entries: seq<Entry>, corroborationCount: nat, contradictionCount: nat)

  type Index = map<Id, seq<(Id, Kind)>>

  function Listed(index: Index, c: Id): seq<(Id, Kind)> { if c in index then index[c] else [] }

  // ------------------------------------------------------------- relation index

  predicate VisibleTo(visible: Option<set<Id>>, r: Relation) {
    visible.Some? ==> r.source in visible.value && r.target in visible.value
  }

  /** The rows a reader may know of, in order. */
  function Visible(rows: seq<Relation>, visible: Option<set<Id>>): seq<Relation> {
    if rows == [] then []
    else
      var last := rows[|rows| - 1];
      Visible(rows[..|rows| - 1], visible) + if VisibleTo(visible, last) then [last] else []
  }

  /** The other ends of the rows that touch a claim. */
  function Touching(rows: seq<Relation>, c: Id): seq<(Id, Kind)> {
    if rows == [] then []
    else
      var last := rows[|rows| - 1];
      Touching(rows[..|rows| - 1], c)
      + (if last.source == c then [(last.target, last.kind)] else [])
      + (if last.target == c then [(last.source, last.kind)] else [])
  }

  lemma TouchingNext(rows: seq<Relation>, r: Relation, c: Id)
    ensures Touching(rows + [r], c) == Touching(rows, c) + (if r.source == c then [(r.target, r.kind)] else [])
                                       + (if r.target == c then [(r.source, r.kind)] else [])
  {
    assert (rows + [r])[..|rows|] == rows;
  }

  /** The row is a relation of the claim, from one end or the other. */
  predicate Reaches(rows: seq<Relation>, c: Id, t: (Id, Kind)) {
    Relation(c, t.0, t.1) in rows || Relation(t.0, c, t.1) in rows
  }

  /** Each visible row is indexed under both of its ends. */
  method RelationIndex(rows: seq<Relation>, visible: Option<set<Id>>) returns (index: Index)
    ensures forall c :: Listed(index, c) == Touching(Visible(rows, visible), c)
  {
    hide Touching, VisibleTo;
    index := map[];
    var i := 0;
    NothingTouches();
    while i < |rows|
      invariant 0 <= i <= |rows|
      invariant forall c :: Listed(index, c) == Touching(Visible(rows[..i], visible), c)
    {
      var r := rows[i];
      assert rows[..i + 1][..i] == rows[..i];
      ghost var shown := Visible(rows[..i], visible);
      assert shown + [] == shown;
      if VisibleTo(visible, r) {
        index := AddRow(index, shown, r);
      }
      i := i + 1;
    }
    assert rows[..|rows|] == rows;
  }

  lemma NothingTouches()
    ensures forall c :: Touching([], c) == []
  {
  }

  method AddRow(before: Index, ghost rows: seq<Relation>, r: Relation) returns (index: Index)
    requires forall c :: Listed(before, c) == Touching(rows, c)
    ensures forall c :: Listed(index, c) == Touching(rows + [r], c)
  {
    hide Touching;
    index := before[r.source := Listed(before, r.source) + [(r.target, r.kind)]];
    index := index[r.target := Listed(index, r.target) + [(r.source, r.kind)]];
    forall c ensures Listed(index, c) == Touching(rows + [r], c) {
      TouchingNext(rows, r, c);
      assert Listed(before, c) == Touching(rows, c);
    }
  }

  // -------------------------------------------------------------------- counting

  function Ends(rows: seq<Relation>, claims: set<Id>, kind: Kind): nat {
    if rows == [] then 0
    else
      var last := rows[|rows| - 1];
      Ends(rows[..|rows| - 1], claims, kind)
      + (if last.kind == kind && last.source in claims then 1 else 0)
      + (if last.kind == kind && last.target in claims then 1 else 0)
  }

  predicate Touches(r: Relation, claims: set<Id>, kind: Kind) {
    r.kind == kind && (r.source in claims || r.target in claims)
  }

  function PairOf(r: Relation): (Id, Id) { (Low(r.source, r.target), High(r.source, r.target)) }

  /** The disagreements (or agreements) of a segment: unordered pairs of claims that some
      row relates, with an end in the segment. */
  function Distinct(rows: seq<Relation>, claims: set<Id>, kind: Kind): set<(Id, Id)> {
    set r | r in rows && Touches(r, claims, kind) :: PairOf(r)
  }

  function Inside(rows: seq<Relation>, claims: set<Id>, kind: Kind): set<(Id, Id)> {
    set r | r in rows && Within(r, claims, kind) :: PairOf(r)
  }

  lemma PairEitherWay(a: Id, b: Id)
    ensures (Low(a, b), High(a, b)) == (Low(b, a), High(b, a))
  {
    BeforeIsStrictOrder();
  }

  /** Seen from the other end a relation is the same one, so recording it both ways changes
      no count of the segment. */
  lemma MirrorIsOneRelation(rows: seq<Relation>, claims: set<Id>, kind: Kind, r: Relation)
    requires r in rows
    ensures Distinct(rows + [Mirror(r)], claims, kind) == Distinct(rows, claims, kind)
  {
    hide Low, High;
    var mirror := Mirror(r);
    PairEitherWay(r.source, r.target);
    assert forall x :: x in rows + [mirror] <==> x in rows || x == mirror;
  }

  lemma {:induction false} EndsAddUp(rows: seq<Relation>, claims: set<Id>, c: Id, kind: Kind)
    requires c !in claims
    ensures Ends(rows, claims + {c}, kind) == Ends(rows, claims, kind) + Ends(rows, {c}, kind)
  {
    if rows == [] {
    } else {
      EndsAddUp(rows[..|rows| - 1], claims, c, kind);
    }
  }

  function Mirror(r: Relation): Relation { Relation(r.target, r.source, r.kind) }

  /** Recorded from both of its ends. */
  predicate Mutual(rows: seq<Relation>, r: Relation) { r.source != r.target && Mirror(r) in rows }

  function Both(rows: seq<Relation>, claims: set<Id>, kind: Kind): set<(Id, Id)> {
    set r | r in rows && Touches(r, claims, kind) && Mutual(rows, r) :: PairOf(r)
  }

  predicate Within(r: Relation, claims: set<Id>, kind: Kind) {
    r.kind == kind && r.source in claims && r.target in claims
  }

  function BothInside(rows: seq<Relation>, claims: set<Id>, kind: Kind): set<(Id, Id)> {
    set r | r in rows && Within(r, claims, kind) && Mutual(rows, r) :: PairOf(r)
  }

  /** Only a row and its mirror stand for one pair. */
  lemma PairIsRowOrMirror(x: Relation, r: Relation)
    requires x.kind == r.kind
    ensures PairOf(x) == PairOf(r) <==> x == r || x == Mirror(r)
  {
    hide Before;
    PairEitherWay(r.source, r.target);
  }

  /** A row whose mirror was not recorded before adds a pair. */
  lemma NewPair(rows: seq<Relation>, r: Relation, claims: set<Id>, kind: Kind)
    requires r !in rows && !Mutual(rows, r)
    ensures var gained := if Touches(r, claims, kind) then {PairOf(r)} else {};
      Distinct(rows + [r], claims, kind) == Distinct(rows, claims, kind) + gained
      && Distinct(rows, claims, kind) !! gained
    ensures var gained := if Within(r, claims, kind) then {PairOf(r)} else {};
      Inside(rows + [r], claims, kind) == Inside(rows, claims, kind) + gained && Inside(rows, claims, kind) !! gained
    ensures Both(rows + [r], claims, kind) == Both(rows, claims, kind)
    ensures BothInside(rows + [r], claims, kind) == BothInside(rows, claims, kind)
  {
    hide PairOf;
    assert forall x :: x in rows + [r] <==> x in rows || x == r;
    forall x | x in rows && x.kind == r.kind ensures PairOf(x) != PairOf(r) {
      PairIsRowOrMirror(x, r);
    }
    assert forall x :: x in rows ==> (Mutual(rows + [r], x) <==> Mutual(rows, x));
    assert !Mutual(rows + [r], r);
  }

  /** A row whose mirror was recorded before adds no pair, but makes its pair mutual. */
  lemma MutualPair(rows: seq<Relation>, r: Relation, claims: set<Id>, kind: Kind)
    requires r !in rows && Mutual(rows, r)
    ensures Distinct(rows + [r], claims, kind) == Distinct(rows, claims, kind)
    ensures Inside(rows + [r], claims, kind) == Inside(rows, claims, kind)
    ensures var gained := if Touches(r, claims, kind) then {PairOf(r)} else {};
      Both(rows + [r], claims, kind) == Both(rows, claims, kind) + gained && Both(rows, claims, kind) !! gained
    ensures var gained := if Within(r, claims, kind) then {PairOf(r)} else {};
      BothInside(rows + [r], claims, kind) == BothInside(rows, claims, kind) + gained
      && BothInside(rows, claims, kind) !! gained
  {
    hide PairOf;
    assert forall x :: x in rows + [r] <==> x in rows || x == r;
    PairIsRowOrMirror(Mirror(r), r);
    forall x | x in rows && x.kind == r.kind && PairOf(x) == PairOf(r) ensures x == Mirror(r) {
      PairIsRowOrMirror(x, r);
    }
    assert !Mutual(rows, Mirror(r)) && Mutual(rows + [r], Mirror(r));
    assert forall x :: x in rows && x != Mirror(r) ==> (Mutual(rows + [r], x) <==> Mutual(rows, x));
  }

  lemma EndsNext(rows: seq<Relation>, r: Relation, claims: set<Id>, kind: Kind)
    ensures Ends(rows + [r], claims, kind) == Ends(rows, claims, kind) + (if Touches(r, claims, kind) then 1 else 0)
                                              + (if Within(r, claims, kind) then 1 else 0)
  {
    assert (rows + [r])[..|rows|] == rows;
  }

  /** What the per-claim counts add up to: every distinct relation once and those inside the
      segment once more, and all of that again for the relations recorded from both ends. */
  lemma {:induction false} InsideCountedTwice(rows: seq<Relation>, claims: set<Id>, kind: Kind)
    requires NoRepeats(rows)
    ensures Ends(rows, claims, kind)
      == |Distinct(rows, claims, kind)| + |Inside(rows, claims, kind)|
         + |Both(rows, claims, kind)| + |BothInside(rows, claims, kind)|
  {
    hide PairOf, Distinct, Inside, Both, BothInside, Touches, Within, Mutual, Ends, NoRepeats;
    if rows == [] {
      NoRelations(claims, kind);
    } else {
      var front, last := rows[..|rows| - 1], rows[|rows| - 1];
      LastIsNew(rows);
      InsideCountedTwice(front, claims, kind);
      EndsNext(front, last, claims, kind);
      if Mutual(front, last) {
        MutualPair(front, last, claims, kind);
      } else {
        NewPair(front, last, claims, kind);
      }
    }
  }

  lemma NoRelations(claims: set<Id>, kind: Kind)
    ensures Distinct([], claims, kind) == {} && Inside([], claims, kind) == {}
    ensures Both([], claims, kind) == {} && BothInside([], claims, kind) == {}
    ensures Ends([], claims, kind) == 0
  {
  }

  lemma LastIsNew(rows: seq<Relation>)
    requires NoRepeats(rows) && rows != []
    ensures var front, last := rows[..|rows| - 1], rows[|rows| - 1];
      rows == front + [last] && last !in front && NoRepeats(front)
  {
  }

  /** A reader who may see fewer claims never counts a relation that is not there. */
  lemma {:induction false} VisibleCountsLess(rows: seq<Relation>, visible: Option<set<Id>>, claims: set<Id>, kind: Kind)
    ensures forall r :: r in Visible(rows, visible) <==> r in rows && VisibleTo(visible, r)
    ensures Distinct(Visible(rows, visible), claims, kind) <= Distinct(rows, claims, kind)
  {
    hide PairOf;
    if rows == [] {
    } else {
      var front, last := rows[..|rows| - 1], rows[|rows| - 1];
      VisibleCountsLess(front, visible, claims, kind);
      assert forall r :: r in rows <==> r in front || r == last;
    }
  }

  /** A reader who may see some claims is shown the relations both of whose claims are among them. */
  lemma VisibleIff(rows: seq<Relation>, visible: Option<set<Id>>, r: Relation)
    ensures r in Visible(rows, visible)
      <==> r in rows && (visible.None? || (r.source in visible.value && r.target in visible.value))
  {
    VisibleCountsLess(rows, visible, {}, r.kind);
  }

  /** A distinct relation of a segment: one row of the kind, either way round, with an end in it. */
  lemma DistinctIff(rows: seq<Relation>, claims: set<Id>, kind: Kind, a: Id, b: Id)
    requires !Before(b, a)
    ensures (a, b) in Distinct(rows, claims, kind)
      <==> (a in claims || b in claims) && (Relation(a, b, kind) in rows || Relation(b, a, kind) in rows)
  {
    hide Before;
    BeforeIsStrictOrder();
    if (a, b) in Distinct(rows, claims, kind) {
      var r :| r in rows && Touches(r, claims, kind) && PairOf(r) == (a, b);
      assert r == Relation(r.source, r.target, kind);
    }
    if (a in claims || b in claims) && (Relation(a, b, kind) in rows || Relation(b, a, kind) in rows) {
      var r := if Relation(a, b, kind) in rows then Relation(a, b, kind) else Relation(b, a, kind);
      assert Touches(r, claims, kind) && PairOf(r) == (a, b);
    }
  }

  function StartsAt(rows: seq<Relation>, c: Id, kind: Kind): set<int> {
    set i | 0 <= i < |rows| && rows[i].kind == kind && rows[i].source == c
  }

  function EndsAt(rows: seq<Relation>, c: Id, kind: Kind): set<int> {
    set i | 0 <= i < |rows| && rows[i].kind == kind && rows[i].target == c
  }

  lemma StartsAtNext(rows: seq<Relation>, r: Relation, c: Id, kind: Kind)
    ensures |StartsAt(rows + [r], c, kind)|
      == |StartsAt(rows, c, kind)| + if r.kind == kind && r.source == c then 1 else 0
  {
    var last := if r.kind == kind && r.source == c then {|rows|} else {};
    assert StartsAt(rows + [r], c, kind) == StartsAt(rows, c, kind) + last;
  }

  lemma EndsAtNext(rows: seq<Relation>, r: Relation, c: Id, kind: Kind)
    ensures |EndsAt(rows + [r], c, kind)| == |EndsAt(rows, c, kind)| + if r.kind == kind && r.target == c then 1 else 0
  {
    var last := if r.kind == kind && r.target == c then {|rows|} else {};
    assert EndsAt(rows + [r], c, kind) == EndsAt(rows, c, kind) + last;
  }

  /** A claim's count: the rows of the kind that start at it, and those that end at it. */
  lemma {:induction false} EndsAre(rows: seq<Relation>, c: Id, kind: Kind)
    ensures Ends(rows, {c}, kind) == |StartsAt(rows, c, kind)| + |EndsAt(rows, c, kind)|
  {
    hide StartsAt, EndsAt;
    if rows == [] {
      assert StartsAt([], c, kind) == {} && EndsAt([], c, kind) == {} by { NoPlaces(c, kind); }
    } else {
      var front, last := rows[..|rows| - 1], rows[|rows| - 1];
      assert rows == front + [last];
      EndsAre(front, c, kind);
      StartsAtNext(front, last, c, kind);
      EndsAtNext(front, last, c, kind);
    }
  }

  lemma NoPlaces(c: Id, kind: Kind)
    ensures StartsAt([], c, kind) == {} && EndsAt([], c, kind) == {}
  {
  }

  // --------------------------------------------------------------------- summary

  function Sum(entries: seq<Entry>, kind: Kind): nat {
    if entries == [] then 0
    else
      var last := entries[|entries| - 1];
      Sum(entries[..|entries| - 1], kind)
      + match kind case Corroborates => last.corroboratedBy case Contradicts => last.contradictedBy
  }

  function CountOf(q: seq<(Id, Kind)>, kind: Kind): nat {
    if q == [] then 0 else CountOf(q[..|q| - 1], kind) + if q[|q| - 1].1 == kind then 1 else 0
  }

  function TripleOf(c: Id, t: (Id, Kind)): (Id, Id, Kind) { (Low(c, t.0), High(c, t.0), t.1) }

  lemma {:induction false} CountAppend(q: seq<(Id, Kind)>, x: (Id, Kind), kind: Kind)
    ensures CountOf(q + [x], kind) == CountOf(q, kind) + if x.1 == kind then 1 else 0
  {
    assert (q + [x])[..|q|] == q;
  }

  lemma CountMore(q: seq<(Id, Kind)>, first: bool, x: (Id, Kind), second: bool, y: (Id, Kind), kind: Kind)
    ensures CountOf(q + (if first then [x] else []) + (if second then [y] else []), kind)
      == CountOf(q, kind) + (if first && x.1 == kind then 1 else 0) + (if second && y.1 == kind then 1 else 0)
  {
    hide CountOf;
    var p := q + if first then [x] else [];
    CountAppend(q, x, kind);
    CountAppend(p, y, kind);
    assert q + [] == q && p + [] == p;
  }

  lemma {:induction false} TouchingCounts(rows: seq<Relation>, c: Id, kind: Kind)
    ensures CountOf(Touching(rows, c), kind) == Ends(rows, {c}, kind)
  {
    hide CountOf, Touching;
    if rows == [] {
      TouchingNone(c, kind);
    } else {
      var front, last := rows[..|rows| - 1], rows[|rows| - 1];
      assert rows == front + [last];
      TouchingCounts(front, c, kind);
      TouchingNext(front, last, c);
      CountMore(Touching(front, c), last.source == c, (last.target, last.kind),
                last.target == c, (last.source, last.kind), kind);
    }
  }

  lemma TouchingNone(c: Id, kind: Kind)
    ensures CountOf(Touching([], c), kind) == 0
  {
  }

  lemma {:induction false} TouchingMembers(rows: seq<Relation>, c: Id)
    ensures forall t :: t in Touching(rows, c) <==> Reaches(rows, c, t)
  {
    if rows == [] {
    } else {
      var front, last := rows[..|rows| - 1], rows[|rows| - 1];
      TouchingMembers(front, c);
      assert forall r :: r in rows <==> r in front || r == last;
    }
  }

  /** The triples of one kind gathered from the claims are the distinct relations. */
  lemma TriplesAreDistinct(rows: seq<Relation>, claims: set<Id>, triples: set<(Id, Id, Kind)>, kind: Kind)
    requires forall x :: x in triples <==> exists c, t :: c in claims && t in Touching(rows, c) && x == TripleOf(c, t)
    ensures |set x | x in triples && x.2 == kind| == |Distinct(rows, claims, kind)|
  {
    hide Low, High, Touching;
    var kept := set x | x in triples && x.2 == kind;
    var pairs := Distinct(rows, claims, kind);
    forall c ensures forall t :: t in Touching(rows, c) <==> Reaches(rows, c, t) {
      TouchingMembers(rows, c);
    }
    forall p: (Id, Id) ensures p in pairs <==> (p.0, p.1, kind) in kept {
      if p in pairs {
        var r :| r in rows && Touches(r, claims, kind) && PairOf(r) == p;
        PairEitherWay(r.source, r.target);
        if r.source in claims {
          assert TripleOf(r.source, (r.target, kind)) == (p.0, p.1, kind);
          assert (r.target, kind) in Touching(rows, r.source);
        } else {
          assert TripleOf(r.target, (r.source, kind)) == (p.0, p.1, kind);
          assert (r.source, kind) in Touching(rows, r.target);
        }
      }
      if (p.0, p.1, kind) in kept {
        var c, t :| c in claims && t in Touching(rows, c) && (p.0, p.1, kind) == TripleOf(c, t);
        PairEitherWay(c, t.0);
        var r := if Relation(c, t.0, t.1) in rows then Relation(c, t.0, t.1) else Relation(t.0, c, t.1);
        assert r in rows && Touches(r, claims, kind) && PairOf(r) == p;
      }
    }
    SameSize(kept, pairs, kind);
  }

  lemma {:induction false} SameSize(triples: set<(Id, Id, Kind)>, pairs: set<(Id, Id)>, kind: Kind)
    requires forall x :: x in triples <==> x.2 == kind && (x.0, x.1) in pairs
    ensures |triples| == |pairs|
    decreases |pairs|
  {
    if pairs == {} {
      assert triples == {};
    } else {
      var p :| p in pairs;
      assert (p.0, p.1, kind) in triples;
      SameSize(triples - {(p.0, p.1, kind)}, pairs - {p}, kind);
    }
  }

  predicate EntryOf(rows: seq<Relation>, c: Id, e: Entry) {
    e == Entry(c, Ends(rows, {c}, Corroborates), Ends(rows, {c}, Contradicts))
  }

  ghost predicate Gathered(rows: seq<Relation>, claims: set<Id>, triples: set<(Id, Id, Kind)>) {
    forall x :: x in triples <==> exists c, t :: c in claims && t in Touching(rows, c) && x == TripleOf(c, t)
  }

  /** One claim's relations: how many of each kind, and the triples they stand for. */
  method Tally(c: Id, touching: seq<(Id, Kind)>) returns (entry: Entry, triples: set<(Id, Id, Kind)>)
    ensures entry == Entry(c, CountOf(touching, Corroborates), CountOf(touching, Contradicts))
    ensures triples == set t | t in touching :: TripleOf(c, t)
  {
    hide Low, High;
    entry, triples := Entry(c, 0, 0), {};
    var i := 0;
    while i < |touching|
      invariant 0 <= i <= |touching|
      invariant entry == Entry(c, CountOf(touching[..i], Corroborates), CountOf(touching[..i], Contradicts))
      invariant triples == set t | t in touching[..i] :: TripleOf(c, t)
    {
      var (other, kind) := touching[i];
      assert touching[..i + 1] == touching[..i] + [touching[i]];
      assert forall t :: t in touching[..i + 1] <==> t in touching[..i] || t == touching[i];
      assert TripleOf(c, touching[i]) == (Low(c, other), High(c, other), kind);
      CountAppend(touching[..i], touching[i], Corroborates);
      CountAppend(touching[..i], touching[i], Contradicts);
      match kind {
        case Corroborates => entry := entry.(corroboratedBy := entry.corroboratedBy + 1);
        case Contradicts => entry := entry.(contradictedBy := entry.contradictedBy + 1);
      }
      triples := triples + {(Low(c, other), High(c, other), kind)};
      i := i + 1;
    }
    assert touching[..|touching|] == touching;
  }

  lemma GatheredNext(rows: seq<Relation>, claims: set<Id>, triples: set<(Id, Id, Kind)>, c: Id)
    requires Gathered(rows, claims, triples)
    ensures Gathered(rows, claims + {c}, triples + set t | t in Touching(rows, c) :: TripleOf(c, t))
  {
    hide Touching, TripleOf;
  }

  lemma SumAppend(entries: seq<Entry>, e: Entry)
    ensures Sum(entries + [e], Corroborates) == Sum(entries, Corroborates) + e.corroboratedBy
    ensures Sum(entries + [e], Contradicts) == Sum(entries, Contradicts) + e.contradictedBy
  {
    assert (entries + [e])[..|entries|] == entries;
  }

  lemma {:induction false} NoEnds(rows: seq<Relation>, kind: Kind)
    ensures Ends(rows, {}, kind) == 0
  {
    if rows == [] {
    } else {
      NoEnds(rows[..|rows| - 1], kind);
    }
  }

  /** The summary of a segment: distinct relations at the segment level, every end at the
      level of its claims. */
  method SupportSummary(claims: set<Id>, ghost rows: seq<Relation>, relations: Index) returns (summary: Summary)
    requires forall c :: Listed(relations, c) == Touching(rows, c)
    ensures summary.corroborationCount == |Distinct(rows, claims, Corroborates)|
    ensures summary.contradictionCount == |Distinct(rows, claims, Contradicts)|
    ensures Sum(summary.entries, Corroborates) == Ends(rows, claims, Corroborates)
    ensures Sum(summary.entries, Contradicts) == Ends(rows, claims, Contradicts)
    ensures |summary.entries| == |claims|
    ensures forall i :: 0 <= i < |claims| ==> EntryOf(rows, Ids(claims)[i], summary.entries[i])
  {
    hide Touching, Ends, Ids, Low, High, Distinct, Gathered, Sum, CountOf, Listed;
    var q := ListIds(claims);
    var entries: seq<Entry> := [];
    var distinct: set<(Id, Id, Kind)> := {};
    ghost var done: set<Id> := {};
    NoEnds(rows, Corroborates);
    NoEnds(rows, Contradicts);
    Start(rows);
    for i := 0 to |q|
      invariant |entries| == i && done == set k | 0 <= k < i :: q[k]
      invariant forall k :: 0 <= k < i ==> EntryOf(rows, q[k], entries[k])
      invariant Sum(entries, Corroborates) == Ends(rows, done, Corroborates)
      invariant Sum(entries, Contradicts) == Ends(rows, done, Contradicts)
      invariant Gathered(rows, done, distinct)
    {
      var entry, triples := Tally(q[i], Listed(relations, q[i]));
      TouchingCounts(rows, q[i], Corroborates);
      TouchingCounts(rows, q[i], Contradicts);
      NotBefore(q, i);
      EndsAddUp(rows, done, q[i], Corroborates);
      EndsAddUp(rows, done, q[i], Contradicts);
      GatheredNext(rows, done, distinct, q[i]);
      SumAppend(entries, entry);
      entries := entries + [entry];
      distinct := distinct + triples;
      done := done + {q[i]};
    }
    assert done == claims;
    Finish(rows, claims, distinct, Corroborates);
    Finish(rows, claims, distinct, Contradicts);
    var corroborates := set x | x in distinct && x.2 == Corroborates;
    var contradicts := set x | x in distinct && x.2 == Contradicts;
    summary := Summary(entries, |corroborates|, |contradicts|);
  }

  lemma Start(rows: seq<Relation>)
    ensures Gathered(rows, {}, {}) && Sum([], Corroborates) == 0 && Sum([], Contradicts) == 0
  {
  }

  lemma Finish(rows: seq<Relation>, claims: set<Id>, triples: set<(Id, Id, Kind)>, kind: Kind)
    requires Gathered(rows, claims, triples)
    ensures |set x | x in triples && x.2 == kind| == |Distinct(rows, claims, kind)|
  {
    hide Touching, Distinct;
    TriplesAreDistinct(rows, claims, triples, kind);
  }

  lemma NotBefore(q: seq<Id>, i: nat)
    requires Ascending(q, Before) && i < |q|
    ensures q[i] !in set k | 0 <= k < i :: q[k]
  {
    hide Before;
    forall k | 0 <= k < i ensures q[k] != q[i] {
      BeforeIrreflexive(q[i]);
      assert Before(q[k], q[i]);
    }
  }
}
