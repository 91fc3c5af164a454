/** The edge projection built from the claims and the identity ledger
    (aegis/projections/edges.py:302-424). */
module Projection {
  import opened Common
  import opened Store
  import opened LedgerInvariant
  import opened LedgerReversal
  import opened LedgerRuns
  import opened LedgerSplit
  import opened Segments
  import opened ClaimDates

  /** Canonical subject, object and predicate. */
  datatype Key = Key(subject: Id, obj: Id, predicate_: Id)

  /** One row of the projection: a maximal span of one edge and the claims that support it. */
  datatype EdgeRow = EdgeRow(key: Key, span: Span, claims: seq<Id>)

  // ---------------------------------------------------------------- endpoints

  predicate Relational(c: Claim) { c.objectId.Some? && !c.retracted }

  /** Both arguments resolved, and re-normalised when the predicate is symmetric. */
  ghost function KeyOf(s: Tables, symmetric: set<Id>, c: Claim): Key
    requires c.objectId.Some?
  {
    var subject := ResolveArgument(s, c.subjectId, c.subjectMention);
    var obj := ResolveArgument(s, c.objectId.value, c.objectMention);
    Oriented(subject, obj, c.predicate_, symmetric)
  }

  function Oriented(subject: Id, obj: Id, predicate_: Id, symmetric: set<Id>): Key {
    if predicate_ in symmetric && Before(obj, subject) then Key(obj, subject, predicate_)
    else Key(subject, obj, predicate_)
  }

  /** The claim supports the edge: a claim whose ends became one entity supports none. */
  ghost predicate Supports(s: Tables, symmetric: set<Id>, id: Id, key: Key) {
    && id in s.claims && Relational(s.claims[id])
    && KeyOf(s, symmetric, s.claims[id]) == key
    && key.subject != key.obj
  }

  // ------------------------------------------------------------------- groups

  function DatedClaim(id: Id, c: Claim): Dated { Dated(id, c.validFrom, c.validTo) }

  /** The claims of an edge among the listed ids, in their order. */
  ghost function GroupAmong(s: Tables, symmetric: set<Id>, ids: seq<Id>, key: Key): seq<Dated> {
    if ids == [] then []
    else
      var last := ids[|ids| - 1];
      GroupAmong(s, symmetric, ids[..|ids| - 1], key)
      + if Supports(s, symmetric, last, key) then [DatedClaim(last, s.claims[last])] else []
  }

  ghost function GroupOf(s: Tables, symmetric: set<Id>, key: Key): seq<Dated> {
    GroupAmong(s, symmetric, Ids(s.claims.Keys), key)
  }

  ghost function SegmentsOf(s: Tables, symmetric: set<Id>, key: Key): seq<Segment> {
    Segmentation(Intervals(GroupOf(s, symmetric, key)))
  }

  function RowOf(key: Key, seg: Segment): EdgeRow { EdgeRow(key, SpanOf(seg), seg.claims) }

  ghost predicate IsRow(s: Tables, symmetric: set<Id>, row: EdgeRow) {
    var segs := SegmentsOf(s, symmetric, row.key);
    exists k :: 0 <= k < |segs| && row == RowOf(row.key, segs[k])
  }

  /** `table` is the whole projection: every segment of every edge, and nothing else. */
  ghost predicate IsProjection(s: Tables, symmetric: set<Id>, table: set<EdgeRow>) {
    forall row :: row in table <==> IsRow(s, symmetric, row)
  }

  /** Every claim that supports an edge has dates as the claim table stores them and does not
      end on `date.max`, which makes the rebuild overflow. */
  ghost predicate Buildable(s: Tables, symmetric: set<Id>) {
    forall id, key :: Supports(s, symmetric, id, key) ==>
      DatedClaim(id, s.claims[id]).WellDated() && !DatedClaim(id, s.claims[id]).Overflows()
  }

  // ------------------------------------------------------------ what is in a group

  ghost predicate Gathers(s: Tables, symmetric: set<Id>, ids: seq<Id>, key: Key, g: seq<Dated>) {
    && (forall i :: 0 <= i < |g| ==>
          g[i].id in ids && Supports(s, symmetric, g[i].id, key) && g[i] == DatedClaim(g[i].id, s.claims[g[i].id]))
    && (forall i, j :: 0 <= i < j < |g| ==> g[i].id != g[j].id)
    && (forall x :: x in ids && Supports(s, symmetric, x, key) ==> exists i :: 0 <= i < |g| && g[i].id == x)
  }

  lemma {:induction false} GroupMembers(s: Tables, symmetric: set<Id>, ids: seq<Id>, key: Key)
    requires forall i, j :: 0 <= i < j < |ids| ==> ids[i] != ids[j]
    ensures Gathers(s, symmetric, ids, key, GroupAmong(s, symmetric, ids, key))
  {
    hide Supports;
    if ids == [] {
    } else {
      var front, last := ids[..|ids| - 1], ids[|ids| - 1];
      GroupMembers(s, symmetric, front, key);
      var g0 := GroupAmong(s, symmetric, front, key);
      var g := GroupAmong(s, symmetric, ids, key);
      assert forall x :: x in ids <==> x in front || x == last;
      assert last !in front;
      forall x | x in ids && Supports(s, symmetric, x, key) ensures exists i :: 0 <= i < |g| && g[i].id == x {
        if x != last {
          var i :| 0 <= i < |g0| && g0[i].id == x;
          assert g[i].id == x;
        } else {
          assert g[|g| - 1].id == x;
        }
      }
    }
  }

  lemma IdsDistinct(s: set<Id>)
    ensures forall i, j :: 0 <= i < j < |Ids(s)| ==> Ids(s)[i] != Ids(s)[j]
  {
    hide Ids, Before;
    var q := Ids(s);
    forall i, j | 0 <= i < j < |q| ensures q[i] != q[j] {
      assert Before(q[i], q[j]);
      BeforeIrreflexive(q[i]);
    }
  }

  lemma GroupSupported(s: Tables, symmetric: set<Id>, key: Key)
    requires Buildable(s, symmetric)
    ensures var g := GroupOf(s, symmetric, key);
      && ClaimDates.Group(g)
      && (forall i :: 0 <= i < |g| ==>
            Supports(s, symmetric, g[i].id, key) && g[i] == DatedClaim(g[i].id, s.claims[g[i].id]))
      && (forall x :: Supports(s, symmetric, x, key) ==> exists i :: 0 <= i < |g| && g[i].id == x)
  {
    hide Ids, GroupAmong;
    IdsDistinct(s.claims.Keys);
    var ids := Ids(s.claims.Keys);
    GroupMembers(s, symmetric, ids, key);
    var g := GroupAmong(s, symmetric, ids, key);
    forall i | 0 <= i < |g|
      ensures Supports(s, symmetric, g[i].id, key) && g[i] == DatedClaim(g[i].id, s.claims[g[i].id])
    {
      assert Gathers(s, symmetric, ids, key, g);
    }
  }

  // --------------------------------------------------------- pointwise meaning

  /** Some row of the edge lists the claim and includes the day. */
  ghost predicate Shown(table: set<EdgeRow>, key: Key, id: Id, d: int) {
    exists row :: row in table && row.key == key && id in row.claims && row.span.Contains(d)
  }

  lemma ShownIsListed(s: Tables, symmetric: set<Id>, table: set<EdgeRow>, key: Key, id: Id, d: int)
    requires IsProjection(s, symmetric, table)
    ensures Shown(table, key, id, d) <==> Listed(SegmentsOf(s, symmetric, key), id, d)
  {
    hide SegmentsOf;
    var out := SegmentsOf(s, symmetric, key);
    if Shown(table, key, id, d) {
      var row :| row in table && row.key == key && id in row.claims && row.span.Contains(d);
      assert IsRow(s, symmetric, row);
      var k :| 0 <= k < |out| && row == RowOf(key, out[k]);
      assert ListedIn(out, id, d, k);
    }
    if Listed(out, id, d) {
      var k :| ListedIn(out, id, d, k);
      assert IsRow(s, symmetric, RowOf(key, out[k]));
      assert RowOf(key, out[k]) in table;
    }
  }

  /** The projection means what the claims say: a claim is shown on exactly one edge, on
      exactly the days it is valid - if and only if it keeps clear of the date sentinels. */
  lemma ProjectionIsPointwise(s: Tables, symmetric: set<Id>, table: set<EdgeRow>, id: Id, key: Key)
    requires Buildable(s, symmetric) && IsProjection(s, symmetric, table)
    requires Supports(s, symmetric, id, key)
    ensures (forall d :: IsDay(d) ==> (Shown(table, key, id, d) <==> DatedClaim(id, s.claims[id]).ValidOn(d)))
            <==> InsideSentinels(DatedClaim(id, s.claims[id]))
    ensures forall other, d :: other != key ==> !Shown(table, other, id, d)
  {
    hide Exact, Listed, Shown, IsProjection, SegmentsOf, Ids, KeyOf, Segmentation, IsRow;
    GroupSupported(s, symmetric, key);
    var g := GroupOf(s, symmetric, key);
    var i :| 0 <= i < |g| && g[i].id == id;
    SegmentsExact(s, symmetric, key);
    DayExactIff(g, SegmentsOf(s, symmetric, key), i);
    forall d ensures Shown(table, key, id, d) <==> Listed(SegmentsOf(s, symmetric, key), id, d) {
      ShownIsListed(s, symmetric, table, key, id, d);
    }
    forall other, d | other != key ensures !Shown(table, other, id, d) {
      if Shown(table, other, id, d) {
        ShownIsSupported(s, symmetric, table, other, id, d);
      }
    }
  }

  lemma SegmentsExact(s: Tables, symmetric: set<Id>, key: Key)
    ensures Exact(Intervals(GroupOf(s, symmetric, key)), SegmentsOf(s, symmetric, key))
  {
    hide Exact, GroupOf;
    SegmentationExact(Intervals(GroupOf(s, symmetric, key)));
  }

  /** Whatever a row lists supports its edge. */
  lemma RowIsSupported(s: Tables, symmetric: set<Id>, row: EdgeRow, id: Id)
    requires Buildable(s, symmetric) && IsRow(s, symmetric, row) && id in row.claims
    ensures Supports(s, symmetric, id, row.key)
  {
    hide SegmentsOf, GroupOf, Supports, Covering, Holds;
    var out, g := SegmentsOf(s, symmetric, row.key), GroupOf(s, symmetric, row.key);
    var k :| 0 <= k < |out| && row == RowOf(row.key, out[k]);
    SegmentsExact(s, symmetric, row.key);
    GroupSupported(s, symmetric, row.key);
    assert out[k].Contains(out[k].low);
    assert Covering(Intervals(g), out[k].low) == out[k].claims;
    CoveringMember(Intervals(g), out[k].low, id);
    var i :| 0 <= i < |Intervals(g)| && Intervals(g)[i].claim == id && Intervals(g)[i].Covers(out[k].low);
    assert g[i].id == id;
  }

  lemma ShownIsSupported(s: Tables, symmetric: set<Id>, table: set<EdgeRow>, key: Key, id: Id, d: int)
    requires Buildable(s, symmetric) && IsProjection(s, symmetric, table) && Shown(table, key, id, d)
    ensures Supports(s, symmetric, id, key)
  {
    hide IsRow, Supports, Buildable;
    var row :| row in table && row.key == key && id in row.claims && row.span.Contains(d);
    RowIsSupported(s, symmetric, row, id);
  }

  /** No self-loops; and the rows of a symmetric predicate all point the same way. */
  lemma RowsAreOriented(s: Tables, symmetric: set<Id>, table: set<EdgeRow>, row: EdgeRow)
    requires Buildable(s, symmetric) && IsProjection(s, symmetric, table) && row in table
    ensures row.key.subject != row.key.obj
    ensures row.key.predicate_ in symmetric ==> Before(row.key.subject, row.key.obj)
  {
    hide Shown, IsProjection, SegmentsOf, GroupOf, Covering, Holds, ResolveArgument;
    RowNotEmpty(s, symmetric, table, row);
    var d := if row.span.from.Some? then row.span.from.value else MIN_DAY;
    ShownIsSupported(s, symmetric, table, row.key, row.claims[0], d);
    var c := s.claims[row.claims[0]];
    BeforeTotal(row.key.subject, row.key.obj);
  }

  lemma RowNotEmpty(s: Tables, symmetric: set<Id>, table: set<EdgeRow>, row: EdgeRow)
    requires Buildable(s, symmetric) && IsProjection(s, symmetric, table) && row in table
    ensures row.claims != []
    ensures Shown(table, row.key, row.claims[0], if row.span.from.Some? then row.span.from.value else MIN_DAY)
  {
    hide SegmentsOf, GroupOf, Covering, Holds;
    assert IsRow(s, symmetric, row);
    var out := SegmentsOf(s, symmetric, row.key);
    var k :| 0 <= k < |out| && row == RowOf(row.key, out[k]);
    SegmentsExact(s, symmetric, row.key);
    GroupSupported(s, symmetric, row.key);
    SegmentInRange(GroupOf(s, symmetric, row.key), out, k);
  }

  /** Two rows of one edge never share a start, so content-derived edge ids are distinct. */
  lemma EdgeIdsDistinct(s: Tables, symmetric: set<Id>, table: set<EdgeRow>, p: EdgeRow, q: EdgeRow)
    requires Buildable(s, symmetric) && IsProjection(s, symmetric, table) && p in table && q in table
    requires p.key == q.key && p.span.from == q.span.from
    ensures p == q
  {
    hide SegmentsOf, GroupOf, Covering, Holds;
    var key := p.key;
    var out := SegmentsOf(s, symmetric, key);
    assert IsRow(s, symmetric, p) && IsRow(s, symmetric, q);
    var i :| 0 <= i < |out| && p == RowOf(key, out[i]);
    var j :| 0 <= j < |out| && q == RowOf(key, out[j]);
    SegmentsExact(s, symmetric, key);
    GroupSupported(s, symmetric, key);
    SegmentInRange(GroupOf(s, symmetric, key), out, i);
    SegmentInRange(GroupOf(s, symmetric, key), out, j);
    assert out[i].low == out[j].low;
    assert forall m, n :: 0 <= m < n < |out| ==> out[m].low < out[n].low;
  }

  // ------------------------------------------------------- identity and the graph

  lemma {:induction false} SameGroups(s: Tables, t: Tables, symmetric: set<Id>, ids: seq<Id>, key: Key)
    requires SameIdentity(s, t)
    ensures GroupAmong(s, symmetric, ids, key) == GroupAmong(t, symmetric, ids, key)
  {
    hide ResolveArgument, LineageOf, Active;
    if ids == [] {
    } else {
      SameGroups(s, t, symmetric, ids[..|ids| - 1], key);
      var last := ids[|ids| - 1];
      assert Supports(s, symmetric, last, key) <==> Supports(t, symmetric, last, key);
    }
  }

  /** Stores that answer identity questions alike have the same projection. */
  lemma SameProjection(s: Tables, t: Tables, symmetric: set<Id>, table: set<EdgeRow>)
    requires SameIdentity(s, t)
    ensures IsProjection(s, symmetric, table) <==> IsProjection(t, symmetric, table)
  {
    hide SameIdentity, Segmentation, GroupAmong, Ids;
    SameClaims(s, t);
    forall key ensures SegmentsOf(s, symmetric, key) == SegmentsOf(t, symmetric, key) {
      SameGroups(s, t, symmetric, Ids(s.claims.Keys), key);
    }
  }

  lemma SameClaims(s: Tables, t: Tables)
    requires SameIdentity(s, t)
    ensures s.claims == t.claims
  {
  }

  /** Undoing a merge restores the whole edge projection, row for row. */
  lemma ReversalRestoresProjection(s: Tables, p: nat, a: Id, b: Id, candidate: Option<Id>, rev: nat,
                                   parentRevision: nat, newId: Id, rev2: nat,
                                   symmetric: set<Id>, before: set<EdgeRow>, after: set<EdgeRow>)
    returns (survivor: Id, absorbed: Id)
    requires Valid(s) && s.head < rev < rev2 && rev <= parentRevision
    requires ConfirmMatch(s, p, a, b, candidate, rev).Ok?
    ensures var merged := ConfirmMatch(s, p, a, b, candidate, rev).value;
      var undone := SplitEntity(merged.tables, parentRevision, survivor, (set m | m in merged.moved),
                                Some(absorbed), newId, rev2);
      && undone.Ok?
      && (IsProjection(s, symmetric, before) && IsProjection(undone.value.tables, symmetric, after) ==>
            before == after)
  {
    hide SameIdentity, IsRow, ConfirmMatch, SplitEntity;
    survivor, absorbed := Reversal(s, p, a, b, candidate, rev, parentRevision, newId, rev2);
    var merged := ConfirmMatch(s, p, a, b, candidate, rev).value;
    var undone := SplitEntity(merged.tables, parentRevision, survivor, (set m | m in merged.moved),
                              Some(absorbed), newId, rev2);
    SameProjection(s, undone.value.tables, symmetric, after);
  }

  /** The endpoints a claim would get if anchors were ignored. */
  ghost function KeyByMap(s: Tables, symmetric: set<Id>, c: Claim): Key
    requires c.objectId.Some?
  {
    Oriented(Lookup(s.canonical, c.subjectId), Lookup(s.canonical, c.objectId.value), c.predicate_, symmetric)
  }

  /** Until something is split, anchors and the map project every claim to the same edge. */
  lemma MergeOnlyEndpoints(ops: seq<Op>, symmetric: set<Id>, id: Id)
    requires WellFormed(BASELINE, ops) && NoSplit(ops)
    requires var s := Run(BASELINE, ops); id in s.claims && s.claims[id].objectId.Some?
    ensures var s := Run(BASELINE, ops);
      KeyOf(s, symmetric, s.claims[id]) == KeyByMap(s, symmetric, s.claims[id])
  {
    hide ResolveArgument, Run, WellFormed, LineageOf;
    MergeOnlyAgreement(ops);
  }

  /** The argument's anchor is held by another entity than its stored id resolves to. */
  ghost predicate Strays(s: Tables, e: Id, mention: Option<Id>) {
    mention.Some? && EntityOf(s.memberships, mention.value) != Some(Lookup(s.canonical, e))
  }

  /** By its anchors each argument is what the map says of the other. */
  ghost predicate TradePlaces(s: Tables, c: Claim)
    requires c.objectId.Some?
  {
    && ResolveArgument(s, c.subjectId, c.subjectMention) == Lookup(s.canonical, c.objectId.value)
    && ResolveArgument(s, c.objectId.value, c.objectMention) == Lookup(s.canonical, c.subjectId)
  }

  /** When anchors and the map project a claim to different edges: some anchor strays, and the two
      ends of a symmetric claim have not just traded places. */
  lemma EndpointsPartIff(s: Tables, symmetric: set<Id>, id: Id)
    requires Valid(s) && id in s.claims && s.claims[id].objectId.Some?
    ensures var c := s.claims[id];
      KeyOf(s, symmetric, c) != KeyByMap(s, symmetric, c)
      <==> (Strays(s, c.subjectId, c.subjectMention) || Strays(s, c.objectId.value, c.objectMention))
           && !(c.predicate_ in symmetric && TradePlaces(s, c))
  {
    hide Valid, Lookup, EntityOf, Before;
    var c := s.claims[id];
    ClaimIsAnchored(s, id);
    AnchorIsActive(s, c.subjectId, c.subjectMention);
    AnchorIsActive(s, c.objectId.value, c.objectMention);
    OrientedAlikeIff(ResolveArgument(s, c.subjectId, c.subjectMention),
                     ResolveArgument(s, c.objectId.value, c.objectMention),
                     Lookup(s.canonical, c.subjectId), Lookup(s.canonical, c.objectId.value), c.predicate_, symmetric);
  }

  lemma ClaimIsAnchored(s: Tables, id: Id)
    requires Valid(s) && id in s.claims
    ensures var c := s.claims[id];
      && (c.subjectMention.Some? ==> EverIn(s.memberships, c.subjectMention.value, c.subjectId))
      && (c.objectId.Some? && c.objectMention.Some? ==>
            EverIn(s.memberships, c.objectMention.value, c.objectId.value))
  {
  }

  lemma OrientedAlikeIff(a: Id, b: Id, c: Id, d: Id, p: Id, symmetric: set<Id>)
    ensures Oriented(a, b, p, symmetric) == Oriented(c, d, p, symmetric)
      <==> (a, b) == (c, d) || (p in symmetric && (a, b) == (d, c))
  {
    hide Before;
    BeforeIsStrictOrder();
  }

  /** The same over every well-formed run. */
  lemma EndpointsOverRuns(ops: seq<Op>, symmetric: set<Id>, id: Id)
    requires WellFormed(BASELINE, ops)
    requires var s := Run(BASELINE, ops); id in s.claims && s.claims[id].objectId.Some?
    ensures var s := Run(BASELINE, ops);
      var c := s.claims[id];
      KeyOf(s, symmetric, c) != KeyByMap(s, symmetric, c)
      <==> (Strays(s, c.subjectId, c.subjectMention) || Strays(s, c.objectId.value, c.objectMention))
           && !(c.predicate_ in symmetric && TradePlaces(s, c))
  {
    hide Run, WellFormed, Valid, KeyOf, KeyByMap, Strays, TradePlaces;
    BaselineValid();
    RunValid(BASELINE, ops);
    EndpointsPartIff(Run(BASELINE, ops), symmetric, id);
  }

  // ---------------------------------------------------------------- the builder

  function Grouped(groups: map<Key, seq<Dated>>, key: Key): seq<Dated> {
    if key in groups then groups[key] else []
  }

  method ActiveAnchors(ms: set<Membership>) returns (anchors: map<Id, Id>)
    requires OneActive(ms)
    ensures forall m :: (if m in anchors then Some(anchors[m]) else None) == EntityOf(ms, m)
  {
    anchors := map r | r in ms && r.closedAt.None? :: r.mention := r.entity;
    forall m ensures (if m in anchors then Some(anchors[m]) else None) == EntityOf(ms, m) {
      if m in anchors {
        var r :| r in ms && r.closedAt.None? && r.mention == m;
        assert IsActiveRow(ms, m, r);
      }
      if EntityOf(ms, m).Some? {
        var q :| IsActiveRow(ms, m, q) && EntityOf(ms, m) == Some(q.entity);
        assert q.mention in anchors;
      }
    }
  }

  function ResolveWith(anchors: map<Id, Id>, canonical: map<Id, Id>, e: Id, mention: Option<Id>): Id {
    if mention.Some? && mention.value in anchors then anchors[mention.value] else Lookup(canonical, e)
  }

  /** Groups the live relational claims by resolved edge, in claim order. */
  method GroupClaims(s: Tables, symmetric: set<Id>) returns (groups: map<Key, seq<Dated>>)
    requires OneActive(s.memberships)
    ensures forall key :: Grouped(groups, key) == GroupOf(s, symmetric, key)
  {
    hide Ids, EntityOf, OneActive, Before, GroupAmong;
    var anchors := ActiveAnchors(s.memberships);
    var order := ListIds(s.claims.Keys);
    groups := map[];
    var i := 0;
    GroupStart(s, symmetric);
    assert order[..0] == [];
    while i < |order|
      invariant 0 <= i <= |order|
      invariant forall key :: Grouped(groups, key) == GroupAmong(s, symmetric, order[..i], key)
    {
      var id := order[i];
      var c := s.claims[id];
      forall key
        ensures GroupAmong(s, symmetric, order[..i + 1], key)
                == if Supports(s, symmetric, id, key)
                   then GroupAmong(s, symmetric, order[..i], key) + [DatedClaim(id, c)]
                   else GroupAmong(s, symmetric, order[..i], key)
      {
        GroupNext(s, symmetric, order, i, key);
      }
      var edge: Option<Key> := None;
      if Relational(c) {
        var subject := ResolveWith(anchors, s.canonical, c.subjectId, c.subjectMention);
        var obj := ResolveWith(anchors, s.canonical, c.objectId.value, c.objectMention);
        var key := Oriented(subject, obj, c.predicate_, symmetric);
        assert key == KeyOf(s, symmetric, c);
        if key.subject != key.obj {
          edge := Some(key);
        }
      }
      assert forall key :: Supports(s, symmetric, id, key) <==> edge == Some(key);
      ghost var before := groups;
      if edge.Some? {
        groups := groups[edge.value := Grouped(groups, edge.value) + [DatedClaim(id, c)]];
      }
      forall key ensures Grouped(groups, key) == GroupAmong(s, symmetric, order[..i + 1], key) {
        assert Grouped(before, key) == GroupAmong(s, symmetric, order[..i], key);
      }
      i := i + 1;
    }
    assert order[..|order|] == order;
  }

  lemma GroupStart(s: Tables, symmetric: set<Id>)
    ensures forall key :: GroupAmong(s, symmetric, [], key) == []
  {
  }

  lemma GroupNext(s: Tables, symmetric: set<Id>, order: seq<Id>, i: nat, key: Key)
    requires i < |order| && order[i] in s.claims
    ensures GroupAmong(s, symmetric, order[..i + 1], key)
      == if Supports(s, symmetric, order[i], key)
         then GroupAmong(s, symmetric, order[..i], key) + [DatedClaim(order[i], s.claims[order[i]])]
         else GroupAmong(s, symmetric, order[..i], key)
  {
    assert order[..i + 1][..i] == order[..i];
  }

  lemma NoClaimsNoSegments()
    ensures Segmentation(Intervals([])) == []
  {
    assert Bounds(Intervals([])) == {};
    assert |Cuts(Intervals([]))| == 0;
  }

  /** Builds the whole table; None when a date addition overflows. */
  method RebuildEdgeProjection(s: Tables, symmetric: set<Id>) returns (table: Option<set<EdgeRow>>)
    requires OneActive(s.memberships)
    ensures table.Some? ==> IsProjection(s, symmetric, table.value)
    ensures table.None? <==> exists key, i :: OverflowsIn(s, symmetric, key, i)
  {
    hide GroupOf, Segmentation, Exact, OneActive;
    var groups := GroupClaims(s, symmetric);
    var rows: set<EdgeRow> := {};
    var todo := groups.Keys;
    while todo != {}
      invariant todo <= groups.Keys
      invariant forall row :: row in rows <==> row.key in groups.Keys - todo && IsRow(s, symmetric, row)
      invariant forall key, i :: key in groups.Keys - todo ==> !OverflowsIn(s, symmetric, key, i)
      decreases todo
    {
      var key :| key in todo;
      var group := groups[key];
      assert group == Grouped(groups, key);
      if exists i :: 0 <= i < |group| && group[i].Overflows() {
        ghost var i :| 0 <= i < |group| && group[i].Overflows();
        assert OverflowsIn(s, symmetric, key, i);
        return None;
      }
      var segs := SegmentIntervals(Intervals(group));
      assert segs == SegmentsOf(s, symmetric, key);
      var added := set k | 0 <= k < |segs| :: RowOf(key, segs[k]);
      forall row ensures row in added <==> row.key == key && IsRow(s, symmetric, row) {
      }
      rows := rows + added;
      todo := todo - {key};
    }
    NoClaimsNoSegments();
    forall key | key !in groups ensures GroupOf(s, symmetric, key) == [] {
      assert Grouped(groups, key) == [];
    }
    return Some(rows);
  }

  ghost predicate OverflowsIn(s: Tables, symmetric: set<Id>, key: Key, i: int) {
    var g := GroupOf(s, symmetric, key);
    0 <= i < |g| && g[i].Overflows()
  }
}
