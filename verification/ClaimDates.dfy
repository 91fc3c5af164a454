/** Claim validity, the stored inclusive bounds of a segment, and the window filter
    (aegis/projections/edges.py:67-72, 147-160, 191-195; aegis/queries/graph.py:145-166). */
module ClaimDates {
  import opened Common
  import opened Segments

  /** Ordinals of `date.min` and `date.max`, which double as the unbounded sentinels. */
  const MIN_DAY := 1
  const MAX_DAY := 3652059

  predicate IsDay(d: int) { MIN_DAY <= d <= MAX_DAY }

  datatype Dated = Dated(id: Id, from: Option<int>, to: Option<int>) {
    /** What the store's date columns and check constraint allow. */
    predicate WellDated() {
      && (from.Some? ==> IsDay(from.value)) && (to.Some? ==> IsDay(to.value))
      && (from.Some? && to.Some? ==> from.value <= to.value)
    }

    /** Adding a day to `date.max` overflows. */
    predicate Overflows() { to == Some(MAX_DAY) }

    predicate ValidOn(d: int) {
      IsDay(d) && (from.None? || from.value <= d) && (to.None? || d <= to.value)
    }

    function Interval(): Interval {
      Segments.Interval.Interval(if from.Some? then from.value else MIN_DAY,
                                 if to.Some? then to.value + 1 else MAX_DAY, id)
    }
  }

  /** Inclusive stored bounds, with NULL for unbounded. */
  datatype Span = Span(from: Option<int>, to: Option<int>) {
    predicate Contains(d: int) {
      IsDay(d) && (from.None? || from.value <= d) && (to.None? || d <= to.value)
    }

    /** The SQL window filter. */
    predicate Overlaps(validFrom: Option<int>, validTo: Option<int>) {
      && (validTo.Some? ==> from.None? || from.value <= validTo.value)
      && (validFrom.Some? ==> to.None? || to.value >= validFrom.value)
    }
  }

  function SpanOf(s: Segment): Span {
    Span(if s.low == MIN_DAY then None else Some(s.low), if s.high == MAX_DAY then None else Some(s.high - 1))
  }

  predicate InWindow(d: int, validFrom: Option<int>, validTo: Option<int>) {
    IsDay(d) && (validFrom.Some? ==> validFrom.value <= d) && (validTo.Some? ==> d <= validTo.value)
  }

  function Intervals(cs: seq<Dated>): seq<Interval> {
    seq(|cs|, i requires 0 <= i < |cs| => cs[i].Interval())
  }

  ghost predicate Group(cs: seq<Dated>) {
    && (forall i :: 0 <= i < |cs| ==> cs[i].WellDated() && !cs[i].Overflows())
    && (forall i, j :: 0 <= i < j < |cs| ==> cs[i].id != cs[j].id)
  }

  // ---------------------------------------------------------- who covers what

  lemma {:induction false} CoveredBy(ivs: seq<Interval>, t: int, id: Id)
    ensures id in CoveringAt(ivs, t) <==> exists i :: 0 <= i < |ivs| && ivs[i].claim == id && ivs[i].Covers(t)
  {
    if ivs == [] {
    } else {
      CoveredBy(ivs[1..], t, id);
      if i :| 0 <= i < |ivs| && ivs[i].claim == id && ivs[i].Covers(t) {
        if i > 0 { assert ivs[1..][i - 1] == ivs[i]; }
      }
      if i :| 0 <= i < |ivs[1..]| && ivs[1..][i].claim == id && ivs[1..][i].Covers(t) {
        assert ivs[i + 1] == ivs[1..][i];
      }
    }
  }

  lemma CoveringMember(ivs: seq<Interval>, t: int, id: Id)
    ensures id in Covering(ivs, t) <==> exists i :: 0 <= i < |ivs| && ivs[i].claim == id && ivs[i].Covers(t)
  {
    hide CoveringAt, SortIds;
    CoveredBy(ivs, t, id);
    CoveringIs(ivs, t);
    SortSorts(CoveringAt(ivs, t));
    assert id in Covering(ivs, t) <==> id in multiset(CoveringAt(ivs, t));
  }

  /** Within a group, the ids at an instant are those of the claims whose interval covers it. */
  lemma GroupCovering(cs: seq<Dated>, t: int, i: nat)
    requires Group(cs) && i < |cs|
    ensures cs[i].id in Covering(Intervals(cs), t) <==> cs[i].Interval().Covers(t)
  {
    hide Covering;
    var ivs := Intervals(cs);
    CoveringMember(ivs, t, cs[i].id);
    assert ivs[i].claim == cs[i].id;
    if k :| 0 <= k < |ivs| && ivs[k].claim == cs[i].id && ivs[k].Covers(t) {
      assert cs[k].id == cs[i].id;
    }
  }

  /** Segments of a group lie between the sentinels. */
  lemma SegmentInRange(cs: seq<Dated>, out: seq<Segment>, k: nat)
    requires Group(cs) && Exact(Intervals(cs), out) && k < |out|
    ensures MIN_DAY <= out[k].low < out[k].high <= MAX_DAY
  {
    hide Covering;
    forall t | out[k].Contains(t) ensures MIN_DAY <= t < MAX_DAY {
      assert Covering(Intervals(cs), t) == out[k].claims;
      assert out[k].claims[0] in Covering(Intervals(cs), t);
      CoveringMember(Intervals(cs), t, out[k].claims[0]);
    }
    assert out[k].Contains(out[k].low) && out[k].Contains(out[k].high - 1);
  }

  // ------------------------------------------------------------ day exactness

  /** The stored row of some segment lists the claim and includes the day. */
  ghost predicate Listed(out: seq<Segment>, id: Id, d: int) {
    exists k :: ListedIn(out, id, d, k)
  }

  ghost predicate ListedIn(out: seq<Segment>, id: Id, d: int, k: int) {
    0 <= k < |out| && id in out[k].claims && SpanOf(out[k]).Contains(d)
  }

  /** The exact condition for one claim: it neither ends on the day before `date.max`
      (whose half-open end is the sentinel) nor begins on `date.max` and never ends. */
  predicate InsideSentinels(c: Dated) {
    c.to != Some(MAX_DAY - 1) && !(c.from == Some(MAX_DAY) && c.to.None?)
  }

  lemma SpanBelowMax(s: Segment, d: int)
    requires MIN_DAY <= s.low < s.high <= MAX_DAY && MIN_DAY <= d
    ensures d < MAX_DAY ==> (SpanOf(s).Contains(d) <==> s.Contains(d))
    ensures d == MAX_DAY ==> (SpanOf(s).Contains(d) <==> s.high == MAX_DAY)
  {
  }

  /** Below the last day, a row lists a claim exactly on the days the claim is valid. */
  lemma ListedBelowMax(cs: seq<Dated>, out: seq<Segment>, i: nat, d: int)
    requires Group(cs) && Exact(Intervals(cs), out) && i < |cs|
    requires MIN_DAY <= d < MAX_DAY
    ensures Listed(out, cs[i].id, d) <==> cs[i].ValidOn(d)
  {
    hide Covering;
    var ivs := Intervals(cs);
    GroupCovering(cs, d, i);
    if Listed(out, cs[i].id, d) {
      var k :| ListedIn(out, cs[i].id, d, k);
      SegmentInRange(cs, out, k);
      SpanBelowMax(out[k], d);
    }
    if cs[i].ValidOn(d) {
      assert Holds(out, d);
      var k :| 0 <= k < |out| && out[k].Contains(d);
      SegmentInRange(cs, out, k);
      SpanBelowMax(out[k], d);
      assert ListedIn(out, cs[i].id, d, k);
    }
  }

  /** On the last day, a row lists exactly the claims covering the day before it. */
  lemma ListedOnMax(cs: seq<Dated>, out: seq<Segment>, i: nat)
    requires Group(cs) && Exact(Intervals(cs), out) && i < |cs|
    ensures Listed(out, cs[i].id, MAX_DAY) <==> cs[i].Interval().Covers(MAX_DAY - 1)
  {
    hide Covering;
    var ivs := Intervals(cs);
    var t := MAX_DAY - 1;
    GroupCovering(cs, t, i);
    if Listed(out, cs[i].id, MAX_DAY) {
      var k :| ListedIn(out, cs[i].id, MAX_DAY, k);
      SegmentInRange(cs, out, k);
      SpanBelowMax(out[k], MAX_DAY);
      assert out[k].Contains(t);
    }
    if cs[i].Interval().Covers(t) {
      assert Holds(out, t);
      var k :| 0 <= k < |out| && out[k].Contains(t);
      SegmentInRange(cs, out, k);
      SpanBelowMax(out[k], MAX_DAY);
      assert ListedIn(out, cs[i].id, MAX_DAY, k);
    }
  }

  /** The round trip through half-open intervals and stored bounds is exact for a claim if
      and only if the claim keeps clear of the sentinels. */
  lemma DayExactIff(cs: seq<Dated>, out: seq<Segment>, i: nat)
    requires Group(cs) && Exact(Intervals(cs), out) && i < |cs|
    ensures (forall d :: IsDay(d) ==> (Listed(out, cs[i].id, d) <==> cs[i].ValidOn(d))) <==> InsideSentinels(cs[i])
  {
    hide Covering, Exact, Listed;
    ListedOnMax(cs, out, i);
    forall d | IsDay(d) && d != MAX_DAY ensures Listed(out, cs[i].id, d) <==> cs[i].ValidOn(d) {
      ListedBelowMax(cs, out, i, d);
    }
    assert IsDay(MAX_DAY);
  }

  // ------------------------------------------------------------------ windows

  /** For dates and a window that is not inverted, the SQL filter keeps a span exactly when
      some day lies in both. */
  lemma OverlapIsSharedDay(span: Span, validFrom: Option<int>, validTo: Option<int>)
    requires exists d :: span.Contains(d)
    requires validFrom.Some? ==> IsDay(validFrom.value)
    requires validTo.Some? ==> IsDay(validTo.value)
    requires validFrom.Some? && validTo.Some? ==> validFrom.value <= validTo.value
    requires span.from.Some? ==> IsDay(span.from.value)
    requires span.to.Some? ==> IsDay(span.to.value)
    ensures span.Overlaps(validFrom, validTo)
            <==> exists d :: InWindow(d, validFrom, validTo) && span.Contains(d)
  {
    if span.Overlaps(validFrom, validTo) {
      var low := if span.from.Some? then span.from.value else MIN_DAY;
      var day := if validFrom.Some? && low < validFrom.value then validFrom.value else low;
      assert InWindow(day, validFrom, validTo) && span.Contains(day);
    }
  }

  /** Some claim of the segment is valid on some day of the segment and the window. */
  ghost predicate Supported(cs: seq<Dated>, seg: Segment, validFrom: Option<int>, validTo: Option<int>) {
    exists i, d :: SupportedBy(cs, seg, validFrom, validTo, i, d)
  }

  ghost predicate SupportedBy(cs: seq<Dated>, seg: Segment, validFrom: Option<int>, validTo: Option<int>, i: int, d: int)
  {
    && 0 <= i < |cs| && cs[i].id in seg.claims && cs[i].ValidOn(d)
    && InWindow(d, validFrom, validTo) && SpanOf(seg).Contains(d)
  }

  /** The window opens on the last day, and every claim of the segment ended the day before. */
  ghost predicate EndedBefore(cs: seq<Dated>, seg: Segment, validFrom: Option<int>) {
    && validFrom == Some(MAX_DAY) && seg.high == MAX_DAY
    && forall i :: 0 <= i < |cs| && cs[i].id in seg.claims ==> cs[i].to == Some(MAX_DAY - 1)
  }

  predicate Inverted(validFrom: Option<int>, validTo: Option<int>) {
    validFrom.Some? && validTo.Some? && validTo.value < validFrom.value
  }

  /** When the filter is wrong: an inverted window has no day, yet a segment holding both of its
      ends passes; and a segment all of whose claims ended the day before the last one passes
      for a window that opens on the last. */
  ghost predicate KeptIdly(cs: seq<Dated>, seg: Segment, validFrom: Option<int>, validTo: Option<int>) {
    if Inverted(validFrom, validTo)
    then SpanOf(seg).Contains(validTo.value) && SpanOf(seg).Contains(validFrom.value)
    else EndedBefore(cs, seg, validFrom)
  }

  /** For any window at all: the filter never drops a segment that some claim supports on a
      shared day, and keeps one that no claim supports exactly in those two cases. */
  lemma WindowKeepsIff(cs: seq<Dated>, out: seq<Segment>, k: nat, validFrom: Option<int>, validTo: Option<int>)
    requires Group(cs) && Exact(Intervals(cs), out) && k < |out|
    requires validFrom.Some? ==> IsDay(validFrom.value)
    requires validTo.Some? ==> IsDay(validTo.value)
    ensures Supported(cs, out[k], validFrom, validTo) ==> SpanOf(out[k]).Overlaps(validFrom, validTo)
    ensures SpanOf(out[k]).Overlaps(validFrom, validTo) && !Supported(cs, out[k], validFrom, validTo)
      <==> KeptIdly(cs, out[k], validFrom, validTo)
  {
    hide Covering, Listed, Exact, Supported, EndedBefore;
    if Inverted(validFrom, validTo) {
      NoDayInverted(cs, out[k], validFrom, validTo);
    } else {
      WindowKeepsInOrder(cs, out, k, validFrom, validTo);
    }
  }

  lemma NoDayInverted(cs: seq<Dated>, seg: Segment, validFrom: Option<int>, validTo: Option<int>)
    requires Inverted(validFrom, validTo)
    ensures !Supported(cs, seg, validFrom, validTo)
  {
  }

  lemma WindowKeepsInOrder(cs: seq<Dated>, out: seq<Segment>, k: nat, validFrom: Option<int>, validTo: Option<int>)
    requires Group(cs) && Exact(Intervals(cs), out) && k < |out|
    requires validFrom.Some? ==> IsDay(validFrom.value)
    requires validTo.Some? ==> IsDay(validTo.value)
    requires !Inverted(validFrom, validTo)
    ensures Supported(cs, out[k], validFrom, validTo) ==> SpanOf(out[k]).Overlaps(validFrom, validTo)
    ensures SpanOf(out[k]).Overlaps(validFrom, validTo) && !Supported(cs, out[k], validFrom, validTo)
      <==> EndedBefore(cs, out[k], validFrom)
  {
    hide Covering, Listed, Exact;
    var span := SpanOf(out[k]);
    SegmentInRange(cs, out, k);
    assert span.Contains(out[k].low) by { SpanBelowMax(out[k], out[k].low); }
    OverlapIsSharedDay(span, validFrom, validTo);
    if EndedBefore(cs, out[k], validFrom) {
      assert InWindow(MAX_DAY, validFrom, validTo) && span.Contains(MAX_DAY);
      assert forall i, d :: SupportedBy(cs, out[k], validFrom, validTo, i, d) ==> d == MAX_DAY;
    } else if span.Overlaps(validFrom, validTo) {
      var d :| InWindow(d, validFrom, validTo) && span.Contains(d);
      if d == MAX_DAY && validFrom == Some(MAX_DAY) {
        var i :| 0 <= i < |cs| && cs[i].id in out[k].claims && cs[i].to != Some(MAX_DAY - 1);
        ValidOnMax(cs, out, k, i);
        assert SupportedBy(cs, out[k], validFrom, validTo, i, d);
      } else {
        var day := if d == MAX_DAY then MAX_DAY - 1 else d;
        SpanBelowMax(out[k], d);
        SpanBelowMax(out[k], day);
        var i := FirstClaim(cs, out, k);
        ListedWhere(out, cs[i].id, day, k);
        ListedBelowMax(cs, out, i, day);
        assert SupportedBy(cs, out[k], validFrom, validTo, i, day);
      }
    }
  }

  /** A claim of a segment that reaches the last day is valid then unless it ended the day
      before. */
  lemma ValidOnMax(cs: seq<Dated>, out: seq<Segment>, k: nat, i: nat)
    requires Group(cs) && Exact(Intervals(cs), out) && k < |out| && i < |cs|
    requires cs[i].id in out[k].claims && SpanOf(out[k]).Contains(MAX_DAY) && cs[i].to != Some(MAX_DAY - 1)
    ensures cs[i].ValidOn(MAX_DAY)
  {
    hide Covering, Exact, Listed;
    ListedWhere(out, cs[i].id, MAX_DAY, k);
    ListedOnMax(cs, out, i);
  }

  lemma FirstClaim(cs: seq<Dated>, out: seq<Segment>, k: nat) returns (i: nat)
    requires Group(cs) && Exact(Intervals(cs), out) && k < |out|
    ensures i < |cs| && cs[i].id in out[k].claims
  {
    hide Covering;
    var ivs := Intervals(cs);
    assert out[k].Contains(out[k].low);
    assert Covering(ivs, out[k].low) == out[k].claims;
    assert out[k].claims[0] in Covering(ivs, out[k].low);
    CoveringMember(ivs, out[k].low, out[k].claims[0]);
    i :| 0 <= i < |ivs| && ivs[i].claim == out[k].claims[0] && ivs[i].Covers(out[k].low);
  }

  lemma ListedWhere(out: seq<Segment>, id: Id, d: int, k: nat)
    requires ListedIn(out, id, d, k)
    ensures Listed(out, id, d)
  {
  }

  // ---------------------------------------------------------------- instances

  /** One claim without a beginning that ends the day before the last one. */
  function AlmostForever(id: Id): seq<Dated> { [Dated(id, None, Some(MAX_DAY - 1))] }

  function OneSegment(id: Id): seq<Segment> { [Segment(MIN_DAY, MAX_DAY, [id])] }

  lemma OneClaimExact(id: Id)
    ensures Group(AlmostForever(id)) && Exact(Intervals(AlmostForever(id)), OneSegment(id))
  {
    var ivs, out := Intervals(AlmostForever(id)), OneSegment(id);
    assert ivs == [Segments.Interval.Interval(MIN_DAY, MAX_DAY, id)] && ivs[1..] == [];
    forall t ensures Covering(ivs, t) == if out[0].Contains(t) then [id] else [] {
      assert CoveringAt(ivs, t) == if out[0].Contains(t) then [id] else [];
      assert [id][1..] == [] && SortIds([id]) == InsertId(id, SortIds([])) == [id];
    }
    forall t | Covering(ivs, t) != [] ensures Holds(out, t) {
      assert out[0].Contains(t);
    }
  }

  /** The sentinels at work: that claim is shown on the last day, when it is over; a window of
      the last day alone keeps its segment, and so does a window that ends before it begins. */
  lemma SentinelInstances(id: Id, first: int, last: int)
    requires MIN_DAY <= last < first < MAX_DAY
    ensures var cs, out := AlmostForever(id), OneSegment(id);
      && Group(cs) && Exact(Intervals(cs), out)
      && Listed(out, id, MAX_DAY) && !cs[0].ValidOn(MAX_DAY)
      && SpanOf(out[0]).Overlaps(Some(MAX_DAY), None) && !Supported(cs, out[0], Some(MAX_DAY), None)
      && SpanOf(out[0]).Overlaps(Some(first), Some(last)) && !Supported(cs, out[0], Some(first), Some(last))
  {
    hide Exact, Group;
    var cs, out := AlmostForever(id), OneSegment(id);
    OneClaimExact(id);
    assert ListedIn(out, id, MAX_DAY, 0);
    WindowKeepsIff(cs, out, 0, Some(MAX_DAY), None);
    WindowKeepsIff(cs, out, 0, Some(first), Some(last));
  }
}
