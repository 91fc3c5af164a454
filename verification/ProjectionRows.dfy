/** The edge table in terms of the claim rows and the membership rows it is built from
    (aegis/projections/edges.py:315-424). */
module ProjectionRows {
  import opened Common
  import opened Store
  import opened LedgerInvariant
  import opened LedgerRuns
  import opened LedgerClaims
  import opened ClaimDates
  import opened Projection

  // ---------------------------------------------------------------------- ends

  /** An argument of a claim stands for the entity its anchor belongs to now; without an anchor that
      belongs anywhere, for what the map says of it, or for itself. */
  ghost predicate StandsFor(s: Tables, e: Id, mention: Option<Id>, x: Id) {
    if mention.Some? && exists f :: Belongs(s.memberships, mention.value, f)
    then Belongs(s.memberships, mention.value, x)
    else x == if e in s.canonical then s.canonical[e] else e
  }

  lemma StandsForIff(s: Tables, e: Id, mention: Option<Id>, x: Id)
    requires OneActive(s.memberships)
    ensures StandsFor(s, e, mention, x) <==> x == ResolveArgument(s, e, mention)
  {
    if mention.Some? {
      var m := mention.value;
      forall f ensures Belongs(s.memberships, m, f) <==> EntityOf(s.memberships, m) == Some(f) {
        EntityOfActive(s.memberships, m, f);
        assert m in Held(s.memberships, f) <==> Belongs(s.memberships, m, f);
      }
    }
  }

  /** The claim relates two different entities and is not retracted. */
  predicate Relates(c: Claim) { !c.retracted && c.objectId.Some? }

  /** The edge the claim belongs on: between what its two arguments stand for, if they are apart;
      from subject to object, and under a symmetric predicate from the smaller id. */
  ghost predicate BelongsOn(s: Tables, symmetric: set<Id>, c: Claim, key: Key)
    requires c.objectId.Some?
  {
    && key.predicate_ == c.predicate_ && key.subject != key.obj
    && if c.predicate_ in symmetric && !StandsFor(s, c.subjectId, c.subjectMention, key.subject) then
         && Before(key.subject, key.obj)
         && StandsFor(s, c.subjectId, c.subjectMention, key.obj)
         && StandsFor(s, c.objectId.value, c.objectMention, key.subject)
       else
         && (c.predicate_ in symmetric ==> Before(key.subject, key.obj))
         && StandsFor(s, c.subjectId, c.subjectMention, key.subject)
         && StandsFor(s, c.objectId.value, c.objectMention, key.obj)
  }

  /** Two arguments that stand for different entities put the claim on exactly one edge. */
  lemma OneEdge(s: Tables, symmetric: set<Id>, c: Claim, x: Id, y: Id) returns (key: Key)
    requires OneActive(s.memberships) && c.objectId.Some? && x != y
    requires StandsFor(s, c.subjectId, c.subjectMention, x) && StandsFor(s, c.objectId.value, c.objectMention, y)
    ensures forall other :: BelongsOn(s, symmetric, c, other) <==> other == key
  {
    hide StandsFor, ResolveArgument, OneActive, Before;
    BeforeIsStrictOrder();
    key := if c.predicate_ in symmetric && Before(y, x) then Key(y, x, c.predicate_) else Key(x, y, c.predicate_);
    forall z ensures StandsFor(s, c.subjectId, c.subjectMention, z) <==> z == x {
      StandsForIff(s, c.subjectId, c.subjectMention, z);
      StandsForIff(s, c.subjectId, c.subjectMention, x);
    }
    forall z ensures StandsFor(s, c.objectId.value, c.objectMention, z) <==> z == y {
      StandsForIff(s, c.objectId.value, c.objectMention, z);
      StandsForIff(s, c.objectId.value, c.objectMention, y);
    }
  }

  lemma SupportsIff(s: Tables, symmetric: set<Id>, id: Id, key: Key)
    requires OneActive(s.memberships)
    ensures Supports(s, symmetric, id, key)
      <==> id in s.claims && Relates(s.claims[id]) && BelongsOn(s, symmetric, s.claims[id], key)
  {
    hide StandsFor, ResolveArgument, OneActive, Before;
    BeforeIsStrictOrder();
    if id in s.claims && s.claims[id].objectId.Some? {
      var c := s.claims[id];
      forall x ensures StandsFor(s, c.subjectId, c.subjectMention, x)
        <==> x == ResolveArgument(s, c.subjectId, c.subjectMention)
      {
        StandsForIff(s, c.subjectId, c.subjectMention, x);
      }
      forall x ensures StandsFor(s, c.objectId.value, c.objectMention, x)
        <==> x == ResolveArgument(s, c.objectId.value, c.objectMention)
      {
        StandsForIff(s, c.objectId.value, c.objectMention, x);
      }
    }
  }

  // --------------------------------------------------------------------- dates

  /** The dates of every claim that goes into the table are as the claim table stores them, and
      none is the end of time. */
  ghost predicate Datable(s: Tables, symmetric: set<Id>) {
    forall id, key | id in s.claims && Relates(s.claims[id]) && BelongsOn(s, symmetric, s.claims[id], key) ::
      var c := s.claims[id];
      && (c.validFrom.Some? ==> 1 <= c.validFrom.value <= MAX_DAY)
      && (c.validTo.Some? ==> 1 <= c.validTo.value < MAX_DAY)
      && (c.validFrom.Some? && c.validTo.Some? ==> c.validFrom.value <= c.validTo.value)
  }

  lemma DatableIff(s: Tables, symmetric: set<Id>)
    requires OneActive(s.memberships)
    ensures Buildable(s, symmetric) <==> Datable(s, symmetric)
  {
    hide Supports, BelongsOn, OneActive;
    forall id, key ensures Supports(s, symmetric, id, key)
      <==> id in s.claims && Relates(s.claims[id]) && BelongsOn(s, symmetric, s.claims[id], key)
    {
      SupportsIff(s, symmetric, id, key);
    }
  }

  // --------------------------------------------------------------- what is listed

  /** Whatever a row lists is a stored claim, not retracted, that relates the ends of the row's edge
      under its predicate. */
  lemma ListedIsLive(s: Tables, symmetric: set<Id>, table: set<EdgeRow>, row: EdgeRow, id: Id)
    requires OneActive(s.memberships) && Datable(s, symmetric) && IsProjection(s, symmetric, table)
    requires row in table && id in row.claims
    ensures id in s.claims && !s.claims[id].retracted && s.claims[id].objectId.Some?
    ensures BelongsOn(s, symmetric, s.claims[id], row.key)
  {
    hide Datable, Buildable, BelongsOn, OneActive, IsRow, Supports;
    DatableIff(s, symmetric);
    RowIsSupported(s, symmetric, row, id);
    SupportsIff(s, symmetric, id, row.key);
  }

  /** The row is in force on the day. */
  predicate InForceOn(row: EdgeRow, d: int) {
    (row.span.from.Some? ==> row.span.from.value <= d) && (row.span.to.Some? ==> d <= row.span.to.value)
  }

  /** And every such claim is listed on its edge, on exactly the days from its first to its last: unless
      it ends on the last day but one, or begins on the last and never ends. */
  lemma LiveIsListed(s: Tables, symmetric: set<Id>, table: set<EdgeRow>, id: Id, key: Key, d: int)
    requires OneActive(s.memberships) && Datable(s, symmetric) && IsProjection(s, symmetric, table)
    requires id in s.claims && !s.claims[id].retracted && s.claims[id].objectId.Some?
    requires BelongsOn(s, symmetric, s.claims[id], key)
    requires s.claims[id].validTo != Some(MAX_DAY - 1)
    requires s.claims[id].validFrom == Some(MAX_DAY) ==> s.claims[id].validTo.Some?
    requires 1 <= d <= MAX_DAY
    ensures var c := s.claims[id];
      (exists row :: row in table && row.key == key && id in row.claims && InForceOn(row, d))
      <==> (c.validFrom.Some? ==> c.validFrom.value <= d) && (c.validTo.Some? ==> d <= c.validTo.value)
  {
    hide Datable, Buildable, BelongsOn, OneActive, IsProjection, Supports;
    DatableIff(s, symmetric);
    SupportsIff(s, symmetric, id, key);
    ProjectionIsPointwise(s, symmetric, table, id, key);
    ShownOn(table, key, id, d);
    assert Shown(table, key, id, d) <==> DatedClaim(id, s.claims[id]).ValidOn(d);
  }

  lemma ShownOn(table: set<EdgeRow>, key: Key, id: Id, d: int)
    requires 1 <= d <= MAX_DAY
    ensures Shown(table, key, id, d)
      <==> exists row :: row in table && row.key == key && id in row.claims && InForceOn(row, d)
  {
    if row :| row in table && row.key == key && id in row.claims && InForceOn(row, d) {
      assert row.span.Contains(d);
    }
    if Shown(table, key, id, d) {
      var row :| row in table && row.key == key && id in row.claims && row.span.Contains(d);
      assert InForceOn(row, d);
    }
  }

  /** The rebuild overflows exactly when some claim that belongs on an edge ends on the last day. */
  lemma OverflowIff(s: Tables, symmetric: set<Id>)
    requires OneActive(s.memberships)
    ensures (exists key, i :: OverflowsIn(s, symmetric, key, i))
      <==> exists id, key :: id in s.claims && Relates(s.claims[id]) && BelongsOn(s, symmetric, s.claims[id], key)
                             && s.claims[id].validTo == Some(MAX_DAY)
  {
    hide Supports, BelongsOn, OneActive, GroupAmong, Ids;
    forall id, key ensures Supports(s, symmetric, id, key)
      <==> id in s.claims && Relates(s.claims[id]) && BelongsOn(s, symmetric, s.claims[id], key)
    {
      SupportsIff(s, symmetric, id, key);
    }
    forall key ensures Gathers(s, symmetric, Ids(s.claims.Keys), key, GroupOf(s, symmetric, key)) {
      IdsDistinct(s.claims.Keys);
      GroupMembers(s, symmetric, Ids(s.claims.Keys), key);
    }
    if key, i :| OverflowsIn(s, symmetric, key, i) {
      var id := GroupOf(s, symmetric, key)[i].id;
      assert Supports(s, symmetric, id, key) && s.claims[id].validTo == Some(MAX_DAY);
    }
    if id, key :| Supports(s, symmetric, id, key) && s.claims[id].validTo == Some(MAX_DAY) {
      var i :| 0 <= i < |GroupOf(s, symmetric, key)| && GroupOf(s, symmetric, key)[i].id == id;
      assert OverflowsIn(s, symmetric, key, i);
    }
  }

  // --------------------------------------------------------------- retraction is final

  /** Once a claim was retracted, no later table lists it, whatever else is written in between. */
  lemma RetractedIsGone(s: Tables, id: Id, reason: string, ops: seq<Op>, symmetric: set<Id>, table: set<EdgeRow>,
                        row: EdgeRow)
    requires RetractClaim(s, id, reason).Ok?
    requires var s' := Run(RetractClaim(s, id, reason).value, ops);
      OneActive(s'.memberships) && Datable(s', symmetric) && IsProjection(s', symmetric, table)
    requires row in table
    ensures id !in row.claims
  {
    hide RetractClaim, Run, OneActive, Datable, IsProjection, BelongsOn;
    RetractedIff(s, id, reason);
    ClaimsOverRuns(RetractClaim(s, id, reason).value, ops);
    var s' := Run(RetractClaim(s, id, reason).value, ops);
    forall x | x in row.claims ensures x in s'.claims && !s'.claims[x].retracted {
      ListedIsLive(s', symmetric, table, row, x);
    }
  }
}
