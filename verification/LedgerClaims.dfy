/** Which claims are recorded and what becomes of them, said of the rows themselves and over every
    run, well-formed or not (aegis/actions/service.py:341-349, 528-563). */
module LedgerClaims {
  import opened Common
  import opened Store
  import opened LedgerInvariant
  import opened LedgerRuns
  import opened LedgerRows
  import opened LedgerRecords

  /** The mention belongs to the entity now. */
  ghost predicate Belongs(ms: set<Membership>, m: Id, e: Id) {
    exists r :: r in ms && r.closedAt.None? && r.mention == m && r.entity == e
  }

  /** The anchor belongs to the entity it anchors, or nowhere yet. */
  ghost predicate MayAnchor(ms: set<Membership>, mention: Option<Id>, e: Option<Id>) {
    mention.Some? ==> e.Some? && forall f :: Belongs(ms, mention.value, f) ==> f == e.value
  }

  /** Its arguments are known and apart, one of object and literal is given, and its dates are in order. */
  predicate InOrder(entities: set<Id>, c: Claim, literal: bool) {
    && c.subjectId in entities && (c.objectId.None? <==> literal)
    && (c.objectId.Some? ==> c.objectId.value in entities && c.objectId.value != c.subjectId)
    && (c.validFrom.Some? && c.validTo.Some? ==> c.validFrom.value <= c.validTo.value)
  }

  /** What a claim must be like to be recorded. */
  ghost predicate Recordable(s: Tables, id: Id, c: Claim, literal: bool, anchorRequired: bool) {
    && id !in s.claims && InOrder(s.entities, c, literal)
    && MayAnchor(s.memberships, c.subjectMention, Some(c.subjectId))
    && MayAnchor(s.memberships, c.objectMention, c.objectId)
    && (c.subjectMention.Some? ==> c.subjectMention != c.objectMention)
    && (anchorRequired ==> c.subjectMention.Some? && (c.objectId.Some? ==> c.objectMention.Some?))
  }

  /** The anchor belongs to the entity. */
  ghost predicate Anchors(ms: set<Membership>, mention: Option<Id>, e: Option<Id>) {
    mention.Some? ==> e.Some? && Belongs(ms, mention.value, e.value)
  }

  /** The rows an anchor adds: one, at the head, for a mention that belongs nowhere. */
  ghost function AnchorRows(s: Tables, mention: Option<Id>, e: Option<Id>): set<Membership> {
    if mention.Some? && e.Some? && forall f :: !Belongs(s.memberships, mention.value, f)
    then {Membership(mention.value, e.value, s.head, None)} else {}
  }

  lemma AnchorAccepted(s: Tables, mention: Option<Id>, e: Option<Id>)
    requires OneActive(s.memberships) && (e.Some? ==> e.value in s.entities)
    ensures CheckAnchor(s, mention, e).Ok? <==> MayAnchor(s.memberships, mention, e)
    ensures CheckAnchor(s, mention, e).Ok? ==>
      CheckAnchor(s, mention, e).value == s.(memberships := s.memberships + AnchorRows(s, mention, e))
  {
    if mention.Some? && e.Some? {
      var m := mention.value;
      if EntityOf(s.memberships, m).Some? {
        var r :| IsActiveRow(s.memberships, m, r) && EntityOf(s.memberships, m) == Some(r.entity);
        assert Belongs(s.memberships, m, r.entity);
      } else {
        forall r | r in s.memberships && r.closedAt.None? ensures r.mention != m {
          assert !IsActiveRow(s.memberships, m, r);
        }
      }
    }
  }

  lemma AnchorsAfter(s: Tables, mention: Option<Id>, e: Option<Id>)
    requires OneActive(s.memberships) && MayAnchor(s.memberships, mention, e)
    ensures var ms' := s.memberships + AnchorRows(s, mention, e);
      OneActive(ms') && Anchors(ms', mention, e)
  {
    if mention.Some? {
      Anchored(s, mention.value, e.value);
      forall r | r in s.memberships && r.Active() && r.mention == mention.value
        ensures Belongs(s.memberships, mention.value, r.entity)
      {
      }
    }
  }

  /** The stored claim says what the draft says; a symmetric one may be turned round to have its
      smaller id first. */
  predicate Says(c: Claim, draft: Claim, symmetric: bool) {
    && !c.retracted && c.predicate_ == draft.predicate_ && c.validFrom == draft.validFrom && c.validTo == draft.validTo
    && (if symmetric && draft.objectId.Some? && Before(draft.objectId.value, draft.subjectId) then
          && Some(c.subjectId) == draft.objectId && c.subjectMention == draft.objectMention
          && c.objectId == Some(draft.subjectId) && c.objectMention == draft.subjectMention
        else
          && c.subjectId == draft.subjectId && c.subjectMention == draft.subjectMention
          && c.objectId == draft.objectId && c.objectMention == draft.objectMention)
  }

  /** The tables after a claim was recorded: the claim, and a row for each anchor that had none. */
  ghost predicate RecordWrites(s: Tables, s': Tables, id: Id, draft: Claim, symmetric: bool) {
    && s' == s.(memberships := s'.memberships, claims := s'.claims)
    && s'.memberships == s.memberships + AnchorRows(s, draft.subjectMention, Some(draft.subjectId))
                         + AnchorRows(s, draft.objectMention, draft.objectId)
    && id in s'.claims && s'.claims == s.claims[id := s'.claims[id]] && Says(s'.claims[id], draft, symmetric)
    && Anchors(s'.memberships, draft.subjectMention, Some(draft.subjectId))
    && Anchors(s'.memberships, draft.objectMention, draft.objectId)
  }

  lemma DraftedIff(entities: set<Id>, draft: Claim, literal: bool, symmetric: bool)
    ensures Drafted(entities, draft, literal, symmetric).Ok? <==> InOrder(entities, draft, literal)
    ensures Drafted(entities, draft, literal, symmetric).Ok? ==>
      var c := Drafted(entities, draft, literal, symmetric).value;
      InOrder(entities, c, literal) && Says(c.(retracted := false), draft, symmetric)
  {
    hide Before;
  }

  /** Once the first anchor is in place, the second is checked as if it were not, unless both are
      one mention. */
  lemma SecondAnchor(s: Tables, mention: Option<Id>, e: Id, mention2: Option<Id>, e2: Option<Id>)
    requires MayAnchor(s.memberships, mention, Some(e)) && (e2.Some? ==> e2.value != e)
    ensures var ms1 := s.memberships + AnchorRows(s, mention, Some(e));
      var s1 := s.(memberships := ms1);
      && (MayAnchor(ms1, mention2, e2)
          <==> MayAnchor(s.memberships, mention2, e2) && (mention.Some? ==> mention != mention2))
      && (MayAnchor(ms1, mention2, e2) ==> AnchorRows(s1, mention2, e2) == AnchorRows(s, mention2, e2))
  {
    hide Belongs;
    var ms, ms1 := s.memberships, s.memberships + AnchorRows(s, mention, Some(e));
    var s1 := s.(memberships := ms1);
    if mention.None? {
      assert ms1 == ms;
    } else if mention2.Some? {
      forall f ensures Belongs(ms1, mention2.value, f)
        <==> Belongs(ms, mention2.value, f)
             || (mention == mention2 && f == e && AnchorRows(s, mention, Some(e)) != {})
      {
        if AnchorRows(s, mention, Some(e)) == {} {
          assert ms1 == ms;
        } else {
          RowBelongs(ms, Membership(mention.value, e, s.head, None), mention2.value, f);
        }
      }
      if mention == mention2 {
        Anchored(s, mention.value, e);
      } else {
        assert forall f :: Belongs(ms1, mention2.value, f) <==> Belongs(ms, mention2.value, f);
        assert AnchorRows(s1, mention2, e2) == AnchorRows(s, mention2, e2);
      }
    }
  }

  lemma RowBelongs(ms: set<Membership>, row: Membership, m: Id, f: Id)
    requires row.closedAt.None?
    ensures Belongs(ms + {row}, m, f) <==> Belongs(ms, m, f) || (row.mention == m && row.entity == f)
  {
    if row.mention == m && row.entity == f {
      assert row in ms + {row};
    }
  }

  lemma Anchored(s: Tables, m: Id, e: Id)
    requires MayAnchor(s.memberships, Some(m), Some(e))
    ensures Belongs(s.memberships + AnchorRows(s, Some(m), Some(e)), m, e)
  {
    var row := Membership(m, e, s.head, None);
    if AnchorRows(s, Some(m), Some(e)) != {} {
      RowBelongs(s.memberships, row, m, e);
    }
  }

  lemma AnchorsStay(ms: set<Membership>, more: set<Membership>, mention: Option<Id>, e: Option<Id>)
    requires Anchors(ms, mention, e)
    ensures Anchors(ms + more, mention, e)
  {
  }

  /** A claim is recorded exactly when it is recordable, whatever order its two anchors are
      checked in and opened. */
  lemma RecordedIff(s: Tables, id: Id, draft: Claim, literal: bool, symmetric: bool, required: bool)
    requires OneActive(s.memberships)
    ensures RecordClaim(s, id, draft, literal, symmetric, required).Ok?
      <==> Recordable(s, id, draft, literal, required)
    ensures RecordClaim(s, id, draft, literal, symmetric, required).Ok? ==>
      RecordWrites(s, RecordClaim(s, id, draft, literal, symmetric, required).value, id, draft, symmetric)
  {
    hide CheckAnchor, OneActive, MayAnchor, AnchorRows, Anchors, Drafted, Before;
    DraftedIff(s.entities, draft, literal, symmetric);
    if Drafted(s.entities, draft, literal, symmetric).Ok? {
      var c := Drafted(s.entities, draft, literal, symmetric).value;
      AnchorAccepted(s, c.subjectMention, Some(c.subjectId));
      if MayAnchor(s.memberships, c.subjectMention, Some(c.subjectId)) {
        var s1 := CheckAnchor(s, c.subjectMention, Some(c.subjectId)).value;
        AnchorsAfter(s, c.subjectMention, Some(c.subjectId));
        AnchorAccepted(s1, c.objectMention, c.objectId);
        SecondAnchor(s, c.subjectMention, c.subjectId, c.objectMention, c.objectId);
        if MayAnchor(s1.memberships, c.objectMention, c.objectId) {
          AnchorsAfter(s1, c.objectMention, c.objectId);
          AnchorsStay(s1.memberships, AnchorRows(s, c.objectMention, c.objectId), c.subjectMention, Some(c.subjectId));
        }
      }
    }
  }

  /** A retraction is accepted exactly for a live claim with a reason, and then marks that claim and
      nothing else. */
  lemma RetractedIff(s: Tables, id: Id, reason: string)
    ensures RetractClaim(s, id, reason).Ok?
      <==> (exists c :: c in reason && !IsSpace(c)) && id in s.claims && !s.claims[id].retracted
    ensures RetractClaim(s, id, reason).Ok? ==>
      var s' := RetractClaim(s, id, reason).value;
      && s' == s.(claims := s'.claims) && s'.claims.Keys == s.claims.Keys
      && s'.claims[id] == s.claims[id].(retracted := true)
      && forall x :: x in s.claims && x != id ==> s'.claims[x] == s.claims[x]
  {
  }

  /** The later table has every claim of the earlier one, word for word; at most it is retracted by
      now, and none that was is live again. */
  predicate OnlyRetires(claims: map<Id, Claim>, claims': map<Id, Claim>) {
    forall id :: id in claims ==>
      && id in claims' && claims'[id] == claims[id].(retracted := claims'[id].retracted)
      && (claims[id].retracted ==> claims'[id].retracted)
  }

  /** Every stored claim is in order. */
  ghost predicate AllInOrder(s: Tables) {
    forall id :: id in s.claims ==> InOrder(s.entities, s.claims[id], s.claims[id].objectId.None?)
  }

  lemma ApplyRetires(s: Tables, op: Op)
    ensures OnlyRetires(s.claims, Apply(s, op).claims) && s.entities <= Apply(s, op).entities
    ensures AllInOrder(s) ==> AllInOrder(Apply(s, op))
  {
    hide ConfirmMatch, SplitEntity, RejectMatch, MarkUnresolved, OpenMembership, RecordClaim, RetractClaim, InOrder,
      OnlyRetires, AllInOrder;
    SameRetires(s.claims);
    ClaimsKept(s, op);
    match op
    case DoClaim(id, draft, literal, symmetric, required) =>
      if RecordClaim(s, id, draft, literal, symmetric, required).Ok? {
        RecordRetires(s, id, draft, literal, symmetric, required);
      }
    case DoRetract(id, reason) =>
      if RetractClaim(s, id, reason).Ok? {
        RetractRetires(s, id, reason);
      }
    case _ => StillInOrder(s, Apply(s, op));
  }

  lemma SameRetires(claims: map<Id, Claim>)
    ensures OnlyRetires(claims, claims)
  {
  }

  lemma RecordRetires(s: Tables, id: Id, draft: Claim, literal: bool, symmetric: bool, required: bool)
    requires RecordClaim(s, id, draft, literal, symmetric, required).Ok?
    ensures var s' := RecordClaim(s, id, draft, literal, symmetric, required).value;
      OnlyRetires(s.claims, s'.claims) && (AllInOrder(s) ==> AllInOrder(s'))
  {
    hide RecordClaim, InOrder;
    ClaimEffects(s, id, draft, literal, symmetric, required);
    ClaimAdded(s, id, draft, literal, symmetric, required);
  }

  lemma RetractRetires(s: Tables, id: Id, reason: string)
    requires RetractClaim(s, id, reason).Ok?
    ensures var s' := RetractClaim(s, id, reason).value;
      OnlyRetires(s.claims, s'.claims) && (AllInOrder(s) ==> AllInOrder(s'))
  {
    hide RetractClaim, InOrder;
    RetractedIff(s, id, reason);
    InOrderRetracted(s.entities, s.claims[id]);
  }

  lemma InOrderRetracted(entities: set<Id>, c: Claim)
    ensures InOrder(entities, c.(retracted := true), c.objectId.None?) <==> InOrder(entities, c, c.objectId.None?)
  {
  }

  lemma StillInOrder(s: Tables, s': Tables)
    requires s'.claims == s.claims && s.entities <= s'.entities
    ensures AllInOrder(s) ==> AllInOrder(s')
  {
  }

  lemma ClaimAdded(s: Tables, id: Id, draft: Claim, literal: bool, symmetric: bool, required: bool)
    requires RecordClaim(s, id, draft, literal, symmetric, required).Ok?
    ensures var s' := RecordClaim(s, id, draft, literal, symmetric, required).value;
      && id !in s.claims && id in s'.claims && s'.claims == s.claims[id := s'.claims[id]]
      && InOrder(s.entities, s'.claims[id], s'.claims[id].objectId.None?)
  {
    hide CheckAnchor, Before;
    DraftedIff(s.entities, draft, literal, symmetric);
  }

  lemma ClaimsKept(s: Tables, op: Op)
    ensures !op.DoClaim? && !op.DoRetract? ==> Apply(s, op).claims == s.claims
    ensures s.entities <= Apply(s, op).entities
  {
    hide ConfirmMatch, SplitEntity, RejectMatch, MarkUnresolved, OpenMembership, RecordClaim, RetractClaim;
    match op
    case DoConfirm(p, a, b, k, gap) =>
      if ConfirmMatch(s, p, a, b, k, s.head + 1 + gap).Ok? {
        ConfirmSettles(s, p, a, b, k, s.head + 1 + gap);
        var survivor, absorbed := ConfirmEffect(s, p, a, b, k, s.head + 1 + gap);
      }
    case DoReject(p, a, b, k, gap) =>
      if RejectMatch(s, p, a, b, k, s.head + 1 + gap).Ok? {
        RejectSettles(s, p, a, b, k, s.head + 1 + gap);
      }
    case DoUnresolved(p, a, b, k, gap) =>
      if MarkUnresolved(s, p, a, b, k, s.head + 1 + gap).Ok? {
        UnresolvedSettles(s, p, a, b, k, s.head + 1 + gap);
      }
    case DoSplit(p, e, ms, target, newId, gap) =>
      if SplitEntity(s, p, e, ms, target, newId, s.head + 1 + gap).Ok? {
        SplitSettlesNone(s, p, e, ms, target, newId, s.head + 1 + gap);
        SplitEffect(s, p, e, ms, target, newId, s.head + 1 + gap);
      }
    case DoOpen(m, e, at) =>
      if OpenMembership(s, m, e, at).Ok? {
        OpenEffect(s, m, e, at);
      }
    case DoClaim(id, draft, literal, symmetric, required) =>
      if RecordClaim(s, id, draft, literal, symmetric, required).Ok? {
        ClaimEffects(s, id, draft, literal, symmetric, required);
      }
    case DoRetract(id, reason) => RetractEffects(s, id, reason);
    case _ =>
  }

  /** Over every run, well-formed or not: no claim is lost, rewritten or brought back, and every
      stored one is in order. */
  lemma {:induction false} ClaimsOverRuns(s: Tables, ops: seq<Op>)
    ensures OnlyRetires(s.claims, Run(s, ops).claims)
    ensures AllInOrder(s) ==> AllInOrder(Run(s, ops))
    decreases |ops|
  {
    hide AllInOrder, Apply;
    if ops == [] {
    } else {
      ApplyRetires(s, ops[0]);
      ClaimsOverRuns(Apply(s, ops[0]), ops[1..]);
    }
  }
}
