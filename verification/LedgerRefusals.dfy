/** Why a write is refused: whatever reason is given, it holds of the tables and the request
    (aegis/er/adjudication.py:296-535, aegis/er/ledger.py:79-111, aegis/actions/service.py:528-563). */
module LedgerRefusals {
  import opened Common
  import opened Store
  import opened LedgerRuns
  import opened LedgerRows
  import opened LedgerRecords
  import opened LedgerClaims
  import opened LedgerBatch
  import opened Lists

  /** Why a write is refused, if it is. */
  ghost function Refused(s: Tables, op: Op): Option<Refusal> {
    match op
    case DoConfirm(p, a, b, k, gap) => ErrorOf(ConfirmMatch(s, p, a, b, k, s.head + 1 + gap))
    case DoReject(p, a, b, k, gap) => ErrorOf(RejectMatch(s, p, a, b, k, s.head + 1 + gap))
    case DoUnresolved(p, a, b, k, gap) => ErrorOf(MarkUnresolved(s, p, a, b, k, s.head + 1 + gap))
    case DoSplit(p, e, ms, target, newId, gap) => ErrorOf(SplitEntity(s, p, e, ms, target, newId, s.head + 1 + gap))
    case DoOpen(m, e, at) => ErrorOf(OpenMembership(s, m, e, at))
    case DoClaim(id, draft, literal, symmetric, required) =>
      ErrorOf(RecordClaim(s, id, draft, literal, symmetric, required))
    case DoRetract(id, reason) => ErrorOf(RetractClaim(s, id, reason))
    case _ => None
  }

  function ErrorOf<T>(r: Result<T, Refusal>): Option<Refusal> { if r.Err? then Some(r.error) else None }

  /** One of the two mentions of a confirm belongs to the entity now. */
  ghost predicate InvolvesPair(s: Tables, op: Op, e: Id)
    requires op.DoConfirm?
  {
    Belongs(s.memberships, op.a, e) || Belongs(s.memberships, op.b, e)
  }

  /** A membership of the entity was opened or closed after the revision. */
  ghost predicate ChangedSince(s: Tables, e: Id, p: nat) {
    exists r :: r in s.memberships && r.entity == e
                && (r.openedAt > p || (r.closedAt.Some? && r.closedAt.value > p))
  }

  /** What a refusal says of the tables and the request. A rebuild's refusal is left to
      `LedgerCycles.RefusalsInAnyRun`. */
  ghost predicate Warranted(s: Tables, op: Op, x: Refusal) {
    match x
    case NothingToConfirm =>
      op.DoConfirm? && forall e, f | InvolvesPair(s, op, e) && InvolvesPair(s, op, f) :: e == f
    case Stale =>
      || (op.DoConfirm? && exists e :: InvolvesPair(s, op, e) && ChangedSince(s, e, op.parentRevision))
      || (op.DoSplit? && ChangedSince(s, op.entity, op.parentRevision))
    case UnresolvedMention =>
      && op.DoConfirm?
      && ((forall e :: !Belongs(s.memberships, op.a, e)) || (forall e :: !Belongs(s.memberships, op.b, e)))
    case NoSuchCandidate => CandidateOf(op).Some? && CandidateOf(op).value !in s.candidates
    case CandidateSettled =>
      && CandidateOf(op).Some? && CandidateOf(op).value in s.candidates
      && s.candidates[CandidateOf(op).value].disposition != Open
    case SamePair => op.DoReject? && op.a == op.b
    case CorruptLineage => op.DoConfirm? || op.DoSplit?
    case EmptySplit => op.DoSplit? && op.mentions == {}
    case StrayMentions => op.DoSplit? && exists m :: m in op.mentions && !Belongs(s.memberships, m, op.entity)
    case WholeEntity => op.DoSplit? && forall m :: Belongs(s.memberships, m, op.entity) ==> m in op.mentions
    case AlreadyMember => op.DoOpen? && exists e :: Belongs(s.memberships, op.mention, e)
    case NoSuchEntity =>
      || (op.DoSplit? && op.target.Some? && op.target.value !in s.entities)
      || (op.DoOpen? && op.entity !in s.entities)
      || (op.DoClaim? && (op.draft.subjectId !in s.entities
                          || (op.draft.objectId.Some? && op.draft.objectId.value !in s.entities)))
    case IdTaken =>
      (op.DoSplit? && op.target.None? && op.newId in s.entities) || (op.DoClaim? && op.id in s.claims)
    case ObjectNotExactlyOne => op.DoClaim? && op.draft.objectId.None? != op.literal
    case SelfClaim => op.DoClaim? && op.draft.objectId == Some(op.draft.subjectId)
    case InvertedDates =>
      && op.DoClaim? && op.draft.validFrom.Some? && op.draft.validTo.Some?
      && op.draft.validTo.value < op.draft.validFrom.value
    case AnchorWithoutEntity => op.DoClaim? && op.draft.objectMention.Some? && op.draft.objectId.None?
    case AnchorElsewhere =>
      && op.DoClaim?
      && ((op.draft.subjectMention.Some? && op.draft.subjectMention == op.draft.objectMention)
          || AnchoredElsewhere(s, op.draft.subjectMention, Some(op.draft.subjectId))
          || AnchoredElsewhere(s, op.draft.objectMention, op.draft.objectId))
    case AnchorRequired =>
      && op.DoClaim? && op.anchorRequired
      && (op.draft.subjectMention.None? || (op.draft.objectId.Some? && op.draft.objectMention.None?))
    case EmptyReason => op.DoRetract? && forall c :: c in op.reason ==> IsSpace(c)
    case NoSuchClaim => op.DoRetract? && op.id !in s.claims
    case AlreadyRetracted => op.DoRetract? && op.id in s.claims && s.claims[op.id].retracted
    case _ => false
  }

  ghost predicate AnchoredElsewhere(s: Tables, mention: Option<Id>, e: Option<Id>) {
    mention.Some? && exists f :: Belongs(s.memberships, mention.value, f) && e != Some(f)
  }

  /** Every refusal tells the truth, whatever the tables are like. */
  lemma RefusalsAreWarranted(s: Tables, op: Op)
    requires Refused(s, op).Some?
    ensures Warranted(s, op, Refused(s, op).value)
  {
    hide ConfirmMatch, SplitEntity, RejectMatch, MarkUnresolved, OpenMembership, RecordClaim, RetractClaim, Warranted;
    match op
    case DoConfirm(p, a, b, k, gap) => ConfirmRefused(s, p, a, b, k, gap);
    case DoReject(p, a, b, k, gap) => RejectRefused(s, p, a, b, k, gap);
    case DoUnresolved(p, a, b, k, gap) => UnresolvedRefused(s, p, a, b, k, gap);
    case DoSplit(p, e, ms, target, newId, gap) => SplitRefused(s, p, e, ms, target, newId, gap);
    case DoOpen(m, e, at) => OpenRefused(s, m, e, at);
    case DoClaim(id, draft, literal, symmetric, required) => ClaimRefused(s, id, draft, literal, symmetric, required);
    case DoRetract(id, reason) => RetractRefused(s, id, reason);
  }

  /** Nor does a batch skip a candidate for a reason that does not hold. */
  lemma SkipsAreWarranted(s: Tables, p: nat, item: Item)
    requires Confirmation(s, p, item).Err?
    ensures match Confirmation(s, p, item).error
            case NoSuchCandidate => item.candidate !in s.candidates
            case NotPreVerified => item.candidate in s.candidates && !s.candidates[item.candidate].preVerified
            case CandidateSettled => item.candidate in s.candidates && s.candidates[item.candidate].disposition != Open
            case x =>
              && item.candidate in s.candidates
              && var c := s.candidates[item.candidate];
                 Warranted(s, DoConfirm(p, c.mentionA, c.mentionB, Some(item.candidate), item.gap), x)
  {
    hide ConfirmMatch;
    if item.candidate in s.candidates {
      var c := s.candidates[item.candidate];
      if ConfirmMatch(s, p, c.mentionA, c.mentionB, Some(item.candidate), s.head + 1 + item.gap).Err? {
        ConfirmRefused(s, p, c.mentionA, c.mentionB, Some(item.candidate), item.gap);
      }
    }
  }

  lemma OwnerBelongs(s: Tables, m: Id)
    ensures EntityOf(s.memberships, m).Some? ==> Belongs(s.memberships, m, EntityOf(s.memberships, m).value)
    ensures EntityOf(s.memberships, m).None? ==> forall e :: !Belongs(s.memberships, m, e)
  {
    forall e | Belongs(s.memberships, m, e) ensures EntityOf(s.memberships, m).Some? {
      var r :| r in s.memberships && r.closedAt.None? && r.mention == m && r.entity == e;
      assert IsActiveRow(s.memberships, m, r);
    }
  }

  lemma ScopeBelongs(s: Tables, a: Id, b: Id, e: Id)
    ensures e in EntitiesOf(s.memberships, {a, b}) <==> Belongs(s.memberships, a, e) || Belongs(s.memberships, b, e)
  {
  }

  lemma ScopeChanged(s: Tables, p: nat, scope: set<Id>)
    requires !ScopeCurrent(s.memberships, p, scope)
    ensures exists e :: e in scope && ChangedSince(s, e, p)
  {
    var r :| r in s.memberships && r.entity in scope
      && !(r.openedAt <= p && (r.closedAt.Some? ==> r.closedAt.value <= p));
    assert ChangedSince(s, r.entity, p);
  }

  lemma ConfirmRefused(s: Tables, p: nat, a: Id, b: Id, candidate: Option<Id>, gap: nat)
    requires ConfirmMatch(s, p, a, b, candidate, s.head + 1 + gap).Err?
    ensures Warranted(s, DoConfirm(p, a, b, candidate, gap),
                      ConfirmMatch(s, p, a, b, candidate, s.head + 1 + gap).error)
  {
    hide EntitiesOf, EntityOf, Held, Moved, MovedMentions, LineageOf, Orphans, ScopeCurrent, Belongs, ChangedSince;
    var scope := EntitiesOf(s.memberships, {a, b});
    OwnerBelongs(s, a);
    OwnerBelongs(s, b);
    forall e ensures e in scope <==> Belongs(s.memberships, a, e) || Belongs(s.memberships, b, e) {
      ScopeBelongs(s, a, b, e);
    }
    if |scope| < 2 {
      SmallScope(scope);
    } else if !ScopeCurrent(s.memberships, p, scope) {
      ScopeChanged(s, p, scope);
    }
  }

  lemma SmallScope(scope: set<Id>)
    ensures |scope| < 2 ==> forall e, f | e in scope && f in scope :: e == f
  {
    forall e, f | e in scope && f in scope && e != f ensures |scope| > 1 {
      MoreThanOne(scope, e, f);
    }
  }

  lemma RejectRefused(s: Tables, p: nat, a: Id, b: Id, candidate: Option<Id>, gap: nat)
    requires RejectMatch(s, p, a, b, candidate, s.head + 1 + gap).Err?
    ensures Warranted(s, DoReject(p, a, b, candidate, gap),
                      RejectMatch(s, p, a, b, candidate, s.head + 1 + gap).error)
  {
    hide Constrain;
  }

  lemma UnresolvedRefused(s: Tables, p: nat, a: Id, b: Id, candidate: Option<Id>, gap: nat)
    requires MarkUnresolved(s, p, a, b, candidate, s.head + 1 + gap).Err?
    ensures Warranted(s, DoUnresolved(p, a, b, candidate, gap),
                      MarkUnresolved(s, p, a, b, candidate, s.head + 1 + gap).error)
  {
  }

  lemma HeldBelongs(s: Tables, m: Id, e: Id)
    ensures m in Held(s.memberships, e) <==> Belongs(s.memberships, m, e)
  {
  }

  lemma SplitRefused(s: Tables, p: nat, e: Id, mentions: set<Id>, target: Option<Id>, newId: Id, gap: nat)
    requires SplitEntity(s, p, e, mentions, target, newId, s.head + 1 + gap).Err?
    ensures Warranted(s, DoSplit(p, e, mentions, target, newId, gap),
                      SplitEntity(s, p, e, mentions, target, newId, s.head + 1 + gap).error)
  {
    hide Held, Moved, MovedMentions, LineageOf, Orphans, ScopeCurrent, Belongs, ChangedSince, UnattributableClaims;
    forall m ensures m in Held(s.memberships, e) <==> Belongs(s.memberships, m, e) {
      HeldBelongs(s, m, e);
    }
    if !ScopeCurrent(s.memberships, p, {e}) {
      ScopeChanged(s, p, {e});
    }
  }

  lemma OpenRefused(s: Tables, m: Id, e: Id, at: Option<nat>)
    requires OpenMembership(s, m, e, at).Err?
    ensures Warranted(s, DoOpen(m, e, at), OpenMembership(s, m, e, at).error)
  {
    hide EntityOf, Belongs;
    OwnerBelongs(s, m);
  }

  /** An anchor that was refused belongs elsewhere. */
  lemma AnchorRefused(s: Tables, mention: Option<Id>, e: Option<Id>)
    requires CheckAnchor(s, mention, e).Err? && (e.Some? ==> e.value in s.entities)
    ensures CheckAnchor(s, mention, e).error
      == if e.None? then AnchorWithoutEntity else AnchorElsewhere
    ensures mention.Some? && (e.Some? ==> AnchoredElsewhere(s, mention, e))
  {
    hide EntityOf, Belongs;
    if mention.Some? {
      OwnerBelongs(s, mention.value);
    }
  }

  /** What the first anchor opened is its own. */
  lemma ElsewhereBefore(s: Tables, s1: Tables, mention: Option<Id>, e: Id, mention2: Option<Id>, e2: Option<Id>)
    requires CheckAnchor(s, mention, Some(e)) == Ok(s1) && AnchoredElsewhere(s1, mention2, e2)
    ensures AnchoredElsewhere(s, mention2, e2) || mention2 == mention
  {
    hide CheckAnchor;
    AnchorEffect(s, mention, Some(e));
    var f :| Belongs(s1.memberships, mention2.value, f) && e2 != Some(f);
    if s1 != s {
      OpenEffect(s, mention.value, e, None);
      if mention2 != mention {
        var r :| r in s1.memberships && r.closedAt.None? && r.mention == mention2.value && r.entity == f;
        assert r in s.memberships;
        assert Belongs(s.memberships, mention2.value, f);
      }
    }
  }

  lemma ClaimRefused(s: Tables, id: Id, draft: Claim, literal: bool, symmetric: bool, required: bool)
    requires RecordClaim(s, id, draft, literal, symmetric, required).Err?
    ensures Warranted(s, DoClaim(id, draft, literal, symmetric, required),
                      RecordClaim(s, id, draft, literal, symmetric, required).error)
  {
    hide CheckAnchor, Before, AnchoredElsewhere;
    if Drafted(s.entities, draft, literal, symmetric).Ok? {
      var c := Drafted(s.entities, draft, literal, symmetric).value;
      var first := CheckAnchor(s, c.subjectMention, Some(c.subjectId));
      if first.Err? {
        AnchorRefused(s, c.subjectMention, Some(c.subjectId));
      } else {
        AnchorOpensOnly(s, c.subjectMention, Some(c.subjectId));
        if CheckAnchor(first.value, c.objectMention, c.objectId).Err? {
          AnchorRefused(first.value, c.objectMention, c.objectId);
          if c.objectId.Some? {
            ElsewhereBefore(s, first.value, c.subjectMention, c.subjectId, c.objectMention, c.objectId);
          }
        }
      }
    }
  }

  lemma RetractRefused(s: Tables, id: Id, reason: string)
    requires RetractClaim(s, id, reason).Err?
    ensures Warranted(s, DoRetract(id, reason), RetractClaim(s, id, reason).error)
  {
  }
}
