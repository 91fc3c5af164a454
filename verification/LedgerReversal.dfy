/** A merge can be undone, and until something is split the two ways of resolving a
    claim argument agree. */
module LedgerReversal {
  import opened Common
  import opened Lineage
  import opened Store
  import opened LedgerInvariant
  import opened LedgerSteps
  import opened LedgerOpens
  import opened LedgerRuns

  lemma ActiveFromHeld(ms: set<Membership>, ms': set<Membership>)
    requires forall e :: Held(ms, e) == Held(ms', e)
    ensures Active(ms) == Active(ms')
  {
    forall p: (Id, Id) ensures p in Active(ms) <==> p in Active(ms') {
      HeldInActive(ms, p.0, p.1);
      HeldInActive(ms', p.0, p.1);
    }
  }

  lemma EntityOfFromActive(ms: set<Membership>, ms': set<Membership>, m: Id)
    requires Exclusive(ms) && Exclusive(ms') && Active(ms) == Active(ms')
    ensures EntityOf(ms, m) == EntityOf(ms', m)
  {
    if EntityOf(ms, m).Some? {
      EntityOfRow(ms, m, EntityOf(ms, m).value);
      EntityOfRow(ms', m, EntityOf(ms, m).value);
    } else if EntityOf(ms', m).Some? {
      EntityOfRow(ms', m, EntityOf(ms', m).value);
      EntityOfRow(ms, m, EntityOf(ms', m).value);
    }
  }

  lemma HeldApart(ms: set<Membership>, e: Id, f: Id)
    requires Exclusive(ms) && e != f
    ensures Held(ms, e) !! Held(ms, f)
  {
    forall m | m in Held(ms, e) && m in Held(ms, f) ensures false {
      EntityOfRow(ms, m, e);
      EntityOfRow(ms, m, f);
    }
  }

  // ----------------------------------------------------------------- reversal

  /** The two stores answer every identity question alike: who belongs where, what
      absorbed what, what each entity and each claim argument resolves to. */
  ghost predicate SameIdentity(s: Tables, t: Tables) {
    && Active(s.memberships) == Active(t.memberships)
    && LineageOf(s) == LineageOf(t)
    && (forall e :: Lookup(s.canonical, e) == Lookup(t.canonical, e))
    && (forall e, m :: ResolveArgument(s, e, m) == ResolveArgument(t, e, m))
    && s.claims == t.claims && s.entities == t.entities
  }

  lemma SameLookups(s: Tables, t: Tables)
    requires Valid(s) && Valid(t)
    requires Active(s.memberships) == Active(t.memberships) && LineageOf(s) == LineageOf(t)
    ensures forall e :: Lookup(s.canonical, e) == Lookup(t.canonical, e)
    ensures forall e, m :: ResolveArgument(s, e, m) == ResolveArgument(t, e, m)
  {
    forall e ensures Lookup(s.canonical, e) == Lookup(t.canonical, e) {
      assert Lookup(s.canonical, e) == Root(LineageOf(s), e);
    }
    forall e, m: Option<Id> ensures ResolveArgument(s, e, m) == ResolveArgument(t, e, m) {
      if m.Some? {
        EntityOfFromActive(s.memberships, t.memberships, m.value);
      }
    }
  }

  /** Moving mentions off a root and back again restores who holds what. */
  lemma ThereAndBack(ms: set<Membership>, mentions: set<Id>, source: Id, target: Id, rev: nat, rev2: nat)
    requires CanMove(ms, mentions, source, target, rev) && HandedOver(ms)
    requires mentions == Held(ms, source) && rev < rev2
    ensures var ms1 := Move(ms, mentions, target, rev);
      && CanMove(ms1, mentions, target, source, rev2)
      && Active(Move(ms1, mentions, source, rev2)) == Active(ms)
  {
    var ms1 := Move(ms, mentions, target, rev);
    MoveExclusive(ms, mentions, source, target, rev);
    MoveHeld(ms, mentions, source, target, rev, target);
    forall r | r in ms1
      ensures r.openedAt < rev2 && (r.closedAt.Some? ==> r.closedAt.value < rev2)
    {
      var q := MoveOrigin(ms, mentions, target, rev, r);
    }
    var ms2 := Move(ms1, mentions, source, rev2);
    HeldApart(ms, source, target);
    forall e ensures Held(ms2, e) == Held(ms, e) {
      MoveHeld(ms, mentions, source, target, rev, e);
      MoveHeld(ms1, mentions, target, source, rev2, e);
    }
    ActiveFromHeld(ms2, ms);
  }

  lemma ScopeAtHead(s: Tables, parentRevision: nat, scope: set<Id>)
    requires RowsInRange(s.memberships, s.head, s.entities) && s.head <= parentRevision
    ensures ScopeCurrent(s.memberships, parentRevision, scope)
  {
  }

  /** A split is accepted exactly when its scope is current, it names some but not all of
      the entity's mentions, and its target can be used. */
  lemma SplitAcceptedIff(s: Tables, p: nat, e: Id, mentions: set<Id>, target: Option<Id>, newId: Id, rev: nat)
    requires Valid(s) && s.head < rev
    ensures SplitEntity(s, p, e, mentions, target, newId, rev).Ok?
      <==> ScopeCurrent(s.memberships, p, {e})
           && mentions != {} && mentions < Held(s.memberships, e)
           && (if target.Some? then target.value in s.entities else newId !in s.entities)
  {
    hide Valid, ScopeCurrent, Held, Moved, LineageOf;
    SplitValid(s, p, e, mentions, target, newId, rev);
  }

  /** Why the reversing split is accepted. */
  lemma ReversalAccepted(s: Tables, s1: Tables, a: Id, b: Id, survivor: Id, absorbed: Id, rev: nat,
                         parentRevision: nat, newId: Id, rev2: nat)
    requires Valid(s) && Valid(s1) && s.head < rev < rev2
    requires Merges(s, s1, a, b, survivor, absorbed, rev)
    requires rev <= parentRevision
    ensures SplitEntity(s1, parentRevision, survivor, Held(s.memberships, absorbed), Some(absorbed), newId, rev2).Ok?
  {
    hide Valid, Held, SplitEntity, LineageOf, Move;
    var held := Held(s.memberships, absorbed);
    ValidParts(s);
    ValidParts(s1);
    MoveHeld(s.memberships, held, absorbed, survivor, rev, survivor);
    HeldApart(s.memberships, survivor, absorbed);
    assert a in Held(s1.memberships, survivor) && a !in held;
    HolderInStore(s, absorbed);
    ScopeAtHead(s1, parentRevision, {survivor});
    SplitAcceptedIff(s1, parentRevision, survivor, held, Some(absorbed), newId, rev2);
  }

  /** A merge and the move back, compared. */
  lemma ReversalRestores(s: Tables, s1: Tables, s2: Tables, a: Id, b: Id, survivor: Id, absorbed: Id,
                         rev: nat, rev2: nat)
    requires Valid(s) && Valid(s2) && rev < rev2
    requires Merges(s, s1, a, b, survivor, absorbed, rev)
    requires s2.memberships == Move(s1.memberships, Held(s.memberships, absorbed), absorbed, rev2)
    requires LineageOf(s2) == LineageOf(s1) - {absorbed}
    requires s2.entities == s1.entities + {absorbed} && s2.claims == s1.claims
    ensures !SameIdentity(s, s1) && SameIdentity(s, s2)
  {
    hide Move, Held, Valid, LineageOf, ResolveArgument, Lookup, Active, EntityOf, CanMove;
    ValidParts(s);
    ThereAndBack(s.memberships, Held(s.memberships, absorbed), absorbed, survivor, rev, rev2);
    assert LineageOf(s2) == LineageOf(s)[absorbed := survivor] - {absorbed} == LineageOf(s);
    assert LineageOf(s) != LineageOf(s1);
    HolderInStore(s, absorbed);
    assert s2.entities == s.entities;
    SameLookups(s, s2);
  }

  /** The central promise: a confirm, then a split of exactly the mentions it moved back
      onto the absorbed entity, leaves every identity answer as it was before. */
  lemma Reversal(s: Tables, p: nat, a: Id, b: Id, candidate: Option<Id>, rev: nat,
                 parentRevision: nat, newId: Id, rev2: nat) returns (survivor: Id, absorbed: Id)
    requires Valid(s) && s.head < rev < rev2 && rev <= parentRevision
    requires ConfirmMatch(s, p, a, b, candidate, rev).Ok?
    ensures var merged := ConfirmMatch(s, p, a, b, candidate, rev).value;
      var moved := set m | m in merged.moved;
      var undone := SplitEntity(merged.tables, parentRevision, survivor, moved, Some(absorbed), newId, rev2);
      && merged.survivor == Some(survivor) && EntityOf(s.memberships, b) == Some(absorbed)
      && !SameIdentity(s, merged.tables)
      && undone.Ok?
      && Valid(undone.value.tables)
      && undone.value.moved == merged.moved
      && SameIdentity(s, undone.value.tables)
  {
    hide ConfirmMatch, SplitEntity, Move, Held, Valid, ScopeCurrent, LineageOf, EntitiesOf, Settle, EntityOf, CanMove,
      SameIdentity, HandedOver, Exclusive;
    survivor, absorbed := ConfirmValid(s, p, a, b, candidate, rev);
    var merged := ConfirmMatch(s, p, a, b, candidate, rev).value;
    var s1 := merged.tables;
    var held := Held(s.memberships, absorbed);
    assert (set m | m in merged.moved) == held;
    ReversalAccepted(s, s1, a, b, survivor, absorbed, rev, parentRevision, newId, rev2);
    SplitValid(s1, parentRevision, survivor, held, Some(absorbed), newId, rev2);
    SplitMoves(s1, parentRevision, survivor, held, Some(absorbed), newId, rev2);
    var s2 := SplitEntity(s1, parentRevision, survivor, held, Some(absorbed), newId, rev2).value.tables;
    ReversalRestores(s, s1, s2, a, b, survivor, absorbed, rev, rev2);
  }

  lemma ValidParts(s: Tables)
    requires Valid(s)
    ensures Exclusive(s.memberships) && HandedOver(s.memberships)
    ensures RowsInRange(s.memberships, s.head, s.entities)
  {
  }

  /** The mentions an accepted split reports are the ones asked for, unless it stays put. */
  lemma SplitMoves(s: Tables, p: nat, e: Id, mentions: set<Id>, target: Option<Id>, newId: Id, rev: nat)
    requires Valid(s) && s.head < rev
    requires SplitEntity(s, p, e, mentions, target, newId, rev).Ok?
    ensures var to := Target(target, newId);
      SplitEntity(s, p, e, mentions, target, newId, rev).value.moved == Ids(if e == to then {} else mentions)
  {
    hide Valid, Held, ScopeCurrent, LineageOf, Rebuild, Move, MovedMentions, Exclusive;
    var to := Target(target, newId);
    SplitValid(s, p, e, mentions, target, newId, rev);
    if e == to {
      ValidParts(s);
      MoveNothing(s.memberships, mentions, e, rev);
    } else {
      CanMoveNow(s, mentions, e, to, rev);
      MovingRows(s.memberships, mentions, e, to, rev);
    }
  }

  // ------------------------------------------------------- merge-only agreement

  /** Every membership ever opened: its mention sits where its entity resolves. */
  ghost predicate Agrees(s: Tables) {
    Forest(LineageOf(s)) &&
    forall r :: r in s.memberships ==> r.mention in Held(s.memberships, Root(LineageOf(s), r.entity))
  }

  lemma LinkedRoot(parent: Parent, a: Id, s: Id, e: Id)
    requires Forest(parent) && a !in parent && s !in parent && a != s
    ensures Forest(parent[a := s])
    ensures Root(parent[a := s], e) == if Root(parent, e) == a then s else Root(parent, e)
  {
    LinkKeepsForest(parent, a, s);
    var rank: Id -> nat :| Ranked(parent, rank);
    LinkRoot(parent, a, s, e, rank);
  }

  lemma MergeAgrees(s: Tables, s': Tables, a: Id, b: Id, survivor: Id, absorbed: Id, rev: nat)
    requires Valid(s) && Valid(s') && Agrees(s)
    requires Merges(s, s', a, b, survivor, absorbed, rev)
    ensures Agrees(s')
  {
    var ms := s.memberships;
    var held := Held(ms, absorbed);
    forall r | r in s'.memberships
      ensures r.mention in Held(s'.memberships, Root(LineageOf(s'), r.entity))
    {
      MergedRowAgrees(s, s', a, b, survivor, absorbed, rev, r);
    }
  }

  lemma MergedRowAgrees(s: Tables, s': Tables, a: Id, b: Id, survivor: Id, absorbed: Id, rev: nat, r: Membership)
    requires Valid(s) && Valid(s') && Agrees(s)
    requires Merges(s, s', a, b, survivor, absorbed, rev) && r in s'.memberships
    ensures r.mention in Held(s'.memberships, Root(LineageOf(s'), r.entity))
  {
    hide Valid, Held, Move, CanMove;
    var ms := s.memberships;
    var held := Held(ms, absorbed);
    var q := MoveOrigin(ms, held, survivor, rev, r);
    ValidParts(s);
    var x := Root(LineageOf(s), q.entity);
    assert q.mention in Held(ms, x);
    LinkedRoot(LineageOf(s), absorbed, survivor, q.entity);
    RootStep(LineageOf(s'), survivor);
    MoveHeld(ms, held, absorbed, survivor, rev, survivor);
    MoveHeld(ms, held, absorbed, survivor, rev, x);
    if r.entity != q.entity {
      GoneIsHeld(ms, held, absorbed, survivor, rev, q);
    }
  }

  lemma GoneIsHeld(ms: set<Membership>, mentions: set<Id>, source: Id, target: Id, rev: nat, q: Membership)
    requires CanMove(ms, mentions, source, target, rev) && q in Moving(ms, mentions, target)
    ensures q.mention in mentions
  {
  }

  lemma MoreRowsAgree(s: Tables, m: Id, e: Id, rev: nat, s': Tables)
    requires Valid(s) && Agrees(s) && e !in LineageOf(s)
    requires s'.memberships == s.memberships + {Row(m, e, rev)} && LineageOf(s') == LineageOf(s)
    ensures Agrees(s')
  {
    RootStep(LineageOf(s), e);
    forall r | r in s'.memberships
      ensures r.mention in Held(s'.memberships, Root(LineageOf(s'), r.entity))
    {
      OpenHeld(s.memberships, m, e, rev, Root(LineageOf(s'), r.entity));
    }
  }

  lemma AnchorAgrees(s: Tables, mention: Option<Id>, e: Option<Id>)
    requires Valid(s) && Agrees(s) && AnchorIsSafe(s, mention, e) && CheckAnchor(s, mention, e).Ok?
    ensures Agrees(CheckAnchor(s, mention, e).value)
  {
    AnchorValid(s, mention, e);
    if mention.Some? && EntityOf(s.memberships, mention.value).None? {
      MoreRowsAgree(s, mention.value, e.value, s.head, CheckAnchor(s, mention, e).value);
    }
  }

  lemma ClaimAgrees(s: Tables, id: Id, draft: Claim, literal: bool, symmetric: bool, required: bool)
    requires Valid(s) && Agrees(s) && ClaimIsSafe(s, draft, symmetric)
    requires RecordClaim(s, id, draft, literal, symmetric, required).Ok?
    ensures Agrees(RecordClaim(s, id, draft, literal, symmetric, required).value)
  {
    hide Valid, Agrees, CheckAnchor, Forest;
    var c := Normalized(draft, symmetric);
    var s1 := CheckAnchor(s, c.subjectMention, Some(c.subjectId)).value;
    AnchorValid(s, c.subjectMention, Some(c.subjectId));
    AnchorAgrees(s, c.subjectMention, Some(c.subjectId));
    var s2 := CheckAnchor(s1, c.objectMention, c.objectId).value;
    AnchorValid(s1, c.objectMention, c.objectId);
    AnchorAgrees(s1, c.objectMention, c.objectId);
    SameRowsAgree(s2, RecordClaim(s, id, draft, literal, symmetric, required).value);
  }

  lemma SameRowsAgree(s: Tables, s': Tables)
    requires Agrees(s) && s'.memberships == s.memberships && LineageOf(s') == LineageOf(s)
    ensures Agrees(s')
  {
  }

  lemma QuietAgrees(s: Tables, op: Op)
    requires Valid(s) && Agrees(s)
    requires op.DoReject? || op.DoUnresolved? || op.DoEntity? || op.DoPropose?
    ensures Agrees(Apply(s, op))
  {
    hide Valid, Agrees, Apply;
    QuietValid(s, op);
    SameRowsAgree(s, Apply(s, op));
  }

  lemma OpenAgrees(s: Tables, m: Id, e: Id, at: Option<nat>)
    requires Valid(s) && Agrees(s) && OpenIsSafe(s, e, at) && OpenMembership(s, m, e, at).Ok?
    ensures Agrees(OpenMembership(s, m, e, at).value)
  {
    hide Valid, Agrees, OpenIsSafe, EntityOf, LineageOf;
    OpenValid(s, m, e, at);
    SafeIsRoot(s, e, at);
    MoreRowsAgree(s, m, e, if at.Some? then at.value else s.head, OpenMembership(s, m, e, at).value);
  }

  lemma ConfirmAgrees(s: Tables, p: nat, a: Id, b: Id, candidate: Option<Id>, rev: nat)
    requires Valid(s) && Agrees(s) && s.head < rev
    requires ConfirmMatch(s, p, a, b, candidate, rev).Ok?
    ensures Agrees(ConfirmMatch(s, p, a, b, candidate, rev).value.tables)
  {
    hide Valid, Agrees, ConfirmMatch, Merges, EntitiesOf, ScopeCurrent;
    var survivor, absorbed := ConfirmValid(s, p, a, b, candidate, rev);
    MergeAgrees(s, ConfirmMatch(s, p, a, b, candidate, rev).value.tables, a, b, survivor, absorbed, rev);
  }

  lemma RetractAgrees(s: Tables, id: Id, reason: string)
    requires Valid(s) && Agrees(s) && RetractClaim(s, id, reason).Ok?
    ensures Agrees(RetractClaim(s, id, reason).value)
  {
    hide Valid, Agrees, LineageOf;
    RetractValid(s, id, reason);
    SameRowsAgree(s, RetractClaim(s, id, reason).value);
  }

  lemma ApplyAgrees(s: Tables, op: Op)
    requires Valid(s) && Agrees(s) && Safe(s, op) && !op.DoSplit?
    ensures Agrees(Apply(s, op))
  {
    hide Valid, RejectMatch, MarkUnresolved, OpenMembership, SplitEntity, RetractClaim, ConfirmMatch, RecordClaim,
      OpenIsSafe, ClaimIsSafe, Agrees, Held, EntityOf, LineageOf, Merges,
      ScopeCurrent, Forest;
    match op
    case DoConfirm(p, a, b, c, gap) =>
      if ConfirmMatch(s, p, a, b, c, s.head + 1 + gap).Ok? {
        ConfirmAgrees(s, p, a, b, c, s.head + 1 + gap);
      }
    case DoOpen(m, e, at) =>
      if OpenMembership(s, m, e, at).Ok? {
        OpenAgrees(s, m, e, at);
      }
    case DoClaim(id, draft, literal, symmetric, required) =>
      if RecordClaim(s, id, draft, literal, symmetric, required).Ok? {
        ClaimAgrees(s, id, draft, literal, symmetric, required);
      }
    case DoRetract(id, reason) =>
      if RetractClaim(s, id, reason).Ok? {
        RetractAgrees(s, id, reason);
      }
    case _ =>
      QuietAgrees(s, op);
  }

  lemma SafeIsRoot(s: Tables, e: Id, at: Option<nat>)
    requires OpenIsSafe(s, e, at)
    ensures e !in LineageOf(s)
  {
  }

  ghost predicate NoSplit(ops: seq<Op>) {
    forall i :: 0 <= i < |ops| ==> !ops[i].DoSplit?
  }

  lemma {:induction false} RunAgrees(s: Tables, ops: seq<Op>)
    requires Valid(s) && Agrees(s) && WellFormed(s, ops) && NoSplit(ops)
    ensures Valid(Run(s, ops)) && Agrees(Run(s, ops))
    decreases |ops|
  {
    hide Valid, Agrees, Safe, Apply;
    if ops == [] {
    } else {
      ApplyValid(s, ops[0]);
      assert !ops[0].DoSplit?;
      ApplyAgrees(s, ops[0]);
      assert NoSplit(ops[1..]);
      RunAgrees(Apply(s, ops[0]), ops[1..]);
    }
  }

  /** In every run without a split, anchors and the map resolve every recorded claim
      argument to the same entity, and every membership ever opened tells where its
      mention is now. */
  lemma MergeOnlyAgreement(ops: seq<Op>)
    requires WellFormed(BASELINE, ops) && NoSplit(ops)
    ensures var s := Run(BASELINE, ops);
      && (forall r :: r in s.memberships ==>
            EntityOf(s.memberships, r.mention) == Resolve(LineageOf(s), r.entity))
      && (forall id :: id in s.claims ==>
            ResolveArgument(s, s.claims[id].subjectId, s.claims[id].subjectMention)
            == Lookup(s.canonical, s.claims[id].subjectId))
      && (forall id :: id in s.claims && s.claims[id].objectId.Some? ==>
            ResolveArgument(s, s.claims[id].objectId.value, s.claims[id].objectMention)
            == Lookup(s.canonical, s.claims[id].objectId.value))
  {
    var s := Run(BASELINE, ops);
    BaselineValid();
    RunAgrees(BASELINE, ops);
    forall r | r in s.memberships
      ensures EntityOf(s.memberships, r.mention) == Resolve(LineageOf(s), r.entity)
    {
      EntityOfRow(s.memberships, r.mention, Root(LineageOf(s), r.entity));
    }
    forall id | id in s.claims
      ensures ResolveArgument(s, s.claims[id].subjectId, s.claims[id].subjectMention)
              == Lookup(s.canonical, s.claims[id].subjectId)
      ensures s.claims[id].objectId.Some? ==>
              ResolveArgument(s, s.claims[id].objectId.value, s.claims[id].objectMention)
              == Lookup(s.canonical, s.claims[id].objectId.value)
    {
      ArgumentAgrees(s, s.claims[id].subjectId, s.claims[id].subjectMention);
      if s.claims[id].objectId.Some? {
        ArgumentAgrees(s, s.claims[id].objectId.value, s.claims[id].objectMention);
      }
    }
  }

  lemma ArgumentAgrees(s: Tables, e: Id, mention: Option<Id>)
    requires Valid(s) && Agrees(s)
    requires mention.Some? ==> EverIn(s.memberships, mention.value, e)
    ensures ResolveArgument(s, e, mention) == Lookup(s.canonical, e)
  {
    hide Held, HandedOver, LineageOf, HeadMerge, ClaimsAnchored, RowsInRange, LineageMatches;
    if mention.Some? {
      var r :| r in s.memberships && r.mention == mention.value && r.entity == e;
      EntityOfRow(s.memberships, r.mention, Root(LineageOf(s), r.entity));
    }
  }
}
