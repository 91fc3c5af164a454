/** What a split does to claims, and what an ill-placed open does to a merge. */
module LedgerSplit {
  import opened Common
  import opened Lineage
  import opened Lists
  import opened Store
  import opened LedgerInvariant
  import opened LedgerSteps
  import opened LedgerOpens
  import opened LedgerReversal

  // ------------------------------------------------------------- attribution

  /** An argument that nothing anchors and that resolves to `e`. */
  ghost predicate Drifts(s: Tables, e: Id, arg: Id, mention: Option<Id>) {
    mention.None? && Resolve(LineageOf(s), arg) == Some(e)
  }

  lemma AffectedIff(s: Tables, e: Id, x: Id)
    requires Valid(s) && Held(s.memberships, e) != {}
    ensures x in Affected(s.canonical, e) <==> Resolve(LineageOf(s), x) == Some(e)
  {
    HolderIsRoot(s, e);
    RootStep(LineageOf(s), e);
    assert Lookup(s.canonical, x) == Root(LineageOf(s), x);
    assert Lookup(s.canonical, e) == Root(LineageOf(s), e);
  }

  /** A split surfaces exactly the live claims with an unanchored argument that resolved to
      the split entity: whichever end it hangs from, and under whichever absorbed id. */
  lemma SplitSurfaces(s: Tables, p: nat, e: Id, mentions: set<Id>, target: Option<Id>, newId: Id, rev: nat, id: Id)
    requires Valid(s) && s.head < rev
    requires SplitEntity(s, p, e, mentions, target, newId, rev).Ok?
    ensures id in SplitEntity(s, p, e, mentions, target, newId, rev).value.unattributable
      <==> id in s.claims && !s.claims[id].retracted
           && (Drifts(s, e, s.claims[id].subjectId, s.claims[id].subjectMention)
               || (s.claims[id].objectId.Some?
                   && Drifts(s, e, s.claims[id].objectId.value, s.claims[id].objectMention)))
  {
    hide Valid, Held, Affected, SplitEntity, LineageOf, Resolve, ScopeCurrent;
    SplitValid(s, p, e, mentions, target, newId, rev);
    if id in s.claims {
      AffectedIff(s, e, s.claims[id].subjectId);
      if s.claims[id].objectId.Some? {
        AffectedIff(s, e, s.claims[id].objectId.value);
      }
    }
  }

  /** Every other argument on the split entity is anchored, and follows its own mention:
      to the target if the mention moved, and otherwise it stays. */
  lemma AnchorsFollow(s: Tables, p: nat, e: Id, mentions: set<Id>, target: Option<Id>, newId: Id, rev: nat,
                      arg: Id, mention: Option<Id>)
    requires Valid(s) && s.head < rev
    requires SplitEntity(s, p, e, mentions, target, newId, rev).Ok?
    requires mention.Some? ==> EverIn(s.memberships, mention.value, arg)
    requires ResolveArgument(s, arg, mention) == e && !Drifts(s, e, arg, mention)
    ensures var s' := SplitEntity(s, p, e, mentions, target, newId, rev).value.tables;
      var to := Target(target, newId);
      && mention.Some? && mention.value in Held(s.memberships, e)
      && ResolveArgument(s', arg, mention) == if mention.value in mentions then to else e
  {
    hide Valid, Held, SplitEntity, LineageOf, Resolve, ScopeCurrent, EntityOf, Lookup, Move, CanMove;
    var to := Target(target, newId);
    var s' := SplitEntity(s, p, e, mentions, target, newId, rev).value.tables;
    SplitValid(s, p, e, mentions, target, newId, rev);
    MapAnswers(s, arg);
    ValidParts(s);
    ValidParts(s');
    AnchorIsActive(s, arg, mention);
    var m := mention.value;
    EntityOfRow(s.memberships, m, e);
    if e == to {
      MoveNothing(s.memberships, mentions, e, rev);
    } else {
      CanMoveNow(s, mentions, e, to, rev);
      MoveHeld(s.memberships, mentions, e, to, rev, e);
      MoveHeld(s.memberships, mentions, e, to, rev, to);
    }
    EntityOfRow(s'.memberships, m, e);
    EntityOfRow(s'.memberships, m, to);
  }

  lemma MapAnswers(s: Tables, arg: Id)
    requires Valid(s)
    ensures Resolve(LineageOf(s), arg) == Some(Lookup(s.canonical, arg))
  {
    assert Lookup(s.canonical, arg) == Root(LineageOf(s), arg);
  }

  /** The anchor of a recorded claim always has an active membership. */
  lemma AnchorIsActive(s: Tables, arg: Id, mention: Option<Id>)
    requires Valid(s) && (mention.Some? ==> EverIn(s.memberships, mention.value, arg))
    ensures mention.Some? ==> EntityOf(s.memberships, mention.value).Some?
  {
    if mention.Some? {
      var r :| r in s.memberships && r.mention == mention.value && r.entity == arg;
      var q := StaysResolved(s.memberships, s.head, r);
    }
  }

  // ----------------------------------------------- chains through the target

  /** From `e`, the chain reaches `t` (possibly at once). */
  ghost predicate Reaches(parent: Parent, e: Id, t: Id) {
    exists n: nat :: ReachesIn(parent, e, t, n)
  }

  ghost predicate ReachesIn(parent: Parent, e: Id, t: Id, n: nat)
    decreases n
  {
    if n == 0 then e == t else e in parent && e != t && ReachesIn(parent, parent[e], t, n - 1)
  }

  lemma {:induction false} CutRoot(parent: Parent, t: Id, e: Id, rank: Id -> nat)
    requires Ranked(parent, rank) && Forest(parent) && Forest(parent - {t})
    ensures Root(parent - {t}, e) == if Reaches(parent, e, t) then t else Root(parent, e)
    decreases rank(e)
  {
    RootStep(parent, e);
    RootStep(parent - {t}, e);
    if e == t {
      assert ReachesIn(parent, e, t, 0);
    } else if e in parent {
      CutRoot(parent, t, parent[e], rank);
      if Reaches(parent, parent[e], t) {
        var n: nat :| ReachesIn(parent, parent[e], t, n);
        assert ReachesIn(parent, e, t, n + 1);
      }
      if Reaches(parent, e, t) {
        var n: nat :| ReachesIn(parent, e, t, n);
        assert ReachesIn(parent, parent[e], t, n - 1);
      }
    }
  }

  lemma {:induction false} ReachesSameRoot(parent: Parent, e: Id, t: Id, n: nat)
    requires Forest(parent) && ReachesIn(parent, e, t, n)
    ensures Root(parent, e) == Root(parent, t)
    decreases n
  {
    if n == 0 {
      assert e == t;
    } else {
      RootStep(parent, e);
      ReachesSameRoot(parent, parent[e], t, n - 1);
    }
  }

  lemma ReachesIsRooted(s: Tables, x: Id, t: Id)
    requires Valid(s) && Reaches(LineageOf(s), x, t)
    ensures Lookup(s.canonical, x) == Lookup(s.canonical, t)
  {
    hide Valid, LineageOf, Lookup;
    ValidForest(s);
    var n: nat :| ReachesIn(LineageOf(s), x, t, n);
    ReachesSameRoot(LineageOf(s), x, t, n);
    MapAnswers(s, x);
    MapAnswers(s, t);
  }

  lemma ReachesItself(parent: Parent, t: Id)
    ensures Reaches(parent, t, t)
  {
    assert ReachesIn(parent, t, t, 0);
  }

  /** A split changes a map resolution exactly for the ids whose chain passes through the
      target: they resolve to it again, and every other id resolves as before. */
  lemma SplitRestoresChain(s: Tables, p: nat, e: Id, mentions: set<Id>, target: Option<Id>, newId: Id, rev: nat, x: Id)
    requires Valid(s) && s.head < rev
    requires SplitEntity(s, p, e, mentions, target, newId, rev).Ok?
    ensures var s' := SplitEntity(s, p, e, mentions, target, newId, rev).value.tables;
      var to := Target(target, newId);
      Lookup(s'.canonical, x) == if Reaches(LineageOf(s), x, to) then to else Lookup(s.canonical, x)
  {
    hide Valid, Held, SplitEntity, LineageOf, Lookup, Reaches, ScopeCurrent;
    var to := Target(target, newId);
    SplitValid(s, p, e, mentions, target, newId, rev);
    var s' := SplitEntity(s, p, e, mentions, target, newId, rev).value.tables;
    MapAnswers(s, x);
    MapAnswers(s', x);
    ValidForest(s);
    ValidForest(s');
    if e == to {
      if Reaches(LineageOf(s), x, e) {
        ReachesIsRooted(s, x, e);
        HolderLooksUp(s, e);
      }
    } else {
      var rank: Id -> nat :| Ranked(LineageOf(s), rank);
      CutRoot(LineageOf(s), to, x, rank);
    }
  }

  lemma HolderLooksUp(s: Tables, e: Id)
    requires Valid(s) && Held(s.memberships, e) != {}
    ensures Lookup(s.canonical, e) == e
  {
    hide Held, LineageOf;
    HolderIsRoot(s, e);
    MapAnswers(s, e);
    ValidForest(s);
    RootStep(LineageOf(s), e);
  }

  /** What the caller can look up before a split: the target resolves to itself, or was
      absorbed into the very entity being split. */
  predicate TargetIsNear(s: Tables, e: Id, to: Id) {
    Lookup(s.canonical, to) == to || Lookup(s.canonical, to) == e
  }

  /** The exact condition under which a split changes only resolutions to the split entity. */
  lemma SplitStaysInsideIff(s: Tables, p: nat, e: Id, mentions: set<Id>, target: Option<Id>, newId: Id, rev: nat)
    requires Valid(s) && s.head < rev
    requires SplitEntity(s, p, e, mentions, target, newId, rev).Ok?
    ensures var s' := SplitEntity(s, p, e, mentions, target, newId, rev).value.tables;
      (forall x :: Lookup(s'.canonical, x) != Lookup(s.canonical, x) ==> Lookup(s.canonical, x) == e)
      <==> TargetIsNear(s, e, Target(target, newId))
  {
    hide Valid, SplitEntity, LineageOf, Lookup, Reaches;
    var to := Target(target, newId);
    var s' := SplitEntity(s, p, e, mentions, target, newId, rev).value.tables;
    SplitRestoresChain(s, p, e, mentions, target, newId, rev, to);
    ReachesItself(LineageOf(s), to);
    forall x | TargetIsNear(s, e, to) && Lookup(s'.canonical, x) != Lookup(s.canonical, x)
      ensures Lookup(s.canonical, x) == e
    {
      SplitRestoresChain(s, p, e, mentions, target, newId, rev, x);
      ReachesIsRooted(s, x, to);
    }
  }

  /** An unanchored argument whose chain passes through `to`. */
  ghost predicate PassesThrough(s: Tables, to: Id, arg: Id, mention: Option<Id>) {
    mention.None? && Reaches(LineageOf(s), arg, to)
  }

  ghost predicate Redirected(s: Tables, s': Tables, arg: Id, mention: Option<Id>) {
    mention.None? && ResolveArgument(s', arg, mention) != ResolveArgument(s, arg, mention)
  }

  /** A live claim of which an unanchored argument resolves elsewhere after the outcome, and
      which the outcome does not surface. */
  ghost predicate Unreported(s: Tables, o: Outcome, id: Id) {
    && id in s.claims && !s.claims[id].retracted && id !in o.unattributable
    && (Redirected(s, o.tables, s.claims[id].subjectId, s.claims[id].subjectMention)
        || (s.claims[id].objectId.Some?
            && Redirected(s, o.tables, s.claims[id].objectId.value, s.claims[id].objectMention)))
  }

  lemma RedirectedIff(s: Tables, p: nat, e: Id, mentions: set<Id>, target: Option<Id>, newId: Id, rev: nat,
                      arg: Id, mention: Option<Id>)
    requires Valid(s) && s.head < rev
    requires SplitEntity(s, p, e, mentions, target, newId, rev).Ok?
    ensures var to := Target(target, newId);
      Redirected(s, SplitEntity(s, p, e, mentions, target, newId, rev).value.tables, arg, mention)
      <==> PassesThrough(s, to, arg, mention) && Lookup(s.canonical, to) != to
  {
    hide Valid, SplitEntity, LineageOf, Lookup, Reaches;
    var to := Target(target, newId);
    SplitRestoresChain(s, p, e, mentions, target, newId, rev, arg);
    if Reaches(LineageOf(s), arg, to) {
      ReachesIsRooted(s, arg, to);
    }
  }

  /** Exactly the claims a split re-attributes without saying so: the target is far away, and
      the claim hangs from a chain through it but not, by another argument, from the entity
      that was split. */
  lemma UnreportedIff(s: Tables, p: nat, e: Id, mentions: set<Id>, target: Option<Id>, newId: Id, rev: nat, id: Id)
    requires Valid(s) && s.head < rev && id in s.claims
    requires SplitEntity(s, p, e, mentions, target, newId, rev).Ok?
    ensures var to := Target(target, newId);
      var c := s.claims[id];
      Unreported(s, SplitEntity(s, p, e, mentions, target, newId, rev).value, id)
      <==> !c.retracted && !TargetIsNear(s, e, to)
           && (PassesThrough(s, to, c.subjectId, c.subjectMention)
               || (c.objectId.Some? && PassesThrough(s, to, c.objectId.value, c.objectMention)))
           && !Drifts(s, e, c.subjectId, c.subjectMention)
           && !(c.objectId.Some? && Drifts(s, e, c.objectId.value, c.objectMention))
  {
    hide Valid, SplitEntity, LineageOf, Lookup, Reaches, Resolve, Redirected;
    var to := Target(target, newId);
    var c := s.claims[id];
    SplitSurfaces(s, p, e, mentions, target, newId, rev, id);
    RedirectedIff(s, p, e, mentions, target, newId, rev, c.subjectId, c.subjectMention);
    NearDrifts(s, e, to, c.subjectId, c.subjectMention);
    if c.objectId.Some? {
      RedirectedIff(s, p, e, mentions, target, newId, rev, c.objectId.value, c.objectMention);
      NearDrifts(s, e, to, c.objectId.value, c.objectMention);
    }
  }

  /** A chain through a target that was absorbed into `e` ends at `e`. */
  lemma NearDrifts(s: Tables, e: Id, to: Id, arg: Id, mention: Option<Id>)
    requires Valid(s)
    ensures PassesThrough(s, to, arg, mention) && Lookup(s.canonical, to) == e ==> Drifts(s, e, arg, mention)
  {
    hide Valid, LineageOf, Lookup, Reaches, Resolve;
    if PassesThrough(s, to, arg, mention) {
      ReachesIsRooted(s, arg, to);
      MapAnswers(s, arg);
    }
  }

  // -------------------------------------------------------- what a split queues

  /** A minted entity changes nothing about what resolves to the split one. */
  lemma MintedAnswers(s: Tables, p: nat, e: Id, mentions: set<Id>, newId: Id, rev: nat, x: Id)
    requires Valid(s) && s.head < rev
    requires SplitEntity(s, p, e, mentions, None, newId, rev).Ok?
    ensures Lookup(SplitEntity(s, p, e, mentions, None, newId, rev).value.tables.canonical, x) == e
      <==> Lookup(s.canonical, x) == e
  {
    hide Valid, SplitEntity, LineageOf, Lookup, Reaches, Held;
    SplitAcceptedIff(s, p, e, mentions, None, newId, rev);
    SplitRestoresChain(s, p, e, mentions, None, newId, rev, x);
    HolderInStore(s, e);
    if Reaches(LineageOf(s), x, newId) {
      ReachesIsRooted(s, x, newId);
      NotInStore(s, newId);
    }
  }

  lemma NotInStore(s: Tables, e: Id)
    requires Valid(s) && e !in s.entities
    ensures Lookup(s.canonical, e) == e
  {
    hide Held, Exclusive, HandedOver, Replay;
    EverHeldInRange(s);
    RootStep(LineageOf(s), e);
  }

  /** The draft repoints one argument, one that nothing anchors and that hung from the split entity. */
  ghost predicate Repoints(s: Tables, e: Id, created: Id, id: Id, c: Claim, d: Draft) {
    if Drifts(s, e, c.subjectId, c.subjectMention) then d == Draft(id, created, c.objectId)
    else
      && c.objectId.Some? && Drifts(s, e, c.objectId.value, c.objectMention)
      && d == Draft(id, c.subjectId, Some(created))
  }

  lemma {:induction false} QueuedAll(claims: map<Id, Claim>, canonical: map<Id, Id>, ids: seq<Id>, survivor: Option<Id>,
                                     created: Id)
    requires forall id | id in ids :: id in claims
    ensures var q := Queued(claims, canonical, ids, survivor, Some(created));
      && |q| == |ids|
      && forall i | 0 <= i < |ids| :: q[i] == Redrafted(canonical, ids[i], claims[ids[i]], survivor, created)
  {
    if ids == [] {
    } else {
      QueuedAll(claims, canonical, ids[..|ids| - 1], survivor, created);
    }
  }

  /** What a split queues for the claims it surfaced. Onto a new entity: one draft each, in order,
      that repoints exactly one drifting argument. Onto an existing one: nothing at all. */
  lemma SplitQueues(s: Tables, p: nat, e: Id, mentions: set<Id>, target: Option<Id>, newId: Id, rev: nat)
    requires Valid(s) && s.head < rev
    requires SplitEntity(s, p, e, mentions, target, newId, rev).Ok?
    ensures var o := SplitEntity(s, p, e, mentions, target, newId, rev).value;
      var q := Queued(o.tables.claims, o.tables.canonical, o.unattributable, o.survivor, o.created);
      && (target.Some? ==> q == [])
      && (target.None? ==>
            && |q| == |o.unattributable|
            && forall i | 0 <= i < |q| ::
                 o.unattributable[i] in s.claims
                 && Repoints(s, e, newId, o.unattributable[i], s.claims[o.unattributable[i]], q[i]))
  {
    hide Valid, SplitEntity, LineageOf, Lookup, Drifts, Redrafted;
    SplitValid(s, p, e, mentions, target, newId, rev);
    SplitReport(s, p, e, mentions, target, newId, rev);
    var o := SplitEntity(s, p, e, mentions, target, newId, rev).value;
    if target.None? {
      forall id | id in o.unattributable ensures id in s.claims {
        SplitSurfaces(s, p, e, mentions, target, newId, rev, id);
      }
      QueuedAll(o.tables.claims, o.tables.canonical, o.unattributable, o.survivor, newId);
      forall i | 0 <= i < |o.unattributable|
        ensures var id := o.unattributable[i];
          id in s.claims
          && Repoints(s, e, newId, id, s.claims[id], Redrafted(o.tables.canonical, id, s.claims[id], Some(e), newId))
      {
        assert o.unattributable[i] in o.unattributable;
        DraftRepoints(s, p, e, mentions, newId, rev, o.unattributable[i]);
      }
    }
  }

  lemma SplitReport(s: Tables, p: nat, e: Id, mentions: set<Id>, target: Option<Id>, newId: Id, rev: nat)
    requires SplitEntity(s, p, e, mentions, target, newId, rev).Ok?
    ensures var o := SplitEntity(s, p, e, mentions, target, newId, rev).value;
      o.survivor == Some(e) && o.created == if target.None? then Some(newId) else None
  {
    hide Held, Move, ScopeCurrent, Ids, MovedMentions, Rebuild, UnattributableClaims;
  }

  lemma DraftRepoints(s: Tables, p: nat, e: Id, mentions: set<Id>, newId: Id, rev: nat, id: Id)
    requires Valid(s) && s.head < rev
    requires SplitEntity(s, p, e, mentions, None, newId, rev).Ok?
    requires id in SplitEntity(s, p, e, mentions, None, newId, rev).value.unattributable
    ensures id in s.claims
    ensures var canonical := SplitEntity(s, p, e, mentions, None, newId, rev).value.tables.canonical;
      Repoints(s, e, newId, id, s.claims[id], Redrafted(canonical, id, s.claims[id], Some(e), newId))
  {
    hide Valid, SplitEntity, LineageOf, Lookup, Resolve;
    SplitSurfaces(s, p, e, mentions, None, newId, rev, id);
    var c := s.claims[id];
    MintedAnswers(s, p, e, mentions, newId, rev, c.subjectId);
    MapAnswers(s, c.subjectId);
    if c.objectId.Some? {
      MintedAnswers(s, p, e, mentions, newId, rev, c.objectId.value);
      MapAnswers(s, c.objectId.value);
    }
  }

  lemma ValidForest(s: Tables)
    requires Valid(s)
    ensures Forest(LineageOf(s))
  {
  }

  // ------------------------------------------------------ the side conditions fail

  /** Why opens must not land on a merge revision: whatever entity but the winner they
      name, the next rebuild forgets the merge and the absorbed entity stands alone. */
  lemma OpenErasesMerge(s: Tables, p: nat, a: Id, b: Id, candidate: Option<Id>, rev: nat, m: Id, e: Id)
    returns (survivor: Id, absorbed: Id)
    requires Valid(s) && s.head < rev && ConfirmMatch(s, p, a, b, candidate, rev).Ok?
    requires var s1 := ConfirmMatch(s, p, a, b, candidate, rev).value.tables;
      OpenMembership(s1, m, e, None).Ok? && EntityOf(s.memberships, a) != Some(e)
    ensures var s1 := ConfirmMatch(s, p, a, b, candidate, rev).value.tables;
      var s2 := OpenMembership(s1, m, e, None).value;
      && EntityOf(s.memberships, a) == Some(survivor) && EntityOf(s.memberships, b) == Some(absorbed)
      && Resolve(LineageOf(s1), absorbed) == Some(survivor)
      && Resolve(LineageOf(s2), absorbed) == Some(absorbed)
      && LineageOf(s2) == LineageOf(s)
  {
    hide Valid, Held, Move, CanMove, Rebuild, ScopeCurrent, EntityOf, EntitiesOf, ConfirmMatch, OpenMembership;
    survivor, absorbed := ConfirmValid(s, p, a, b, candidate, rev);
    var s1 := ConfirmMatch(s, p, a, b, candidate, rev).value.tables;
    ValidForest(s);
    ValidForest(s1);
    RootStep(LineageOf(s), absorbed);
    RootStep(LineageOf(s1), absorbed);
    RootStep(LineageOf(s1), survivor);
    OpenOnMerge(s, s1, a, b, survivor, absorbed, rev, m, e);
  }

  lemma OpenOnMerge(s: Tables, s1: Tables, a: Id, b: Id, survivor: Id, absorbed: Id, rev: nat, m: Id, e: Id)
    requires Valid(s) && Valid(s1) && s.head < rev && Merges(s, s1, a, b, survivor, absorbed, rev)
    requires OpenMembership(s1, m, e, None).Ok? && e != survivor
    ensures LineageOf(OpenMembership(s1, m, e, None).value) == LineageOf(s)
  {
    hide Valid, Held, Move, CanMove, ScopeCurrent, EntityOf, Opened, Closed, Replay;
    var held := Held(s.memberships, absorbed);
    ValidOrder(s);
    ValidOrder(s1);
    MoveOpenedNow(s.memberships, held, absorbed, survivor, rev);
    ReplayAfterMove(s, held, survivor, rev);
    assert s1.decisions[..|s1.decisions| - 1] == s.decisions;
    ReplayAfterOpen(s1, m, e);
    MoreThanOne({survivor} + {e}, survivor, e);
  }

  lemma ValidOrder(s: Tables)
    requires Valid(s)
    ensures DecisionsInOrder(s.decisions, s.head)
  {
  }
}
