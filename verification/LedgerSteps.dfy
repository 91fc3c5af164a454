/** Each write to the identity tables, from a valid store to a valid store. */
module LedgerSteps {
  import opened Common
  import opened Lineage
  import opened Store
  import opened LedgerInvariant

  lemma ReplayNext(ms: set<Membership>, ms': set<Membership>, ds: seq<Decision>, d: Decision, head: nat)
    requires DecisionsInOrder(ds, head) && head < d.resultRevision
    requires forall r: nat :: r <= head ==> Opened(ms', r) == Opened(ms, r) && Closed(ms', r) == Closed(ms, r)
    ensures Replay(ms', ds + [d])
            == ReplayStep(Replay(ms, ds), d.kind, Opened(ms', d.resultRevision), Closed(ms', d.resultRevision))
    ensures DecisionsInOrder(ds + [d], d.resultRevision)
  {
    ReplayFrame(ms, ms', ds);
    assert (ds + [d])[..|ds + [d]| - 1] == ds;
  }

  /** A rebuild on a forest succeeds, and its map answers what the lineage answers. */
  lemma RebuildAnswers(s: Tables)
    requires LineageMatches(s.memberships, LineageOf(s))
    requires EverHeld(s.memberships) <= s.entities
    ensures Rebuild(s).Ok?
    ensures MapCurrent(Rebuild(s).value.canonical, LineageOf(s))
  {
    var parent := LineageOf(s);
    ForestIffResolves(parent);
    var canonical := Rebuild(s).value.canonical;
    forall e ensures Lookup(canonical, e) == Root(parent, e) {
      RootStep(parent, e);
    }
  }

  lemma EverHeldInRange(s: Tables)
    requires RowsInRange(s.memberships, s.head, s.entities)
    ensures EverHeld(s.memberships) <= s.entities
  {
  }

  lemma AnchorsSurvive(s: Tables, s': Tables)
    requires ClaimsAnchored(s)
    requires s'.claims == s.claims
    requires forall r :: r in s.memberships ==> EverIn(s'.memberships, r.mention, r.entity)
    ensures ClaimsAnchored(s')
  {
    forall id | id in s'.claims
      ensures var c := s'.claims[id];
        && (c.subjectMention.Some? ==> EverIn(s'.memberships, c.subjectMention.value, c.subjectId))
        && (c.objectMention.Some? ==>
              c.objectId.Some? && EverIn(s'.memberships, c.objectMention.value, c.objectId.value))
    {
      var c := s.claims[id];
      assert c.subjectMention.Some? ==> EverIn(s.memberships, c.subjectMention.value, c.subjectId);
      assert c.objectMention.Some? ==>
          c.objectId.Some? && EverIn(s.memberships, c.objectMention.value, c.objectId.value);
    }
  }

  // ------------------------------------------- mentions moving at a revision

  lemma CanMoveNow(s: Tables, mentions: set<Id>, source: Id, target: Id, rev: nat)
    requires Valid(s) && s.head < rev
    requires mentions != {} && mentions <= Held(s.memberships, source) && source != target
    ensures CanMove(s.memberships, mentions, source, target, rev)
  {
  }

  lemma MoveSound(s: Tables, mentions: set<Id>, source: Id, target: Id, s': Tables)
    requires RowsSound(s) && s.head < s'.head
    requires mentions != {} && mentions <= Held(s.memberships, source) && source != target
    requires s'.memberships == Move(s.memberships, mentions, target, s'.head)
    requires s'.entities == s.entities + {target}
    ensures CanMove(s.memberships, mentions, source, target, s'.head)
    ensures RowsSound(s')
  {
    hide Held, Move, Exclusive, HandedOver;
    MoveHandedOver(s.memberships, mentions, target, s'.head);
    MoveExclusive(s.memberships, mentions, source, target, s'.head);
    forall r | r in s'.memberships
      ensures r.openedAt <= s'.head && r.entity in s'.entities
      ensures r.closedAt.Some? ==> r.openedAt < r.closedAt.value <= s'.head
    {
      var q := MoveOrigin(s.memberships, mentions, target, s'.head, r);
    }
  }

  lemma MovedTables(s: Tables, d: Decision, mentions: set<Id>, source: Id, target: Id)
    requires Valid(s) && s.head < d.resultRevision
    requires mentions != {} && mentions <= Held(s.memberships, source) && source != target
    ensures var s' := Moved(s, d, mentions, target);
      && RowsInRange(s'.memberships, s'.head, s'.entities)
      && Tiled(s'.memberships)
      && DecisionsInOrder(s'.decisions, s'.head)
      && ClaimsAnchored(s')
      && LineageOf(s') == ReplayStep(LineageOf(s), d.kind, {target}, {source})
      && MergedAt(s'.memberships, s'.head, source, target)
  {
    var rev := d.resultRevision;
    var ms := s.memberships;
    var s' := Moved(s, d, mentions, target);
    MoveSound(s, mentions, source, target, s');
    MoveOpenedNow(ms, mentions, source, target, rev);
    forall r: nat | r <= s.head
      ensures Opened(s'.memberships, r) == Opened(ms, r) && Closed(s'.memberships, r) == Closed(ms, r)
    {
      MoveKeepsPast(ms, mentions, target, rev, r);
    }
    ReplayNext(ms, s'.memberships, s.decisions, d, s.head);
    forall r | r in ms ensures EverIn(s'.memberships, r.mention, r.entity) {
      MoveKeeps(ms, mentions, target, rev, r);
    }
    AnchorsSurvive(s, s');
  }

  lemma MergeStep(parent: Parent, source: Id, target: Id)
    requires source != target
    ensures ReplayStep(parent, Confirm, {target}, {source}) == parent[source := target]
  {
    var gained := {target};
    var winner :| winner in gained && ReplayStep(parent, Confirm, gained, {source})
                                     == parent + map l | l in {source} - gained :: winner;
    assert winner == target;
  }

  lemma MergeKeepsMatch(ms: set<Membership>, ms': set<Membership>, parent: Parent, source: Id, target: Id)
    requires LineageMatches(ms, parent) && source != target
    requires Held(ms, source) != {} && Held(ms, target) != {}
    requires source in EverHeld(ms) && target in EverHeld(ms)
    requires EverHeld(ms') == EverHeld(ms)
    requires Held(ms', source) == {} && Held(ms', target) != {}
    requires forall e :: e != source && e != target ==> Held(ms', e) == Held(ms, e)
    ensures LineageMatches(ms', parent[source := target])
  {
    LinkKeepsForest(parent, source, target);
  }

  lemma SplitKeepsMatch(ms: set<Membership>, ms': set<Membership>, parent: Parent, source: Id, target: Id)
    requires LineageMatches(ms, parent) && source != target
    requires source in EverHeld(ms) && Held(ms, source) != {}
    requires EverHeld(ms') == EverHeld(ms) + {target}
    requires Held(ms', source) != {} && Held(ms', target) != {}
    requires forall e :: e != source && e != target ==> Held(ms', e) == Held(ms, e)
    ensures LineageMatches(ms', parent - {target})
  {
    CutKeepsForest(parent, {target});
  }

  /** All of an entity's mentions move onto another root: one link is added. */
  lemma MergeMatches(s: Tables, d: Decision, source: Id, target: Id)
    requires Valid(s) && s.head < d.resultRevision && d.kind == Confirm
    requires source != target
    requires Held(s.memberships, source) != {} && Held(s.memberships, target) != {}
    ensures var s' := Moved(s, d, Held(s.memberships, source), target);
      && LineageOf(s') == LineageOf(s)[source := target]
      && LineageMatches(s'.memberships, LineageOf(s'))
  {
    hide Held, EverHeld, Move, Exclusive, HandedOver, ClaimsAnchored, RowsInRange, MapCurrent, Replay, ReplayStep;
    var mentions := Held(s.memberships, source);
    var s' := Moved(s, d, mentions, target);
    MovedTables(s, d, mentions, source, target);
    MoveSummary(s, mentions, source, target, d.resultRevision, s'.memberships);
    HolderIsRoot(s, source);
    HolderIsRoot(s, target);
    MergeStep(LineageOf(s), source, target);
    MergeKeepsMatch(s.memberships, s'.memberships, LineageOf(s), source, target);
  }

  lemma MergeHead(s: Tables, d: Decision, source: Id, target: Id)
    requires Valid(s) && s.head < d.resultRevision && d.kind == Confirm
    requires source != target
    requires Held(s.memberships, source) != {} && Held(s.memberships, target) != {}
    ensures HeadMerge(Moved(s, d, Held(s.memberships, source), target))
  {
    var mentions := Held(s.memberships, source);
    var s' := Moved(s, d, mentions, target);
    MovedTables(s, d, mentions, source, target);
    MergeStep(LineageOf(s), source, target);
    HolderIsRoot(s, source);
    assert s'.decisions[..|s'.decisions| - 1] == s.decisions;
    ReplayAfterMove(s, mentions, target, d.resultRevision);
    assert MergedAt(s'.memberships, s'.head, source, target);
  }

  lemma ReplayAfterMove(s: Tables, mentions: set<Id>, target: Id, rev: nat)
    requires DecisionsInOrder(s.decisions, s.head) && s.head < rev
    ensures Replay(Move(s.memberships, mentions, target, rev), s.decisions) == LineageOf(s)
  {
    var ms' := Move(s.memberships, mentions, target, rev);
    forall i | 0 <= i < |s.decisions|
      ensures Opened(s.memberships, s.decisions[i].resultRevision) == Opened(ms', s.decisions[i].resultRevision)
      ensures Closed(s.memberships, s.decisions[i].resultRevision) == Closed(ms', s.decisions[i].resultRevision)
    {
      MoveKeepsPast(s.memberships, mentions, target, rev, s.decisions[i].resultRevision);
    }
    ReplayFrame(s.memberships, ms', s.decisions);
  }

  lemma MoveSummary(s: Tables, mentions: set<Id>, source: Id, target: Id, rev: nat, ms': set<Membership>)
    requires Valid(s) && s.head < rev
    requires mentions != {} && mentions <= Held(s.memberships, source) && source != target
    requires ms' == Move(s.memberships, mentions, target, rev)
    ensures Held(ms', source) == Held(s.memberships, source) - mentions
    ensures Held(ms', target) == Held(s.memberships, target) + mentions
    ensures forall e :: e != source && e != target ==> Held(ms', e) == Held(s.memberships, e)
    ensures EverHeld(ms') == EverHeld(s.memberships) + {target}
  {
    CanMoveNow(s, mentions, source, target, rev);
    MoveEverHeld(s.memberships, mentions, source, target, rev);
    MoveHeld(s.memberships, mentions, source, target, rev, source);
    MoveHeld(s.memberships, mentions, source, target, rev, target);
    forall e | e != source && e != target ensures Held(ms', e) == Held(s.memberships, e) {
      MoveHeld(s.memberships, mentions, source, target, rev, e);
    }
  }

  lemma HolderIsRoot(s: Tables, e: Id)
    requires Valid(s) && Held(s.memberships, e) != {}
    ensures e in EverHeld(s.memberships) && e !in LineageOf(s)
  {
    var m :| m in Held(s.memberships, e);
  }

  /** Some of an entity's mentions move onto any entity: that entity stands on its own. */
  lemma SplitMatches(s: Tables, d: Decision, mentions: set<Id>, source: Id, target: Id)
    requires Valid(s) && s.head < d.resultRevision && d.kind == Split
    requires source != target
    requires mentions != {} && mentions < Held(s.memberships, source)
    ensures var s' := Moved(s, d, mentions, target);
      && LineageOf(s') == LineageOf(s) - {target}
      && LineageMatches(s'.memberships, LineageOf(s'))
  {
    hide Held, EverHeld, Move;
    var s' := Moved(s, d, mentions, target);
    assert LineageOf(s') == LineageOf(s) - {target} by {
      MovedTables(s, d, mentions, source, target);
    }
    MoveSummary(s, mentions, source, target, d.resultRevision, s'.memberships);
    var stays :| stays in Held(s.memberships, source) && stays !in mentions;
    var moves :| moves in mentions;
    assert stays in Held(s'.memberships, source) && moves in Held(s'.memberships, target);
    HolderIsRoot(s, source);
    SplitKeepsMatch(s.memberships, s'.memberships, LineageOf(s), source, target);
  }

  // ---------------------------------------------------------------- decisions

  /** A decision that moves nothing leaves the lineage as it was. */
  lemma QuietDecision(s: Tables, d: Decision, s': Tables)
    requires Valid(s) && s.head < d.resultRevision
    requires d.kind.Reject? || d.kind.Unresolved? || d.kind.Split?
    requires s' == s.(head := d.resultRevision, decisions := s.decisions + [d],
                      constraints := s'.constraints, candidates := s'.candidates)
    ensures LineageOf(s') == LineageOf(s)
    ensures Valid(s')
  {
    hide Held, EverHeld, Exclusive, HandedOver, LineageMatches, MapCurrent;
    ReplayNext(s.memberships, s.memberships, s.decisions, d, s.head);
    assert Opened(s.memberships, d.resultRevision) == {};
    AnchorsSurvive(s, s');
  }

  /** The same tables up to the canonical map and the tombstones. */
  ghost predicate SameButMap(s: Tables, s': Tables) {
    s == s'.(canonical := s.canonical, tombstoned := s.tombstoned)
  }

  /** A rebuild changes only the map and the tombstones. */
  lemma RebuildKeeps(s: Tables)
    requires LineageMatches(s.memberships, LineageOf(s))
    requires RowsInRange(s.memberships, s.head, s.entities)
    ensures Rebuild(s).Ok?
    ensures var r := Rebuild(s).value;
      && SameButMap(r, s)
      && r.canonical.Keys == s.entities && r.tombstoned <= s.entities
      && LineageOf(r) == LineageOf(s)
      && MapCurrent(r.canonical, LineageOf(r))
      && (HeadMerge(s) ==> HeadMerge(r))
  {
    EverHeldInRange(s);
    RebuildAnswers(s);
  }

  /** The two entities a confirm of `a` and `b` would merge. */
  ghost predicate ConfirmPair(s: Tables, a: Id, b: Id, survivor: Id, absorbed: Id) {
    && EntityOf(s.memberships, a) == Some(survivor)
    && EntityOf(s.memberships, b) == Some(absorbed)
    && survivor != absorbed
  }

  lemma ScopeOfPair(ms: set<Membership>, a: Id, b: Id)
    requires Exclusive(ms)
    ensures forall x :: x in EntitiesOf(ms, {a, b}) <==> EntityOf(ms, a) == Some(x) || EntityOf(ms, b) == Some(x)
    ensures |EntitiesOf(ms, {a, b})| >= 2
      <==> EntityOf(ms, a).Some? && EntityOf(ms, b).Some? && EntityOf(ms, a) != EntityOf(ms, b)
  {
    var scope := EntitiesOf(ms, {a, b});
    forall x ensures x in scope <==> EntityOf(ms, a) == Some(x) || EntityOf(ms, b) == Some(x) {
      EntityOfRow(ms, a, x);
      EntityOfRow(ms, b, x);
      if x in scope {
        var r :| r in ms && r.Active() && r.mention in {a, b} && r.entity == x;
        assert r.mention in Held(ms, x);
      }
      if a in Held(ms, x) {
        var r :| r in ms && r.Active() && r.entity == x && r.mention == a;
        assert r.entity in scope;
      }
      if b in Held(ms, x) {
        var r :| r in ms && r.Active() && r.entity == x && r.mention == b;
        assert r.entity in scope;
      }
    }
    var found := (if EntityOf(ms, a).Some? then {EntityOf(ms, a).value} else {})
               + (if EntityOf(ms, b).Some? then {EntityOf(ms, b).value} else {});
    assert scope == found;
  }

  /** An accepted confirm merges exactly two roots, at the new revision. */
  ghost predicate Merges(s: Tables, s': Tables, a: Id, b: Id, survivor: Id, absorbed: Id, rev: nat) {
    && ConfirmPair(s, a, b, survivor, absorbed)
    && a in Held(s.memberships, survivor) && b in Held(s.memberships, absorbed)
    && survivor !in LineageOf(s) && absorbed !in LineageOf(s)
    && CanMove(s.memberships, Held(s.memberships, absorbed), absorbed, survivor, rev)
    && s'.memberships == Move(s.memberships, Held(s.memberships, absorbed), survivor, rev)
    && LineageOf(s') == LineageOf(s)[absorbed := survivor]
    && s'.head == rev && s'.entities == s.entities && s'.claims == s.claims
    && (exists d :: s'.decisions == s.decisions + [d] && d.kind == Confirm && d.resultRevision == rev)
  }

  /** The store after a confirm, up to the settled candidate. */
  lemma ConfirmRebuild(s: Tables, d: Decision, candidates: map<Id, Candidate>, survivor: Id, absorbed: Id)
    requires Valid(s) && s.head < d.resultRevision && d.kind == Confirm
    requires survivor != absorbed
    requires Held(s.memberships, survivor) != {} && Held(s.memberships, absorbed) != {}
    ensures var r := Rebuild(Moved(s, d, Held(s.memberships, absorbed), survivor)
                             .(candidates := candidates));
      && r.Ok? && Valid(r.value)
      && SameButMap(r.value, Moved(s, d, Held(s.memberships, absorbed), survivor).(candidates := candidates))
      && LineageOf(r.value) == LineageOf(s)[absorbed := survivor]
  {
    hide Held, EverHeld, Move, Resolve, Replay;
    var held := Held(s.memberships, absorbed);
    var s1 := Moved(s, d, held, survivor);
    var s2 := s1.(candidates := candidates);
    MovedTables(s, d, held, absorbed, survivor);
    MergeMatches(s, d, absorbed, survivor);
    MergeHead(s, d, absorbed, survivor);
    assert LineageOf(s2) == LineageOf(s1);
    RebuildKeeps(s2);
    AnchorsSurvive(s1, Rebuild(s2).value);
  }

  lemma ConfirmPairFound(s: Tables, a: Id, b: Id) returns (survivor: Id, absorbed: Id)
    requires Valid(s)
    requires |EntitiesOf(s.memberships, {a, b})| >= 2
    ensures ConfirmPair(s, a, b, survivor, absorbed)
    ensures EntitiesOf(s.memberships, {a, b}) == {survivor, absorbed}
    ensures a in Held(s.memberships, survivor) && b in Held(s.memberships, absorbed)
    ensures survivor !in LineageOf(s) && absorbed !in LineageOf(s)
    ensures survivor in s.entities && absorbed in s.entities
  {
    ScopeOfPair(s.memberships, a, b);
    survivor, absorbed := EntityOf(s.memberships, a).value, EntityOf(s.memberships, b).value;
    EntityOfRow(s.memberships, a, survivor);
    EntityOfRow(s.memberships, b, absorbed);
    HolderIsRoot(s, survivor);
    HolderIsRoot(s, absorbed);
    EverHeldInRange(s);
  }

  lemma ConfirmValid(s: Tables, parentRevision: nat, a: Id, b: Id, candidate: Option<Id>, rev: nat)
    returns (survivor: Id, absorbed: Id)
    requires Valid(s) && s.head < rev
    ensures var r := ConfirmMatch(s, parentRevision, a, b, candidate, rev);
      && r != Err(CorruptLineage) && r != Err(UnresolvedMention)
      && (r.Ok? <==>
            && |EntitiesOf(s.memberships, {a, b})| >= 2
            && ScopeCurrent(s.memberships, parentRevision, EntitiesOf(s.memberships, {a, b}))
            && Settle(s.candidates, candidate, Confirmed, rev).Ok?)
      && (r.Ok? ==>
            && Settle(s.candidates, candidate, Confirmed, rev) == Ok(r.value.tables.candidates)
            && Valid(r.value.tables)
            && Merges(s, r.value.tables, a, b, survivor, absorbed, rev)
            && ScopeCurrent(s.memberships, parentRevision, {survivor, absorbed})
            && r.value.moved == Ids(Held(s.memberships, absorbed))
            && r.value.survivor == Some(survivor))
  {
    hide Held, Move, Resolve, Valid, Rebuild, EntityOf, EntitiesOf, ScopeCurrent, CanMove, LineageOf, MovedMentions,
      Ids, Exclusive;
    survivor, absorbed := "", "";
    var candidates := Settle(s.candidates, candidate, Confirmed, rev);
    if |EntitiesOf(s.memberships, {a, b})| >= 2 {
      survivor, absorbed := ConfirmPairFound(s, a, b);
      if candidates.Ok? {
        var held := Held(s.memberships, absorbed);
        var d := Decision(Confirm, parentRevision, rev, candidate, {a, b});
        ConfirmRebuild(s, d, candidates.value, survivor, absorbed);
        CanMoveNow(s, held, absorbed, survivor, rev);
        MovingRows(s.memberships, held, absorbed, survivor, rev);
        assert s.entities + {survivor} == s.entities;
      }
    }
  }

  /** The store after a split, up to the rebuild. */
  lemma SplitRebuild(s: Tables, d: Decision, mentions: set<Id>, e: Id, to: Id)
    requires Valid(s) && s.head < d.resultRevision && d.kind == Split
    requires mentions != {} && mentions < Held(s.memberships, e)
    ensures var r := Rebuild(Moved(s, d, mentions, to));
      && r.Ok? && Valid(r.value)
      && SameButMap(r.value, Moved(s, d, mentions, to))
      && (e != to ==> LineageOf(r.value) == LineageOf(s) - {to})
      && (e == to ==> r.value.memberships == s.memberships && LineageOf(r.value) == LineageOf(s))
  {
    hide Held, EverHeld, Move, Replay, ReplayStep, Rebuild, Exclusive, HandedOver, LineageMatches, MapCurrent, Forest;
    var s1 := Moved(s, d, mentions, to);
    if e == to {
      MoveNothing(s.memberships, mentions, e, d.resultRevision);
      HolderInStore(s, e);
      assert s.entities + {e} == s.entities;
      QuietDecision(s, d, s1);
    } else {
      MovedTables(s, d, mentions, e, to);
      SplitMatches(s, d, mentions, e, to);
    }
    RebuildKeeps(s1);
    AnchorsSurvive(s1, Rebuild(s1).value);
  }

  lemma SplitValid(s: Tables, parentRevision: nat, e: Id, mentions: set<Id>, target: Option<Id>, newId: Id, rev: nat)
    requires Valid(s) && s.head < rev
    ensures var r := SplitEntity(s, parentRevision, e, mentions, target, newId, rev);
      var to := Target(target, newId);
      && r != Err(CorruptLineage)
      && (r.Ok? ==>
            && Valid(r.value.tables)
            && mentions != {} && mentions < Held(s.memberships, e)
            && ScopeCurrent(s.memberships, parentRevision, {e})
            && r.value.tables.memberships == Move(s.memberships, mentions, to, rev)
            && r.value.tables.head == rev && r.value.tables.claims == s.claims
            && r.value.tables.entities == s.entities + {to} && r.value.tables.candidates == s.candidates
            && r.value.tables.decisions == s.decisions + [Decision(Split, parentRevision, rev, None, mentions)]
            && r.value.unattributable == Ids(UnattributableClaims(s.claims, s.canonical, e))
            && LineageOf(r.value.tables) == (if e == to then LineageOf(s) else LineageOf(s) - {to}))
  {
    var r := SplitEntity(s, parentRevision, e, mentions, target, newId, rev);
    if r.Ok? || r == Err(CorruptLineage) {
      var to := Target(target, newId);
      var d := Decision(Split, parentRevision, rev, None, mentions);
      SplitRebuild(s, d, mentions, e, to);
    }
  }

  lemma HolderInStore(s: Tables, e: Id)
    requires Valid(s) && Held(s.memberships, e) != {}
    ensures e in s.entities
  {
    HolderIsRoot(s, e);
    EverHeldInRange(s);
  }

  /** Mentions moved onto the entity that already holds them stay where they are. */
  lemma MoveNothing(ms: set<Membership>, mentions: set<Id>, e: Id, rev: nat)
    requires Exclusive(ms) && mentions <= Held(ms, e)
    ensures Move(ms, mentions, e, rev) == ms
    ensures MovedMentions(ms, mentions, e) == {}
  {
    forall r | r in ms && r.Active() && r.mention in mentions ensures r.entity == e {
      var q :| q in ms && q.Active() && q.entity == e && q.mention == r.mention;
      assert IsActiveRow(ms, r.mention, r) && IsActiveRow(ms, r.mention, q);
      OneActiveRow(ms, r.mention, r, q);
    }
    assert Moving(ms, mentions, e) == {};
  }
}
