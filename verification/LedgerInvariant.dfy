/** What every write to the identity tables keeps, and why. */
module LedgerInvariant {
  import opened Common
  import opened Lineage
  import opened Store

  // ------------------------------------------------------------- memberships

  ghost predicate RowsInRange(ms: set<Membership>, head: nat, entities: set<Id>) {
    forall r :: r in ms ==>
      r.openedAt <= head && r.entity in entities &&
      (r.closedAt.Some? ==> r.openedAt < r.closedAt.value <= head)
  }

  predicate EndsBy(r: Membership, q: Membership) {
    r.closedAt.Some? && r.closedAt.value <= q.openedAt
  }

  /** Two rows of one mention are never in force at the same revision. */
  ghost predicate Exclusive(ms: set<Membership>) {
    forall r, q :: r in ms && q in ms && r.mention == q.mention && r != q ==> EndsBy(r, q) || EndsBy(q, r)
  }

  predicate TakesOver(q: Membership, r: Membership) {
    q.mention == r.mention && r.closedAt == Some(q.openedAt) && q.entity != r.entity
  }

  /** A closed row is continued by a row on another entity, opened at the closing revision. */
  ghost predicate HandedOver(ms: set<Membership>) {
    forall r {:trigger Continued(ms, r)} :: r in ms && r.closedAt.Some? ==> Continued(ms, r)
  }

  ghost predicate Continued(ms: set<Membership>, r: Membership) {
    exists q :: q in ms && TakesOver(q, r)
  }

  ghost predicate Tiled(ms: set<Membership>) { Exclusive(ms) && HandedOver(ms) }

  // ----------------------------------------------------------------- lineage

  ghost predicate DecisionsInOrder(ds: seq<Decision>, head: nat) {
    && (forall i :: 0 <= i < |ds| ==> 0 < ds[i].resultRevision <= head)
    && (forall i, j :: 0 <= i < j < |ds| ==> ds[i].resultRevision < ds[j].resultRevision)
  }

  /** Roots among the entities that ever held a mention are exactly those that hold one. */
  ghost predicate LineageMatches(ms: set<Membership>, parent: Parent) {
    && Forest(parent)
    && (forall e :: e in parent ==> e in EverHeld(ms) && parent[e] in EverHeld(ms))
    && (forall e :: e in EverHeld(ms) ==> (e !in parent <==> Held(ms, e) != {}))
  }

  ghost predicate MapCurrent(canonical: map<Id, Id>, parent: Parent) {
    Forest(parent) && forall e :: Lookup(canonical, e) == Root(parent, e)
  }

  ghost function LastDecision(s: Tables): Option<Decision> {
    if s.decisions != [] && s.decisions[|s.decisions| - 1].resultRevision == s.head
    then Some(s.decisions[|s.decisions| - 1]) else None
  }

  /** The revision `rev` merged entity `a` into entity `w`. */
  ghost predicate MergedAt(ms: set<Membership>, rev: nat, a: Id, w: Id) {
    a != w && Opened(ms, rev) == {w} && Closed(ms, rev) == {a}
  }

  /** When the head revision is a merge, it is one entity absorbed by one other. */
  ghost predicate HeadMerge(s: Tables) {
    LastDecision(s).Some? && Merging(LastDecision(s).value.kind) ==>
      exists a, w ::
        && MergedAt(s.memberships, s.head, a, w)
        && a !in Replay(s.memberships, s.decisions[..|s.decisions| - 1])
        && LineageOf(s) == Replay(s.memberships, s.decisions[..|s.decisions| - 1])[a := w]
  }

  ghost predicate ClaimsAnchored(s: Tables) {
    forall id :: id in s.claims ==>
      var c := s.claims[id];
      && (c.subjectMention.Some? ==> EverIn(s.memberships, c.subjectMention.value, c.subjectId))
      && (c.objectMention.Some? ==>
            c.objectId.Some? && EverIn(s.memberships, c.objectMention.value, c.objectId.value))
  }

  /** The ledger has at some revision recorded that `m` names `e`. */
  ghost predicate EverIn(ms: set<Membership>, m: Id, e: Id) {
    exists r :: r in ms && r.mention == m && r.entity == e
  }

  /** The part of the invariant that concerns the rows alone. */
  ghost predicate RowsSound(s: Tables) {
    RowsInRange(s.memberships, s.head, s.entities) && Tiled(s.memberships)
  }

  ghost predicate Valid(s: Tables) {
    && RowsInRange(s.memberships, s.head, s.entities)
    && Tiled(s.memberships)
    && DecisionsInOrder(s.decisions, s.head)
    && LineageMatches(s.memberships, LineageOf(s))
    && MapCurrent(s.canonical, LineageOf(s))
    && HeadMerge(s)
    && ClaimsAnchored(s)
    && s.tombstoned <= s.entities
  }

  // --------------------------------------------------------- lookups and sets

  /** The partial unique index: at most one active membership per mention. */
  ghost predicate OneActive(ms: set<Membership>) {
    forall r, q :: r in ms && q in ms && r.Active() && q.Active() && r.mention == q.mention ==> r == q
  }

  lemma OneActiveRow(ms: set<Membership>, m: Id, r: Membership, q: Membership)
    requires OneActive(ms)
    requires IsActiveRow(ms, m, r) && IsActiveRow(ms, m, q)
    ensures r == q
  {
  }

  lemma ActiveHasOwner(ms: set<Membership>, r: Membership)
    requires r in ms && r.Active()
    ensures EntityOf(ms, r.mention).Some?
  {
    assert IsActiveRow(ms, r.mention, r);
  }

  lemma EntityOfActive(ms: set<Membership>, m: Id, e: Id)
    requires OneActive(ms)
    ensures EntityOf(ms, m) == Some(e) <==> m in Held(ms, e)
  {
    if m in Held(ms, e) {
      var r :| r in ms && r.Active() && r.entity == e && r.mention == m;
      assert IsActiveRow(ms, m, r);
      var q :| IsActiveRow(ms, m, q) && EntityOf(ms, m) == Some(q.entity);
      OneActiveRow(ms, m, r, q);
    }
    if EntityOf(ms, m) == Some(e) {
      var q :| IsActiveRow(ms, m, q) && EntityOf(ms, m) == Some(q.entity);
      assert q.mention in Held(ms, e);
    }
  }

  lemma EntityOfRow(ms: set<Membership>, m: Id, e: Id)
    requires Exclusive(ms)
    ensures EntityOf(ms, m) == Some(e) <==> m in Held(ms, e)
    ensures EntityOf(ms, m) == Some(e) <==> (m, e) in Active(ms)
  {
    hide EntityOf, Held, Active;
    EntityOfActive(ms, m, e);
    HeldInActive(ms, m, e);
  }

  lemma HeldInActive(ms: set<Membership>, m: Id, e: Id)
    ensures m in Held(ms, e) <==> (m, e) in Active(ms)
  {
    if m in Held(ms, e) {
      var r :| r in ms && r.Active() && r.entity == e && r.mention == m;
      assert (r.mention, r.entity) in Active(ms);
    }
  }

  /** Replay reads only the rows opened or closed at its decisions' revisions. */
  lemma {:induction false} ReplayFrame(ms: set<Membership>, ms': set<Membership>, ds: seq<Decision>)
    requires forall i :: 0 <= i < |ds| ==>
      Opened(ms, ds[i].resultRevision) == Opened(ms', ds[i].resultRevision)
      && Closed(ms, ds[i].resultRevision) == Closed(ms', ds[i].resultRevision)
    ensures Replay(ms, ds) == Replay(ms', ds)
  {
    if ds == [] {
    } else {
      ReplayFrame(ms, ms', ds[..|ds| - 1]);
    }
  }

  // ----------------------------------------------------------- moving mentions

  /** `mentions` are held by `source` and can leave it for `target`. */
  ghost predicate Detachable(ms: set<Membership>, mentions: set<Id>, source: Id, target: Id) {
    OneActive(ms) && mentions <= Held(ms, source) && source != target
  }

  /** `mentions` leave `source` for `target` at a revision later than any row names. */
  ghost predicate CanMove(ms: set<Membership>, mentions: set<Id>, source: Id, target: Id, rev: nat) {
    && Exclusive(ms)
    && mentions != {} && mentions <= Held(ms, source)
    && source != target
    && (forall r :: r in ms ==> r.openedAt < rev && (r.closedAt.Some? ==> r.closedAt.value < rev))
  }

  lemma DetachedRows(ms: set<Membership>, mentions: set<Id>, source: Id, target: Id)
    requires Detachable(ms, mentions, source, target)
    ensures forall r :: r in Moving(ms, mentions, target) <==>
      r in ms && r.Active() && r.entity == source && r.mention in mentions
    ensures MovedMentions(ms, mentions, target) == mentions
  {
    forall r | r in ms && r.Active() && r.mention in mentions ensures r.entity == source {
      var q :| q in ms && q.Active() && q.entity == source && q.mention == r.mention;
      assert IsActiveRow(ms, r.mention, r) && IsActiveRow(ms, r.mention, q);
      OneActiveRow(ms, r.mention, r, q);
    }
    forall m | m in mentions ensures m in MovedMentions(ms, mentions, target) {
      var q :| q in ms && q.Active() && q.entity == source && q.mention == m;
      assert q in Moving(ms, mentions, target);
    }
  }

  lemma MovingRows(ms: set<Membership>, mentions: set<Id>, source: Id, target: Id, rev: nat)
    requires CanMove(ms, mentions, source, target, rev)
    ensures forall r :: r in Moving(ms, mentions, target) <==>
      r in ms && r.Active() && r.entity == source && r.mention in mentions
    ensures MovedMentions(ms, mentions, target) == mentions
  {
    DetachedRows(ms, mentions, source, target);
  }

  lemma MoveHeld(ms: set<Membership>, mentions: set<Id>, source: Id, target: Id, rev: nat, e: Id)
    requires CanMove(ms, mentions, source, target, rev)
    ensures Held(Move(ms, mentions, target, rev), e)
            == if e == target then Held(ms, target) + mentions
               else if e == source then Held(ms, source) - mentions
               else Held(ms, e)
  {
    hide Held;
    DetachedHeld(ms, mentions, source, target, rev, e);
  }

  /** Who holds what after a move, whatever the revision. */
  lemma DetachedHeld(ms: set<Membership>, mentions: set<Id>, source: Id, target: Id, rev: nat, e: Id)
    requires Detachable(ms, mentions, source, target)
    ensures Held(Move(ms, mentions, target, rev), e)
            == if e == target then Held(ms, target) + mentions
               else if e == source then Held(ms, source) - mentions
               else Held(ms, e)
  {
    var ms' := Move(ms, mentions, target, rev);
    forall m ensures m in Held(ms', e)
      <==> if e == target then m in Held(ms, target) + mentions
           else if e == source then m in Held(ms, source) - mentions
           else m in Held(ms, e)
    {
      DetachedHeldOne(ms, mentions, source, target, rev, e, m);
    }
  }

  lemma DetachedHeldOne(ms: set<Membership>, mentions: set<Id>, source: Id, target: Id, rev: nat, e: Id, m: Id)
    requires Detachable(ms, mentions, source, target)
    ensures m in Held(Move(ms, mentions, target, rev), e)
      <==> if e == target then m in Held(ms, target) + mentions
           else if e == source then m in Held(ms, source) - mentions
           else m in Held(ms, e)
  {
    hide Move, OneActive;
    DetachedRows(ms, mentions, source, target);
    var ms' := Move(ms, mentions, target, rev);
    if m in Held(ms', e) {
      var r :| r in ms' && r.Active() && r.entity == e && r.mention == m;
      var q := MoveOrigin(ms, mentions, target, rev, r);
    }
    if m in mentions {
      var q :| q in ms && q.Active() && q.entity == source && q.mention == m;
      MoveKeeps(ms, mentions, target, rev, q);
      assert Membership(m, target, rev, None) in ms';
    } else if m in Held(ms, e) {
      var q :| q in ms && q.Active() && q.entity == e && q.mention == m;
      MoveKeeps(ms, mentions, target, rev, q);
    }
  }

  /** Where an old row is found after a move. */
  function After(r: Membership, mentions: set<Id>, target: Id, rev: nat): Membership {
    if r.Active() && r.mention in mentions && r.entity != target then r.(closedAt := Some(rev)) else r
  }

  lemma MoveKeeps(ms: set<Membership>, mentions: set<Id>, target: Id, rev: nat, r: Membership)
    requires r in ms
    ensures After(r, mentions, target, rev) in Move(ms, mentions, target, rev)
    ensures r in Moving(ms, mentions, target)
      ==> Membership(r.mention, target, rev, None) in Move(ms, mentions, target, rev)
  {
  }

  /** Every row after a move is an old row, or the continuation of one it closed. */
  lemma MoveOrigin(ms: set<Membership>, mentions: set<Id>, target: Id, rev: nat, r: Membership)
    returns (q: Membership)
    requires r in Move(ms, mentions, target, rev)
    ensures q in ms && q.mention == r.mention
    ensures r == After(q, mentions, target, rev)
      || (q in Moving(ms, mentions, target) && r == Membership(q.mention, target, rev, None))
  {
    var gone := Moving(ms, mentions, target);
    if g :| g in gone && (r == g.(closedAt := Some(rev)) || r == Membership(g.mention, target, rev, None)) {
      q := g;
    } else {
      q := r;
    }
  }

  lemma MoveOpenedNow(ms: set<Membership>, mentions: set<Id>, source: Id, target: Id, rev: nat)
    requires CanMove(ms, mentions, source, target, rev)
    ensures Opened(Move(ms, mentions, target, rev), rev) == {target}
    ensures Closed(Move(ms, mentions, target, rev), rev) == {source}
  {
    hide Move, Exclusive;
    MovingRows(ms, mentions, source, target, rev);
    var ms' := Move(ms, mentions, target, rev);
    var m :| m in mentions;
    assert m in MovedMentions(ms, mentions, target);
    var moved :| moved in Moving(ms, mentions, target) && moved.mention == m;
    MoveKeeps(ms, mentions, target, rev, moved);
    assert target in Opened(ms', rev) && source in Closed(ms', rev);
    forall r | r in ms'
      ensures r.openedAt == rev ==> r.entity == target
      ensures r.closedAt == Some(rev) ==> r.entity == source
    {
      var q := MoveOrigin(ms, mentions, target, rev, r);
    }
  }

  lemma MoveKeepsPast(ms: set<Membership>, mentions: set<Id>, target: Id, rev: nat, r: nat)
    requires r < rev
    ensures Opened(Move(ms, mentions, target, rev), r) == Opened(ms, r)
    ensures Closed(Move(ms, mentions, target, rev), r) == Closed(ms, r)
  {
    var ms' := Move(ms, mentions, target, rev);
    forall row | row in ms
      ensures row.openedAt == r ==> row.entity in Opened(ms', r)
      ensures row.closedAt == Some(r) ==> row.entity in Closed(ms', r)
    {
      MoveKeeps(ms, mentions, target, rev, row);
    }
    forall row | row in ms'
      ensures row.openedAt == r ==> row.entity in Opened(ms, r)
      ensures row.closedAt == Some(r) ==> row.entity in Closed(ms, r)
    {
      var q := MoveOrigin(ms, mentions, target, rev, row);
    }
  }

  lemma MoveEverHeld(ms: set<Membership>, mentions: set<Id>, source: Id, target: Id, rev: nat)
    requires CanMove(ms, mentions, source, target, rev)
    ensures EverHeld(Move(ms, mentions, target, rev)) == EverHeld(ms) + {target}
  {
    var ms' := Move(ms, mentions, target, rev);
    MoveOpenedNow(ms, mentions, source, target, rev);
    assert target in Opened(ms', rev);
    assert target in EverHeld(ms');
    forall row | row in ms ensures row.entity in EverHeld(ms') {
      MoveKeeps(ms, mentions, target, rev, row);
    }
    forall row | row in ms' ensures row.entity in EverHeld(ms) + {target} {
      var q := MoveOrigin(ms, mentions, target, rev, row);
    }
  }

  lemma MoveHandedOver(ms: set<Membership>, mentions: set<Id>, target: Id, rev: nat)
    requires HandedOver(ms)
    ensures HandedOver(Move(ms, mentions, target, rev))
  {
    var ms' := Move(ms, mentions, target, rev);
    forall r | r in ms' && r.closedAt.Some? ensures Continued(ms', r) {
      var o := MoveOrigin(ms, mentions, target, rev, r);
      if o.closedAt.Some? {
        assert Continued(ms, o);
        var q :| q in ms && TakesOver(q, o);
        MoveKeeps(ms, mentions, target, rev, q);
        assert TakesOver(After(q, mentions, target, rev), r);
      } else {
        MoveKeeps(ms, mentions, target, rev, o);
        assert TakesOver(Membership(o.mention, target, rev, None), r);
      }
    }
  }

  lemma MoveExclusive(ms: set<Membership>, mentions: set<Id>, source: Id, target: Id, rev: nat)
    requires CanMove(ms, mentions, source, target, rev)
    ensures Exclusive(Move(ms, mentions, target, rev))
  {
    var ms' := Move(ms, mentions, target, rev);
    forall r, q | r in ms' && q in ms' && r.mention == q.mention && r != q
      ensures EndsBy(r, q) || EndsBy(q, r)
    {
      var r0 := MoveOrigin(ms, mentions, target, rev, r);
      var q0 := MoveOrigin(ms, mentions, target, rev, q);
      assert r0 == q0 || EndsBy(r0, q0) || EndsBy(q0, r0);
    }
  }
}
