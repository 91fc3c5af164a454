/** What the revision-keyed rows let a reader reconstruct, and what the scoped
    staleness check therefore means (aegis/er/adjudication.py:118-156). */
module LedgerHistory {
  import opened Common
  import opened Store
  import opened LedgerInvariant
  import opened LedgerSteps
  import opened LedgerOpens
  import opened LedgerRuns
  import opened LedgerRows

  // ------------------------------------------------------------- tiling

  lemma {:induction false} Covered(s: Tables, r: Membership, rev: nat) returns (q: Membership)
    requires RowsInRange(s.memberships, s.head, s.entities) && HandedOver(s.memberships)
    requires r in s.memberships && r.openedAt <= rev
    ensures q in s.memberships && q.mention == r.mention && q.HoldsAt(rev)
    decreases s.head - r.openedAt
  {
    if r.HoldsAt(rev) {
      q := r;
    } else {
      assert Continued(s.memberships, r);
      var next :| next in s.memberships && TakesOver(next, r);
      q := Covered(s, next, rev);
    }
  }

  /** From its first open onward a mention belongs to exactly one entity at every revision. */
  lemma OneEntityAtEveryRevision(s: Tables, m: Id, rev: nat)
    requires RowsSound(s)
    ensures (exists r :: r in s.memberships && r.mention == m && r.openedAt <= rev)
            <==> exists e :: (m, e) in At(s.memberships, rev)
    ensures forall e, f :: (m, e) in At(s.memberships, rev) && (m, f) in At(s.memberships, rev) ==> e == f
  {
    var ms := s.memberships;
    if r :| r in ms && r.mention == m && r.openedAt <= rev {
      var q := Covered(s, r, rev);
      assert (m, q.entity) in At(ms, rev);
    }
    if e :| (m, e) in At(ms, rev) {
      var q :| q in ms && q.HoldsAt(rev) && (q.mention, q.entity) == (m, e);
      assert q in ms && q.mention == m && q.openedAt <= rev;
    }
    forall e, f | (m, e) in At(ms, rev) && (m, f) in At(ms, rev) ensures e == f {
      OneEntityAt(ms, m, e, f, rev);
    }
  }

  lemma OneEntityAt(ms: set<Membership>, m: Id, e: Id, f: Id, rev: nat)
    requires Exclusive(ms)
    requires (m, e) in At(ms, rev) && (m, f) in At(ms, rev)
    ensures e == f
  {
    var q :| q in ms && q.HoldsAt(rev) && (q.mention, q.entity) == (m, e);
    var p :| p in ms && p.HoldsAt(rev) && (p.mention, p.entity) == (m, f);
    assert q == p || EndsBy(q, p) || EndsBy(p, q);
  }

  /** At the head and later, reconstruction gives the active memberships. */
  lemma HeadIsActive(s: Tables, rev: nat)
    requires RowsInRange(s.memberships, s.head, s.entities) && s.head <= rev
    ensures At(s.memberships, rev) == Active(s.memberships)
    ensures forall e :: HeldAt(s.memberships, e, rev) == Held(s.memberships, e)
  {
    var ms := s.memberships;
    assert forall r :: r in ms ==> (r.HoldsAt(rev) <==> r.Active());
    assert At(ms, rev) == Active(ms);
    forall e ensures HeldAt(ms, e, rev) == Held(ms, e) {
    }
  }

  // ------------------------------------------------------- history is stable

  /** What was reconstructible at a past revision stays so through every later run, well-formed
      or not, whose explicit opens name later revisions. */
  lemma HistoryIsStable(s: Tables, ops: seq<Op>, r: nat)
    requires r < s.head
    requires forall i | 0 <= i < |ops| :: OpensAfter(ops[i], r)
    ensures forall q: nat | q <= r :: At(Run(s, ops).memberships, q) == At(s.memberships, q)
  {
    hide At, Run;
    RunKeepsPast(s, ops, r);
    forall q: nat | q <= r ensures At(Run(s, ops).memberships, q) == At(s.memberships, q) {
      assert SameAt(s.memberships, Run(s, ops).memberships, q);
    }
  }

  /** The one write that rewrites history: an open leaves revision `r` as it was if and only
      if the revision it is stamped with comes after `r`. */
  lemma OpenKeepsHistoryIff(s: Tables, m: Id, e: Id, at: Option<nat>, r: nat)
    requires RowsSound(s) && OpenMembership(s, m, e, at).Ok?
    ensures At(OpenMembership(s, m, e, at).value.memberships, r) == At(s.memberships, r)
      <==> r < if at.Some? then at.value else s.head
  {
    hide EntityOf, OpenMembership, Tiled;
    OpenEffect(s, m, e, at);
    var rev := if at.Some? then at.value else s.head;
    if r < rev {
      OpenKeepsAt(s.memberships, m, e, rev, r);
    } else {
      assert Row(m, e, rev).HoldsAt(r);
      assert (m, e) in At(s.memberships + {Row(m, e, rev)}, r);
      NeverHeldBefore(s, m, e, r);
    }
  }

  /** A mention that nothing holds now was held by nothing before. */
  lemma NeverHeldBefore(s: Tables, m: Id, e: Id, r: nat)
    requires RowsSound(s) && EntityOf(s.memberships, m).None?
    ensures (m, e) !in At(s.memberships, r)
  {
    if (m, e) in At(s.memberships, r) {
      var row :| row in s.memberships && row.HoldsAt(r) && (row.mention, row.entity) == (m, e);
      var q := StaysResolved(s.memberships, s.head, row);
    }
  }

  /** Every ledger that any run leads to can be read at every revision, and no later run
      changes what is read at a past one. */
  lemma HistoryOverRuns(ops: seq<Op>, later: seq<Op>, m: Id, r: nat)
    requires AllInReach(BASELINE, ops)
    ensures var s := Run(BASELINE, ops);
      && ((exists row :: row in s.memberships && row.mention == m && row.openedAt <= r)
          <==> exists e :: (m, e) in At(s.memberships, r))
      && (forall e, f :: (m, e) in At(s.memberships, r) && (m, f) in At(s.memberships, r) ==> e == f)
      && (r < s.head && (forall i | 0 <= i < |later| :: OpensAfter(later[i], r)) ==>
            At(Run(s, later).memberships, r) == At(s.memberships, r))
  {
    hide At, Run, AllInReach, RowsSound, OpensAfter;
    RowsOverRuns(ops);
    var s := Run(BASELINE, ops);
    OneEntityAtEveryRevision(s, m, r);
    if r < s.head && forall i | 0 <= i < |later| :: OpensAfter(later[i], r) {
      HistoryIsStable(s, later, r);
    }
  }

  // ------------------------------------------------------- the lineage of the past

  lemma ReplaySamePast(ms: set<Membership>, ms': set<Membership>, ds: seq<Decision>, r: nat)
    requires SamePast(ms, ms', r) && forall i | 0 <= i < |ds| :: ds[i].resultRevision <= r
    ensures Replay(ms', ds) == Replay(ms, ds)
  {
    hide At, Opened, Closed;
    forall i | 0 <= i < |ds|
      ensures Opened(ms, ds[i].resultRevision) == Opened(ms', ds[i].resultRevision)
      ensures Closed(ms, ds[i].resultRevision) == Closed(ms', ds[i].resultRevision)
    {
      assert SameAt(ms, ms', ds[i].resultRevision);
    }
    ReplayFrame(ms, ms', ds);
  }

  /** The lineage as of a past revision is replayed alike after every later run, well-formed
      or not. */
  lemma LineageIsStable(s: Tables, ops: seq<Op>, n: nat, r: nat)
    requires n <= |s.decisions| && forall i | 0 <= i < n :: s.decisions[i].resultRevision <= r
    requires r < s.head
    requires forall i | 0 <= i < |ops| :: OpensAfter(ops[i], r)
    ensures s.decisions <= Run(s, ops).decisions
    ensures Replay(Run(s, ops).memberships, Run(s, ops).decisions[..n]) == Replay(s.memberships, s.decisions[..n])
  {
    hide SamePast, Run;
    RunAppendsDecisions(s, ops);
    RunKeepsPast(s, ops, r);
    assert Run(s, ops).decisions[..n] == s.decisions[..n];
    ReplaySamePast(s.memberships, Run(s, ops).memberships, s.decisions[..n], r);
  }

  lemma OpenKeepsReplay(s: Tables, m: Id, e: Id, at: Option<nat>, n: nat)
    requires Valid(s) && OpenMembership(s, m, e, at).Ok? && OpenIsSafe(s, e, at) && n <= |s.decisions|
    ensures Replay(OpenMembership(s, m, e, at).value.memberships, s.decisions[..n])
      == Replay(s.memberships, s.decisions[..n])
  {
    hide Valid, EntityOf, OpenMembership, LineageOf;
    OpenEffect(s, m, e, at);
    ValidRows(s);
    if at.None? && n == |s.decisions| {
      SafeOpenLineage(s, m, e, at);
      assert s.decisions[..n] == s.decisions;
      assert LineageOf(s) == Replay(s.memberships, s.decisions) by { LineageIsReplay(s); }
    } else {
      var rev := if at.Some? then at.value else s.head;
      ReplayBefore(s, m, e, rev, s.decisions[..n]);
    }
  }

  lemma LineageIsReplay(s: Tables)
    ensures LineageOf(s) == Replay(s.memberships, s.decisions)
  {
  }

  lemma AnchorKeepsReplay(s: Tables, mention: Option<Id>, e: Option<Id>, n: nat)
    requires Valid(s) && CheckAnchor(s, mention, e).Ok? && AnchorIsSafe(s, mention, e) && n <= |s.decisions|
    ensures var s' := CheckAnchor(s, mention, e).value;
      && Valid(s') && s'.decisions == s.decisions
      && Replay(s'.memberships, s.decisions[..n]) == Replay(s.memberships, s.decisions[..n])
  {
    hide Valid, CheckAnchor, OpenMembership, OpenIsSafe, LineageOf, EverIn;
    AnchorValid(s, mention, e);
    AnchorEffect(s, mention, e);
    if CheckAnchor(s, mention, e).value != s {
      OpenEffect(s, mention.value, e.value, None);
      OpenKeepsReplay(s, mention.value, e.value, None, n);
    }
  }

  lemma ClaimKeepsReplay(s: Tables, id: Id, draft: Claim, literal: bool, symmetric: bool, required: bool, n: nat)
    requires Valid(s) && ClaimIsSafe(s, draft, symmetric) && n <= |s.decisions|
    requires RecordClaim(s, id, draft, literal, symmetric, required).Ok?
    ensures Replay(RecordClaim(s, id, draft, literal, symmetric, required).value.memberships, s.decisions[..n])
      == Replay(s.memberships, s.decisions[..n])
  {
    hide Valid, CheckAnchor, RecordClaim, AnchorIsSafe, Before;
    var c := Normalized(draft, symmetric);
    var s1, s2 := ClaimEffect(s, id, draft, literal, symmetric, required);
    AnchorKeepsReplay(s, c.subjectMention, Some(c.subjectId), n);
    AnchorKeepsReplay(s1, c.objectMention, c.objectId, n);
  }

  lemma MoveKeepsReplay(s: Tables, mentions: set<Id>, target: Id, rev: nat, n: nat)
    requires DecisionsInOrder(s.decisions, s.head) && s.head < rev && n <= |s.decisions|
    ensures Replay(Move(s.memberships, mentions, target, rev), s.decisions[..n])
      == Replay(s.memberships, s.decisions[..n])
  {
    hide Move, SamePast;
    MoveSamePast(s.memberships, mentions, target, rev, s.head);
    ReplaySamePast(s.memberships, Move(s.memberships, mentions, target, rev), s.decisions[..n], s.head);
  }

  lemma ApplyKeepsReplay(s: Tables, op: Op, n: nat)
    requires Valid(s) && Safe(s, op) && n <= |s.decisions|
    ensures Replay(Apply(s, op).memberships, s.decisions[..n]) == Replay(s.memberships, s.decisions[..n])
  {
    hide Valid, ConfirmMatch, SplitEntity, RecordClaim, OpenMembership, OpenIsSafe, ClaimIsSafe, Move, Held, EntityOf,
      EntitiesOf, Before, Constrain, Settle, Blank, LineageOf, Replay, DecisionsInOrder, RowsSound;
    ValidRows(s);
    match op
    case DoConfirm(p, a, b, c, gap) =>
      if ConfirmMatch(s, p, a, b, c, s.head + 1 + gap).Ok? {
        var survivor, absorbed := ConfirmEffect(s, p, a, b, c, s.head + 1 + gap);
        MoveKeepsReplay(s, Held(s.memberships, absorbed), survivor, s.head + 1 + gap, n);
      }
    case DoSplit(p, e, ms, target, newId, gap) =>
      if SplitEntity(s, p, e, ms, target, newId, s.head + 1 + gap).Ok? {
        SplitEffect(s, p, e, ms, target, newId, s.head + 1 + gap);
        MoveKeepsReplay(s, ms, Target(target, newId), s.head + 1 + gap, n);
      }
    case DoOpen(m, e, at) =>
      if OpenMembership(s, m, e, at).Ok? { OpenKeepsReplay(s, m, e, at, n); }
    case DoClaim(id, draft, literal, symmetric, required) =>
      if RecordClaim(s, id, draft, literal, symmetric, required).Ok? {
        ClaimKeepsReplay(s, id, draft, literal, symmetric, required, n);
      }
    case _ =>
  }

  lemma {:induction false} RunKeepsReplay(s: Tables, ops: seq<Op>, n: nat)
    requires Valid(s) && WellFormed(s, ops) && n <= |s.decisions|
    ensures Replay(Run(s, ops).memberships, s.decisions[..n]) == Replay(s.memberships, s.decisions[..n])
    decreases |ops|
  {
    hide Valid, Safe, Apply, Replay;
    if ops == [] {
    } else {
      var next := Apply(s, ops[0]);
      ApplyKeepsReplay(s, ops[0], n);
      ApplyValid(s, ops[0]);
      ApplyAppendsDecisions(s, ops[0]);
      assert next.decisions[..n] == s.decisions[..n];
      RunKeepsReplay(next, ops[1..], n);
    }
  }

  /** Not the rows alone but the lineage is reconstructible: after every later well-formed run,
      replaying the decisions made up to some point gives the lineage as it was then. */
  lemma LineageIsReconstructible(s: Tables, ops: seq<Op>)
    requires Valid(s) && WellFormed(s, ops)
    ensures s.decisions <= Run(s, ops).decisions
    ensures Replay(Run(s, ops).memberships, Run(s, ops).decisions[..|s.decisions|]) == LineageOf(s)
  {
    hide Valid, WellFormed, Run;
    RunAppendsDecisions(s, ops);
    RunKeepsReplay(s, ops, |s.decisions|);
    assert Run(s, ops).decisions[..|s.decisions|] == s.decisions == s.decisions[..|s.decisions|];
    LineageIsReplay(s);
  }

  // ---------------------------------------------------------------- staleness

  /** An entity's holdings did not change at any revision from `parentRevision` on. */
  ghost predicate Unchanged(ms: set<Membership>, e: Id, parentRevision: nat) {
    forall rev: nat :: parentRevision <= rev ==> HeldAt(ms, e, rev) == HeldAt(ms, e, parentRevision)
  }

  lemma SuccessorElsewhere(s: Tables, q: Membership, e: Id)
    requires RowsSound(s) && q in s.memberships && q.entity == e && q.closedAt.Some?
    ensures q.mention !in HeldAt(s.memberships, e, q.closedAt.value)
  {
    var ms := s.memberships;
    var c := q.closedAt.value;
    assert Continued(ms, q);
    var next :| next in ms && TakesOver(next, q);
    assert next.HoldsAt(c);
    assert (q.mention, next.entity) in At(ms, c);
    if q.mention in HeldAt(ms, e, c) {
      var p :| p in ms && p.HoldsAt(c) && p.entity == e && p.mention == q.mention;
      assert (q.mention, e) in At(ms, c);
      OneEntityAt(ms, q.mention, e, next.entity, c);
    }
  }

  lemma ClosedLaterIsChange(s: Tables, q: Membership, e: Id, parentRevision: nat)
    requires RowsSound(s) && q in s.memberships && q.entity == e
    requires q.openedAt <= parentRevision && q.closedAt.Some? && parentRevision < q.closedAt.value
    ensures !Unchanged(s.memberships, e, parentRevision)
  {
    SuccessorElsewhere(s, q, e);
    assert q.mention in HeldAt(s.memberships, e, parentRevision);
    assert HeldAt(s.memberships, e, q.closedAt.value) != HeldAt(s.memberships, e, parentRevision);
  }

  lemma OpenedLaterIsChange(s: Tables, r: Membership, e: Id, parentRevision: nat)
    requires RowsSound(s) && r in s.memberships && r.entity == e && parentRevision < r.openedAt
    ensures !Unchanged(s.memberships, e, parentRevision)
  {
    var ms := s.memberships;
    assert r.HoldsAt(r.openedAt);
    assert r.mention in HeldAt(ms, e, r.openedAt);
    if r.mention in HeldAt(ms, e, parentRevision) {
      var q :| q in ms && q.HoldsAt(parentRevision) && q.entity == e && q.mention == r.mention;
      assert EndsBy(q, r) || EndsBy(r, q);
      ClosedLaterIsChange(s, q, e, parentRevision);
    } else {
      assert HeldAt(ms, e, r.openedAt) != HeldAt(ms, e, parentRevision);
    }
  }

  /** The scoped check passes exactly when no entity in scope held anything else at any
      revision since the parent: it never refuses for a change outside the scope, and a
      pass means the evidence is what it was. */
  lemma ScopeCurrentIff(s: Tables, parentRevision: nat, scope: set<Id>)
    requires RowsSound(s)
    ensures ScopeCurrent(s.memberships, parentRevision, scope)
            <==> forall e :: e in scope ==> Unchanged(s.memberships, e, parentRevision)
  {
    var ms := s.memberships;
    if ScopeCurrent(ms, parentRevision, scope) {
      forall e, rev: nat | e in scope && parentRevision <= rev
        ensures HeldAt(ms, e, rev) == HeldAt(ms, e, parentRevision)
      {
        assert forall r :: r in ms && r.entity == e ==> (r.HoldsAt(rev) <==> r.HoldsAt(parentRevision));
      }
    } else {
      var r :| r in ms && r.entity in scope &&
        !(r.openedAt <= parentRevision && (r.closedAt.Some? ==> r.closedAt.value <= parentRevision));
      if parentRevision < r.openedAt {
        OpenedLaterIsChange(s, r, r.entity, parentRevision);
      } else {
        ClosedLaterIsChange(s, r, r.entity, parentRevision);
      }
    }
  }

  /** The same for the ledger any run leads to. */
  lemma StalenessOverRuns(ops: seq<Op>, parentRevision: nat, scope: set<Id>)
    requires AllInReach(BASELINE, ops)
    ensures var ms := Run(BASELINE, ops).memberships;
      ScopeCurrent(ms, parentRevision, scope) <==> forall e :: e in scope ==> Unchanged(ms, e, parentRevision)
  {
    hide Run, AllInReach, RowsSound, ScopeCurrent, Unchanged;
    RowsOverRuns(ops);
    ScopeCurrentIff(Run(BASELINE, ops), parentRevision, scope);
  }

  /** A passed check for a parent at or before the head: the scope holds today what it
      held at the parent. */
  lemma ScopeHoldsTheSame(s: Tables, parentRevision: nat, scope: set<Id>, e: Id)
    requires RowsSound(s) && parentRevision <= s.head
    requires ScopeCurrent(s.memberships, parentRevision, scope) && e in scope
    ensures Held(s.memberships, e) == HeldAt(s.memberships, e, parentRevision)
  {
    ScopeCurrentIff(s, parentRevision, scope);
    HeadIsActive(s, s.head);
    assert Unchanged(s.memberships, e, parentRevision);
  }

  // ------------------------------------------------------------ changes elsewhere

  /** The same rows of the entities in scope. */
  ghost predicate SameRowsOf(ms: set<Membership>, ms': set<Membership>, scope: set<Id>) {
    forall r: Membership | r.entity in scope :: r in ms <==> r in ms'
  }

  /** The write neither takes from an entity in scope nor gives to one. */
  ghost predicate Elsewhere(s: Tables, op: Op, scope: set<Id>) {
    match op
    case DoConfirm(_, a, b, _, _) => EntitiesOf(s.memberships, {a, b}) !! scope
    case DoSplit(_, e, _, target, newId, _) => e !in scope && Target(target, newId) !in scope
    case DoOpen(_, e, _) => e !in scope
    case DoClaim(_, draft, _, _, _) =>
      && (draft.subjectMention.Some? ==> draft.subjectId !in scope)
      && (draft.objectMention.Some? && draft.objectId.Some? ==> draft.objectId.value !in scope)
    case _ => true
  }

  ghost predicate AllElsewhere(s: Tables, ops: seq<Op>, scope: set<Id>)
    decreases |ops|
  {
    ops == [] || (Elsewhere(s, ops[0], scope) && AllElsewhere(Apply(s, ops[0]), ops[1..], scope))
  }

  lemma MoveElsewhere(ms: set<Membership>, mentions: set<Id>, source: Id, target: Id, rev: nat, scope: set<Id>)
    requires Detachable(ms, mentions, source, target) && source !in scope && target !in scope
    ensures SameRowsOf(ms, Move(ms, mentions, target, rev), scope)
  {
    hide Move, OneActive, Held;
    DetachedRows(ms, mentions, source, target);
    var ms' := Move(ms, mentions, target, rev);
    forall r: Membership | r.entity in scope ensures r in ms <==> r in ms' {
      if r in ms { MoveKeeps(ms, mentions, target, rev, r); }
      if r in ms' { var q := MoveOrigin(ms, mentions, target, rev, r); }
    }
  }

  lemma SameRowsChain(ms: set<Membership>, ms1: set<Membership>, ms2: set<Membership>, scope: set<Id>)
    requires SameRowsOf(ms, ms1, scope) && SameRowsOf(ms1, ms2, scope)
    ensures SameRowsOf(ms, ms2, scope)
  {
  }

  lemma ConfirmElsewhere(s: Tables, p: nat, a: Id, b: Id, c: Option<Id>, rev: nat, scope: set<Id>)
    requires RowsSound(s) && s.head < rev && ConfirmMatch(s, p, a, b, c, rev).Ok?
    requires EntitiesOf(s.memberships, {a, b}) !! scope
    ensures SameRowsOf(s.memberships, ConfirmMatch(s, p, a, b, c, rev).value.tables.memberships, scope)
  {
    hide ConfirmMatch, EntityOf, EntitiesOf, Move, Held, HandedOver, SameRowsOf;
    var survivor, absorbed := ConfirmMoves(s, p, a, b, c, rev);
    ScopeOfPair(s.memberships, a, b);
    MoveElsewhere(s.memberships, Held(s.memberships, absorbed), absorbed, survivor, rev, scope);
  }

  lemma SplitElsewhere(s: Tables, p: nat, e: Id, mentions: set<Id>, target: Option<Id>, newId: Id, rev: nat,
                       scope: set<Id>)
    requires RowsSound(s) && SplitEntity(s, p, e, mentions, target, newId, rev).Ok?
    requires e !in scope && Target(target, newId) !in scope
    ensures var s' := SplitEntity(s, p, e, mentions, target, newId, rev).value.tables;
      SameRowsOf(s.memberships, s'.memberships, scope)
  {
    hide SplitEntity, Move, Held, HandedOver;
    SplitEffect(s, p, e, mentions, target, newId, rev);
    if Target(target, newId) == e {
      MoveNothing(s.memberships, mentions, e, rev);
    } else {
      MoveElsewhere(s.memberships, mentions, e, Target(target, newId), rev, scope);
    }
  }

  lemma AnchorElsewhereScope(s: Tables, mention: Option<Id>, e: Option<Id>, scope: set<Id>)
    requires CheckAnchor(s, mention, e).Ok? && (mention.Some? && e.Some? ==> e.value !in scope)
    ensures SameRowsOf(s.memberships, CheckAnchor(s, mention, e).value.memberships, scope)
  {
    hide CheckAnchor, OpenMembership;
    AnchorEffect(s, mention, e);
    if CheckAnchor(s, mention, e).value != s {
      OpenEffect(s, mention.value, e.value, None);
    }
  }

  lemma ApplyElsewhere(s: Tables, op: Op, scope: set<Id>)
    requires RowsSound(s) && Elsewhere(s, op, scope)
    ensures SameRowsOf(s.memberships, Apply(s, op).memberships, scope)
  {
    hide RowsSound, ConfirmMatch, SplitEntity, OpenMembership, RecordClaim, CheckAnchor, EntitiesOf, Constrain, Settle,
      Before, Blank, SameRowsOf;
    NoRowsChanged(s.memberships, scope);
    match op
    case DoConfirm(p, a, b, c, gap) =>
      if ConfirmMatch(s, p, a, b, c, s.head + 1 + gap).Ok? {
        ConfirmElsewhere(s, p, a, b, c, s.head + 1 + gap, scope);
      }
    case DoSplit(p, e, ms, target, newId, gap) =>
      if SplitEntity(s, p, e, ms, target, newId, s.head + 1 + gap).Ok? {
        SplitElsewhere(s, p, e, ms, target, newId, s.head + 1 + gap, scope);
      }
    case DoOpen(m, e, at) =>
      if OpenMembership(s, m, e, at).Ok? {
        OpenEffect(s, m, e, at);
        OneRowElsewhere(s.memberships, m, e, if at.Some? then at.value else s.head, scope);
      }
    case DoClaim(id, draft, literal, symmetric, required) =>
      if RecordClaim(s, id, draft, literal, symmetric, required).Ok? {
        var c := Normalized(draft, symmetric);
        var s1, s2 := ClaimEffect(s, id, draft, literal, symmetric, required);
        AnchorElsewhereScope(s, c.subjectMention, Some(c.subjectId), scope);
        AnchorElsewhereScope(s1, c.objectMention, c.objectId, scope);
        SameRowsChain(s.memberships, s1.memberships, s2.memberships, scope);
      }
    case _ =>
  }

  lemma NoRowsChanged(ms: set<Membership>, scope: set<Id>)
    ensures SameRowsOf(ms, ms, scope)
  {
  }

  lemma OneRowElsewhere(ms: set<Membership>, m: Id, e: Id, rev: nat, scope: set<Id>)
    requires e !in scope
    ensures SameRowsOf(ms, ms + {Row(m, e, rev)}, scope)
  {
  }

  lemma {:induction false} RunElsewhere(s: Tables, ops: seq<Op>, scope: set<Id>)
    requires RowsSound(s) && AllInReach(s, ops) && AllElsewhere(s, ops, scope)
    ensures SameRowsOf(s.memberships, Run(s, ops).memberships, scope)
    decreases |ops|
  {
    hide RowsSound, Apply, OpensInReach, Elsewhere, SameRowsOf;
    if ops == [] {
      NoRowsChanged(s.memberships, scope);
    } else {
      ApplyElsewhere(s, ops[0], scope);
      ApplyKeepsRows(s, ops[0]);
      RunElsewhere(Apply(s, ops[0]), ops[1..], scope);
      SameRowsChain(s.memberships, Apply(s, ops[0]).memberships, Run(s, ops).memberships, scope);
    }
  }

  /** Adjudications elsewhere never make a scope stale: over every run, well-formed or not, that
      takes from no entity in scope and gives to none, the check answers as it did. */
  lemma NeverStaleFromElsewhere(s: Tables, ops: seq<Op>, parentRevision: nat, scope: set<Id>)
    requires RowsSound(s) && AllInReach(s, ops) && AllElsewhere(s, ops, scope)
    ensures ScopeCurrent(Run(s, ops).memberships, parentRevision, scope)
      <==> ScopeCurrent(s.memberships, parentRevision, scope)
  {
    hide RowsSound, Run, AllInReach, AllElsewhere;
    RunElsewhere(s, ops, scope);
  }
}
