/** What every write does to the membership rows, on any tables at all: which part of the
    invariant needs no side condition, and what no later write can change. */
module LedgerRows {
  import opened Common
  import opened Store
  import opened LedgerInvariant
  import opened LedgerSteps
  import opened LedgerOpens
  import opened LedgerRuns

  lemma ValidRows(s: Tables)
    requires Valid(s)
    ensures RowsSound(s) && DecisionsInOrder(s.decisions, s.head)
  {
  }

  // ------------------------------------------------------------- what a write does

  lemma ConfirmEffect(s: Tables, p: nat, a: Id, b: Id, candidate: Option<Id>, rev: nat)
    returns (survivor: Id, absorbed: Id)
    requires ConfirmMatch(s, p, a, b, candidate, rev).Ok?
    ensures var s' := ConfirmMatch(s, p, a, b, candidate, rev).value.tables;
      && EntityOf(s.memberships, a) == Some(survivor) && EntityOf(s.memberships, b) == Some(absorbed)
      && |EntitiesOf(s.memberships, {a, b})| >= 2
      && s'.memberships == Move(s.memberships, Held(s.memberships, absorbed), survivor, rev)
      && s'.head == rev && s'.entities == s.entities + {survivor}
      && s'.decisions == s.decisions + [Decision(Confirm, p, rev, candidate, {a, b})]
  {
    hide Held, Move, EntityOf, EntitiesOf, ScopeCurrent, Ids, MovedMentions, Replay, Orphans, Settle;
    survivor, absorbed := EntityOf(s.memberships, a).value, EntityOf(s.memberships, b).value;
  }

  lemma SplitEffect(s: Tables, p: nat, e: Id, mentions: set<Id>, target: Option<Id>, newId: Id, rev: nat)
    requires SplitEntity(s, p, e, mentions, target, newId, rev).Ok?
    ensures var s' := SplitEntity(s, p, e, mentions, target, newId, rev).value.tables;
      var to := Target(target, newId);
      && mentions != {} && mentions < Held(s.memberships, e)
      && s'.memberships == Move(s.memberships, mentions, to, rev)
      && s'.head == rev && s'.entities == s.entities + {to}
      && s'.decisions == s.decisions + [Decision(Split, p, rev, None, mentions)]
  {
    hide Held, Move, ScopeCurrent, Ids, MovedMentions, Replay, Orphans, UnattributableClaims;
  }

  lemma OpenEffect(s: Tables, m: Id, e: Id, at: Option<nat>)
    requires OpenMembership(s, m, e, at).Ok?
    ensures var s' := OpenMembership(s, m, e, at).value;
      && EntityOf(s.memberships, m).None? && e in s.entities
      && s' == s.(memberships := s.memberships + {Row(m, e, if at.Some? then at.value else s.head)})
  {
    hide EntityOf;
  }

  /** The tables between the two anchors of an accepted claim, and after both. */
  lemma ClaimEffect(s: Tables, id: Id, draft: Claim, literal: bool, symmetric: bool, required: bool)
    returns (s1: Tables, s2: Tables)
    requires RecordClaim(s, id, draft, literal, symmetric, required).Ok?
    ensures var s' := RecordClaim(s, id, draft, literal, symmetric, required).value;
      var c := Normalized(draft, symmetric);
      && CheckAnchor(s, c.subjectMention, Some(c.subjectId)) == Ok(s1)
      && CheckAnchor(s1, c.objectMention, c.objectId) == Ok(s2)
      && s' == s2.(claims := s'.claims)
  {
    hide CheckAnchor, Before;
    var c := Normalized(draft, symmetric);
    s1 := CheckAnchor(s, c.subjectMention, Some(c.subjectId)).value;
    s2 := CheckAnchor(s1, c.objectMention, c.objectId).value;
  }

  /** An anchor opens one row at the head, or nothing. */
  lemma AnchorEffect(s: Tables, mention: Option<Id>, e: Option<Id>)
    requires CheckAnchor(s, mention, e).Ok?
    ensures CheckAnchor(s, mention, e).value == s
      || (mention.Some? && e.Some? && OpenMembership(s, mention.value, e.value, None).Ok?
          && CheckAnchor(s, mention, e).value == OpenMembership(s, mention.value, e.value, None).value)
  {
    hide OpenMembership, EntityOf;
  }

  // ------------------------------------------------------------------ sound rows

  /** On sound rows an accepted confirm moves everything one entity holds onto another. */
  lemma ConfirmMoves(s: Tables, p: nat, a: Id, b: Id, candidate: Option<Id>, rev: nat)
    returns (survivor: Id, absorbed: Id)
    requires RowsSound(s) && s.head < rev && ConfirmMatch(s, p, a, b, candidate, rev).Ok?
    ensures var s' := ConfirmMatch(s, p, a, b, candidate, rev).value.tables;
      && ConfirmPair(s, a, b, survivor, absorbed)
      && CanMove(s.memberships, Held(s.memberships, absorbed), absorbed, survivor, rev)
      && s'.memberships == Move(s.memberships, Held(s.memberships, absorbed), survivor, rev)
      && s'.head == rev && s'.entities == s.entities + {survivor}
      && s'.decisions == s.decisions + [Decision(Confirm, p, rev, candidate, {a, b})]
      && RowsSound(s')
  {
    hide Held, Move, ConfirmMatch, EntityOf, EntitiesOf, HandedOver;
    survivor, absorbed := ConfirmEffect(s, p, a, b, candidate, rev);
    ScopeOfPair(s.memberships, a, b);
    EntityOfRow(s.memberships, b, absorbed);
    var s' := ConfirmMatch(s, p, a, b, candidate, rev).value.tables;
    MoveSound(s, Held(s.memberships, absorbed), absorbed, survivor, s');
  }

  lemma SplitKeepsRows(s: Tables, p: nat, e: Id, mentions: set<Id>, target: Option<Id>, newId: Id, rev: nat)
    requires RowsSound(s) && s.head < rev && SplitEntity(s, p, e, mentions, target, newId, rev).Ok?
    ensures RowsSound(SplitEntity(s, p, e, mentions, target, newId, rev).value.tables)
  {
    hide Held, Move, SplitEntity, Exclusive, HandedOver;
    SplitEffect(s, p, e, mentions, target, newId, rev);
    var s' := SplitEntity(s, p, e, mentions, target, newId, rev).value.tables;
    if Target(target, newId) == e {
      MoveNothing(s.memberships, mentions, e, rev);
    } else {
      MoveSound(s, mentions, e, Target(target, newId), s');
    }
  }

  lemma OpenKeepsRows(s: Tables, m: Id, e: Id, at: Option<nat>)
    requires RowsSound(s) && OpenMembership(s, m, e, at).Ok? && (at.Some? ==> at.value <= s.head)
    ensures RowsSound(OpenMembership(s, m, e, at).value)
  {
    hide EntityOf, OpenMembership, Exclusive, HandedOver;
    OpenEffect(s, m, e, at);
    OpenTiled(s, m, e, if at.Some? then at.value else s.head);
  }

  lemma AnchorKeepsRows(s: Tables, mention: Option<Id>, e: Option<Id>)
    requires RowsSound(s) && CheckAnchor(s, mention, e).Ok?
    ensures RowsSound(CheckAnchor(s, mention, e).value)
  {
    hide RowsSound, CheckAnchor, OpenMembership;
    AnchorEffect(s, mention, e);
    if CheckAnchor(s, mention, e).value != s {
      OpenKeepsRows(s, mention.value, e.value, None);
    }
  }

  lemma ClaimKeepsRows(s: Tables, id: Id, draft: Claim, literal: bool, symmetric: bool, required: bool)
    requires RowsSound(s) && RecordClaim(s, id, draft, literal, symmetric, required).Ok?
    ensures RowsSound(RecordClaim(s, id, draft, literal, symmetric, required).value)
  {
    hide RecordClaim, CheckAnchor, Before, Tiled, RowsInRange;
    var c := Normalized(draft, symmetric);
    var s1, s2 := ClaimEffect(s, id, draft, literal, symmetric, required);
    AnchorKeepsRows(s, c.subjectMention, Some(c.subjectId));
    AnchorKeepsRows(s1, c.objectMention, c.objectId);
  }

  /** The explicit revision of an accepted open is one the ledger has reached. */
  ghost predicate OpensInReach(s: Tables, op: Op) {
    op.DoOpen? && op.at.Some? && OpenMembership(s, op.mention, op.entity, op.at).Ok? ==> op.at.value <= s.head
  }

  lemma SameRowsSound(s: Tables, s': Tables)
    requires RowsSound(s) && s'.memberships == s.memberships && s.head <= s'.head && s.entities <= s'.entities
    ensures RowsSound(s')
  {
  }

  /** Every write keeps the rows sound; no open is too ill-placed for that. */
  lemma ApplyKeepsRows(s: Tables, op: Op)
    requires RowsSound(s) && OpensInReach(s, op)
    ensures RowsSound(Apply(s, op))
  {
    hide RowsSound, ConfirmMatch, SplitEntity, OpenMembership, RecordClaim, Constrain, Settle, Before, Blank;
    match op
    case DoConfirm(p, a, b, c, gap) =>
      if ConfirmMatch(s, p, a, b, c, s.head + 1 + gap).Ok? {
        var survivor, absorbed := ConfirmMoves(s, p, a, b, c, s.head + 1 + gap);
      }
    case DoSplit(p, e, ms, target, newId, gap) =>
      if SplitEntity(s, p, e, ms, target, newId, s.head + 1 + gap).Ok? {
        SplitKeepsRows(s, p, e, ms, target, newId, s.head + 1 + gap);
      }
    case DoOpen(m, e, at) =>
      if OpenMembership(s, m, e, at).Ok? { OpenKeepsRows(s, m, e, at); }
    case DoClaim(id, draft, literal, symmetric, required) =>
      if RecordClaim(s, id, draft, literal, symmetric, required).Ok? {
        ClaimKeepsRows(s, id, draft, literal, symmetric, required);
      }
    case _ =>
      SameRowsSound(s, Apply(s, op));
  }

  ghost predicate AllInReach(s: Tables, ops: seq<Op>)
    decreases |ops|
  {
    ops == [] || (OpensInReach(s, ops[0]) && AllInReach(Apply(s, ops[0]), ops[1..]))
  }

  lemma {:induction false} WellFormedInReach(s: Tables, ops: seq<Op>)
    requires WellFormed(s, ops)
    ensures AllInReach(s, ops)
    decreases |ops|
  {
    hide Apply, OpenMembership, LineageOf;
    if ops == [] {
    } else {
      WellFormedInReach(Apply(s, ops[0]), ops[1..]);
    }
  }

  lemma {:induction false} RunKeepsRows(s: Tables, ops: seq<Op>)
    requires RowsSound(s) && AllInReach(s, ops)
    ensures RowsSound(Run(s, ops))
    decreases |ops|
  {
    hide RowsSound, Apply, OpensInReach;
    if ops == [] {
    } else {
      ApplyKeepsRows(s, ops[0]);
      RunKeepsRows(Apply(s, ops[0]), ops[1..]);
    }
  }

  /** The rows stay sound over every run from the migrated store, whatever entities its opens
      and anchors name and whatever revision they land on. */
  lemma RowsOverRuns(ops: seq<Op>)
    requires AllInReach(BASELINE, ops)
    ensures RowsSound(Run(BASELINE, ops))
  {
    hide RowsSound, Run, AllInReach;
    BaselineValid();
    ValidRows(BASELINE);
    RunKeepsRows(BASELINE, ops);
  }

  // ---------------------------------------------------------------- the past is fixed

  /** The same belonging at revision `q`, and the same entities gaining and losing at it. */
  ghost predicate SameAt(ms: set<Membership>, ms': set<Membership>, q: nat) {
    At(ms', q) == At(ms, q) && Opened(ms', q) == Opened(ms, q) && Closed(ms', q) == Closed(ms, q)
  }

  ghost predicate SamePast(ms: set<Membership>, ms': set<Membership>, r: nat) {
    forall q: nat | q <= r :: SameAt(ms, ms', q)
  }

  lemma MoveKeepsAt(ms: set<Membership>, mentions: set<Id>, target: Id, rev: nat, r: nat)
    requires r < rev
    ensures At(Move(ms, mentions, target, rev), r) == At(ms, r)
  {
    hide Move;
    var ms' := Move(ms, mentions, target, rev);
    forall row | row in ms && row.HoldsAt(r) ensures (row.mention, row.entity) in At(ms', r) {
      MoveKeeps(ms, mentions, target, rev, row);
      assert After(row, mentions, target, rev).HoldsAt(r);
    }
    forall row | row in ms' && row.HoldsAt(r) ensures (row.mention, row.entity) in At(ms, r) {
      var q := MoveOrigin(ms, mentions, target, rev, row);
      assert q.HoldsAt(r);
    }
  }

  lemma OpenKeepsAt(ms: set<Membership>, m: Id, e: Id, rev: nat, r: nat)
    requires r < rev
    ensures At(ms + {Row(m, e, rev)}, r) == At(ms, r)
  {
  }

  lemma MoveSamePast(ms: set<Membership>, mentions: set<Id>, target: Id, rev: nat, r: nat)
    requires r < rev
    ensures SamePast(ms, Move(ms, mentions, target, rev), r)
  {
    hide Move, At, Opened, Closed;
    forall q: nat | q <= r ensures SameAt(ms, Move(ms, mentions, target, rev), q) {
      MoveKeepsAt(ms, mentions, target, rev, q);
      MoveKeepsPast(ms, mentions, target, rev, q);
    }
  }

  lemma OpenSamePast(ms: set<Membership>, m: Id, e: Id, rev: nat, r: nat)
    requires r < rev
    ensures SamePast(ms, ms + {Row(m, e, rev)}, r)
  {
    hide At, Opened, Closed;
    forall q: nat | q <= r ensures SameAt(ms, ms + {Row(m, e, rev)}, q) {
      OpenKeepsAt(ms, m, e, rev, q);
      OpenRevisions(ms, m, e, rev, q);
    }
  }

  lemma SamePastChain(ms: set<Membership>, ms1: set<Membership>, ms2: set<Membership>, r: nat)
    requires SamePast(ms, ms1, r) && SamePast(ms1, ms2, r)
    ensures SamePast(ms, ms2, r)
  {
    hide At, Opened, Closed;
    forall q: nat | q <= r ensures SameAt(ms, ms2, q) {
      assert SameAt(ms, ms1, q) && SameAt(ms1, ms2, q);
    }
  }

  lemma AnchorSamePast(s: Tables, mention: Option<Id>, e: Option<Id>, r: nat)
    requires CheckAnchor(s, mention, e).Ok? && r < s.head
    ensures SamePast(s.memberships, CheckAnchor(s, mention, e).value.memberships, r)
    ensures CheckAnchor(s, mention, e).value.head == s.head
  {
    hide At, Opened, Closed, CheckAnchor, OpenMembership;
    AnchorEffect(s, mention, e);
    if CheckAnchor(s, mention, e).value != s {
      OpenEffect(s, mention.value, e.value, None);
      OpenSamePast(s.memberships, mention.value, e.value, s.head, r);
    }
  }

  /** A default-revision open, or one at an explicit revision after `r`. */
  predicate OpensAfter(op: Op, r: nat) { op.DoOpen? && op.at.Some? ==> r < op.at.value }

  /** Whatever the tables are like, no write changes anything about an earlier revision. */
  lemma ApplyKeepsPast(s: Tables, op: Op, r: nat)
    requires r < s.head && OpensAfter(op, r)
    ensures SamePast(s.memberships, Apply(s, op).memberships, r)
    ensures s.head <= Apply(s, op).head
  {
    hide At, Opened, Closed, SamePast, ConfirmMatch, SplitEntity, RecordClaim, OpenMembership, CheckAnchor, Move, Held,
      EntityOf, EntitiesOf, Before, Constrain, Settle;
    NothingChanged(s.memberships, r);
    match op
    case DoConfirm(p, a, b, c, gap) =>
      if ConfirmMatch(s, p, a, b, c, s.head + 1 + gap).Ok? {
        var survivor, absorbed := ConfirmEffect(s, p, a, b, c, s.head + 1 + gap);
        MoveSamePast(s.memberships, Held(s.memberships, absorbed), survivor, s.head + 1 + gap, r);
      }
    case DoSplit(p, e, ms, target, newId, gap) =>
      if SplitEntity(s, p, e, ms, target, newId, s.head + 1 + gap).Ok? {
        SplitEffect(s, p, e, ms, target, newId, s.head + 1 + gap);
        MoveSamePast(s.memberships, ms, Target(target, newId), s.head + 1 + gap, r);
      }
    case DoOpen(m, e, at) =>
      if OpenMembership(s, m, e, at).Ok? {
        OpenEffect(s, m, e, at);
        OpenSamePast(s.memberships, m, e, if at.Some? then at.value else s.head, r);
      }
    case DoClaim(id, draft, literal, symmetric, required) =>
      if RecordClaim(s, id, draft, literal, symmetric, required).Ok? {
        var c := Normalized(draft, symmetric);
        var s1, s2 := ClaimEffect(s, id, draft, literal, symmetric, required);
        AnchorSamePast(s, c.subjectMention, Some(c.subjectId), r);
        AnchorSamePast(s1, c.objectMention, c.objectId, r);
        SamePastChain(s.memberships, s1.memberships, s2.memberships, r);
      }
    case _ =>
  }

  lemma NothingChanged(ms: set<Membership>, r: nat)
    ensures SamePast(ms, ms, r)
  {
  }

  lemma {:induction false} RunKeepsPast(s: Tables, ops: seq<Op>, r: nat)
    requires r < s.head
    requires forall i | 0 <= i < |ops| :: OpensAfter(ops[i], r)
    ensures SamePast(s.memberships, Run(s, ops).memberships, r)
    decreases |ops|
  {
    hide SamePast, Apply, OpensAfter;
    if ops == [] {
      NothingChanged(s.memberships, r);
    } else {
      ApplyKeepsPast(s, ops[0], r);
      forall i | 0 <= i < |ops[1..]| ensures OpensAfter(ops[1..][i], r) {
        assert ops[1..][i] == ops[i + 1];
      }
      RunKeepsPast(Apply(s, ops[0]), ops[1..], r);
      SamePastChain(s.memberships, Apply(s, ops[0]).memberships, Run(s, ops).memberships, r);
    }
  }

  // -------------------------------------------------------------- decisions are appended

  /** The same decisions at the same head, or one more that results in the new head. */
  predicate Appended(s: Tables, s': Tables) {
    if |s'.decisions| == |s.decisions| then s'.decisions == s.decisions && s'.head == s.head
    else
      && |s'.decisions| == |s.decisions| + 1 && s'.decisions[..|s.decisions|] == s.decisions
      && s'.decisions[|s.decisions|].resultRevision == s'.head && s.head < s'.head
  }

  lemma ApplyAppendsDecisions(s: Tables, op: Op)
    ensures Appended(s, Apply(s, op))
  {
    hide ConfirmMatch, SplitEntity, RecordClaim, OpenMembership, CheckAnchor, Move, Held, EntityOf, EntitiesOf, Before,
      Constrain, Settle, Blank;
    match op
    case DoConfirm(p, a, b, c, gap) =>
      if ConfirmMatch(s, p, a, b, c, s.head + 1 + gap).Ok? {
        var survivor, absorbed := ConfirmEffect(s, p, a, b, c, s.head + 1 + gap);
      }
    case DoSplit(p, e, ms, target, newId, gap) =>
      if SplitEntity(s, p, e, ms, target, newId, s.head + 1 + gap).Ok? {
        SplitEffect(s, p, e, ms, target, newId, s.head + 1 + gap);
      }
    case DoOpen(m, e, at) =>
      if OpenMembership(s, m, e, at).Ok? { OpenEffect(s, m, e, at); }
    case DoClaim(id, draft, literal, symmetric, required) =>
      if RecordClaim(s, id, draft, literal, symmetric, required).Ok? {
        var c := Normalized(draft, symmetric);
        var s1, s2 := ClaimEffect(s, id, draft, literal, symmetric, required);
        AnchorKeepsDecisions(s, c.subjectMention, Some(c.subjectId));
        AnchorKeepsDecisions(s1, c.objectMention, c.objectId);
      }
    case _ =>
  }

  lemma AnchorKeepsDecisions(s: Tables, mention: Option<Id>, e: Option<Id>)
    requires CheckAnchor(s, mention, e).Ok?
    ensures var s' := CheckAnchor(s, mention, e).value;
      s'.decisions == s.decisions && s'.head == s.head
  {
    hide CheckAnchor, OpenMembership;
    AnchorEffect(s, mention, e);
    if CheckAnchor(s, mention, e).value != s {
      OpenEffect(s, mention.value, e.value, None);
    }
  }

  lemma {:induction false} RunAppendsDecisions(s: Tables, ops: seq<Op>)
    ensures s.decisions <= Run(s, ops).decisions
    decreases |ops|
  {
    hide Apply;
    if ops == [] {
    } else {
      ApplyAppendsDecisions(s, ops[0]);
      RunAppendsDecisions(Apply(s, ops[0]), ops[1..]);
    }
  }
}
