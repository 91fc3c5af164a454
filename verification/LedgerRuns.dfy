/** Whole runs of the identity ledger: every sequence of writes, refused or not. */
module LedgerRuns {
  import opened Common
  import opened Lineage
  import opened Store
  import opened LedgerInvariant
  import opened LedgerSteps
  import opened LedgerOpens

  /** A write as a caller asks for it. `gap` is how many revision ids the sequence skips;
      `newId` is the id the write would mint. */
  datatype Op =
    | DoConfirm(parentRevision: nat, a: Id, b: Id, candidate: Option<Id>, gap: nat)
    | DoReject(parentRevision: nat, a: Id, b: Id, candidate: Option<Id>, gap: nat)
    | DoUnresolved(parentRevision: nat, a: Id, b: Id, candidate: Option<Id>, gap: nat)
    | DoSplit(parentRevision: nat, entity: Id, mentions: set<Id>, target: Option<Id>, newId: Id, gap: nat)
    | DoOpen(mention: Id, entity: Id, at: Option<nat>)
    | DoEntity(entity: Id)
    | DoPropose(id: Id, candidate_: Candidate)
    | DoClaim(id: Id, draft: Claim, literal: bool, symmetric: bool, anchorRequired: bool)
    | DoRetract(id: Id, reason: string)

  function Committed(s: Tables, r: Result<Outcome, Refusal>): Tables {
    if r.Ok? then r.value.tables else s
  }

  /** A refused write is rolled back whole. */
  ghost function Apply(s: Tables, op: Op): Tables {
    match op
    case DoConfirm(p, a, b, c, gap) => Committed(s, ConfirmMatch(s, p, a, b, c, s.head + 1 + gap))
    case DoReject(p, a, b, c, gap) => Committed(s, RejectMatch(s, p, a, b, c, s.head + 1 + gap))
    case DoUnresolved(p, a, b, c, gap) => Committed(s, MarkUnresolved(s, p, a, b, c, s.head + 1 + gap))
    case DoSplit(p, e, ms, target, newId, gap) =>
      Committed(s, SplitEntity(s, p, e, ms, target, newId, s.head + 1 + gap))
    case DoOpen(m, e, at) => var r := OpenMembership(s, m, e, at); if r.Ok? then r.value else s
    case DoEntity(e) => s.(entities := s.entities + {e})
    case DoPropose(id, c) => if id in s.candidates then s else s.(candidates := s.candidates[id := c])
    case DoClaim(id, draft, literal, symmetric, required) =>
      var r := RecordClaim(s, id, draft, literal, symmetric, required); if r.Ok? then r.value else s
    case DoRetract(id, reason) => var r := RetractClaim(s, id, reason); if r.Ok? then r.value else s
  }

  ghost predicate AnchorIsSafe(s: Tables, mention: Option<Id>, e: Option<Id>) {
    mention.Some? && e.Some? && EntityOf(s.memberships, mention.value).None? ==> OpenIsSafe(s, e.value, None)
  }

  ghost predicate ClaimIsSafe(s: Tables, draft: Claim, symmetric: bool) {
    var c := Normalized(draft, symmetric);
    && AnchorIsSafe(s, c.subjectMention, Some(c.subjectId))
    && var r := CheckAnchor(s, c.subjectMention, Some(c.subjectId));
       r.Ok? ==> AnchorIsSafe(r.value, c.objectMention, c.objectId)
  }

  /** The side condition of a well-formed run: it concerns accepted opens only. */
  ghost predicate Safe(s: Tables, op: Op) {
    && (op.DoOpen? && OpenMembership(s, op.mention, op.entity, op.at).Ok? ==> OpenIsSafe(s, op.entity, op.at))
    && (op.DoClaim? && RecordClaim(s, op.id, op.draft, op.literal, op.symmetric, op.anchorRequired).Ok? ==>
          ClaimIsSafe(s, op.draft, op.symmetric))
  }

  lemma OpensNothing(s: Tables, op: Op)
    requires !op.DoOpen? && !op.DoClaim?
    ensures Safe(s, op)
  {
  }

  ghost function Run(s: Tables, ops: seq<Op>): Tables
    decreases |ops|
  {
    if ops == [] then s else Run(Apply(s, ops[0]), ops[1..])
  }

  ghost predicate WellFormed(s: Tables, ops: seq<Op>)
    decreases |ops|
  {
    ops == [] || (Safe(s, ops[0]) && WellFormed(Apply(s, ops[0]), ops[1..]))
  }

  /** The migrated, empty store: revision 0 and nothing else. */
  const BASELINE: Tables := Tables({}, [], 0, {}, map[], {}, [], map[], map[])

  lemma BaselineValid()
    ensures Valid(BASELINE)
  {
    assert Ranked(map[], _ => 0);
    forall e ensures Lookup(map[], e) == Root(map[], e) {
      RootStep(map[], e);
    }
  }

  // ------------------------------------------------------------------- steps

  lemma AnchorValid(s: Tables, mention: Option<Id>, e: Option<Id>)
    requires Valid(s) && AnchorIsSafe(s, mention, e) && CheckAnchor(s, mention, e).Ok?
    ensures var s' := CheckAnchor(s, mention, e).value;
      && Valid(s') && LineageOf(s') == LineageOf(s)
      && s.memberships <= s'.memberships
      && s' == s.(memberships := s'.memberships)
      && (mention.Some? ==> e.Some? && EverIn(s'.memberships, mention.value, e.value))
  {
    if mention.Some? {
      if EntityOf(s.memberships, mention.value).None? {
        OpenValid(s, mention.value, e.value, None);
        OpenAddsHolder(s, mention.value, e.value);
      } else {
        EntityOfRow(s.memberships, mention.value, e.value);
      }
    }
  }

  lemma EverInMore(ms: set<Membership>, ms': set<Membership>, m: Id, e: Id)
    requires ms <= ms' && EverIn(ms, m, e)
    ensures EverIn(ms', m, e)
  {
  }

  lemma ClaimValid(s: Tables, id: Id, draft: Claim, literal: bool, symmetric: bool, required: bool)
    requires Valid(s) && ClaimIsSafe(s, draft, symmetric)
    requires RecordClaim(s, id, draft, literal, symmetric, required).Ok?
    ensures var s' := RecordClaim(s, id, draft, literal, symmetric, required).value;
      Valid(s') && LineageOf(s') == LineageOf(s) && s.memberships <= s'.memberships
  {
    hide Held, EverHeld, Exclusive, HandedOver, LineageMatches, MapCurrent, EntityOf, EverIn, CheckAnchor, OpenIsSafe,
      Before, DecisionsInOrder, Replay;
    var c := Normalized(draft, symmetric);
    var s1 := CheckAnchor(s, c.subjectMention, Some(c.subjectId)).value;
    AnchorValid(s, c.subjectMention, Some(c.subjectId));
    var s2 := CheckAnchor(s1, c.objectMention, c.objectId).value;
    AnchorValid(s1, c.objectMention, c.objectId);
    var s' := s2.(claims := s.claims[id := c.(retracted := false)]);
    assert RecordClaim(s, id, draft, literal, symmetric, required) == Ok(s');
    assert LineageOf(s') == LineageOf(s2);
    if c.subjectMention.Some? {
      EverInMore(s1.memberships, s2.memberships, c.subjectMention.value, c.subjectId);
    }
  }

  lemma RetractValid(s: Tables, id: Id, reason: string)
    requires Valid(s) && RetractClaim(s, id, reason).Ok?
    ensures Valid(RetractClaim(s, id, reason).value)
    ensures LineageOf(RetractClaim(s, id, reason).value) == LineageOf(s)
  {
  }

  lemma QuietValid(s: Tables, op: Op)
    requires Valid(s) && (op.DoReject? || op.DoUnresolved? || op.DoEntity? || op.DoPropose?)
    ensures Valid(Apply(s, op)) && LineageOf(Apply(s, op)) == LineageOf(s)
    ensures Apply(s, op).memberships == s.memberships
  {
    hide Held, EverHeld, Exclusive, HandedOver, LineageMatches, MapCurrent, Replay,
      Constrain, ConfirmMatch, SplitEntity, OpenMembership, RecordClaim, RetractClaim, DecisionsInOrder;
    var s' := Apply(s, op);
    match op
    case DoReject(p, a, b, c, gap) =>
      if s' != s {
        QuietDecision(s, Decision(Reject, p, s.head + 1 + gap, c, {a, b}), s');
      }
    case DoUnresolved(p, a, b, c, gap) =>
      if s' != s {
        QuietDecision(s, Decision(Unresolved, p, s.head + 1 + gap, c, {a, b}), s');
      }
    case DoEntity(e) =>
      assert LineageOf(s') == LineageOf(s);
    case DoPropose(id, c) =>
      assert LineageOf(s') == LineageOf(s);
  }

  lemma ApplyValid(s: Tables, op: Op)
    requires Valid(s) && Safe(s, op)
    ensures Valid(Apply(s, op))
  {
    hide Valid, ConfirmMatch, SplitEntity, OpenMembership, RecordClaim, RetractClaim, OpenIsSafe, ClaimIsSafe,
      LineageOf, Merges, Move, Held, ScopeCurrent;
    match op
    case DoConfirm(p, a, b, c, gap) =>
      var survivor, absorbed := ConfirmValid(s, p, a, b, c, s.head + 1 + gap);
    case DoSplit(p, e, ms, target, newId, gap) =>
      SplitValid(s, p, e, ms, target, newId, s.head + 1 + gap);
    case DoOpen(m, e, at) =>
      if OpenMembership(s, m, e, at).Ok? { OpenValid(s, m, e, at); }
    case DoClaim(id, draft, literal, symmetric, required) =>
      if RecordClaim(s, id, draft, literal, symmetric, required).Ok? {
        ClaimValid(s, id, draft, literal, symmetric, required);
      }
    case DoRetract(id, reason) =>
      if RetractClaim(s, id, reason).Ok? { RetractValid(s, id, reason); }
    case _ =>
      QuietValid(s, op);
  }

  lemma {:induction false} RunValid(s: Tables, ops: seq<Op>)
    requires Valid(s) && WellFormed(s, ops)
    ensures Valid(Run(s, ops))
    decreases |ops|
  {
    hide Valid, Safe, Apply;
    if ops == [] {
    } else {
      ApplyValid(s, ops[0]);
      RunValid(Apply(s, ops[0]), ops[1..]);
    }
  }

  // --------------------------------------------------------- forest over runs

  /** After every well-formed run: no cycle, holders are roots, and whatever ever held
      a mention resolves to an entity that holds one now. The walk never refuses. */
  lemma ForestOverRuns(ops: seq<Op>)
    requires WellFormed(BASELINE, ops)
    ensures var s := Run(BASELINE, ops);
      var parent := LineageOf(s);
      && Forest(parent)
      && (forall e :: Resolve(parent, e).Some?)
      && (forall e :: Held(s.memberships, e) != {} ==> Resolve(parent, e) == Some(e))
      && (forall e :: e in EverHeld(s.memberships) ==>
            Held(s.memberships, Resolve(parent, e).value) != {})
      && (forall e :: Lookup(s.canonical, e) == Resolve(parent, e).value)
  {
    BaselineValid();
    RunValid(BASELINE, ops);
    ResolvesToHolders(Run(BASELINE, ops));
  }

  lemma ResolvesToHolders(s: Tables)
    requires Valid(s)
    ensures var parent := LineageOf(s);
      && (forall e :: Resolve(parent, e).Some?)
      && (forall e :: Held(s.memberships, e) != {} ==> Resolve(parent, e) == Some(e))
      && (forall e :: e in EverHeld(s.memberships) ==> Held(s.memberships, Resolve(parent, e).value) != {})
  {
    var parent := LineageOf(s);
    ForestIffResolves(parent);
    ValidIsCoherent(s);
    var rank: Id -> nat :| Ranked(parent, rank);
    forall e | e in EverHeld(s.memberships)
      ensures Held(s.memberships, Root(parent, e)) != {}
    {
      RootWithin(parent, e, EverHeld(s.memberships), rank);
      RootStep(parent, e);
    }
  }
}
