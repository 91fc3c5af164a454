/** What the ledger writes down besides memberships, said of the rows themselves: every decision in
    full, the candidate it settles and the pair it rejects, over every run, well-formed or not
    (aegis/er/adjudication.py:163-190, 348-401, 521-535). */
module LedgerRecords {
  import opened Common
  import opened Store
  import opened LedgerRuns
  import opened LedgerRows
  import opened LedgerConstraints

  // ----------------------------------------------------------------- decisions

  /** What the write would put into the log. */
  function Recorded(op: Op, rev: nat): Option<Decision> {
    match op
    case DoConfirm(p, a, b, k, _) => Some(Decision(Confirm, p, rev, k, {a, b}))
    case DoReject(p, a, b, k, _) => Some(Decision(Reject, p, rev, k, {a, b}))
    case DoUnresolved(p, a, b, k, _) => Some(Decision(Unresolved, p, rev, k, {a, b}))
    case DoSplit(p, _, mentions, _, _, _) => Some(Decision(Split, p, rev, None, mentions))
    case _ => None
  }

  predicate Adjudicates(op: Op) { op.DoConfirm? || op.DoReject? || op.DoUnresolved? || op.DoSplit? }

  function Gap(op: Op): nat
    requires Adjudicates(op)
  {
    op.gap
  }

  /** An adjudication is refused and leaves no trace, or adds one decision, in full, at a new head;
      no other write adds one. */
  lemma DecisionIsRecorded(s: Tables, op: Op)
    ensures var s' := Apply(s, op);
      if Adjudicates(op) then
        s' == s || (s'.head == s.head + 1 + Gap(op) && s'.decisions == s.decisions + [Recorded(op, s'.head).value])
      else s'.head == s.head && s'.decisions == s.decisions
  {
    hide ConfirmMatch, SplitEntity, RecordClaim, RejectMatch, MarkUnresolved, OpenMembership;
    match op
    case DoConfirm(p, a, b, k, gap) =>
      if ConfirmMatch(s, p, a, b, k, s.head + 1 + gap).Ok? {
        var survivor, absorbed := ConfirmEffect(s, p, a, b, k, s.head + 1 + gap);
      }
    case DoReject(p, a, b, k, gap) => RejectRecorded(s, p, a, b, k, s.head + 1 + gap);
    case DoUnresolved(p, a, b, k, gap) => UnresolvedRecorded(s, p, a, b, k, s.head + 1 + gap);
    case DoSplit(p, e, ms, target, newId, gap) =>
      if SplitEntity(s, p, e, ms, target, newId, s.head + 1 + gap).Ok? {
        SplitEffect(s, p, e, ms, target, newId, s.head + 1 + gap);
      }
    case DoOpen(m, e, at) =>
      if OpenMembership(s, m, e, at).Ok? {
        OpenEffect(s, m, e, at);
      }
    case DoClaim(id, draft, literal, symmetric, required) =>
      hide CheckAnchor, Drafted;
      if RecordClaim(s, id, draft, literal, symmetric, required).Ok? {
        var s1, s2 := ClaimEffect(s, id, draft, literal, symmetric, required);
        var c := Normalized(draft, symmetric);
        AnchorKeepsDecisions(s, c.subjectMention, Some(c.subjectId));
        AnchorKeepsDecisions(s1, c.objectMention, c.objectId);
      }
    case _ =>
  }

  lemma RejectRecorded(s: Tables, p: nat, a: Id, b: Id, candidate: Option<Id>, rev: nat)
    ensures var r := RejectMatch(s, p, a, b, candidate, rev);
      r.Ok? ==>
        && r.value.tables.head == rev
        && r.value.tables.decisions == s.decisions + [Decision(Reject, p, rev, candidate, {a, b})]
  {
    hide Settle, Constrain;
  }

  lemma UnresolvedRecorded(s: Tables, p: nat, a: Id, b: Id, candidate: Option<Id>, rev: nat)
    ensures var r := MarkUnresolved(s, p, a, b, candidate, rev);
      r.Ok? ==>
        && r.value.tables.head == rev
        && r.value.tables.decisions == s.decisions + [Decision(Unresolved, p, rev, candidate, {a, b})]
  {
    hide Settle;
  }

  // ---------------------------------------------------------------- candidates

  function CandidateOf(op: Op): Option<Id> {
    match op
    case DoConfirm(_, _, _, k, _) => k
    case DoReject(_, _, _, k, _) => k
    case DoUnresolved(_, _, _, k, _) => k
    case _ => None
  }

  /** The row says that the decision settled it, and says so as a decision of that kind does. */
  predicate SettledBy(c: Candidate, k: Id, d: Decision) {
    && d.candidate == Some(k) && c.decision == Some(d.resultRevision)
    && match d.kind
       case Confirm => c.disposition == Confirmed
       case Reject => c.disposition == Rejected
       case Unresolved => c.disposition == MarkedUnresolved
       case _ => false
  }

  /** As the producers insert it, or a migration retires it. */
  predicate Unsettled(c: Candidate) {
    (c.disposition == Open || c.disposition == Superseded) && c.decision.None?
  }

  /** The table with one row settled: open before, it says what was decided and by which decision. */
  predicate SettlesRow(cs: map<Id, Candidate>, cs': map<Id, Candidate>, k: Id, d: Decision) {
    && cs'.Keys == cs.Keys
    && (forall id :: id in cs && id != k ==> cs'[id] == cs[id])
    && k in cs && cs[k].disposition == Open && SettledBy(cs'[k], k, d)
    && cs'[k].mentionA == cs[k].mentionA && cs'[k].mentionB == cs[k].mentionB
    && cs'[k].preVerified == cs[k].preVerified
  }

  /** An accepted adjudication that names a candidate found it open, writes what was decided and
      the decision into its row, and touches no other row; one that names none touches no row. */
  lemma SettlesOneRow(s: Tables, op: Op)
    requires Adjudicates(op) && Apply(s, op) != s
    ensures var s' := Apply(s, op);
      var k := CandidateOf(op);
      if k.None? then s'.candidates == s.candidates
      else SettlesRow(s.candidates, s'.candidates, k.value, Recorded(op, s'.head).value)
  {
    hide ConfirmMatch, SplitEntity, RejectMatch, MarkUnresolved, SettlesRow;
    DecisionIsRecorded(s, op);
    match op
    case DoConfirm(p, a, b, k, gap) =>
      ConfirmSettles(s, p, a, b, k, s.head + 1 + gap);
      SettleSettles(s.candidates, k, Confirmed, Recorded(op, s.head + 1 + gap).value);
    case DoReject(p, a, b, k, gap) =>
      RejectSettles(s, p, a, b, k, s.head + 1 + gap);
      SettleSettles(s.candidates, k, Rejected, Recorded(op, s.head + 1 + gap).value);
    case DoUnresolved(p, a, b, k, gap) =>
      UnresolvedSettles(s, p, a, b, k, s.head + 1 + gap);
      SettleSettles(s.candidates, k, MarkedUnresolved, Recorded(op, s.head + 1 + gap).value);
    case DoSplit(p, e, ms, target, newId, gap) =>
      SplitSettlesNone(s, p, e, ms, target, newId, s.head + 1 + gap);
  }

  lemma SettleSettles(cs: map<Id, Candidate>, k: Option<Id>, disposition: Disposition, d: Decision)
    requires Settle(cs, k, disposition, d.resultRevision).Ok? && d.candidate == k
    requires match d.kind
             case Confirm => disposition == Confirmed
             case Reject => disposition == Rejected
             case Unresolved => disposition == MarkedUnresolved
             case _ => false
    ensures var cs' := Settle(cs, k, disposition, d.resultRevision).value;
      if k.None? then cs' == cs else SettlesRow(cs, cs', k.value, d)
  {
  }

  lemma RejectSettles(s: Tables, p: nat, a: Id, b: Id, candidate: Option<Id>, rev: nat)
    requires RejectMatch(s, p, a, b, candidate, rev).Ok?
    ensures var s' := RejectMatch(s, p, a, b, candidate, rev).value.tables;
      Settle(s.candidates, candidate, Rejected, rev) == Ok(s'.candidates) && s'.claims == s.claims
      && s'.entities == s.entities
  {
    hide Settle, Constrain;
  }

  lemma UnresolvedSettles(s: Tables, p: nat, a: Id, b: Id, candidate: Option<Id>, rev: nat)
    requires MarkUnresolved(s, p, a, b, candidate, rev).Ok?
    ensures var s' := MarkUnresolved(s, p, a, b, candidate, rev).value.tables;
      Settle(s.candidates, candidate, MarkedUnresolved, rev) == Ok(s'.candidates) && s'.claims == s.claims
      && s'.entities == s.entities
      && s'.constraints == s.constraints
  {
    hide Settle;
  }

  lemma ConfirmSettles(s: Tables, p: nat, a: Id, b: Id, candidate: Option<Id>, rev: nat)
    requires ConfirmMatch(s, p, a, b, candidate, rev).Ok?
    ensures var s' := ConfirmMatch(s, p, a, b, candidate, rev).value.tables;
      Settle(s.candidates, candidate, Confirmed, rev) == Ok(s'.candidates) && s'.constraints == s.constraints
      && s'.claims == s.claims
  {
    hide Settle, Move, Held, EntityOf, LineageOf, EntitiesOf, ScopeCurrent, Orphans, MovedMentions;
  }

  lemma SplitSettlesNone(s: Tables, p: nat, e: Id, mentions: set<Id>, target: Option<Id>, newId: Id, rev: nat)
    requires SplitEntity(s, p, e, mentions, target, newId, rev).Ok?
    ensures var s' := SplitEntity(s, p, e, mentions, target, newId, rev).value.tables;
      s'.candidates == s.candidates && s'.constraints == s.constraints && s'.claims == s.claims
  {
    hide Move, Held, LineageOf, ScopeCurrent, Orphans, MovedMentions, UnattributableClaims;
  }

  /** The candidate table and the log tell one story: a settled candidate names a decision that
      names it and is of its kind, and every decision that names a candidate settled it. */
  ghost predicate CandidatesTell(s: Tables) {
    && (forall k {:trigger Settled(s, k)} :: k in s.candidates && !Unsettled(s.candidates[k]) ==> Settled(s, k))
    && (forall i :: 0 <= i < |s.decisions| && s.decisions[i].candidate.Some? ==> NamesItsCandidate(s, s.decisions[i]))
  }

  ghost predicate Settled(s: Tables, k: Id)
    requires k in s.candidates
  {
    exists i :: 0 <= i < |s.decisions| && SettledBy(s.candidates[k], k, s.decisions[i])
  }

  ghost predicate NamesItsCandidate(s: Tables, d: Decision)
    requires d.candidate.Some?
  {
    d.candidate.value in s.candidates && SettledBy(s.candidates[d.candidate.value], d.candidate.value, d)
  }

  predicate ProposesUnsettled(op: Op) { op.DoPropose? ==> Unsettled(op.candidate_) }

  lemma ApplyTells(s: Tables, op: Op)
    requires CandidatesTell(s) && ProposesUnsettled(op)
    ensures CandidatesTell(Apply(s, op))
  {
    hide Unsettled, SettledBy, Recorded, Apply, SettlesRow;
    var s' := Apply(s, op);
    DecisionIsRecorded(s, op);
    if s' == s {
    } else if Adjudicates(op) {
      SettlesOneRow(s, op);
      RecordedNames(op, s'.head);
      if CandidateOf(op).Some? {
        TellsAfter(s, s', CandidateOf(op).value, Recorded(op, s'.head).value);
      } else {
        StillTells(s, s');
      }
    } else {
      OnlyProposes(s, op);
      StillTells(s, s');
    }
  }

  lemma RecordedNames(op: Op, rev: nat)
    requires Adjudicates(op)
    ensures Recorded(op, rev).Some? && Recorded(op, rev).value.candidate == CandidateOf(op)
    ensures Recorded(op, rev).value.resultRevision == rev
  {
  }

  /** A write that is no adjudication leaves every candidate row alone and inserts at most an unsettled one. */
  lemma OnlyProposes(s: Tables, op: Op)
    requires !Adjudicates(op) && ProposesUnsettled(op)
    ensures var s' := Apply(s, op);
      && s.candidates.Keys <= s'.candidates.Keys
      && (forall k :: k in s.candidates ==> s'.candidates[k] == s.candidates[k])
      && (forall k :: k in s'.candidates && k !in s.candidates ==> Unsettled(s'.candidates[k]))
  {
    hide OpenMembership, RecordClaim, RetractClaim, Unsettled, Recorded, SettledBy;
    match op
    case DoOpen(m, e, at) =>
      if OpenMembership(s, m, e, at).Ok? {
        OpenEffect(s, m, e, at);
      }
    case DoClaim(id, draft, literal, symmetric, required) =>
      if RecordClaim(s, id, draft, literal, symmetric, required).Ok? {
        ClaimEffects(s, id, draft, literal, symmetric, required);
      }
    case DoRetract(id, reason) => RetractEffects(s, id, reason);
    case _ =>
  }

  lemma ClaimEffects(s: Tables, id: Id, draft: Claim, literal: bool, symmetric: bool, required: bool)
    requires RecordClaim(s, id, draft, literal, symmetric, required).Ok?
    ensures var s' := RecordClaim(s, id, draft, literal, symmetric, required).value;
      s' == s.(memberships := s'.memberships, claims := s'.claims)
  {
    hide RecordClaim, CheckAnchor;
    var s1, s2 := ClaimEffect(s, id, draft, literal, symmetric, required);
    var c := Normalized(draft, symmetric);
    AnchorOpensOnly(s, c.subjectMention, Some(c.subjectId));
    AnchorOpensOnly(s1, c.objectMention, c.objectId);
  }

  lemma AnchorOpensOnly(s: Tables, mention: Option<Id>, e: Option<Id>)
    requires CheckAnchor(s, mention, e).Ok?
    ensures var s' := CheckAnchor(s, mention, e).value; s' == s.(memberships := s'.memberships)
  {
    hide CheckAnchor, OpenMembership;
    AnchorEffect(s, mention, e);
    if CheckAnchor(s, mention, e).value != s {
      OpenEffect(s, mention.value, e.value, None);
    }
  }

  lemma RetractEffects(s: Tables, id: Id, reason: string)
    ensures var r := RetractClaim(s, id, reason); r.Ok? ==> r.value == s.(claims := r.value.claims)
  {
    hide Blank;
  }

  lemma StillTells(s: Tables, s': Tables)
    requires CandidatesTell(s)
    requires s.candidates.Keys <= s'.candidates.Keys
    requires forall k :: k in s.candidates ==> s'.candidates[k] == s.candidates[k]
    requires forall k :: k in s'.candidates && k !in s.candidates ==> Unsettled(s'.candidates[k])
    requires s'.decisions == s.decisions
      || (exists d: Decision :: s'.decisions == s.decisions + [d] && d.candidate.None?)
    ensures CandidatesTell(s')
  {
    hide Unsettled, SettledBy;
    forall k | k in s'.candidates && !Unsettled(s'.candidates[k]) ensures Settled(s', k) {
      assert Settled(s, k);
      var i :| 0 <= i < |s.decisions| && SettledBy(s.candidates[k], k, s.decisions[i]);
      assert s'.decisions[i] == s.decisions[i];
    }
    forall i | 0 <= i < |s'.decisions| && s'.decisions[i].candidate.Some?
      ensures NamesItsCandidate(s', s'.decisions[i])
    {
      assert i < |s.decisions| && s'.decisions[i] == s.decisions[i];
      assert NamesItsCandidate(s, s.decisions[i]);
    }
  }

  lemma TellsAfter(s: Tables, s': Tables, k: Id, d: Decision)
    requires CandidatesTell(s) && s'.decisions == s.decisions + [d] && d.candidate == Some(k)
    requires SettlesRow(s.candidates, s'.candidates, k, d)
    ensures CandidatesTell(s')
  {
    WasUnsettled(s, k);
    hide Unsettled, SettledBy;
    forall j | j in s'.candidates && !Unsettled(s'.candidates[j]) ensures Settled(s', j) {
      if j == k {
        assert s'.decisions[|s.decisions|] == d;
      } else {
        assert Settled(s, j);
        var i :| 0 <= i < |s.decisions| && SettledBy(s.candidates[j], j, s.decisions[i]);
        assert s'.decisions[i] == s.decisions[i];
      }
    }
    forall i | 0 <= i < |s'.decisions| && s'.decisions[i].candidate.Some?
      ensures NamesItsCandidate(s', s'.decisions[i])
    {
      if i < |s.decisions| {
        assert s'.decisions[i] == s.decisions[i];
        assert NamesItsCandidate(s, s.decisions[i]);
      }
    }
  }

  /** No decision named an open candidate before. */
  lemma WasUnsettled(s: Tables, k: Id)
    requires CandidatesTell(s) && k in s.candidates && s.candidates[k].disposition == Open
    ensures forall i :: 0 <= i < |s.decisions| ==> s.decisions[i].candidate != Some(k)
  {
    forall i | 0 <= i < |s.decisions| && s.decisions[i].candidate.Some? ensures NamesItsCandidate(s, s.decisions[i]) {
    }
  }

  /** Over every run, well-formed or not, whose producers insert unsettled rows. */
  lemma {:induction false} CandidatesTellOverRuns(s: Tables, ops: seq<Op>)
    requires CandidatesTell(s) && forall i :: 0 <= i < |ops| ==> ProposesUnsettled(ops[i])
    ensures CandidatesTell(Run(s, ops))
    decreases |ops|
  {
    hide CandidatesTell, ProposesUnsettled, Apply;
    if ops == [] {
    } else {
      ApplyTells(s, ops[0]);
      CandidatesTellOverRuns(Apply(s, ops[0]), ops[1..]);
    }
  }

  /** So from the migrated store on a candidate reads confirmed, rejected or unresolved exactly when
      a decision of that kind names it, and no other decision does. */
  lemma SettledIff(ops: seq<Op>, k: Id)
    requires forall i :: 0 <= i < |ops| ==> ProposesUnsettled(ops[i])
    requires k in Run(BASELINE, ops).candidates
    ensures var s := Run(BASELINE, ops);
      var c := s.candidates[k];
      && (c.disposition == Confirmed <==> exists d :: d in s.decisions && d.candidate == Some(k) && d.kind == Confirm)
      && (c.disposition == Rejected <==> exists d :: d in s.decisions && d.candidate == Some(k) && d.kind == Reject)
      && (c.disposition == MarkedUnresolved
          <==> exists d :: d in s.decisions && d.candidate == Some(k) && d.kind == Unresolved)
      && (forall d :: d in s.decisions && d.candidate == Some(k) ==> c.decision == Some(d.resultRevision))
  {
    hide Run, ProposesUnsettled;
    CandidatesTellOverRuns(BASELINE, ops);
    var s := Run(BASELINE, ops);
    var c := s.candidates[k];
    forall d | d in s.decisions && d.candidate == Some(k) ensures SettledBy(c, k, d) {
      var i :| 0 <= i < |s.decisions| && s.decisions[i] == d;
      assert NamesItsCandidate(s, s.decisions[i]);
    }
    if !Unsettled(c) {
      assert Settled(s, k);
      var i :| 0 <= i < |s.decisions| && SettledBy(c, k, s.decisions[i]);
      assert s.decisions[i] in s.decisions;
    }
  }

  /** A settled or retired row never changes again, whatever is decided. */
  lemma {:induction false} SettledForGood(s: Tables, ops: seq<Op>, k: Id)
    requires k in s.candidates && s.candidates[k].disposition != Open
    ensures k in Run(s, ops).candidates && Run(s, ops).candidates[k] == s.candidates[k]
    decreases |ops|
  {
    hide Apply;
    if ops == [] {
    } else {
      RowKept(s, ops[0], k);
      SettledForGood(Apply(s, ops[0]), ops[1..], k);
    }
  }

  lemma RowKept(s: Tables, op: Op, k: Id)
    requires k in s.candidates && s.candidates[k].disposition != Open
    ensures k in Apply(s, op).candidates && Apply(s, op).candidates[k] == s.candidates[k]
  {
    hide Apply, Recorded;
    if Apply(s, op) == s {
    } else if Adjudicates(op) {
      SettlesOneRow(s, op);
    } else if op.DoPropose? {
      ProposeKeeps(s, op.id, op.candidate_, k);
    } else {
      OnlyProposes(s, op);
    }
  }

  lemma ProposeKeeps(s: Tables, id: Id, c: Candidate, k: Id)
    requires k in s.candidates
    ensures k in Apply(s, DoPropose(id, c)).candidates && Apply(s, DoPropose(id, c)).candidates[k] == s.candidates[k]
  {
  }

  // --------------------------------------------------------------- constraints

  function Rejections(ds: seq<Decision>): seq<Decision> {
    if ds == [] then []
    else Rejections(ds[..|ds| - 1]) + if ds[|ds| - 1].kind == Reject then [ds[|ds| - 1]] else []
  }

  /** The constraint is what the rejection wrote: its two mentions, smaller id first, and its revision. */
  predicate WrittenBy(c: Constraint, d: Decision) {
    && d.inputs == {c.mentionA, c.mentionB} && Before(c.mentionA, c.mentionB) && c.decision == d.resultRevision
  }

  /** One constraint for each rejection in the log, in the same order, and no other. */
  ghost predicate ConstraintsTell(s: Tables) {
    var rs := Rejections(s.decisions);
    |s.constraints| == |rs| && forall i :: 0 <= i < |rs| ==> WrittenBy(s.constraints[i], rs[i])
  }

  /** An accepted rejection adds the constraint it reports, in force, and rewrites no earlier one
      but for what superseded it. */
  lemma RejectWrites(s: Tables, p: nat, a: Id, b: Id, candidate: Option<Id>, rev: nat)
    requires RejectMatch(s, p, a, b, candidate, rev).Ok?
    ensures var o := RejectMatch(s, p, a, b, candidate, rev).value;
      var cs, cs' := s.constraints, o.tables.constraints;
      && o.constraint == Some(|cs|) && |cs'| == |cs| + 1
      && WrittenBy(cs'[|cs|], Decision(Reject, p, rev, candidate, {a, b})) && cs'[|cs|].supersededBy.None?
      && (forall i :: 0 <= i < |cs| ==> cs'[i] == cs[i].(supersededBy := cs'[i].supersededBy))
  {
    hide Settle, Before, LatestConstraint;
    LowBeforeHigh(a, b);
  }

  lemma RejectionsNext(ds: seq<Decision>, d: Decision)
    ensures Rejections(ds + [d]) == Rejections(ds) + if d.kind == Reject then [d] else []
  {
    assert (ds + [d])[..|ds|] == ds;
  }

  lemma ApplyWrites(s: Tables, op: Op)
    requires ConstraintsTell(s)
    ensures ConstraintsTell(Apply(s, op))
  {
    hide Apply, Recorded, WrittenBy, Rejections, RejectMatch;
    var s' := Apply(s, op);
    DecisionIsRecorded(s, op);
    if s' == s {
    } else if op.DoReject? {
      var rev := s.head + 1 + op.gap;
      RejectApplied(s, op.parentRevision, op.a, op.b, op.candidate, op.gap);
      RejectWrites(s, op.parentRevision, op.a, op.b, op.candidate, rev);
      var d := Decision(Reject, op.parentRevision, rev, op.candidate, {op.a, op.b});
      RejectionsNext(s.decisions, d);
      forall i | 0 <= i < |s.constraints| ensures WrittenBy(s'.constraints[i], Rejections(s.decisions)[i]) {
        WrittenAlike(s.constraints[i], s'.constraints[i], Rejections(s.decisions)[i]);
      }
    } else {
      ConstraintsKept(s, op);
      if Adjudicates(op) {
        RecordedKind(op, s'.head);
        RejectionsNext(s.decisions, Recorded(op, s'.head).value);
      }
    }
  }

  lemma WrittenAlike(c: Constraint, c': Constraint, d: Decision)
    requires WrittenBy(c, d) && c' == c.(supersededBy := c'.supersededBy)
    ensures WrittenBy(c', d)
  {
  }

  lemma RecordedKind(op: Op, rev: nat)
    requires Adjudicates(op) && !op.DoReject?
    ensures Recorded(op, rev).Some? && Recorded(op, rev).value.kind != Reject
  {
  }

  lemma RejectApplied(s: Tables, p: nat, a: Id, b: Id, candidate: Option<Id>, gap: nat)
    requires Apply(s, DoReject(p, a, b, candidate, gap)) != s
    ensures var r := RejectMatch(s, p, a, b, candidate, s.head + 1 + gap);
      && r.Ok? && Apply(s, DoReject(p, a, b, candidate, gap)) == r.value.tables
      && r.value.tables.decisions
         == s.decisions + [Decision(Reject, p, s.head + 1 + gap, candidate, {a, b})]
  {
    hide RejectMatch;
    RejectRecorded(s, p, a, b, candidate, s.head + 1 + gap);
  }

  lemma ConstraintsKept(s: Tables, op: Op)
    requires !op.DoReject?
    ensures Apply(s, op).constraints == s.constraints
  {
    hide ConfirmMatch, SplitEntity, MarkUnresolved, OpenMembership, RecordClaim, RetractClaim;
    match op
    case DoConfirm(p, a, b, k, gap) =>
      if ConfirmMatch(s, p, a, b, k, s.head + 1 + gap).Ok? {
        ConfirmSettles(s, p, a, b, k, s.head + 1 + gap);
      }
    case DoUnresolved(p, a, b, k, gap) =>
      if MarkUnresolved(s, p, a, b, k, s.head + 1 + gap).Ok? {
        UnresolvedSettles(s, p, a, b, k, s.head + 1 + gap);
      }
    case DoSplit(p, e, ms, target, newId, gap) =>
      if SplitEntity(s, p, e, ms, target, newId, s.head + 1 + gap).Ok? {
        SplitSettlesNone(s, p, e, ms, target, newId, s.head + 1 + gap);
      }
    case DoOpen(m, e, at) =>
      if OpenMembership(s, m, e, at).Ok? {
        OpenEffect(s, m, e, at);
      }
    case DoClaim(id, draft, literal, symmetric, required) =>
      if RecordClaim(s, id, draft, literal, symmetric, required).Ok? {
        ClaimEffects(s, id, draft, literal, symmetric, required);
      }
    case DoRetract(id, reason) => RetractEffects(s, id, reason);
    case _ =>
  }

  /** Over every run, well-formed or not, the constraints are the rejections of the log. */
  lemma {:induction false} ConstraintsTellOverRuns(s: Tables, ops: seq<Op>)
    requires ConstraintsTell(s)
    ensures ConstraintsTell(Run(s, ops))
    decreases |ops|
  {
    hide ConstraintsTell, Apply;
    if ops == [] {
    } else {
      ApplyWrites(s, ops[0]);
      ConstraintsTellOverRuns(Apply(s, ops[0]), ops[1..]);
    }
  }
}
