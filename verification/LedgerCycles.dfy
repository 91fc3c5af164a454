/** Runs without the side condition on opens: the lineage never has a cycle all the same,
    and exactly which confirms the rebuild then refuses (aegis/er/canonical.py:53-105). */
module LedgerCycles {
  import opened Common
  import opened Lineage
  import opened Lists
  import opened Store
  import opened LedgerInvariant
  import opened LedgerSteps
  import opened LedgerOpens
  import opened LedgerRuns
  import opened LedgerRows
  import opened LedgerSplit

  /** The lineage as it stood before the last decision. */
  ghost function BeforeLast(s: Tables): Parent {
    if s.decisions == [] then map[] else Replay(s.memberships, s.decisions[..|s.decisions| - 1])
  }

  ghost predicate MergeOpens(s: Tables) {
    LastDecision(s).Some? && Merging(LastDecision(s).value.kind) ==> Opened(s.memberships, s.head) != {}
  }

  ghost predicate Acyclic(s: Tables) {
    && RowsSound(s) && DecisionsInOrder(s.decisions, s.head)
    && Forest(LineageOf(s)) && Forest(BeforeLast(s))
    && MergeOpens(s)
  }

  lemma BaselineAcyclic()
    ensures Acyclic(BASELINE)
  {
    BaselineValid();
  }

  // --------------------------------------------------------------- one more link

  /** A link from `a` to `s` closes a cycle if and only if the chain from `s` reaches `a`. */
  lemma LinkClosesCycleIff(parent: Parent, a: Id, s: Id)
    requires Forest(parent) && a != s
    ensures Forest(parent[a := s]) <==> !Reaches(parent, s, a)
    ensures Reaches(parent, s, a) ==> Resolve(parent[a := s], s).None?
  {
    if Reaches(parent, s, a) {
      var n: nat :| ReachesIn(parent, s, a, n);
      RefusesExactlyCycles(parent[a := s], s);
      ForestIffResolves(parent[a := s]);
      if LeavesEventually(parent[a := s], s) {
        var k: nat :| Leaves(parent[a := s], s, k);
        RoundAndRound(parent, a, s, n, s, n, k);
      }
    } else {
      LinkRanked(parent, a, s);
    }
  }

  /** Whatever reaches `a` never leaves once `a` leads back to `s`. */
  lemma {:induction false} RoundAndRound(parent: Parent, a: Id, s: Id, back: nat, e: Id, n: nat, k: nat)
    requires ReachesIn(parent, s, a, back) && ReachesIn(parent, e, a, n)
    ensures !Leaves(parent[a := s], e, k)
    decreases k
  {
    if k == 0 {
    } else if n == 0 {
      RoundAndRound(parent, a, s, back, s, back, k - 1);
    } else {
      RoundAndRound(parent, a, s, back, parent[e], n - 1, k - 1);
    }
  }

  lemma ReachesNext(parent: Parent, e: Id, t: Id)
    requires e in parent && e != t
    ensures Reaches(parent, e, t) <==> Reaches(parent, parent[e], t)
  {
    if Reaches(parent, e, t) {
      var n: nat :| ReachesIn(parent, e, t, n);
      assert ReachesIn(parent, parent[e], t, n - 1);
    }
    if Reaches(parent, parent[e], t) {
      var n: nat :| ReachesIn(parent, parent[e], t, n);
      assert ReachesIn(parent, e, t, n + 1);
    }
  }

  lemma LinkRanked(parent: Parent, a: Id, s: Id)
    requires Forest(parent) && a != s && !Reaches(parent, s, a)
    ensures Forest(parent[a := s])
  {
    var rank: Id -> nat :| Ranked(parent, rank);
    var rank' := e => rank(e) + if Reaches(parent, e, a) then rank(s) + 1 else 0;
    var linked := parent[a := s];
    forall e | e in linked ensures rank'(linked[e]) < rank'(e) {
      if e == a {
        ReachesItself(parent, a);
      } else {
        ReachesNext(parent, e, a);
      }
    }
    assert Ranked(linked, rank');
  }

  // -------------------------------------------------------------- when a confirm refuses

  /** The lineage a confirm would leave: one link more. */
  lemma MergedLineage(s: Tables, d: Decision, absorbed: Id, survivor: Id, s1: Tables)
    requires RowsSound(s) && DecisionsInOrder(s.decisions, s.head) && s.head < d.resultRevision && d.kind == Confirm
    requires absorbed != survivor && Held(s.memberships, absorbed) != {}
    requires s1.memberships == Move(s.memberships, Held(s.memberships, absorbed), survivor, d.resultRevision)
    requires s1.decisions == s.decisions + [d] && s1.head == d.resultRevision
    requires s1.entities == s.entities + {survivor}
    ensures RowsSound(s1) && DecisionsInOrder(s1.decisions, s1.head)
    ensures LineageOf(s1) == LineageOf(s)[absorbed := survivor]
    ensures BeforeLast(s1) == LineageOf(s) && MergeOpens(s1)
  {
    hide Held, Move, Replay, ReplayStep, Exclusive, HandedOver;
    var held := Held(s.memberships, absorbed);
    MoveSound(s, held, absorbed, survivor, s1);
    MoveOpenedNow(s.memberships, held, absorbed, survivor, s1.head);
    forall r: nat | r <= s.head
      ensures Opened(s1.memberships, r) == Opened(s.memberships, r)
      ensures Closed(s1.memberships, r) == Closed(s.memberships, r)
    {
      MoveKeepsPast(s.memberships, held, survivor, s1.head, r);
    }
    ReplayNext(s.memberships, s1.memberships, s.decisions, d, s.head);
    MergeStep(LineageOf(s), absorbed, survivor);
    assert s1.decisions[..|s1.decisions| - 1] == s.decisions;
    ReplayAfterMove(s, held, survivor, s1.head);
  }

  lemma {:induction false} ReplayKeys(ms: set<Membership>, ds: seq<Decision>)
    ensures Replay(ms, ds).Keys <= EverHeld(ms)
  {
    if ds == [] {
    } else {
      var d := ds[|ds| - 1];
      ReplayKeys(ms, ds[..|ds| - 1]);
      forall e | e in Closed(ms, d.resultRevision) ensures e in EverHeld(ms) {
        var r :| r in ms && r.closedAt == Some(d.resultRevision) && r.entity == e;
      }
    }
  }

  /** The rebuild refuses if and only if the lineage has a cycle. */
  lemma RebuildRefusesIff(s: Tables)
    requires RowsSound(s)
    ensures Rebuild(s).Ok? <==> Forest(LineageOf(s))
  {
    hide Resolve, Orphans, Tiled;
    ForestIffResolves(LineageOf(s));
    if Rebuild(s).Ok? {
      forall e ensures Resolve(LineageOf(s), e).Some? {
        if e !in s.entities {
          ReplayKeys(s.memberships, s.decisions);
          EverHeldInRange(s);
          OutsideResolves(LineageOf(s), e);
        }
      }
    }
  }

  lemma OutsideResolves(parent: Parent, e: Id)
    requires e !in parent
    ensures Resolve(parent, e) == Some(e)
  {
  }

  /** The refusal of a confirm whose guards all pass: the survivor's own chain leads to the
      entity it would absorb. Well-formed runs never get there, since holders are roots. */
  lemma ConfirmRefusedIff(s: Tables, p: nat, a: Id, b: Id, candidate: Option<Id>, rev: nat)
    returns (survivor: Id, absorbed: Id)
    requires RowsSound(s) && DecisionsInOrder(s.decisions, s.head) && Forest(LineageOf(s)) && s.head < rev
    requires |EntitiesOf(s.memberships, {a, b})| >= 2
    requires ScopeCurrent(s.memberships, p, EntitiesOf(s.memberships, {a, b}))
    requires Settle(s.candidates, candidate, Confirmed, rev).Ok?
    ensures ConfirmPair(s, a, b, survivor, absorbed)
    ensures var r := ConfirmMatch(s, p, a, b, candidate, rev);
      && (r == Err(CorruptLineage) <==> Reaches(LineageOf(s), survivor, absorbed))
      && (r.Ok? <==> !Reaches(LineageOf(s), survivor, absorbed))
  {
    hide Held, Move, EntityOf, EntitiesOf, ScopeCurrent, Ids, MovedMentions, Rebuild, LineageOf, Settle, Reaches, Tiled;
    RowsTiled(s);
    ScopeOfPair(s.memberships, a, b);
    survivor, absorbed := EntityOf(s.memberships, a).value, EntityOf(s.memberships, b).value;
    EntityOfRow(s.memberships, b, absorbed);
    var d := Decision(Confirm, p, rev, candidate, {a, b});
    var candidates := Settle(s.candidates, candidate, Confirmed, rev).value;
    var s1 := Moved(s, d, Held(s.memberships, absorbed), survivor).(candidates := candidates);
    MergedLineage(s, d, absorbed, survivor, s1);
    RebuildRefusesIff(s1);
    LinkClosesCycleIff(LineageOf(s), absorbed, survivor);
    RebuildResult(s1);
  }

  lemma RowsTiled(s: Tables)
    requires RowsSound(s)
    ensures Exclusive(s.memberships)
  {
  }

  lemma RebuildResult(s: Tables)
    ensures Rebuild(s).Ok? || Rebuild(s) == Err(CorruptLineage)
  {
  }

  // ----------------------------------------------------------------- acyclic over runs

  lemma ConfirmAcyclic(s: Tables, p: nat, a: Id, b: Id, candidate: Option<Id>, rev: nat)
    requires Acyclic(s) && s.head < rev && ConfirmMatch(s, p, a, b, candidate, rev).Ok?
    ensures Acyclic(ConfirmMatch(s, p, a, b, candidate, rev).value.tables)
  {
    hide Held, Move, EntityOf, EntitiesOf, ConfirmMatch, RowsSound, LineageOf, CanMove, Forest, BeforeLast, MergeOpens;
    var survivor, absorbed := ConfirmMoves(s, p, a, b, candidate, rev);
    var s' := ConfirmMatch(s, p, a, b, candidate, rev).value.tables;
    ConfirmGuards(s, p, a, b, candidate, rev);
    var sv, ab := ConfirmRefusedIff(s, p, a, b, candidate, rev);
    LinkClosesCycleIff(LineageOf(s), absorbed, survivor);
    HoldsSomething(s.memberships, absorbed, survivor, rev);
    MergedLineage(s, Decision(Confirm, p, rev, candidate, {a, b}), absorbed, survivor, s');
  }

  lemma ConfirmGuards(s: Tables, p: nat, a: Id, b: Id, candidate: Option<Id>, rev: nat)
    requires ConfirmMatch(s, p, a, b, candidate, rev).Ok?
    ensures |EntitiesOf(s.memberships, {a, b})| >= 2
    ensures ScopeCurrent(s.memberships, p, EntitiesOf(s.memberships, {a, b}))
    ensures Settle(s.candidates, candidate, Confirmed, rev).Ok?
  {
    hide Held, Move, EntityOf, EntitiesOf, ScopeCurrent, Ids, MovedMentions, Rebuild, Settle;
  }

  lemma HoldsSomething(ms: set<Membership>, source: Id, target: Id, rev: nat)
    requires CanMove(ms, Held(ms, source), source, target, rev)
    ensures Held(ms, source) != {}
  {
  }

  lemma SplitAcyclic(s: Tables, p: nat, e: Id, mentions: set<Id>, target: Option<Id>, newId: Id, rev: nat)
    requires Acyclic(s) && s.head < rev
    ensures var r := SplitEntity(s, p, e, mentions, target, newId, rev);
      r != Err(CorruptLineage) && (r.Ok? ==> Acyclic(r.value.tables))
  {
    hide Held, Move, RowsSound, LineageOf, Forest, BeforeLast, ScopeCurrent, Ids, MovedMentions, Rebuild,
      UnattributableClaims;
    var r := SplitEntity(s, p, e, mentions, target, newId, rev);
    var to := Target(target, newId);
    var d := Decision(Split, p, rev, None, mentions);
    var s1 := Moved(s, d, mentions, to);
    if r.Ok? || r == Err(CorruptLineage) {
      SplitMoved(s, d, e, mentions, to, s1);
      RebuildRefusesIff(s1);
      if r.Ok? {
        RebuildOnly(s1);
        SameAcyclic(s1, r.value.tables);
      }
    }
  }

  lemma SplitMoved(s: Tables, d: Decision, e: Id, mentions: set<Id>, to: Id, s1: Tables)
    requires Acyclic(s) && s.head < d.resultRevision && d.kind == Split
    requires mentions != {} && mentions <= Held(s.memberships, e) && s1 == Moved(s, d, mentions, to)
    ensures Acyclic(s1)
  {
    hide Held, Move, Replay, Exclusive, HandedOver, Opened, Closed;
    if e == to {
      MoveNothing(s.memberships, mentions, e, d.resultRevision);
    } else {
      MoveSound(s, mentions, e, to, s1);
    }
    forall r: nat | r <= s.head
      ensures Opened(s1.memberships, r) == Opened(s.memberships, r)
      ensures Closed(s1.memberships, r) == Closed(s.memberships, r)
    {
      MoveKeepsPast(s.memberships, mentions, to, d.resultRevision, r);
    }
    ReplayNext(s.memberships, s1.memberships, s.decisions, d, s.head);
    CutKeepsForest(LineageOf(s), Opened(s1.memberships, d.resultRevision));
    assert s1.decisions[..|s1.decisions| - 1] == s.decisions;
    ReplayAfterMove(s, mentions, to, d.resultRevision);
  }

  lemma RebuildOnly(s: Tables)
    requires Rebuild(s).Ok?
    ensures SameButMap(s, Rebuild(s).value)
  {
    hide Resolve, Orphans, Replay;
  }

  /** Only rows, decisions, head and the entities the rows name matter. */
  lemma SameAcyclic(s: Tables, s': Tables)
    requires Acyclic(s)
    requires s'.memberships == s.memberships && s'.decisions == s.decisions && s'.head == s.head
    requires s.entities <= s'.entities
    ensures Acyclic(s')
  {
    hide Tiled, Replay, Forest, DecisionsInOrder;
  }

  /** A decision that moves nothing. */
  lemma QuietAcyclic(s: Tables, d: Decision, s': Tables)
    requires Acyclic(s) && s.head < d.resultRevision && (d.kind.Reject? || d.kind.Unresolved?)
    requires s'.memberships == s.memberships && s'.decisions == s.decisions + [d] && s'.head == d.resultRevision
    requires s'.entities == s.entities
    ensures Acyclic(s')
  {
    hide Tiled, Replay, Forest, Opened, Closed;
    ReplayNext(s.memberships, s.memberships, s.decisions, d, s.head);
    assert s'.decisions[..|s'.decisions| - 1] == s.decisions;
  }

  /** An open on the head revision undoes the head's merge or does nothing; an open on the
      baseline does nothing. */
  lemma OpenAcyclic(s: Tables, m: Id, e: Id, at: Option<nat>)
    requires Acyclic(s) && OpenMembership(s, m, e, at).Ok? && (at.Some? ==> at.value == 0)
    ensures Acyclic(OpenMembership(s, m, e, at).value)
  {
    hide EntityOf, OpenMembership, RowsSound, Forest, Replay, ReplayStep;
    OpenEffect(s, m, e, at);
    OpenKeepsRows(s, m, e, at);
    var s' := OpenMembership(s, m, e, at).value;
    var rev := if at.Some? then at.value else s.head;
    if s.decisions != [] {
      ReplayBefore(s, m, e, rev, s.decisions[..|s.decisions| - 1]);
    }
    OpenRevisions(s.memberships, m, e, rev, s.head);
    if at.Some? {
      ReplayBefore(s, m, e, 0, s.decisions);
    } else {
      ReplayAfterOpen(s, m, e);
      if LastDecision(s).Some? {
        OneMoreGainer(s, e);
      }
    }
  }

  lemma OneMoreGainer(s: Tables, e: Id)
    requires Acyclic(s) && LastDecision(s).Some?
    ensures Forest(ReplayStep(BeforeLast(s), LastDecision(s).value.kind,
                              Opened(s.memberships, s.head) + {e}, Closed(s.memberships, s.head)))
  {
    hide Opened, Closed, Forest, RowsSound, DecisionsInOrder;
    var gained := Opened(s.memberships, s.head);
    var kind := LastDecision(s).value.kind;
    if Merging(kind) {
      if e in gained {
        assert gained + {e} == gained;
      } else {
        var w :| w in gained;
        MoreThanOne(gained + {e}, w, e);
      }
    } else if kind.Split? {
      CutKeepsForest(BeforeLast(s), gained + {e});
    }
  }

  lemma AnchorAcyclic(s: Tables, mention: Option<Id>, e: Option<Id>)
    requires Acyclic(s) && CheckAnchor(s, mention, e).Ok?
    ensures Acyclic(CheckAnchor(s, mention, e).value)
  {
    hide Acyclic, CheckAnchor, OpenMembership;
    AnchorEffect(s, mention, e);
    if CheckAnchor(s, mention, e).value != s {
      OpenAcyclic(s, mention.value, e.value, None);
    }
  }

  /** An explicit open revision is the baseline, as in the migration. */
  predicate OpensAtBaseline(op: Op) { op.DoOpen? && op.at.Some? ==> op.at.value == 0 }

  lemma ApplyAcyclic(s: Tables, op: Op)
    requires Acyclic(s) && OpensAtBaseline(op)
    ensures Acyclic(Apply(s, op))
  {
    hide Acyclic, ConfirmMatch, SplitEntity, OpenMembership, RecordClaim, CheckAnchor, Constrain, Settle, Before, Blank;
    match op
    case DoConfirm(p, a, b, c, gap) =>
      if ConfirmMatch(s, p, a, b, c, s.head + 1 + gap).Ok? { ConfirmAcyclic(s, p, a, b, c, s.head + 1 + gap); }
    case DoSplit(p, e, ms, target, newId, gap) => SplitAcyclic(s, p, e, ms, target, newId, s.head + 1 + gap);
    case DoReject(p, a, b, c, gap) =>
      if Apply(s, op) != s {
        QuietAcyclic(s, Decision(Reject, p, s.head + 1 + gap, c, {a, b}), Apply(s, op));
      }
    case DoUnresolved(p, a, b, c, gap) =>
      if Apply(s, op) != s {
        QuietAcyclic(s, Decision(Unresolved, p, s.head + 1 + gap, c, {a, b}), Apply(s, op));
      }
    case DoOpen(m, e, at) =>
      if OpenMembership(s, m, e, at).Ok? { OpenAcyclic(s, m, e, at); }
    case DoClaim(id, draft, literal, symmetric, required) =>
      if RecordClaim(s, id, draft, literal, symmetric, required).Ok? {
        var c := Normalized(draft, symmetric);
        var s1, s2 := ClaimEffect(s, id, draft, literal, symmetric, required);
        AnchorAcyclic(s, c.subjectMention, Some(c.subjectId));
        AnchorAcyclic(s1, c.objectMention, c.objectId);
        SameAcyclic(s2, Apply(s, op));
      }
    case _ => SameAcyclic(s, Apply(s, op));
  }

  lemma {:induction false} RunAcyclic(s: Tables, ops: seq<Op>)
    requires Acyclic(s) && forall i | 0 <= i < |ops| :: OpensAtBaseline(ops[i])
    ensures Acyclic(Run(s, ops))
    decreases |ops|
  {
    hide Acyclic, Apply, OpensAtBaseline;
    if ops == [] {
    } else {
      ApplyAcyclic(s, ops[0]);
      forall i | 0 <= i < |ops[1..]| ensures OpensAtBaseline(ops[1..][i]) {
        assert ops[1..][i] == ops[i + 1];
      }
      RunAcyclic(Apply(s, ops[0]), ops[1..]);
    }
  }

  /** Over every run, wherever its opens and anchors land: the lineage has no cycle, and the
      walk refuses nothing. */
  lemma NoCycleInAnyRun(ops: seq<Op>)
    requires forall i | 0 <= i < |ops| :: OpensAtBaseline(ops[i])
    ensures var s := Run(BASELINE, ops);
      && Forest(LineageOf(s)) && (forall e :: Resolve(LineageOf(s), e).Some?)
      && RowsSound(s) && DecisionsInOrder(s.decisions, s.head)
  {
    hide Run, OpensAtBaseline, RowsSound, DecisionsInOrder, Resolve, LineageOf;
    BaselineAcyclic();
    RunAcyclic(BASELINE, ops);
    ForestIffResolves(LineageOf(Run(BASELINE, ops)));
  }

  // ------------------------------------------------------------ refusals in any run

  ghost predicate GuardsPass(s: Tables, p: nat, a: Id, b: Id, candidate: Option<Id>, rev: nat) {
    && |EntitiesOf(s.memberships, {a, b})| >= 2
    && ScopeCurrent(s.memberships, p, EntitiesOf(s.memberships, {a, b}))
    && Settle(s.candidates, candidate, Confirmed, rev).Ok?
  }

  /** The chain from the entity of `a` leads to the entity of `b`. */
  ghost predicate LeadsTo(s: Tables, a: Id, b: Id) {
    var survivor, absorbed := EntityOf(s.memberships, a), EntityOf(s.memberships, b);
    survivor.Some? && absorbed.Some? && Reaches(LineageOf(s), survivor.value, absorbed.value)
  }

  /** In any run a split is never refused for its lineage, and a confirm is if and only if its
      guards pass and its survivor's chain leads to the entity it would absorb. */
  lemma RefusalsInAnyRun(ops: seq<Op>, p: nat, a: Id, b: Id, candidate: Option<Id>, rev: nat,
                         e: Id, mentions: set<Id>, target: Option<Id>, newId: Id)
    requires forall i | 0 <= i < |ops| :: OpensAtBaseline(ops[i])
    requires Run(BASELINE, ops).head < rev
    ensures var s := Run(BASELINE, ops);
      && SplitEntity(s, p, e, mentions, target, newId, rev) != Err(CorruptLineage)
      && (ConfirmMatch(s, p, a, b, candidate, rev) == Err(CorruptLineage)
          <==> GuardsPass(s, p, a, b, candidate, rev) && LeadsTo(s, a, b))
  {
    hide Run, OpensAtBaseline, ConfirmMatch, SplitEntity, GuardsPass, LeadsTo, Acyclic;
    BaselineAcyclic();
    RunAcyclic(BASELINE, ops);
    SplitAcyclic(Run(BASELINE, ops), p, e, mentions, target, newId, rev);
    ConfirmLeadsTo(Run(BASELINE, ops), p, a, b, candidate, rev);
  }

  lemma ConfirmLeadsTo(s: Tables, p: nat, a: Id, b: Id, candidate: Option<Id>, rev: nat)
    requires Acyclic(s) && s.head < rev
    ensures ConfirmMatch(s, p, a, b, candidate, rev) == Err(CorruptLineage)
      <==> GuardsPass(s, p, a, b, candidate, rev) && LeadsTo(s, a, b)
  {
    hide RowsSound, DecisionsInOrder, LineageOf, ConfirmMatch, EntityOf, EntitiesOf, ScopeCurrent, Settle, Reaches,
      Forest, BeforeLast, MergeOpens;
    if ConfirmMatch(s, p, a, b, candidate, rev) == Err(CorruptLineage) {
      CorruptOnlyLast(s, p, a, b, candidate, rev);
    }
    if GuardsPass(s, p, a, b, candidate, rev) {
      var survivor, absorbed := ConfirmRefusedIff(s, p, a, b, candidate, rev);
    }
  }

  lemma CorruptOnlyLast(s: Tables, p: nat, a: Id, b: Id, candidate: Option<Id>, rev: nat)
    requires ConfirmMatch(s, p, a, b, candidate, rev) == Err(CorruptLineage)
    ensures GuardsPass(s, p, a, b, candidate, rev)
  {
    hide Held, Move, EntityOf, EntitiesOf, ScopeCurrent, Ids, MovedMentions, Rebuild;
  }
}
