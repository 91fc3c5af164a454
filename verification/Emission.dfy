/** The two candidate producers: the rule run (aegis/er/rules.py:265-320) and the Splink
    loop (aegis/er/splink_job.py:250-303). Both only propose; neither moves a membership. */
module Emission {
  import opened Common
  import opened Store
  import opened LedgerRuns
  import opened LedgerConstraints
  import opened Lists
  import opened Matcher
  import opened MatcherOrder

  /** A pair put forward by a producer; rules compute no score. */
  datatype Proposal = Proposal(pair: (Id, Id), score: Option<real>, preVerified: bool)

  datatype Fate = BelowThreshold | SameEntity | SuppressedConstraint | AlreadyOpen | Emitted

  /** What a run reads once, before its loop. */
  datatype Gate = Gate(entityOf: map<Id, Id>, constrained: set<(Id, Id)>, threshold: real, absentAgree: bool) {

    function Entity(m: Id): Option<Id> { if m in entityOf then Some(entityOf[m]) else None }

    /** Already one entity. The rule run asks for an entity; the Splink loop compares the
        two lookups as they are, so two absent mentions agree. */
    predicate Same(p: (Id, Id)) {
      Entity(p.0) == Entity(p.1) && (absentAgree || Entity(p.0).Some?)
    }
  }

  function FateOf(gate: Gate, existing: set<(Id, Id)>, p: Proposal): Fate {
    if p.score.Some? && p.score.value < gate.threshold then BelowThreshold
    else if gate.Same(p.pair) then SameEntity
    else if p.pair in gate.constrained then SuppressedConstraint
    else if p.pair in existing then AlreadyOpen
    else Emitted
  }

  function PairsOf(q: seq<Proposal>): set<(Id, Id)> { set p | p in q :: p.pair }

  /** The proposals that become candidates, in order. */
  function Kept(gate: Gate, existing: set<(Id, Id)>, q: seq<Proposal>): seq<Proposal> {
    if q == [] then [] else
    var before := Kept(gate, existing, q[..|q| - 1]);
    var last := q[|q| - 1];
    if FateOf(gate, existing + PairsOf(before), last) == Emitted then before + [last] else before
  }

  /** How many proposals met the given fate. */
  function Tally(gate: Gate, existing: set<(Id, Id)>, q: seq<Proposal>, fate: Fate): nat {
    if q == [] then 0 else
    var front := q[..|q| - 1];
    Tally(gate, existing, front, fate)
    + if FateOf(gate, existing + PairsOf(Kept(gate, existing, front)), q[|q| - 1]) == fate then 1 else 0
  }

  // -------------------------------------------------------------- what is kept

  /** Nothing is lost: every proposal has one fate, and the emitted ones are the kept ones. */
  lemma {:induction false} TalliesAddUp(gate: Gate, existing: set<(Id, Id)>, q: seq<Proposal>)
    ensures Tally(gate, existing, q, Emitted) == |Kept(gate, existing, q)|
    ensures Tally(gate, existing, q, BelowThreshold) + Tally(gate, existing, q, SameEntity)
      + Tally(gate, existing, q, SuppressedConstraint) + Tally(gate, existing, q, AlreadyOpen)
      + Tally(gate, existing, q, Emitted) == |q|
  {
    hide FateOf, PairsOf;
    if q == [] {
    } else {
      TalliesAddUp(gate, existing, q[..|q| - 1]);
    }
  }

  /** A pair is kept exactly when some proposal of it passes every gate as the run starts,
      however often it is proposed. */
  lemma {:induction false} KeptIff(gate: Gate, existing: set<(Id, Id)>, q: seq<Proposal>, pair: (Id, Id))
    ensures pair in PairsOf(Kept(gate, existing, q))
      <==> exists p :: p in q && p.pair == pair && FateOf(gate, existing, p) == Emitted
    ensures forall p :: p in Kept(gate, existing, q) ==> p in q
  {
    if q == [] {
    } else {
      var front, last := q[..|q| - 1], q[|q| - 1];
      assert q == front + [last];
      KeptIff(gate, existing, front, pair);
      var before := Kept(gate, existing, front);
      assert PairsOf(before + [last]) == PairsOf(before) + {last.pair};
    }
  }

  /** No pair is emitted twice in one run. */
  lemma {:induction false} KeptOnce(gate: Gate, existing: set<(Id, Id)>, q: seq<Proposal>)
    ensures |PairsOf(Kept(gate, existing, q))| == |Kept(gate, existing, q)|
    ensures PairsOf(Kept(gate, existing, q)) !! existing
    ensures PairsOf(Kept(gate, existing, q)) !! gate.constrained
  {
    if q == [] {
    } else {
      var front, last := q[..|q| - 1], q[|q| - 1];
      KeptOnce(gate, existing, front);
      var before := Kept(gate, existing, front);
      assert PairsOf(before + [last]) == PairsOf(before) + {last.pair};
    }
  }

  /** A run over proposals that were all there before, after the first run's candidates
      were stored, keeps nothing: not even in another order or with repeats. */
  lemma {:induction false} RerunKeepsNothing(gate: Gate, existing: set<(Id, Id)>, q: seq<Proposal>, r: seq<Proposal>)
    requires forall p :: p in r ==> p in q
    ensures Kept(gate, existing + PairsOf(Kept(gate, existing, q)), r) == []
  {
    if r == [] {
    } else {
      var front, last := r[..|r| - 1], r[|r| - 1];
      RerunKeepsNothing(gate, existing, q, front);
      KeptIff(gate, existing, q, last.pair);
      assert last in q;
      assert PairsOf([]) == {};
    }
  }

  // ------------------------------------------------------------ candidate rows

  /** Pairs that already have a candidate row. */
  function ProposedPairs(candidates: map<Id, Candidate>): set<(Id, Id)> {
    set id | id in candidates && candidates[id].disposition != Superseded
      :: (candidates[id].mentionA, candidates[id].mentionB)
  }

  /** Fresh row ids never repeat and are not in use. */
  ghost predicate Fresh(newId: nat -> Id, used: set<Id>) {
    && (forall i: nat :: newId(i) !in used)
    && (forall i: nat, j: nat :: i < j ==> newId(i) != newId(j))
  }

  function RowFor(p: Proposal): Candidate { Candidate(p.pair.0, p.pair.1, p.preVerified, Open, None) }

  /** The candidate table after the kept proposals were added. */
  function WithRows(candidates: map<Id, Candidate>, newId: nat -> Id, kept: seq<Proposal>): map<Id, Candidate> {
    if kept == [] then candidates
    else WithRows(candidates, newId, kept[..|kept| - 1])[newId(|kept| - 1) := RowFor(kept[|kept| - 1])]
  }

  /** Every earlier row stays, and every other row has one of the new ids. */
  lemma {:induction false} WithRowsKeeps(candidates: map<Id, Candidate>, newId: nat -> Id, kept: seq<Proposal>)
    requires Fresh(newId, candidates.Keys)
    ensures forall id :: id in candidates ==> id in WithRows(candidates, newId, kept)
                                              && WithRows(candidates, newId, kept)[id] == candidates[id]
    ensures forall id :: id in WithRows(candidates, newId, kept) && id !in candidates ==>
      exists i: nat :: i < |kept| && id == newId(i)
  {
    if kept == [] {
    } else {
      WithRowsKeeps(candidates, newId, kept[..|kept| - 1]);
      var id := newId(|kept| - 1);
      assert id !in candidates;
    }
  }

  /** Storing the kept proposals adds exactly their pairs to the proposed ones and leaves
      every earlier row alone. */
  lemma {:induction false} WithRowsAdds(candidates: map<Id, Candidate>, newId: nat -> Id, kept: seq<Proposal>)
    requires Fresh(newId, candidates.Keys)
    ensures forall id :: id in candidates ==> id in WithRows(candidates, newId, kept)
                                              && WithRows(candidates, newId, kept)[id] == candidates[id]
    ensures forall id :: id in WithRows(candidates, newId, kept) && id !in candidates ==>
      exists i: nat :: i < |kept| && id == newId(i)
    ensures ProposedPairs(WithRows(candidates, newId, kept)) == ProposedPairs(candidates) + PairsOf(kept)
    ensures |WithRows(candidates, newId, kept)| == |candidates| + |kept|
  {
    WithRowsKeeps(candidates, newId, kept);
    WithRowsCount(candidates, newId, kept);
  }

  lemma {:induction false} WithRowsCount(candidates: map<Id, Candidate>, newId: nat -> Id, kept: seq<Proposal>)
    requires Fresh(newId, candidates.Keys)
    ensures ProposedPairs(WithRows(candidates, newId, kept)) == ProposedPairs(candidates) + PairsOf(kept)
    ensures |WithRows(candidates, newId, kept)| == |candidates| + |kept|
  {
    hide PairsOf, ProposedPairs, WithRows;
    if kept == [] {
      NothingYet(candidates, newId);
    } else {
      var front, last := kept[..|kept| - 1], kept[|kept| - 1];
      assert kept == front + [last];
      WithRowsCount(candidates, newId, front);
      OneMoreRow(candidates, newId, front, last);
      NewIdIsNew(candidates, newId, front);
      AddRow(WithRows(candidates, newId, front), newId(|front|), RowFor(last));
    }
  }

  lemma NewIdIsNew(candidates: map<Id, Candidate>, newId: nat -> Id, kept: seq<Proposal>)
    requires Fresh(newId, candidates.Keys)
    ensures newId(|kept|) !in WithRows(candidates, newId, kept)
  {
    hide WithRows;
    WithRowsKeeps(candidates, newId, kept);
  }

  lemma NothingYet(candidates: map<Id, Candidate>, newId: nat -> Id)
    ensures PairsOf([]) == {} && WithRows(candidates, newId, []) == candidates
  {
  }

  lemma AddRow(candidates: map<Id, Candidate>, id: Id, row: Candidate)
    requires id !in candidates && row.disposition != Superseded
    ensures ProposedPairs(candidates[id := row]) == ProposedPairs(candidates) + {(row.mentionA, row.mentionB)}
    ensures |candidates[id := row]| == |candidates| + 1
  {
    var after := candidates[id := row];
    assert after.Keys == candidates.Keys + {id};
    forall x | x in candidates ensures x in after && after[x] == candidates[x] {}
    assert id in after;
  }

  /** Storing a run's candidates and running again over the same proposals changes nothing. */
  lemma RerunAddsNothing(gate: Gate, candidates: map<Id, Candidate>, newId: nat -> Id, again: nat -> Id,
                         q: seq<Proposal>, r: seq<Proposal>)
    requires Fresh(newId, candidates.Keys)
    requires forall p :: p in r ==> p in q
    ensures var after := WithRows(candidates, newId, Kept(gate, ProposedPairs(candidates), q));
      WithRows(after, again, Kept(gate, ProposedPairs(after), r)) == after
  {
    WithRowsAdds(candidates, newId, Kept(gate, ProposedPairs(candidates), q));
    RerunKeepsNothing(gate, ProposedPairs(candidates), q, r);
  }

  /** Once a human rejected a pair, no later run of either producer proposes it, in
      either order, whatever was decided in between. */
  lemma RejectedStaysRejected(s: Tables, parentRevision: nat, a: Id, b: Id, candidate: Option<Id>, rev: nat,
                              ops: seq<Op>, gate: Gate, existing: set<(Id, Id)>, q: seq<Proposal>)
    requires Versioned(s.constraints)
    requires RejectMatch(s, parentRevision, a, b, candidate, rev).Ok?
    requires var rejected := RejectMatch(s, parentRevision, a, b, candidate, rev).value.tables;
      gate.constrained == Constrained(Run(rejected, ops).constraints)
    requires forall p :: p in q ==> !Before(p.pair.1, p.pair.0)
    ensures (a, b) !in PairsOf(Kept(gate, existing, q)) && (b, a) !in PairsOf(Kept(gate, existing, q))
  {
    hide Run, Versioned, Constrained, Constrain, Kept, PairsOf;
    var rejected := RejectMatch(s, parentRevision, a, b, candidate, rev).value.tables;
    LowBeforeHigh(a, b);
    ConstrainVersioned(s.constraints, Low(a, b), High(a, b), rev);
    RejectionIsPermanent(rejected, ops);
    assert (Low(a, b), High(a, b)) in gate.constrained;
    KeptOnce(gate, existing, q);
    KeptIff(gate, existing, q, (High(a, b), Low(a, b)));
  }

  // ------------------------------------------------------------------ rule run

  datatype RunReport = RunReport(emitted: nat, preVerified: nat, alreadyOpen: nat, suppressedConflict: nat,
                                 suppressedConstraint: nat, sameEntity: nat, belowThreshold: nat)

  function PreVerified(q: seq<Proposal>): nat {
    if q == [] then 0 else PreVerified(q[..|q| - 1]) + if q[|q| - 1].preVerified then 1 else 0
  }

  /** The report a run over the proposals makes. */
  function Reported(gate: Gate, existing: set<(Id, Id)>, q: seq<Proposal>, conflicts: nat): RunReport {
    RunReport(Tally(gate, existing, q, Emitted), PreVerified(Kept(gate, existing, q)),
              Tally(gate, existing, q, AlreadyOpen), conflicts, Tally(gate, existing, q, SuppressedConstraint),
              Tally(gate, existing, q, SameEntity), Tally(gate, existing, q, BelowThreshold))
  }

  /** What the identifier rule and the same-document rule put forward. */
  ghost predicate RuleProposal(upper: Upper, obs: seq<Observation>, keys: seq<MentionKey>, p: Proposal) {
    && p.score.None?
    && if p.preVerified then Paired(upper, obs, p.pair.0, p.pair.1) else SameKey(keys, p.pair)
  }

  /** The identifier rule runs first. */
  ghost predicate IdentifiersFirst(q: seq<Proposal>) {
    forall i, j | 0 <= i < j < |q| :: q[j].preVerified ==> q[i].preVerified
  }

  function RuleGate(entityOf: map<Id, Id>, constrained: set<(Id, Id)>): Gate { Gate(entityOf, constrained, 0.0, false) }

  /** The state the emission closure of a rule run shares. */
  class RuleRun {
    const gate: Gate
    const newId: nat -> Id
    ghost const existing0: set<(Id, Id)>
    ghost const candidates0: map<Id, Candidate>
    ghost var seen: seq<Proposal>
    var existing: set<(Id, Id)>
    var candidates: map<Id, Candidate>
    var emitted: nat
    var preVerified: nat
    var alreadyOpen: nat
    var suppressedConstraint: nat
    var sameEntity: nat

    ghost predicate Valid()
      reads this
    {
      && gate == RuleGate(gate.entityOf, gate.constrained)
      && existing == existing0 + PairsOf(Kept(gate, existing0, seen))
      && candidates == WithRows(candidates0, newId, Kept(gate, existing0, seen))
      && emitted == |Kept(gate, existing0, seen)|
      && RunReport(emitted, preVerified, alreadyOpen, 0, suppressedConstraint, sameEntity, 0)
         == Reported(gate, existing0, seen, 0)
    }

    constructor (entityOf: map<Id, Id>, constraints: seq<Constraint>, candidates: map<Id, Candidate>, newId: nat -> Id)
      ensures Valid() && seen == []
      ensures gate == RuleGate(entityOf, Constrained(constraints)) && this.newId == newId
      ensures existing0 == ProposedPairs(candidates) && candidates0 == candidates
    {
      gate, this.newId := RuleGate(entityOf, Constrained(constraints)), newId;
      existing0, candidates0, seen := ProposedPairs(candidates), candidates, [];
      existing, this.candidates := ProposedPairs(candidates), candidates;
      emitted, preVerified, alreadyOpen, suppressedConstraint, sameEntity := 0, 0, 0, 0, 0;
    }

    method Emit(left: Id, right: Id, pre: bool)
      requires Valid()
      modifies this
      ensures Valid() && seen == old(seen) + [Proposal((Low(left, right), High(left, right)), None, pre)]
    {
      hide Reported, Kept, WithRows, PairsOf, Before, Constrained;
      var pair := (Low(left, right), High(left, right));
      ghost var p := Proposal(pair, None, pre);
      ghost var kept := Kept(gate, existing0, seen);
      ReportedNext(gate, existing0, seen, p);
      OneMoreRow(candidates0, newId, kept, p);
      seen := seen + [p];
      if gate.Entity(pair.0).Some? && gate.Entity(pair.0) == gate.Entity(pair.1) {
        sameEntity := sameEntity + 1;
        return;
      }
      if pair in gate.constrained {
        suppressedConstraint := suppressedConstraint + 1;
        return;
      }
      if pair in existing {
        alreadyOpen := alreadyOpen + 1;
        return;
      }
      candidates := candidates[newId(emitted) := Candidate(pair.0, pair.1, pre, Open, None)];
      existing := existing + {pair};
      emitted := emitted + 1;
      if pre {
        preVerified := preVerified + 1;
      }
    }
  }

  /** How one more proposal moves the report. */
  lemma ReportedNext(gate: Gate, existing: set<(Id, Id)>, q: seq<Proposal>, p: Proposal)
    ensures var fate := FateOf(gate, existing + PairsOf(Kept(gate, existing, q)), p);
      var before, after := Reported(gate, existing, q, 0), Reported(gate, existing, q + [p], 0);
      && Kept(gate, existing, q + [p])
         == (if fate == Emitted then Kept(gate, existing, q) + [p] else Kept(gate, existing, q))
      && after == match fate
                  case BelowThreshold => before.(belowThreshold := before.belowThreshold + 1)
                  case SameEntity => before.(sameEntity := before.sameEntity + 1)
                  case SuppressedConstraint => before.(suppressedConstraint := before.suppressedConstraint + 1)
                  case AlreadyOpen => before.(alreadyOpen := before.alreadyOpen + 1)
                  case Emitted => before.(emitted := before.emitted + 1,
                                          preVerified := before.preVerified + if p.preVerified then 1 else 0)
  {
    hide FateOf, PairsOf;
    assert (q + [p])[..|q|] == q;
    var kept := Kept(gate, existing, q);
    assert (kept + [p])[..|kept|] == kept;
  }

  /** What a rule run did to the candidate table, and what it put forward on the way. */
  ghost predicate RuleOutcome(entityOf: map<Id, Id>, constraints: seq<Constraint>, candidates: map<Id, Candidate>,
                              upper: Upper, obs: seq<Observation>, keys: seq<MentionKey>, newId: nat -> Id,
                              after: map<Id, Candidate>, report: RunReport, proposals: seq<Proposal>)
  {
    var gate := RuleGate(entityOf, Constrained(constraints));
    && (forall p :: p in proposals <==> RuleProposal(upper, obs, keys, p))
    && IdentifiersFirst(proposals)
    && after == WithRows(candidates, newId, Kept(gate, ProposedPairs(candidates), proposals))
    && report == Reported(gate, ProposedPairs(candidates), proposals, report.suppressedConflict)
  }

  function IdentifierProposals(pairs: seq<Pair>): seq<Proposal> {
    seq(|pairs|, i requires 0 <= i < |pairs| => Proposal((pairs[i].mentionA, pairs[i].mentionB), None, true))
  }

  function SameKeyProposals(same: seq<(Id, Id)>): seq<Proposal> {
    seq(|same|, i requires 0 <= i < |same| => Proposal(same[i], None, false))
  }

  method EmitIdentifiers(run: RuleRun, pairs: seq<Pair>)
    requires run.Valid() && forall k | 0 <= k < |pairs| :: Before(pairs[k].mentionA, pairs[k].mentionB)
    modifies run
    ensures run.Valid() && run.seen == old(run.seen) + IdentifierProposals(pairs)
  {
    hide Before, Kept, WithRows, Reported, PairsOf;
    var i := 0;
    while i < |pairs|
      invariant 0 <= i <= |pairs|
      invariant run.Valid() && run.seen == old(run.seen) + IdentifierProposals(pairs)[..i]
    {
      BeforeOneWay(pairs[i].mentionA, pairs[i].mentionB);
      run.Emit(pairs[i].mentionA, pairs[i].mentionB, true);
      i := i + 1;
    }
  }

  method EmitSameKey(run: RuleRun, same: seq<(Id, Id)>)
    requires run.Valid() && forall k | 0 <= k < |same| :: Before(same[k].0, same[k].1)
    modifies run
    ensures run.Valid() && run.seen == old(run.seen) + SameKeyProposals(same)
  {
    hide Before, Kept, WithRows, Reported, PairsOf;
    var i := 0;
    while i < |same|
      invariant 0 <= i <= |same|
      invariant run.Valid() && run.seen == old(run.seen) + SameKeyProposals(same)[..i]
    {
      BeforeOneWay(same[i].0, same[i].1);
      run.Emit(same[i].0, same[i].1, false);
      i := i + 1;
    }
  }

  /** The rule run: it proposes exactly what the two rules say, the identifier rule's pairs
      first, stores the first proposal of every pair that passes the gates, and accounts for
      every pair of every group. */
  method RunRules(entityOf: map<Id, Id>, constraints: seq<Constraint>, candidates: map<Id, Candidate>, upper: Upper,
                  obs: seq<Observation>, keys: seq<MentionKey>, newId: nat -> Id)
    returns (after: map<Id, Candidate>, report: RunReport, ghost proposals: seq<Proposal>)
    ensures RuleOutcome(entityOf, constraints, candidates, upper, obs, keys, newId, after, report, proposals)
    ensures report.emitted + report.alreadyOpen + report.suppressedConflict + report.suppressedConstraint
      + report.sameEntity == PairTotal(Mentions(upper, obs)) + PairTotal(ByDocument(keys))
  {
    hide Matcher.Emitted, PairTotal, Kept, Tally, PreVerified, WithRows, Mentions, ByDocument, Before, RuleProposal,
      IdentifiersFirst, SameKey, PairsOf, Reported, Keys, Constrained,
      ProposedPairs;
    var run := new RuleRun(entityOf, constraints, candidates, newId);
    var pairs, conflicts := EvaluateIdentifiers(upper, obs);
    PairsOrdered(upper, obs, pairs);
    EmitIdentifiers(run, pairs);
    var same := EvaluateSameKey(keys);
    SameKeyOrdered(keys, same);
    EmitSameKey(run, same);
    proposals := run.seen;
    assert proposals == IdentifierProposals(pairs) + SameKeyProposals(same);
    AllProposed(upper, obs, keys, pairs, same);
    after := run.candidates;
    report := RunReport(run.emitted, run.preVerified, run.alreadyOpen, conflicts, run.suppressedConstraint,
                        run.sameEntity, 0);
    WithConflicts(run.gate, run.existing0, proposals, report);
  }

  /** The suppressed conflicts are put into the report at the end. */
  lemma WithConflicts(gate: Gate, existing: set<(Id, Id)>, q: seq<Proposal>, report: RunReport)
    requires report.(suppressedConflict := 0) == Reported(gate, existing, q, 0)
    requires forall p :: p in q ==> p.score.None?
    ensures report == Reported(gate, existing, q, report.suppressedConflict)
    ensures report.emitted + report.alreadyOpen + report.suppressedConstraint + report.sameEntity == |q|
  {
    hide Kept, Tally, PreVerified;
    TalliesAddUp(gate, existing, q);
    NoScores(gate, existing, q);
  }

  lemma PairsOrdered(upper: Upper, obs: seq<Observation>, pairs: seq<Pair>)
    requires forall x :: x in pairs ==> Matcher.Emitted(upper, obs, Keys(upper, obs), x)
    ensures forall k | 0 <= k < |pairs| :: Before(pairs[k].mentionA, pairs[k].mentionB)
  {
    hide Matcher.Emitted, Before, Keys;
    forall k | 0 <= k < |pairs| ensures Before(pairs[k].mentionA, pairs[k].mentionB) {
      assert pairs[k] in pairs;
      EmittedHaveWitnesses(upper, obs, pairs[k]);
    }
  }

  lemma SameKeyOrdered(keys: seq<MentionKey>, same: seq<(Id, Id)>)
    requires forall x :: x in same ==> SameKey(keys, x)
    ensures forall k | 0 <= k < |same| :: Before(same[k].0, same[k].1)
  {
    hide Before;
    forall k | 0 <= k < |same| ensures Before(same[k].0, same[k].1) {
      assert SameKey(keys, same[k]);
    }
  }

  /** The two rules' pairs, in the order they are put forward, are the rule proposals. */
  lemma AllProposed(upper: Upper, obs: seq<Observation>, keys: seq<MentionKey>, pairs: seq<Pair>, same: seq<(Id, Id)>)
    requires forall x :: x in pairs <==> Matcher.Emitted(upper, obs, Keys(upper, obs), x)
    requires forall x :: x in same <==> SameKey(keys, x)
    ensures var q := IdentifierProposals(pairs) + SameKeyProposals(same);
      && (forall p :: p in q <==> RuleProposal(upper, obs, keys, p))
      && IdentifiersFirst(q) && forall p :: p in q ==> p.score.None?
  {
    hide Matcher.Emitted, SameKey, Keys;
    var first, second := IdentifierProposals(pairs), SameKeyProposals(same);
    forall p | p in first + second ensures RuleProposal(upper, obs, keys, p) {
      if p in first {
        var k :| 0 <= k < |first| && first[k] == p;
        assert pairs[k] in pairs;
      } else {
        var k :| 0 <= k < |second| && second[k] == p;
        assert same[k] in same;
      }
    }
    forall p | RuleProposal(upper, obs, keys, p) ensures p in first + second {
      if p.preVerified {
        var x :| Matcher.Emitted(upper, obs, Keys(upper, obs), x) && p.pair == (x.mentionA, x.mentionB);
        var k :| 0 <= k < |pairs| && pairs[k] == x;
        assert first[k] == p;
      } else {
        var k :| 0 <= k < |same| && same[k] == p.pair;
        assert second[k] == p;
      }
    }
  }

  // ------------------------------------------------------------ the pre-verified flag

  /** The first proposal of a pair decides its flag, and the identifier rule's come first. */
  lemma {:induction false} KeptFlag(gate: Gate, existing: set<(Id, Id)>, q: seq<Proposal>, p: Proposal)
    requires IdentifiersFirst(q) && (forall r :: r in q ==> r.score.None?) && p in Kept(gate, existing, q)
    ensures p.preVerified <==> exists r :: r in q && r.preVerified && r.pair == p.pair
  {
    hide PairsOf;
    if q == [] {
    } else {
      var front, last := q[..|q| - 1], q[|q| - 1];
      var before := Kept(gate, existing, front);
      assert q == front + [last];
      KeptIff(gate, existing, front, p.pair);
      if p in before {
        KeptFlag(gate, existing, front, p);
      } else {
        NotYetKept(gate, existing, before, p);
      }
    }
  }

  lemma NotYetKept(gate: Gate, existing: set<(Id, Id)>, before: seq<Proposal>, p: Proposal)
    requires FateOf(gate, existing + PairsOf(before), p) == Emitted && p.score.None?
    ensures p.pair !in PairsOf(before)
    ensures forall r: Proposal :: r.score.None? && r.pair == p.pair ==> FateOf(gate, existing, r) == Emitted
  {
  }

  lemma {:induction false} RowOfKept(candidates: map<Id, Candidate>, newId: nat -> Id, kept: seq<Proposal>, i: nat)
    requires Fresh(newId, candidates.Keys) && i < |kept|
    ensures newId(i) in WithRows(candidates, newId, kept)
    ensures WithRows(candidates, newId, kept)[newId(i)] == RowFor(kept[i])
  {
    if i == |kept| - 1 {
    } else {
      RowOfKept(candidates, newId, kept[..|kept| - 1], i);
    }
  }

  /** A newly stored row is pre-verified, so that batch confirm may act on it, if and only if
      the identifier rule emitted its pair, also when the same-document rule proposed it too. */
  lemma FlagIsIdentifiers(entityOf: map<Id, Id>, constraints: seq<Constraint>, candidates: map<Id, Candidate>,
                          upper: Upper, obs: seq<Observation>, keys: seq<MentionKey>, newId: nat -> Id,
                          after: map<Id, Candidate>, report: RunReport, proposals: seq<Proposal>, id: Id)
    requires Fresh(newId, candidates.Keys)
    requires RuleOutcome(entityOf, constraints, candidates, upper, obs, keys, newId, after, report, proposals)
    requires id in after && id !in candidates
    ensures after[id].preVerified <==> Paired(upper, obs, after[id].mentionA, after[id].mentionB)
  {
    hide Kept, WithRows, Reported, Matcher.Emitted, Keys, SameKey, Constrained, IdentifiersFirst, PairsOf,
      ProposedPairs;
    var gate := RuleGate(entityOf, Constrained(constraints));
    var kept := Kept(gate, ProposedPairs(candidates), proposals);
    WithRowsAdds(candidates, newId, kept);
    var i: nat :| i < |kept| && id == newId(i);
    RowOfKept(candidates, newId, kept, i);
    KeptIff(gate, ProposedPairs(candidates), proposals, kept[i].pair);
    KeptFlag(gate, ProposedPairs(candidates), proposals, kept[i]);
    if Paired(upper, obs, kept[i].pair.0, kept[i].pair.1) {
      var p := Proposal(kept[i].pair, None, true);
      assert RuleProposal(upper, obs, keys, p) && p in proposals;
    }
  }

  lemma BeforeOneWay(a: Id, b: Id)
    requires Before(a, b)
    ensures !Before(b, a) && Low(a, b) == a && High(a, b) == b
  {
    BeforeIsStrictOrder();
  }

  lemma {:induction false} NoScores(gate: Gate, existing: set<(Id, Id)>, q: seq<Proposal>)
    requires forall p :: p in q ==> p.score.None?
    ensures Tally(gate, existing, q, BelowThreshold) == 0
  {
    if q == [] {
    } else {
      NoScores(gate, existing, q[..|q| - 1]);
    }
  }

  // ------------------------------------------------------------------ a second run

  /** No pair's candidate depends on the order of the observations. */
  ghost predicate OneWayEach(upper: Upper, obs: seq<Observation>) {
    forall m, n :: Before(m, n) ==> OneWay(upper, obs, m, n)
  }

  /** Reading the same rows in another order puts the same proposals forward. */
  lemma SameProposals(upper: Upper, obs: seq<Observation>, obs': seq<Observation>, keys: seq<MentionKey>,
                      keys': seq<MentionKey>, p: Proposal)
    requires multiset(obs') == multiset(obs) && multiset(keys') == multiset(keys)
    requires obs' == obs || OneWayEach(upper, obs)
    ensures RuleProposal(upper, obs', keys', p) <==> RuleProposal(upper, obs, keys, p)
  {
    hide Paired, OneWay, Before;
    SameElements(keys', keys);
    if obs' != obs {
      PairOrderFreeIff(upper, obs, p.pair.0, p.pair.1);
    }
  }

  /** The documented idempotence: a second rule run on the store the first one left, over the
      same claims and mentions, emits nothing and changes nothing - read in the same order, or
      in any order when no pair's candidate depends on the order. */
  lemma SecondRunIsIdle(entityOf: map<Id, Id>, constraints: seq<Constraint>, candidates: map<Id, Candidate>,
                        upper: Upper, obs: seq<Observation>, keys: seq<MentionKey>, newId: nat -> Id,
                        after: map<Id, Candidate>, report: RunReport, proposals: seq<Proposal>,
                        obs': seq<Observation>, keys': seq<MentionKey>, again: nat -> Id,
                        after': map<Id, Candidate>, report': RunReport, proposals': seq<Proposal>)
    requires Fresh(newId, candidates.Keys)
    requires RuleOutcome(entityOf, constraints, candidates, upper, obs, keys, newId, after, report, proposals)
    requires RuleOutcome(entityOf, constraints, after, upper, obs', keys', again, after', report', proposals')
    requires multiset(obs') == multiset(obs) && multiset(keys') == multiset(keys)
    requires obs' == obs || OneWayEach(upper, obs)
    ensures after' == after && report'.emitted == 0 && report'.preVerified == 0
  {
    hide RuleProposal, Kept, Tally, PreVerified, WithRows, ProposedPairs, OneWayEach, Constrained, PairsOf;
    var gate := RuleGate(entityOf, Constrained(constraints));
    var existing := ProposedPairs(candidates);
    forall p | p in proposals' ensures p in proposals {
      SameProposals(upper, obs, obs', keys, keys', p);
    }
    WithRowsAdds(candidates, newId, Kept(gate, existing, proposals));
    RerunKeepsNothing(gate, existing, proposals, proposals');
    NothingYet(after, again);
    TalliesAddUp(gate, ProposedPairs(after), proposals');
    assert PreVerified([]) == 0 by { NonePreVerified(); }
  }

  /** The idempotence fails when the rows come in another order: over the three records, read
      first with the other issuer last, the first run emits nothing and the second emits. */
  lemma SecondRunCanEmit(upper: Upper, newId: nat -> Id, after: map<Id, Candidate>, report: RunReport,
                         proposals: seq<Proposal>, again: nat -> Id, after': map<Id, Candidate>, report': RunReport,
                         proposals': seq<Proposal>)
    requires upper("V") == "V"
    requires RuleOutcome(map[], [], map[], upper, A_BEFORE_B, [], newId, after, report, proposals)
    requires RuleOutcome(map[], [], after, upper, B_BEFORE_A, [], again, after', report', proposals')
    ensures multiset(A_BEFORE_B) == multiset(B_BEFORE_A)
    ensures report.emitted == 0 && after == map[]
    ensures report'.emitted > 0 && report'.preVerified > 0
  {
    hide Kept, Tally, WithRows, PreVerified, Paired, PairsOf;
    OrderMatters(upper);
    var gate := RuleGate(map[], Constrained([]));
    if proposals != [] { HasMember(proposals); }
    NothingKept(gate, newId);
    var p := Proposal(("m1", "m2"), None, true);
    ProposedAs(upper, B_BEFORE_A, [], "m1", "m2");
    KeptIff(gate, {}, proposals', p.pair);
    TalliesAddUp(gate, {}, proposals');
    FirstOfPair(gate, proposals', p);
  }

  lemma NothingKept(gate: Gate, newId: nat -> Id)
    ensures Kept(gate, {}, []) == [] && WithRows(map[], newId, []) == map[]
    ensures Tally(gate, {}, [], Emitted) == 0
    ensures ProposedPairs(map[]) == {}
  {
  }

  /** The pair was kept, and if all proposals are pre-verified, as a pre-verified one. */
  lemma FirstOfPair(gate: Gate, q: seq<Proposal>, p: Proposal)
    requires p.pair in PairsOf(Kept(gate, {}, q)) && forall r :: r in q ==> r.preVerified
    ensures |Kept(gate, {}, q)| > 0 && PreVerified(Kept(gate, {}, q)) > 0
  {
    var kept := Kept(gate, {}, q);
    KeptIff(gate, {}, q, p.pair);
    assert kept[|kept| - 1] in kept;
  }

  /** Some order of the observations emits the pair. */
  ghost predicate Possible(upper: Upper, obs: seq<Observation>, m: Id, n: Id) {
    Before(m, n) && exists key :: MayAgree(upper, obs, key, m, n)
  }

  lemma PossibleIff(upper: Upper, obs: seq<Observation>, m: Id, n: Id)
    ensures Possible(upper, obs, m, n)
      <==> exists other :: multiset(other) == multiset(obs) && Paired(upper, other, m, n)
  {
    hide MayAgree, Agree, Paired, EmittedUnder, Before;
    if Possible(upper, obs, m, n) {
      var key :| MayAgree(upper, obs, key, m, n);
      var other := AgreeLast(upper, obs, key, m, n);
    }
    if other :| multiset(other) == multiset(obs) && Paired(upper, other, m, n) {
      OnlyInOrder(upper, other, m, n);
      PairedUnder(upper, other, m, n);
      var key :| EmittedUnder(upper, other, key, m, n);
      UnderEither(upper, obs, other, key, m, n);
    }
  }

  ghost predicate PutForward(upper: Upper, obs: seq<Observation>, keys: seq<MentionKey>, pair: (Id, Id)) {
    exists p :: RuleProposal(upper, obs, keys, p) && p.pair == pair
  }

  /** No rule proposal of these observations passes the gates of the store. */
  ghost predicate Idle(gate: Gate, existing: set<(Id, Id)>, upper: Upper, obs: seq<Observation>, keys: seq<MentionKey>) {
    forall p :: RuleProposal(upper, obs, keys, p) ==> FateOf(gate, existing, p) != Emitted
  }

  /** What the first run leaves for a second: the pairs that pass and were not put forward. */
  lemma PassesAfter(gate: Gate, existing: set<(Id, Id)>, upper: Upper, obs: seq<Observation>, keys: seq<MentionKey>,
                    proposals: seq<Proposal>, p: Proposal)
    requires forall q :: q in proposals <==> RuleProposal(upper, obs, keys, q)
    requires p.score.None?
    ensures FateOf(gate, existing + PairsOf(Kept(gate, existing, proposals)), p) == Emitted
      <==> FateOf(gate, existing, p) == Emitted && !PutForward(upper, obs, keys, p.pair)
  {
    hide Kept, PairsOf, Matcher.Emitted, SameKey, Keys;
    KeptIff(gate, existing, proposals, p.pair);
  }

  /** The exact condition for idempotence in any order: a second run emits nothing, however
      the observations are read, if and only if every pair that some order would emit and the
      gates would pass was put forward by the first run. */
  lemma IdleInAnyOrderIff(gate: Gate, existing: set<(Id, Id)>, upper: Upper, obs: seq<Observation>,
                          keys: seq<MentionKey>, proposals: seq<Proposal>)
    requires forall q :: q in proposals <==> RuleProposal(upper, obs, keys, q)
    ensures var left := existing + PairsOf(Kept(gate, existing, proposals));
      (forall other :: multiset(other) == multiset(obs) ==> Idle(gate, left, upper, other, keys))
      <==> forall m, n :: Possible(upper, obs, m, n) && FateOf(gate, existing, Proposal((m, n), None, true)) == Emitted ==>
             PutForward(upper, obs, keys, (m, n))
  {
    hide Kept, PairsOf, Possible, PutForward, RuleProposal, Paired, FateOf;
    var left := existing + PairsOf(Kept(gate, existing, proposals));
    if forall other :: multiset(other) == multiset(obs) ==> Idle(gate, left, upper, other, keys) {
      forall m, n | Possible(upper, obs, m, n) && FateOf(gate, existing, Proposal((m, n), None, true)) == Emitted
        ensures PutForward(upper, obs, keys, (m, n))
      {
        var p := Proposal((m, n), None, true);
        PossibleIff(upper, obs, m, n);
        var other :| multiset(other) == multiset(obs) && Paired(upper, other, m, n);
        assert RuleProposal(upper, other, keys, p) by { ProposedAs(upper, other, keys, m, n); }
        PassesAfter(gate, existing, upper, obs, keys, proposals, p);
        assert Idle(gate, left, upper, other, keys);
      }
    }
    if forall m, n :: Possible(upper, obs, m, n) && FateOf(gate, existing, Proposal((m, n), None, true)) == Emitted ==>
         PutForward(upper, obs, keys, (m, n)) {
      forall other, p | multiset(other) == multiset(obs) && RuleProposal(upper, other, keys, p)
        ensures FateOf(gate, left, p) != Emitted
      {
        ProposedElsewhere(upper, obs, other, keys, p);
        PassesAfter(gate, existing, upper, obs, keys, proposals, p);
        SameFate(gate, existing, p);
      }
    }
  }

  lemma ProposedAs(upper: Upper, obs: seq<Observation>, keys: seq<MentionKey>, m: Id, n: Id)
    requires Paired(upper, obs, m, n)
    ensures RuleProposal(upper, obs, keys, Proposal((m, n), None, true))
  {
  }

  lemma SameFate(gate: Gate, existing: set<(Id, Id)>, p: Proposal)
    requires p.score.None?
    ensures FateOf(gate, existing, p) == FateOf(gate, existing, Proposal((p.pair.0, p.pair.1), None, true))
  {
  }

  /** A proposal of another order is possible, or put forward by every order alike. */
  lemma ProposedElsewhere(upper: Upper, obs: seq<Observation>, other: seq<Observation>, keys: seq<MentionKey>,
                          p: Proposal)
    requires multiset(other) == multiset(obs) && RuleProposal(upper, other, keys, p)
    ensures p.score.None? && (Possible(upper, obs, p.pair.0, p.pair.1) || PutForward(upper, obs, keys, p.pair))
  {
    hide Possible, Paired, SameKey;
    PossibleIff(upper, obs, p.pair.0, p.pair.1);
  }

  lemma NonePreVerified()
    ensures PreVerified([]) == 0
  {
  }

  // ---------------------------------------------------------------- Splink run

  /** A scored comparison of two mentions, as the scorer returns it. */
  datatype Prediction = Prediction(left: Id, right: Id, probability: real)

  function Scored(r: Prediction): Proposal {
    Proposal((Low(r.left, r.right), High(r.left, r.right)), Some(r.probability), false)
  }

  function Predictions(rows: seq<Prediction>): seq<Proposal> {
    seq(|rows|, i requires 0 <= i < |rows| => Scored(rows[i]))
  }

  /** The Splink loop keeps the pairs the same gates let through, and counts every
      comparison once. */
  method RunSplink(entityOf: map<Id, Id>, constraints: seq<Constraint>, candidates: map<Id, Candidate>,
                   rows: seq<Prediction>, threshold: real, newId: nat -> Id)
    returns (after: map<Id, Candidate>, report: RunReport)
    ensures var gate := Gate(entityOf, Constrained(constraints), threshold, true);
      && after == WithRows(candidates, newId, Kept(gate, ProposedPairs(candidates), Predictions(rows)))
      && report == Reported(gate, ProposedPairs(candidates), Predictions(rows), 0)
    ensures report.belowThreshold + report.sameEntity + report.suppressedConstraint + report.alreadyOpen
      + report.emitted == |rows|
    ensures report.preVerified == 0
  {
    hide Kept, Tally, PreVerified, WithRows, Before, ProposedPairs, PairsOf, Reported;
    var gate := Gate(entityOf, Constrained(constraints), threshold, true);
    ghost var existing0 := ProposedPairs(candidates);
    var predictions := Predictions(rows);
    var existing := ProposedPairs(candidates);
    after := candidates;
    report := RunReport(0, 0, 0, 0, 0, 0, 0);
    NothingYet(candidates, newId);
    NothingReported(gate, existing0);
    var i := 0;
    while i < |predictions|
      invariant 0 <= i <= |predictions|
      invariant report == Reported(gate, existing0, predictions[..i], 0) && report.preVerified == 0
      invariant report.emitted == |Kept(gate, existing0, predictions[..i])|
      invariant existing == existing0 + PairsOf(Kept(gate, existing0, predictions[..i]))
      invariant after == WithRows(candidates, newId, Kept(gate, existing0, predictions[..i]))
    {
      var p := predictions[i];
      ghost var kept := Kept(gate, existing0, predictions[..i]);
      assert predictions[..i + 1] == predictions[..i] + [p];
      ReportedNext(gate, existing0, predictions[..i], p);
      OneMoreRow(candidates, newId, kept, p);
      i := i + 1;
      if p.score.value < threshold {
        report := report.(belowThreshold := report.belowThreshold + 1);
        continue;
      }
      if gate.Entity(p.pair.0) == gate.Entity(p.pair.1) {
        report := report.(sameEntity := report.sameEntity + 1);
        continue;
      }
      if p.pair in gate.constrained {
        report := report.(suppressedConstraint := report.suppressedConstraint + 1);
        continue;
      }
      if p.pair in existing {
        report := report.(alreadyOpen := report.alreadyOpen + 1);
        continue;
      }
      after := after[newId(report.emitted) := Candidate(p.pair.0, p.pair.1, false, Open, None)];
      existing := existing + {p.pair};
      report := report.(emitted := report.emitted + 1);
    }
    assert predictions[..|predictions|] == predictions;
    TalliesAddUp(gate, existing0, predictions);
    CountersAreTallies(gate, existing0, predictions);
  }

  lemma NothingReported(gate: Gate, existing: set<(Id, Id)>)
    ensures Kept(gate, existing, []) == []
    ensures Reported(gate, existing, [], 0) == RunReport(0, 0, 0, 0, 0, 0, 0)
  {
  }

  lemma OneMoreRow(candidates: map<Id, Candidate>, newId: nat -> Id, kept: seq<Proposal>, p: Proposal)
    ensures PairsOf(kept + [p]) == PairsOf(kept) + {p.pair}
    ensures WithRows(candidates, newId, kept + [p]) == WithRows(candidates, newId, kept)[newId(|kept|) := RowFor(p)]
  {
    assert (kept + [p])[..|kept|] == kept;
  }

  lemma CountersAreTallies(gate: Gate, existing: set<(Id, Id)>, q: seq<Proposal>)
    ensures var report := Reported(gate, existing, q, 0);
      && report.emitted == Tally(gate, existing, q, Emitted)
      && report.sameEntity == Tally(gate, existing, q, SameEntity)
      && report.belowThreshold == Tally(gate, existing, q, BelowThreshold)
      && report.alreadyOpen == Tally(gate, existing, q, AlreadyOpen)
      && report.suppressedConstraint == Tally(gate, existing, q, SuppressedConstraint)
  {
  }
}
