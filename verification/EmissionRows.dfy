/** What a producer stores and counts, in terms of the rows it read: the entities, the constraints in
    force and the candidates there were (aegis/er/rules.py:235-320, aegis/er/splink_job.py:265-303). */
module EmissionRows {
  import opened Common
  import opened Store
  import opened LedgerConstraints
  import opened Matcher
  import opened MatcherOrder
  import opened Emission

  // -------------------------------------------------------------------- gates

  /** A human ruled the pair out, and the ruling is in force. */
  ghost predicate RuledOut(constraints: seq<Constraint>, m: Id, n: Id) {
    exists c :: c in constraints && c.mentionA == m && c.mentionB == n && c.supersededBy.None?
  }

  /** The pair has a candidate row that was not retired. */
  ghost predicate HasRow(candidates: map<Id, Candidate>, m: Id, n: Id) {
    exists id :: id in candidates && candidates[id].mentionA == m && candidates[id].mentionB == n
                 && candidates[id].disposition != Superseded
  }

  lemma RuledOutIff(constraints: seq<Constraint>, m: Id, n: Id)
    ensures (m, n) in Constrained(constraints) <==> RuledOut(constraints, m, n)
  {
  }

  lemma HasRowIff(candidates: map<Id, Candidate>, m: Id, n: Id)
    ensures (m, n) in ProposedPairs(candidates) <==> HasRow(candidates, m, n)
  {
  }

  /** To the rule run two mentions are one when both have an entity, and the same. */
  predicate OneEntity(entityOf: map<Id, Id>, m: Id, n: Id) {
    m in entityOf && n in entityOf && entityOf[m] == entityOf[n]
  }

  /** To the Splink loop also when neither has one. */
  predicate OneLookup(entityOf: map<Id, Id>, m: Id, n: Id) {
    OneEntity(entityOf, m, n) || (m !in entityOf && n !in entityOf)
  }

  // ------------------------------------------------------------------ rule run

  /** What a new row is like: open, and undecided. */
  predicate NewRow(c: Candidate, m: Id, n: Id, preVerified: bool) {
    c == Candidate(m, n, preVerified, Open, None)
  }

  ghost predicate Added(candidates: map<Id, Candidate>, after: map<Id, Candidate>, id: Id) {
    id in after && id !in candidates
  }

  /** The new rows are those of the kept pairs. */
  lemma AddedAreKept(candidates: map<Id, Candidate>, newId: nat -> Id, kept: seq<Proposal>, after: map<Id, Candidate>,
                     m: Id, n: Id)
    requires Fresh(newId, candidates.Keys) && after == WithRows(candidates, newId, kept)
    ensures forall id :: id in candidates ==> id in after && after[id] == candidates[id]
    ensures forall id :: Added(candidates, after, id) ==>
      NewRow(after[id], after[id].mentionA, after[id].mentionB, after[id].preVerified)
      && exists p :: p in kept && p.pair == (after[id].mentionA, after[id].mentionB)
                     && p.preVerified == after[id].preVerified
    ensures (m, n) in PairsOf(kept)
      <==> exists id :: Added(candidates, after, id) && after[id].mentionA == m && after[id].mentionB == n
  {
    hide WithRows, Fresh;
    WithRowsAdds(candidates, newId, kept);
    forall id | Added(candidates, after, id)
      ensures NewRow(after[id], after[id].mentionA, after[id].mentionB, after[id].preVerified)
      ensures exists p :: p in kept && p.pair == (after[id].mentionA, after[id].mentionB)
                          && p.preVerified == after[id].preVerified
    {
      var i: nat :| i < |kept| && id == newId(i);
      RowOfKept(candidates, newId, kept, i);
      assert kept[i] in kept;
    }
    if (m, n) in PairsOf(kept) {
      var p :| p in kept && p.pair == (m, n);
      var i :| 0 <= i < |kept| && kept[i] == p;
      RowOfKept(candidates, newId, kept, i);
      NewIdUnused(candidates, newId, i);
      assert Added(candidates, after, newId(i));
    }
  }

  lemma NewIdUnused(candidates: map<Id, Candidate>, newId: nat -> Id, i: nat)
    requires Fresh(newId, candidates.Keys)
    ensures newId(i) !in candidates
  {
  }

  /** The rule run stores a row for a pair exactly when one of the two rules proposes it and the pair
      is not one entity, not ruled out, and without a row; it keeps every earlier row. */
  lemma RulesStoreIff(entityOf: map<Id, Id>, constraints: seq<Constraint>, candidates: map<Id, Candidate>,
                      upper: Upper, obs: seq<Observation>, keys: seq<MentionKey>, newId: nat -> Id,
                      after: map<Id, Candidate>, report: RunReport, proposals: seq<Proposal>, m: Id, n: Id)
    requires Fresh(newId, candidates.Keys)
    requires RuleOutcome(entityOf, constraints, candidates, upper, obs, keys, newId, after, report, proposals)
    ensures (exists id :: Added(candidates, after, id) && after[id].mentionA == m && after[id].mentionB == n)
      <==> (Paired(upper, obs, m, n) || SameKey(keys, (m, n)))
           && !OneEntity(entityOf, m, n) && !RuledOut(constraints, m, n) && !HasRow(candidates, m, n)
    ensures forall id :: Added(candidates, after, id) ==>
      NewRow(after[id], after[id].mentionA, after[id].mentionB,
             Paired(upper, obs, after[id].mentionA, after[id].mentionB))
    ensures forall id :: id in candidates ==> id in after && after[id] == candidates[id]
  {
    hide Kept, ProposedPairs, Constrained, Paired, SameKey, PairsOf, WithRows, Fresh, RuledOut, HasRow, Reported;
    var gate := RuleGate(entityOf, Constrained(constraints));
    var kept := Kept(gate, ProposedPairs(candidates), proposals);
    assert after == WithRows(candidates, newId, kept);
    AddedAreKept(candidates, newId, kept, after, m, n);
    KeptIff(gate, ProposedPairs(candidates), proposals, (m, n));
    ProposedIff(upper, obs, keys, m, n);
    forall p: Proposal | p in proposals && p.pair == (m, n)
      ensures FateOf(gate, ProposedPairs(candidates), p) == Fate.Emitted
        <==> !OneEntity(entityOf, m, n) && !RuledOut(constraints, m, n) && !HasRow(candidates, m, n)
    {
      assert RuleProposal(upper, obs, keys, p);
      RuleFate(entityOf, constraints, candidates, p);
    }
    forall id | Added(candidates, after, id)
      ensures NewRow(after[id], after[id].mentionA, after[id].mentionB,
                     Paired(upper, obs, after[id].mentionA, after[id].mentionB))
    {
      FlagIsIdentifiers(entityOf, constraints, candidates, upper, obs, keys, newId, after, report, proposals, id);
      assert NewRow(after[id], after[id].mentionA, after[id].mentionB, after[id].preVerified);
    }
  }

  lemma ProposedIff(upper: Upper, obs: seq<Observation>, keys: seq<MentionKey>, m: Id, n: Id)
    ensures (exists p :: RuleProposal(upper, obs, keys, p) && p.pair == (m, n))
      <==> Paired(upper, obs, m, n) || SameKey(keys, (m, n))
  {
    hide Paired, SameKey;
    var asPair, asKey := Proposal((m, n), None, true), Proposal((m, n), None, false);
    assert RuleProposal(upper, obs, keys, asPair) <==> Paired(upper, obs, m, n);
    assert RuleProposal(upper, obs, keys, asKey) <==> SameKey(keys, (m, n));
  }

  lemma RuleFate(entityOf: map<Id, Id>, constraints: seq<Constraint>, candidates: map<Id, Candidate>, p: Proposal)
    requires p.score.None?
    ensures FateOf(RuleGate(entityOf, Constrained(constraints)), ProposedPairs(candidates), p) == Fate.Emitted
      <==> !OneEntity(entityOf, p.pair.0, p.pair.1) && !RuledOut(constraints, p.pair.0, p.pair.1)
           && !HasRow(candidates, p.pair.0, p.pair.1)
  {
    hide Constrained, ProposedPairs, RuledOut, HasRow;
    RuledOutIff(constraints, p.pair.0, p.pair.1);
    HasRowIff(candidates, p.pair.0, p.pair.1);
  }

  // --------------------------------------------------------------- Splink loop

  /** A comparison of the two mentions, in either order, at or above the threshold. */
  ghost predicate ScoredEnough(rows: seq<Prediction>, threshold: real, m: Id, n: Id) {
    Before(m, n) && exists r :: r in rows && r.probability >= threshold
                                && ((r.left == m && r.right == n) || (r.left == n && r.right == m))
  }

  lemma SplinkFate(entityOf: map<Id, Id>, constraints: seq<Constraint>, candidates: map<Id, Candidate>,
                   threshold: real, p: Proposal)
    requires p.score.Some?
    ensures
      FateOf(Gate(entityOf, Constrained(constraints), threshold, true), ProposedPairs(candidates), p) == Fate.Emitted
      <==> p.score.value >= threshold && !OneLookup(entityOf, p.pair.0, p.pair.1)
           && !RuledOut(constraints, p.pair.0, p.pair.1) && !HasRow(candidates, p.pair.0, p.pair.1)
  {
    hide Constrained, ProposedPairs, RuledOut, HasRow;
    RuledOutIff(constraints, p.pair.0, p.pair.1);
    HasRowIff(candidates, p.pair.0, p.pair.1);
  }

  lemma OneIsOneLookup(entityOf: map<Id, Id>, m: Id)
    ensures OneLookup(entityOf, m, m)
  {
  }

  lemma ScoredPair(r: Prediction, m: Id, n: Id)
    requires m != n
    ensures Scored(r).pair == (m, n)
      <==> Before(m, n) && ((r.left == m && r.right == n) || (r.left == n && r.right == m))
  {
    hide Before;
    BeforeIsStrictOrder();
  }

  /** The Splink loop stores a row for a pair exactly when a comparison of it scored enough and the pair
      is not one entity, not ruled out, and without a row; none of its rows is pre-verified, and it
      keeps every earlier one. */
  lemma SplinkStoresIff(entityOf: map<Id, Id>, constraints: seq<Constraint>, candidates: map<Id, Candidate>,
                        rows: seq<Prediction>, threshold: real, newId: nat -> Id, m: Id, n: Id)
    requires Fresh(newId, candidates.Keys)
    ensures var gate := Gate(entityOf, Constrained(constraints), threshold, true);
      var after := WithRows(candidates, newId, Kept(gate, ProposedPairs(candidates), Predictions(rows)));
      && ((exists id :: Added(candidates, after, id) && after[id].mentionA == m && after[id].mentionB == n)
          <==> ScoredEnough(rows, threshold, m, n) && !OneLookup(entityOf, m, n)
               && !RuledOut(constraints, m, n) && !HasRow(candidates, m, n))
      && (forall id :: Added(candidates, after, id) ==>
            NewRow(after[id], after[id].mentionA, after[id].mentionB, false))
      && (forall id :: id in candidates ==> id in after && after[id] == candidates[id])
  {
    hide Kept, ProposedPairs, Constrained, PairsOf, WithRows, Fresh, RuledOut, HasRow, FateOf, OneLookup, Before;
    var gate := Gate(entityOf, Constrained(constraints), threshold, true);
    var q := Predictions(rows);
    var kept := Kept(gate, ProposedPairs(candidates), q);
    AddedAreKept(candidates, newId, kept, WithRows(candidates, newId, kept), m, n);
    KeptIff(gate, ProposedPairs(candidates), q, (m, n));
    forall p: Proposal | p.pair == (m, n) && p.score.Some?
      ensures FateOf(gate, ProposedPairs(candidates), p) == Fate.Emitted
        <==> p.score.value >= threshold && !OneLookup(entityOf, m, n)
             && !RuledOut(constraints, m, n) && !HasRow(candidates, m, n)
    {
      SplinkFate(entityOf, constraints, candidates, threshold, p);
    }
    OneIsOneLookup(entityOf, m);
    if m != n {
      forall r ensures Scored(r).pair == (m, n)
        <==> Before(m, n) && ((r.left == m && r.right == n) || (r.left == n && r.right == m))
      {
        ScoredPair(r, m, n);
      }
      forall r | r in rows ensures Scored(r) in q {
        var i :| 0 <= i < |rows| && rows[i] == r;
        assert q[i] == Scored(r);
      }
      forall p | p in q ensures exists r :: r in rows && p == Scored(r) {
        var i :| 0 <= i < |q| && q[i] == p;
        assert rows[i] in rows;
      }
    }
  }

  // ------------------------------------------------------------------- counters

  ghost function AddedIds(candidates: map<Id, Candidate>, after: map<Id, Candidate>): set<Id> {
    after.Keys - candidates.Keys
  }

  ghost function FlaggedIds(candidates: map<Id, Candidate>, after: map<Id, Candidate>): set<Id> {
    set id | id in after && id !in candidates && after[id].preVerified
  }

  /** The counters of emitted and of pre-verified pairs count the new rows, and the new rows with
      the flag. */
  lemma {:induction false} RowsAreCounted(candidates: map<Id, Candidate>, newId: nat -> Id, kept: seq<Proposal>)
    requires Fresh(newId, candidates.Keys)
    ensures |AddedIds(candidates, WithRows(candidates, newId, kept))| == |kept|
    ensures |FlaggedIds(candidates, WithRows(candidates, newId, kept))| == PreVerified(kept)
  {
    hide Fresh;
    if kept == [] {
      assert AddedIds(candidates, candidates) == {} && FlaggedIds(candidates, candidates) == {};
    } else {
      var front, last := kept[..|kept| - 1], kept[|kept| - 1];
      RowsAreCounted(candidates, newId, front);
      NewIdIsNew(candidates, newId, front);
      NewIdUnused(candidates, newId, |front|);
      WithRowsKeeps(candidates, newId, front);
      var before := WithRows(candidates, newId, front);
      OneMoreRowCounted(candidates, before, newId(|front|), RowFor(last));
    }
  }

  lemma OneMoreRowCounted(candidates: map<Id, Candidate>, before: map<Id, Candidate>, id: Id, row: Candidate)
    requires id !in before && id !in candidates
    ensures |AddedIds(candidates, before[id := row])| == |AddedIds(candidates, before)| + 1
    ensures |FlaggedIds(candidates, before[id := row])|
      == |FlaggedIds(candidates, before)| + if row.preVerified then 1 else 0
  {
    AddedNext(candidates, before, id, row);
    FlaggedNext(candidates, before, id, row);
    hide AddedIds, FlaggedIds;
  }

  lemma AddedNext(candidates: map<Id, Candidate>, before: map<Id, Candidate>, id: Id, row: Candidate)
    requires id !in before && id !in candidates
    ensures AddedIds(candidates, before[id := row]) == AddedIds(candidates, before) + {id}
    ensures id !in AddedIds(candidates, before)
  {
  }

  lemma FlaggedNext(candidates: map<Id, Candidate>, before: map<Id, Candidate>, id: Id, row: Candidate)
    requires id !in before && id !in candidates
    ensures FlaggedIds(candidates, before[id := row])
      == FlaggedIds(candidates, before) + if row.preVerified then {id} else {}
    ensures id !in FlaggedIds(candidates, before)
  {
    var after := before[id := row];
    forall x | x != id ensures x in FlaggedIds(candidates, after) <==> x in FlaggedIds(candidates, before) {
      assert x in before <==> x in after;
    }
    assert id in FlaggedIds(candidates, after) <==> row.preVerified;
  }

  /** The score, if there is one, is too low. */
  predicate TooLow(gate: Gate, p: Proposal) { p.score.Some? && p.score.value < gate.threshold }

  /** The two mentions are one entity, as the producer sees it. */
  predicate AlreadyOne(gate: Gate, p: Proposal) {
    || OneEntity(gate.entityOf, p.pair.0, p.pair.1)
    || (gate.absentAgree && p.pair.0 !in gate.entityOf && p.pair.1 !in gate.entityOf)
  }

  /** What becomes of a proposal whatever was stored: its score is too low; if not, it is one entity;
      if not, it is ruled out. */
  predicate Meets(gate: Gate, p: Proposal, fate: Fate) {
    match fate
    case BelowThreshold => TooLow(gate, p)
    case SameEntity => !TooLow(gate, p) && AlreadyOne(gate, p)
    case SuppressedConstraint => !TooLow(gate, p) && !AlreadyOne(gate, p) && p.pair in gate.constrained
    case _ => false
  }

  function Places(gate: Gate, q: seq<Proposal>, fate: Fate): set<int> {
    set i | 0 <= i < |q| && Meets(gate, q[i], fate)
  }

  lemma OneMorePlace(gate: Gate, q: seq<Proposal>, fate: Fate)
    requires q != []
    ensures |Places(gate, q, fate)|
      == |Places(gate, q[..|q| - 1], fate)| + if Meets(gate, q[|q| - 1], fate) then 1 else 0
  {
    hide Meets;
    var last := if Meets(gate, q[|q| - 1], fate) then {|q| - 1} else {};
    assert Places(gate, q, fate) == Places(gate, q[..|q| - 1], fate) + last;
  }

  /** Each of the three counters that do not depend on what was stored counts exactly the proposals
      that meet its test. */
  lemma {:induction false} CountersAre(gate: Gate, existing: set<(Id, Id)>, q: seq<Proposal>, fate: Fate)
    requires fate.BelowThreshold? || fate.SameEntity? || fate.SuppressedConstraint?
    ensures Tally(gate, existing, q, fate) == |Places(gate, q, fate)|
  {
    hide PairsOf, Kept, Meets, FateOf;
    if q == [] {
    } else {
      CountersAre(gate, existing, q[..|q| - 1], fate);
      FateIs(gate, existing + PairsOf(Kept(gate, existing, q[..|q| - 1])), q[|q| - 1], fate);
      OneMorePlace(gate, q, fate);
    }
  }

  lemma FateIs(gate: Gate, existing: set<(Id, Id)>, p: Proposal, fate: Fate)
    requires fate.BelowThreshold? || fate.SameEntity? || fate.SuppressedConstraint?
    ensures FateOf(gate, existing, p) == fate <==> Meets(gate, p, fate)
  {
  }

  /** What both reports count: the new rows, and those of them with the flag; the proposals of too low
      a score, of one entity, and ruled out; and whatever is left had a row already. */
  lemma ReportCounts(gate: Gate, candidates: map<Id, Candidate>, newId: nat -> Id, q: seq<Proposal>, conflicts: nat)
    requires Fresh(newId, candidates.Keys)
    ensures var after := WithRows(candidates, newId, Kept(gate, ProposedPairs(candidates), q));
      var report := Reported(gate, ProposedPairs(candidates), q, conflicts);
      && report.emitted == |after.Keys - candidates.Keys|
      && report.preVerified == |set id | id in after && id !in candidates && after[id].preVerified|
      && report.belowThreshold == |Places(gate, q, BelowThreshold)|
      && report.sameEntity == |Places(gate, q, SameEntity)|
      && report.suppressedConstraint == |Places(gate, q, SuppressedConstraint)|
      && report.suppressedConflict == conflicts
      && report.emitted + report.belowThreshold + report.sameEntity + report.suppressedConstraint + report.alreadyOpen
         == |q|
  {
    hide Kept, ProposedPairs, Fresh, WithRows, Tally, PreVerified, Places;
    RowsAreCounted(candidates, newId, Kept(gate, ProposedPairs(candidates), q));
    TalliesAddUp(gate, ProposedPairs(candidates), q);
    CountersAre(gate, ProposedPairs(candidates), q, BelowThreshold);
    CountersAre(gate, ProposedPairs(candidates), q, SameEntity);
    CountersAre(gate, ProposedPairs(candidates), q, SuppressedConstraint);
  }
}
