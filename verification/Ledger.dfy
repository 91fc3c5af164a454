/** The identity ledger as the service runs it: tables updated row by row inside a
    transaction (aegis/er/adjudication.py, aegis/er/canonical.py, aegis/er/ledger.py). */
module Ledger {
  import opened Common
  import opened Lineage
  import opened Lists
  import opened Store
  import opened LedgerInvariant
  import opened LedgerOpens
  import opened LedgerRuns
  import opened LedgerRows
  import opened LedgerBatch

  // -------------------------------------------------- one more mention moved

  ghost function Taken(ids: seq<Id>, i: nat): set<Id>
    requires i <= |ids|
  {
    set k | 0 <= k < i :: ids[k]
  }

  lemma TakenNext(ids: seq<Id>, i: nat)
    requires i < |ids|
    ensures Taken(ids, i + 1) == Taken(ids, i) + {ids[i]}
  {
    assert ids[i] in Taken(ids, i + 1);
  }

  lemma MoveNext(ms: set<Membership>, done: set<Id>, row: Membership, target: Id, rev: nat)
    requires OneActive(ms) && row in ms && row.Active() && row.mention !in done
    ensures var now := Move(ms, done, target, rev);
      Move(ms, done + {row.mention}, target, rev)
      == if row.entity == target then now
         else now - {row} + {row.(closedAt := Some(rev)), Membership(row.mention, target, rev, None)}
    ensures MovedMentions(ms, done + {row.mention}, target)
      == MovedMentions(ms, done, target) + (if row.entity == target then {} else {row.mention})
    ensures row in Move(ms, done, target, rev)
  {
    hide OneActive;
    var gone, gone' := Moving(ms, done, target), Moving(ms, done + {row.mention}, target);
    forall r | r in ms && r.Active() && r.mention == row.mention ensures r == row {
      assert IsActiveRow(ms, row.mention, r) && IsActiveRow(ms, row.mention, row);
      OneActiveRow(ms, row.mention, r, row);
    }
    assert gone' == if row.entity == target then gone else gone + {row};
    MoveKeeps(ms, done, target, rev, row);
    if row.entity != target {
      var now := Move(ms, done, target, rev);
      var next := now - {row} + {row.(closedAt := Some(rev)), Membership(row.mention, target, rev, None)};
      var all := Move(ms, done + {row.mention}, target, rev);
      assert row in gone';
      forall r ensures r in all <==> r in next {
      }
    }
  }

  lemma MoveNone(ms: set<Membership>, target: Id, rev: nat)
    ensures Move(ms, {}, target, rev) == ms
    ensures MovedMentions(ms, {}, target) == {}
  {
    assert Moving(ms, {}, target) == {};
  }

  lemma NotMovedYet(ms: set<Membership>, done: set<Id>, target: Id, rev: nat, m: Id, r: Membership)
    requires m !in done && IsActiveRow(Move(ms, done, target, rev), m, r)
    ensures IsActiveRow(ms, m, r)
  {
    var q := MoveOrigin(ms, done, target, rev, r);
  }

  // --------------------------------------------------------- replay, row by row

  /** A `defaultdict(set)` lookup. */
  function Entries(index: map<nat, set<Id>>, r: nat): set<Id> {
    if r in index then index[r] else {}
  }

  ghost predicate Indexes(openedIndex: map<nat, set<Id>>, closedIndex: map<nat, set<Id>>, ms: set<Membership>) {
    forall r: nat :: Entries(openedIndex, r) == Opened(ms, r) && Entries(closedIndex, r) == Closed(ms, r)
  }

  lemma IndexNone()
    ensures Indexes(map[], map[], {})
  {
  }

  lemma IndexNext(openedIndex: map<nat, set<Id>>, closedIndex: map<nat, set<Id>>, ms: set<Membership>, row: Membership)
    requires Indexes(openedIndex, closedIndex, ms)
    ensures var opens := openedIndex[row.openedAt := Entries(openedIndex, row.openedAt) + {row.entity}];
      var closes := if row.closedAt.None? then closedIndex
                    else closedIndex[row.closedAt.value := Entries(closedIndex, row.closedAt.value) + {row.entity}];
      Indexes(opens, closes, ms + {row})
  {
    hide Opened, Closed;
    forall r: nat
      ensures Opened(ms + {row}, r) == Opened(ms, r) + (if row.openedAt == r then {row.entity} else {})
      ensures Closed(ms + {row}, r) == Closed(ms, r) + (if row.closedAt == Some(r) then {row.entity} else {})
    {
      IndexRow(ms, row, r);
    }
    assert Entries(openedIndex, row.openedAt) == Opened(ms, row.openedAt);
    assert row.closedAt.Some? ==> Entries(closedIndex, row.closedAt.value) == Closed(ms, row.closedAt.value);
    forall r: nat ensures Entries(openedIndex, r) == Opened(ms, r) && Entries(closedIndex, r) == Closed(ms, r) {}
  }

  lemma IndexRow(ms: set<Membership>, row: Membership, r: nat)
    ensures Opened(ms + {row}, r) == Opened(ms, r) + (if row.openedAt == r then {row.entity} else {})
    ensures Closed(ms + {row}, r) == Closed(ms, r) + (if row.closedAt == Some(r) then {row.entity} else {})
  {
    var all := ms + {row};
    assert row in all;
    forall x | x in Opened(ms, r) ensures x in Opened(all, r) {
      var q :| q in ms && q.openedAt == r && q.entity == x;
      assert q in all;
    }
    forall x | x in Closed(ms, r) ensures x in Closed(all, r) {
      var q :| q in ms && q.closedAt == Some(r) && q.entity == x;
      assert q in all;
    }
  }

  lemma OnlyOne(gained: set<Id>, winner: Id)
    requires winner in gained && |gained| == 1
    ensures gained == {winner}
  {
    forall x | x in gained ensures x == winner {
      if x != winner { MoreThanOne(gained, x, winner); }
    }
  }

  /** A merge gives each loser the one winner. */
  lemma MergeLinks(parent: Parent, kind: Kind, gained: set<Id>, closed: set<Id>, winner: Id)
    requires Merging(kind) && winner in gained && |gained| == 1
    ensures ReplayStep(parent, kind, gained, closed) == parent + map l | l in closed - gained :: winner
  {
    OnlyOne(gained, winner);
    var w :| w in gained && ReplayStep(parent, kind, gained, closed) == parent + map l | l in closed - gained :: w;
    assert w == winner;
  }

  /** The method returned what the specification says. */
  ghost predicate Follows(r: Result<Report, Refusal>, now: Tables, spec: Result<Outcome, Refusal>) {
    match spec
    case Ok(o) =>
      && now == o.tables && r.Ok?
      && r.value.moved == o.moved && r.value.survivor == o.survivor && r.value.created == o.created
      && r.value.unattributable == o.unattributable && r.value.constraint == o.constraint
    case Err(e) => r == Err(e)
  }

  /** What the adjudication comes to on the tables. */
  ghost function Decided(s: Tables, op: Op): Result<Outcome, Refusal>
    requires op.DoConfirm? || op.DoReject? || op.DoUnresolved? || op.DoSplit?
  {
    match op
    case DoConfirm(p, a, b, candidate, gap) => ConfirmMatch(s, p, a, b, candidate, s.head + 1 + gap)
    case DoReject(p, a, b, candidate, gap) => RejectMatch(s, p, a, b, candidate, s.head + 1 + gap)
    case DoUnresolved(p, a, b, candidate, gap) => MarkUnresolved(s, p, a, b, candidate, s.head + 1 + gap)
    case DoSplit(p, e, ms, target, newId, gap) => SplitEntity(s, p, e, ms, target, newId, s.head + 1 + gap)
  }

  /** As `Follows`, with the savepoint rolled back on a refusal. */
  ghost predicate Commits(r: Result<Report, Refusal>, before: Tables, now: Tables, spec: Result<Outcome, Refusal>) {
    Follows(r, now, spec) && (r.Err? ==> now == before)
  }

  /** What the database itself enforces: one active membership per mention, and foreign keys
      into the entity table. */
  ghost predicate Storable(s: Tables) {
    OneActive(s.memberships) && EverHeld(s.memberships) <= s.entities && s.tombstoned <= s.entities
  }

  /** What a rebuild counts. */
  datatype MapReport = MapReport(entities: nat, merged: nat, tombstoned: nat)

  /** The decisions a stale caller is shown. */
  function DecisionsAfter(ds: seq<Decision>, parentRevision: nat): seq<Decision> {
    if ds == [] then []
    else
      var last := ds[|ds| - 1];
      DecisionsAfter(ds[..|ds| - 1], parentRevision) + if last.resultRevision > parentRevision then [last] else []
  }

  /** They are the decisions of later revisions, and all of those. */
  lemma {:induction false} DecisionsAfterAre(ds: seq<Decision>, parentRevision: nat)
    ensures forall d :: d in DecisionsAfter(ds, parentRevision) <==> d in ds && d.resultRevision > parentRevision
  {
    if ds == [] {
    } else {
      assert ds == ds[..|ds| - 1] + [ds[|ds| - 1]];
      DecisionsAfterAre(ds[..|ds| - 1], parentRevision);
    }
  }

  /** Of decisions in order they are a last stretch, from the first later one on. */
  lemma {:induction false} DecisionsAfterEnd(ds: seq<Decision>, parentRevision: nat) returns (k: nat)
    requires forall i, j :: 0 <= i < j < |ds| ==> ds[i].resultRevision < ds[j].resultRevision
    ensures k <= |ds| && DecisionsAfter(ds, parentRevision) == ds[k..]
    ensures forall i :: 0 <= i < k ==> ds[i].resultRevision <= parentRevision
  {
    if ds == [] {
      k := 0;
    } else {
      var front, last := ds[..|ds| - 1], ds[|ds| - 1];
      k := DecisionsAfterEnd(front, parentRevision);
      if last.resultRevision > parentRevision {
        assert ds[k..] == front[k..] + [last];
      } else {
        EndsEarly(front, last, parentRevision, k);
        k := |ds|;
      }
    }
  }

  lemma EndsEarly(front: seq<Decision>, last: Decision, parentRevision: nat, k: nat)
    requires k <= |front| && last.resultRevision <= parentRevision
    requires forall i :: 0 <= i < |front| ==> front[i].resultRevision < last.resultRevision
    requires DecisionsAfter(front, parentRevision) == front[k..]
    ensures DecisionsAfter(front, parentRevision) == []
  {
    DecisionsAfterAre(front, parentRevision);
    forall d | d in DecisionsAfter(front, parentRevision) ensures d in front && d.resultRevision > parentRevision {
    }
    assert forall d :: d in front ==> d.resultRevision <= parentRevision;
    if DecisionsAfter(front, parentRevision) != [] {
      HasMember(DecisionsAfter(front, parentRevision));
    }
  }

  class IdentityLedger {
    var memberships: set<Membership>
    var decisions: seq<Decision>
    var head: nat
    var entities: set<Id>
    var canonical: map<Id, Id>
    var tombstoned: set<Id>
    var constraints: seq<Constraint>
    var candidates: map<Id, Candidate>
    var claims: map<Id, Claim>

    ghost function View(): Tables
      reads this
    {
      Tables(memberships, decisions, head, entities, canonical, tombstoned, constraints, candidates, claims)
    }

    /** The migrated store: the baseline revision and nothing else. */
    constructor ()
      ensures View() == BASELINE && Storable(View())
    {
      memberships, decisions, head, entities := {}, [], 0, {};
      canonical, tombstoned, constraints, candidates, claims := map[], {}, [], map[], map[];
    }

    // ------------------------------------------------------------------ reads

    method ActiveEntity(m: Id) returns (e: Option<Id>)
      requires OneActive(memberships)
      ensures e == EntityOf(memberships, m)
    {
      if exists r :: r in memberships && r.mention == m && r.closedAt.None? {
        var r :| r in memberships && r.mention == m && r.closedAt.None?;
        assert IsActiveRow(memberships, m, r);
        ghost var q :| IsActiveRow(memberships, m, q) && EntityOf(memberships, m) == Some(q.entity);
        OneActiveRow(memberships, m, r, q);
        e := Some(r.entity);
      } else {
        e := None;
      }
    }

    method MentionsOf(e: Id) returns (q: seq<Id>)
      ensures q == Ids(Held(memberships, e))
    {
      hide Ids, Before;
      var held := set r | r in memberships && r.closedAt.None? && r.entity == e :: r.mention;
      q := ListIds(held);
      assert held == Held(memberships, e);
    }

    /** None when current, else the decisions since the parent revision. */
    method CheckScopeIsCurrent(parentRevision: nat, scope: set<Id>) returns (stale: Option<seq<Decision>>)
      ensures stale.None? <==> ScopeCurrent(memberships, parentRevision, scope)
      ensures stale.Some? ==>
        && stale.value == DecisionsAfter(decisions, parentRevision)
        && (forall d :: d in stale.value <==> d in decisions && d.resultRevision > parentRevision)
        && (DecisionsInOrder(decisions, head) ==> exists k :: 0 <= k <= |decisions| && stale.value == decisions[k..])
    {
      if scope == {} {
        return None;
      }
      var openedLater := exists r :: r in memberships && r.entity in scope && r.openedAt > parentRevision;
      var closedLater := exists r :: r in memberships && r.entity in scope
                                     && r.closedAt.Some? && r.closedAt.value > parentRevision;
      if !openedLater && !closedLater {
        return None;
      }
      var intervening: seq<Decision> := [];
      var i := 0;
      while i < |decisions|
        invariant 0 <= i <= |decisions|
        invariant intervening == DecisionsAfter(decisions[..i], parentRevision)
      {
        assert decisions[..i + 1][..i] == decisions[..i];
        if decisions[i].resultRevision > parentRevision {
          intervening := intervening + [decisions[i]];
        }
        i := i + 1;
      }
      assert decisions[..|decisions|] == decisions;
      DecisionsAfterAre(decisions, parentRevision);
      if DecisionsInOrder(decisions, head) {
        ghost var k := DecisionsAfterEnd(decisions, parentRevision);
      }
      return Some(intervening);
    }

    // ----------------------------------------------------------- ledger writes

    method OpenDecision(kind: Kind, parentRevision: nat, candidate: Option<Id>, inputs: set<Id>, rev: nat)
      modifies this`head, this`decisions
      ensures View() == Store.OpenDecision(old(View()), kind, parentRevision, candidate, inputs, rev)
    {
      head := rev;
      decisions := decisions + [Decision(kind, parentRevision, rev, candidate, inputs)];
    }

    /** Closes each mention's active row and reopens it on the target, in mention order. */
    method MoveMentions(mentions: set<Id>, target: Id, rev: nat) returns (moved: seq<Id>)
      requires OneActive(memberships)
      requires forall m :: m in mentions ==> exists r :: IsActiveRow(memberships, m, r)
      modifies this`memberships
      ensures memberships == Move(old(memberships), mentions, target, rev)
      ensures moved == Ids(MovedMentions(old(memberships), mentions, target))
    {
      hide Ids, Before, Move, Moving, MovedMentions;
      ghost var ms := memberships;
      var ids := ListIds(mentions);
      moved := [];
      assert Taken(ids, 0) == {};
      MoveNone(ms, target, rev);
      var i := 0;
      while i < |ids|
        invariant 0 <= i <= |ids|
        invariant memberships == Move(ms, Taken(ids, i), target, rev)
        invariant Ascending(moved, Before)
        invariant forall x :: x in moved <==> x in MovedMentions(ms, Taken(ids, i), target)
        invariant forall x :: x in moved ==> x in Taken(ids, i)
      {
        assert ids[i] in mentions;
        NotTaken(ids, i);
        ghost var before :| IsActiveRow(ms, ids[i], before);
        MoveNext(ms, Taken(ids, i), before, target, rev);
        TakenNext(ids, i);
        var row :| row in memberships && row.mention == ids[i] && row.closedAt.None?;
        NotMovedYet(ms, Taken(ids, i), target, rev, ids[i], row);
        OneActiveRow(ms, ids[i], before, row);
        if row.entity != target {
          memberships := memberships - {row}
                         + {row.(closedAt := Some(rev)), Membership(row.mention, target, rev, None)};
          forall k | 0 <= k < |moved| ensures Before(moved[k], ids[i]) {
            assert moved[k] in Taken(ids, i);
          }
          moved := moved + [row.mention];
        }
        i := i + 1;
      }
      assert Taken(ids, |ids|) == mentions by {
        forall m | m in mentions ensures m in Taken(ids, |ids|) { assert m in ids; }
      }
      IdsUnique(moved, MovedMentions(ms, mentions, target));
    }

    // ------------------------------------------------------------ the projection

    method IndexRevisions() returns (openedIndex: map<nat, set<Id>>, closedIndex: map<nat, set<Id>>)
      ensures Indexes(openedIndex, closedIndex, memberships)
    {
      hide Indexes;
      IndexNone();
      openedIndex, closedIndex := map[], map[];
      var todo := memberships;
      assert memberships - todo == {};
      while todo != {}
        invariant todo <= memberships
        invariant Indexes(openedIndex, closedIndex, memberships - todo)
        decreases todo
      {
        var row :| row in todo;
        IndexNext(openedIndex, closedIndex, memberships - todo, row);
        assert memberships - (todo - {row}) == memberships - todo + {row};
        openedIndex := openedIndex[row.openedAt := Entries(openedIndex, row.openedAt) + {row.entity}];
        if row.closedAt.Some? {
          closedIndex := closedIndex[row.closedAt.value := Entries(closedIndex, row.closedAt.value) + {row.entity}];
        }
        todo := todo - {row};
      }
      assert memberships - {} == memberships;
    }

    /** Replays decisions in revision order into `loser -> winner` links. */
    method LineageFromLedger() returns (parent: Parent)
      ensures parent == LineageOf(View())
    {
      hide Opened, Closed;
      var openedIndex, closedIndex := IndexRevisions();
      parent := map[];
      var i := 0;
      while i < |decisions|
        invariant 0 <= i <= |decisions|
        invariant parent == Replay(memberships, decisions[..i])
      {
        var d := decisions[i];
        assert decisions[..i + 1][..i] == decisions[..i];
        var gained := Entries(openedIndex, d.resultRevision);
        var lost := Entries(closedIndex, d.resultRevision) - gained;
        if Merging(d.kind) {
          if |gained| == 1 {
            var winner :| winner in gained;
            MergeLinks(parent, d.kind, gained, Entries(closedIndex, d.resultRevision), winner);
            parent := LinkLosers(parent, lost, winner);
          }
        } else if d.kind.Split? {
          parent := DropGainers(parent, gained);
        }
        i := i + 1;
      }
      assert decisions[..|decisions|] == decisions;
    }

    static method LinkLosers(before: Parent, lost: set<Id>, winner: Id) returns (parent: Parent)
      ensures parent == before + map l | l in lost :: winner
    {
      parent := before;
      var todo := lost;
      while todo != {}
        invariant todo <= lost
        invariant parent == before + map l | l in lost - todo :: winner
        decreases todo
      {
        var loser :| loser in todo;
        parent := parent[loser := winner];
        todo := todo - {loser};
      }
      assert lost - {} == lost;
    }

    static method DropGainers(before: Parent, gained: set<Id>) returns (parent: Parent)
      ensures parent == before - gained
    {
      parent := before;
      var todo := gained;
      while todo != {}
        invariant todo <= gained
        invariant parent == before - (gained - todo)
        decreases todo
      {
        var gainer :| gainer in todo;
        parent := parent - {gainer};
        todo := todo - {gainer};
      }
      assert gained - {} == gained;
    }

    /** Clears and refills the map, and flips tombstones; false if an entity does not resolve. */
    method RebuildCanonicalMap() returns (report: Option<MapReport>)
      requires tombstoned <= entities
      modifies this`canonical, this`tombstoned
      ensures report.Some? ==> Rebuild(old(View())) == Ok(View())
      ensures report.Some? ==>
        && report.value.entities == |entities| && report.value.tombstoned == |tombstoned|
        && report.value.merged == |set e | e in canonical && canonical[e] != e|
      ensures report.None? ==> Rebuild(old(View())) == Err(CorruptLineage)
    {
      hide LineageOf, Resolve, Mapped, Rebuild, Merged;
      ghost var before := View();
      var parent := LineageFromLedger();
      var holders := set r | r in memberships && r.closedAt.None? :: r.entity;
      HoldersAre(memberships, holders);
      canonical := map[];
      var counts := MapReport(0, 0, 0);
      MappedNone(before);
      var todo := entities;
      while todo != {}
        invariant todo <= entities && Mapped(before, todo, canonical, tombstoned, counts)
        decreases todo
      {
        var e :| e in todo;
        var root := ResolveChain(parent, e);
        if root.None? {
          RebuildRefuses(before, e);
          return None;
        }
        var orphaned := e !in holders && root.value == e;
        MappedNext(before, todo, canonical, tombstoned, counts, e, root.value);
        canonical := canonical[e := root.value];
        tombstoned, counts := Flipped(tombstoned, counts, e, root.value, orphaned);
        todo := todo - {e};
      }
      MappedAll(before, canonical, tombstoned, counts);
      MergedAre(canonical);
      return Some(counts);
    }

    /** One entity's tombstone set or cleared, and the counters moved on. */
    static method Flipped(before: set<Id>, counts: MapReport, e: Id, root: Id, orphaned: bool)
      returns (tombstoned: set<Id>, after: MapReport)
      ensures tombstoned == if orphaned then before + {e} else before - {e}
      ensures after == MapReport(counts.entities + 1, counts.merged + (if root != e then 1 else 0),
                                 counts.tombstoned + (if orphaned then 1 else 0))
    {
      tombstoned, after := before, counts.(entities := counts.entities + 1);
      if root != e {
        after := after.(merged := after.merged + 1);
      }
      if orphaned {
        tombstoned := tombstoned + {e};
        after := after.(tombstoned := after.tombstoned + 1);
      } else {
        tombstoned := tombstoned - {e};
      }
    }

    // ------------------------------------------------------------- adjudications

    method SettleCandidate(candidate: Option<Id>, disposition: Disposition, decision: nat)
      returns (r: Result<(), Refusal>)
      modifies this`candidates
      ensures match Settle(old(candidates), candidate, disposition, decision)
              case Ok(cs) => r.Ok? && candidates == cs
              case Err(e) => r == Err(e) && candidates == old(candidates)
    {
      if candidate.None? {
        return Ok(());
      }
      if candidate.value !in candidates {
        return Err(NoSuchCandidate);
      }
      if candidates[candidate.value].disposition != Open {
        return Err(CandidateSettled);
      }
      candidates := candidates[candidate.value :=
        candidates[candidate.value].(disposition := disposition, decision := Some(decision))];
      return Ok(());
    }

    /** The writes of a confirm: everything the absorbed entity holds moves to the survivor. */
    method AbsorbInto(absorbed: Id, survivor: Id, candidate: Option<Id>, rev: nat)
      returns (r: Result<seq<Id>, Refusal>)
      requires Storable(View())
      modifies this`memberships, this`candidates, this`canonical, this`tombstoned
      ensures AbsorbedInto(r, old(View()), View(), absorbed, survivor, candidate, rev)
    {
      hide Held, Move, Rebuild, Ids, MovedMentions, IsActiveRow, OneActive, Settle;
      ghost var before := View();
      var held := MentionsOf(absorbed);
      var mentions := set m | m in held;
      assert mentions == Held(before.memberships, absorbed);
      HeldRows(memberships, absorbed, mentions);
      var moved := MoveMentions(mentions, survivor, rev);
      var settled := SettleCandidate(candidate, Confirmed, rev);
      if settled.Err? {
        return Err(settled.error);
      }
      var rebuilt := RebuildCanonicalMap();
      return if rebuilt.Some? then Ok(moved) else Err(CorruptLineage);
    }

    /** Writes as it goes: on a refusal the caller rolls back. */
    method ConfirmHandler(parentRevision: nat, a: Id, b: Id, candidate: Option<Id>, rev: nat)
      returns (r: Result<Report, Refusal>)
      requires Storable(View())
      modifies this
      ensures Follows(r, View(), ConfirmMatch(old(View()), parentRevision, a, b, candidate, rev))
    {
      hide Storable, EntityOf, EntitiesOf, ScopeCurrent, ConfirmMatch, ConfirmCurrent;
      ConfirmStages(View(), parentRevision, a, b, candidate, rev);
      var scope := set row | row in memberships && row.closedAt.None? && row.mention in {a, b} :: row.entity;
      ScopeIs(memberships, {a, b}, scope);
      if |scope| < 2 {
        return Err(NothingToConfirm);
      }
      var stale := CheckScopeIsCurrent(parentRevision, scope);
      if stale.Some? {
        return Err(Stale);
      }
      r := ConfirmWrites(parentRevision, a, b, candidate, rev);
    }

    /** The part of a confirm behind its scope check. */
    method ConfirmWrites(parentRevision: nat, a: Id, b: Id, candidate: Option<Id>, rev: nat)
      returns (r: Result<Report, Refusal>)
      requires Storable(View())
      modifies this
      ensures Follows(r, View(), ConfirmCurrent(old(View()), parentRevision, a, b, candidate, rev))
    {
      hide Held, Move, Rebuild, Ids, MovedMentions, EntityOf, OneActive, Settle, EverHeld;
      var survivor := ActiveEntity(a);
      var absorbed := ActiveEntity(b);
      if survivor.None? || absorbed.None? {
        return Err(UnresolvedMention);
      }
      OpenDecision(Confirm, parentRevision, candidate, {a, b}, rev);
      var moved := AbsorbInto(absorbed.value, survivor.value, candidate, rev);
      if moved.Err? {
        return Err(moved.error);
      }
      return Ok(Report(moved.value, survivor, None, [], None));
    }

    /** Adds the next version of the pair's constraint; the previous one is superseded, never erased. */
    method RejectHandler(parentRevision: nat, a: Id, b: Id, candidate: Option<Id>, rev: nat)
      returns (r: Result<Report, Refusal>)
      modifies this
      ensures Follows(r, View(), RejectMatch(old(View()), parentRevision, a, b, candidate, rev))
    {
      hide LatestConstraint, Before;
      if a == b {
        return Err(SamePair);
      }
      var low, high := Low(a, b), High(a, b);
      OpenDecision(Reject, parentRevision, candidate, {a, b}, rev);
      var previous := LatestConstraint(constraints, low, high, |constraints|);
      var version := if previous.Some? then constraints[previous.value].version + 1 else 1;
      var id := |constraints|;
      constraints := constraints + [Constraint(low, high, version, rev, None)];
      if previous.Some? {
        constraints := constraints[previous.value := constraints[previous.value].(supersededBy := Some(id))];
      }
      assert constraints == Constrain(old(constraints), low, high, rev);
      var settled := SettleCandidate(candidate, Rejected, rev);
      if settled.Err? {
        return Err(settled.error);
      }
      return Ok(Report([], None, None, [], Some(id)));
    }

    method UnresolvedHandler(parentRevision: nat, a: Id, b: Id, candidate: Option<Id>, rev: nat)
      returns (r: Result<Report, Refusal>)
      modifies this
      ensures Follows(r, View(), MarkUnresolved(old(View()), parentRevision, a, b, candidate, rev))
    {
      OpenDecision(Unresolved, parentRevision, candidate, {a, b}, rev);
      var settled := SettleCandidate(candidate, MarkedUnresolved, rev);
      if settled.Err? {
        return Err(settled.error);
      }
      return Ok(Report([], None, None, [], None));
    }

    method UnattributableOf(e: Id) returns (q: seq<Id>)
      ensures q == Ids(UnattributableClaims(claims, canonical, e))
    {
      hide Ids;
      var affected := Affected(canonical, e);
      var found := set id | id in claims && Unattributable(claims[id], affected);
      assert found == UnattributableClaims(claims, canonical, e);
      q := ListIds(found);
    }

    /** The writes of a split: the claims are read before the map is rebuilt. */
    method DetachTo(e: Id, mentions: set<Id>, to: Id, rev: nat) returns (r: Result<(seq<Id>, seq<Id>), Refusal>)
      requires Storable(View()) && mentions <= Held(memberships, e)
      modifies this`memberships, this`canonical, this`tombstoned
      ensures match Rebuild(old(View()).(memberships := Move(old(memberships), mentions, to, rev)))
        case Err(x) => r == Err(x)
        case Ok(s) => r == Ok((Ids(MovedMentions(old(memberships), mentions, to)),
                               Ids(UnattributableClaims(old(claims), old(canonical), e)))) && View() == s
    {
      hide Held, Move, Rebuild, Ids, MovedMentions, IsActiveRow, OneActive, UnattributableClaims;
      HeldRows(memberships, e, mentions);
      var moved := MoveMentions(mentions, to, rev);
      var loose := UnattributableOf(e);
      var rebuilt := RebuildCanonicalMap();
      return if rebuilt.Some? then Ok((moved, loose)) else Err(CorruptLineage);
    }

    method SplitHandler(parentRevision: nat, e: Id, mentions: set<Id>, target: Option<Id>, newId: Id, rev: nat)
      returns (r: Result<Report, Refusal>)
      requires Storable(View())
      modifies this
      ensures Follows(r, View(), SplitEntity(old(View()), parentRevision, e, mentions, target, newId, rev))
      ensures r.Ok? ==> r.value.survivor == Some(e) && r.value.created == if target.None? then Some(newId) else None
    {
      hide Move, Rebuild, Ids, MovedMentions, OneActive, UnattributableClaims, ScopeCurrent;
      if mentions == {} {
        return Err(EmptySplit);
      }
      var stale := CheckScopeIsCurrent(parentRevision, {e});
      if stale.Some? {
        return Err(Stale);
      }
      var held := set m | m in memberships && m.closedAt.None? && m.entity == e :: m.mention;
      assert held == Held(memberships, e);
      if mentions - held != {} {
        return Err(StrayMentions);
      }
      assert mentions <= held by {
        forall m | m in mentions ensures m in held { assert m !in mentions - held; }
      }
      if mentions == held {
        return Err(WholeEntity);
      }
      var to, created := newId, Some(newId);
      if target.None? {
        if newId in entities {
          return Err(IdTaken);
        }
        entities := entities + {newId};
      } else {
        if target.value !in entities {
          return Err(NoSuchEntity);
        }
        to, created := target.value, None;
      }
      assert entities == old(entities) + {to};
      OpenDecision(Split, parentRevision, None, mentions, rev);
      var done := DetachTo(e, mentions, to, rev);
      if done.Err? {
        return Err(done.error);
      }
      return Ok(Report(done.value.0, Some(e), created, done.value.1, None));
    }

    method Savepoint() returns (saved: Tables)
      ensures saved == View()
    {
      saved := Tables(memberships, decisions, head, entities, canonical, tombstoned, constraints, candidates, claims);
    }

    method Rollback(saved: Tables)
      modifies this
      ensures View() == saved
    {
      memberships, decisions, head, entities := saved.memberships, saved.decisions, saved.head, saved.entities;
      canonical, tombstoned, constraints := saved.canonical, saved.tombstoned, saved.constraints;
      candidates, claims := saved.candidates, saved.claims;
    }

    /** One adjudication in one transaction: a refused one is rolled back to the savepoint. */
    method Decide(op: Op) returns (r: Result<Report, Refusal>)
      requires Storable(View())
      requires op.DoConfirm? || op.DoReject? || op.DoUnresolved? || op.DoSplit?
      modifies this
      ensures Storable(View())
      ensures Commits(r, old(View()), View(), Decided(old(View()), op))
      ensures View() == Apply(old(View()), op)
      ensures r.Ok? && op.DoSplit? ==>
        r.value.survivor == Some(op.entity) && r.value.created == if op.target.None? then Some(op.newId) else None
    {
      hide Storable, ConfirmMatch, SplitEntity, RejectMatch, MarkUnresolved, OpenMembership, RecordClaim, RetractClaim;
      ApplyStorable(View(), op);
      var saved := Savepoint();
      var rev := head + 1 + op.gap;
      match op {
        case DoConfirm(p, a, b, candidate, _) => r := ConfirmHandler(p, a, b, candidate, rev);
        case DoReject(p, a, b, candidate, _) => r := RejectHandler(p, a, b, candidate, rev);
        case DoUnresolved(p, a, b, candidate, _) => r := UnresolvedHandler(p, a, b, candidate, rev);
        case DoSplit(p, e, ms, target, newId, _) => r := SplitHandler(p, e, ms, target, newId, rev);
      }
      if r.Err? {
        Rollback(saved);
      }
    }

    /** Points a surfaced claim at the created entity, if there is one. */
    method QueueReattribution(id: Id, survivor: Option<Id>, created: Option<Id>) returns (d: Option<Draft>)
      ensures d == if id in claims && created.Some?
                   then Some(Redrafted(canonical, id, claims[id], survivor, created.value)) else None
    {
      if id !in claims || created.None? {
        return None;
      }
      var c := claims[id];
      var subject, obj := c.subjectId, c.objectId;
      if Some(Lookup(canonical, c.subjectId)) == survivor && c.subjectMention.None? {
        subject := created.value;
      } else if c.objectId.Some? && Some(Lookup(canonical, c.objectId.value)) == survivor && c.objectMention.None? {
        obj := created;
      }
      return Some(Draft(id, subject, obj));
    }

    method QueueAll(ids: seq<Id>, survivor: Option<Id>, created: Option<Id>) returns (queued: seq<Draft>)
      ensures queued == Queued(claims, canonical, ids, survivor, created)
    {
      queued := [];
      var i := 0;
      while i < |ids|
        invariant 0 <= i <= |ids|
        invariant queued == Queued(claims, canonical, ids[..i], survivor, created)
      {
        assert ids[..i + 1][..i] == ids[..i];
        var d := QueueReattribution(ids[i], survivor, created);
        if d.Some? {
          queued := queued + [d.value];
        }
        i := i + 1;
      }
      assert ids[..|ids|] == ids;
    }

    /** The action behind every decision: a note is required, and claims that a split surfaced
        are queued for a human. */
    method Adjudicate(op: Op, note: string) returns (r: Result<Report, Refusal>, queued: seq<Draft>)
      requires Storable(View())
      requires op.DoConfirm? || op.DoReject? || op.DoUnresolved? || op.DoSplit?
      modifies this
      ensures Storable(View())
      ensures Blank(note) ==> r == Err(EmptyNote) && View() == old(View())
      ensures !Blank(note) ==>
        Commits(r, old(View()), View(), Decided(old(View()), op)) && View() == Apply(old(View()), op)
      ensures r.Ok? && op.DoSplit? ==>
        r.value.survivor == Some(op.entity) && r.value.created == if op.target.None? then Some(op.newId) else None
      ensures queued == if r.Err? then [] else
        Queued(claims, canonical, r.value.unattributable, r.value.survivor, r.value.created)
    {
      hide Storable, Decided, Apply, Commits, Blank;
      if Blank(note) {
        return Err(EmptyNote), [];
      }
      r := Decide(op);
      queued := [];
      if r.Ok? {
        queued := QueueAll(r.value.unattributable, r.value.survivor, r.value.created);
      }
    }

    // ---------------------------------------------------------- opens and claims

    method OpenMembershipRow(m: Id, e: Id, at: Option<nat>) returns (r: Result<(), Refusal>)
      requires Storable(View())
      modifies this`memberships
      ensures Storable(View())
      ensures match OpenMembership(old(View()), m, e, at)
        case Ok(s) => r.Ok? && View() == s
        case Err(x) => r == Err(x) && View() == old(View())
    {
      hide EntityOf;
      ghost var before := View();
      if OpenMembership(before, m, e, at).Ok? { OpenStorable(before, m, e, at); }
      var existing := ActiveEntity(m);
      if existing.Some? {
        return Err(AlreadyMember);
      }
      if e !in entities {
        return Err(NoSuchEntity);
      }
      var rev := if at.Some? then at.value else head;
      memberships := memberships + {Membership(m, e, rev, None)};
      return Ok(());
    }

    method CheckAnchorOf(mention: Option<Id>, e: Option<Id>) returns (r: Result<(), Refusal>)
      requires Storable(View())
      modifies this`memberships
      ensures Storable(View())
      ensures match CheckAnchor(old(View()), mention, e)
        case Ok(s) => r.Ok? && View() == s
        case Err(x) => r == Err(x) && View() == old(View())
    {
      hide OneActive, EntityOf, OpenMembership;
      if mention.None? {
        return Ok(());
      }
      if e.None? {
        return Err(AnchorWithoutEntity);
      }
      var owner := ActiveEntity(mention.value);
      if owner.None? {
        r := OpenMembershipRow(mention.value, e.value, None);
        return;
      }
      if owner.value != e.value {
        return Err(AnchorElsewhere);
      }
      return Ok(());
    }

    /** Refuses an ill-formed claim, and swaps the arguments of a symmetric one into order. */
    method DraftClaim(draft: Claim, literal: bool, symmetric: bool) returns (r: Result<Claim, Refusal>)
      ensures r == Drafted(entities, draft, literal, symmetric)
    {
      hide Before;
      if draft.subjectId !in entities {
        return Err(NoSuchEntity);
      }
      if draft.objectId.None? != literal {
        return Err(ObjectNotExactlyOne);
      }
      if draft.objectId.Some? && draft.objectId.value !in entities {
        return Err(NoSuchEntity);
      }
      if draft.objectId == Some(draft.subjectId) {
        return Err(SelfClaim);
      }
      var c := draft;
      if symmetric && draft.objectId.Some? && Before(draft.objectId.value, draft.subjectId) {
        c := c.(subjectId := draft.objectId.value, objectId := Some(draft.subjectId));
        c := c.(subjectMention := draft.objectMention, objectMention := draft.subjectMention);
      }
      if c.validFrom.Some? && c.validTo.Some? && c.validTo.value < c.validFrom.value {
        return Err(InvertedDates);
      }
      return Ok(c);
    }

    /** A claim and the memberships its anchors open, in one transaction. */
    method RecordClaimRow(id: Id, draft: Claim, literal: bool, symmetric: bool, anchorRequired: bool)
      returns (r: Result<(), Refusal>)
      requires Storable(View())
      modifies this`memberships, this`claims
      ensures Storable(View())
      ensures match RecordClaim(old(View()), id, draft, literal, symmetric, anchorRequired)
        case Ok(s) => r.Ok? && View() == s
        case Err(x) => r == Err(x) && View() == old(View())
    {
      hide OneActive, EntityOf, CheckAnchor, Drafted;
      var drafted := DraftClaim(draft, literal, symmetric);
      if drafted.Err? {
        return Err(drafted.error);
      }
      var c := drafted.value;
      var saved := memberships;
      r := CheckAnchorOf(c.subjectMention, Some(c.subjectId));
      if r.Ok? {
        r := CheckAnchorOf(c.objectMention, c.objectId);
      }
      if r.Ok? && anchorRequired && (c.subjectMention.None? || (c.objectId.Some? && c.objectMention.None?)) {
        r := Err(AnchorRequired);
      }
      if r.Ok? && id in claims {
        r := Err(IdTaken);
      }
      if r.Err? {
        memberships := saved;
        return;
      }
      claims := claims[id := c.(retracted := false)];
    }

    method RetractRow(id: Id, reason: string) returns (r: Result<(), Refusal>)
      modifies this`claims
      ensures Storable(old(View())) ==> Storable(View())
      ensures match RetractClaim(old(View()), id, reason)
        case Ok(s) => r.Ok? && View() == s
        case Err(x) => r == Err(x) && View() == old(View())
    {
      if Blank(reason) {
        return Err(EmptyReason);
      }
      if id !in claims {
        return Err(NoSuchClaim);
      }
      if claims[id].retracted {
        return Err(AlreadyRetracted);
      }
      claims := claims[id := claims[id].(retracted := true)];
      return Ok(());
    }

    // -------------------------------------------------------------------- batch

    method ConfirmItem(parentRevision: nat, item: Item, note: string) returns (r: Result<(), Refusal>)
      requires Storable(View())
      modifies this
      ensures Storable(View())
      ensures Blank(note) ==> r.Err? && View() == old(View())
      ensures !Blank(note) ==> match Confirmation(old(View()), parentRevision, item)
        case Ok(o) => r.Ok? && View() == o.tables
        case Err(x) => r == Err(x) && View() == old(View())
    {
      hide Storable, ConfirmMatch, Blank;
      if item.candidate !in candidates {
        return Err(NoSuchCandidate);
      }
      var c := candidates[item.candidate];
      if !c.preVerified {
        return Err(NotPreVerified);
      }
      if c.disposition != Open {
        return Err(CandidateSettled);
      }
      var report, queued :=
        Adjudicate(DoConfirm(parentRevision, c.mentionA, c.mentionB, Some(item.candidate), item.gap), note);
      return if report.Ok? then Ok(()) else Err(report.error);
    }

    /** Confirms a pre-verified band, one adjudication per pair, skipping what is refused: with
        a blank note, every pair. */
    method BatchConfirm(parentRevision: nat, items: seq<Item>, note: string)
      returns (confirmed: seq<Id>, skipped: seq<(Id, Refusal)>)
      requires Storable(View())
      modifies this
      ensures Storable(View())
      ensures |confirmed| + |skipped| == |items|
      ensures Blank(note) ==> View() == old(View()) && confirmed == []
      ensures !Blank(note) ==>
        && View() == Batch(old(View()), parentRevision, items).0
        && confirmed == Candidates(Batch(old(View()), parentRevision, items).1)
        && skipped == Skipped(old(View()), parentRevision, items)
    {
      hide Storable, Confirmation, UnionOf, Batch, Skipped, Candidates, Blank, BatchLeft;
      confirmed, skipped := [], [];
      var i := 0;
      assert items[0..] == items;
      BatchStarts(View(), parentRevision, items);
      while i < |items|
        invariant 0 <= i <= |items| && |confirmed| + |skipped| == i
        invariant Storable(View())
        invariant Blank(note) ==> View() == old(View()) && confirmed == []
        invariant !Blank(note) ==> BatchLeft(old(View()), View(), parentRevision, items, items[i..], confirmed, skipped)
      {
        ghost var before := View();
        var item := items[i];
        assert items[i..] == [item] + items[i + 1..];
        var r := ConfirmItem(parentRevision, item, note);
        if !Blank(note) {
          BatchNext(old(View()), before, parentRevision, items, item, items[i + 1..], confirmed, skipped);
        }
        if r.Err? {
          skipped := skipped + [(item.candidate, r.error)];
        } else {
          confirmed := confirmed + [item.candidate];
        }
        i := i + 1;
      }
      assert items[i..] == [];
      if !Blank(note) {
        BatchDone(old(View()), View(), parentRevision, items, confirmed, skipped);
      }
    }

    // ------------------------------------------------------------------ whole runs

    /** A new entity row, as curation and claim acceptance insert it. */
    method AddEntity(e: Id)
      requires Storable(View())
      modifies this`entities
      ensures Storable(View()) && View() == Apply(old(View()), DoEntity(e))
    {
      entities := entities + {e};
    }

    /** A new candidate row. */
    method AddCandidate(id: Id, c: Candidate)
      modifies this`candidates
      ensures View() == Apply(old(View()), DoPropose(id, c))
      ensures Storable(old(View())) ==> Storable(View())
    {
      if id !in candidates {
        candidates := candidates[id := c];
      }
    }

    /** Any one write. */
    method Perform(op: Op)
      requires Storable(View())
      modifies this
      ensures Storable(View()) && View() == Apply(old(View()), op)
    {
      hide Storable, ConfirmMatch, SplitEntity, RejectMatch, MarkUnresolved, OpenMembership, RecordClaim, RetractClaim,
        Commits, Decided;
      match op {
        case DoOpen(m, e, at) => var r := OpenMembershipRow(m, e, at);
        case DoEntity(e) => AddEntity(e);
        case DoPropose(id, c) => AddCandidate(id, c);
        case DoClaim(id, draft, literal, symmetric, required) =>
          var r := RecordClaimRow(id, draft, literal, symmetric, required);
        case DoRetract(id, reason) => var r := RetractRow(id, reason);
        case _ => var r := Decide(op);
      }
    }

    /** A sequence of writes takes the tables through the run of the specification. */
    method PerformAll(ops: seq<Op>)
      requires Storable(View())
      modifies this
      ensures Storable(View()) && View() == Run(old(View()), ops)
    {
      hide Storable, Apply;
      var i := 0;
      assert ops[0..] == ops;
      while i < |ops|
        invariant 0 <= i <= |ops| && Storable(View())
        invariant Run(View(), ops[i..]) == Run(old(View()), ops)
      {
        assert ops[i..][0] == ops[i] && ops[i..][1..] == ops[i + 1..];
        Perform(ops[i]);
        i := i + 1;
      }
      assert ops[i..] == [];
    }
  }

  /** The batch so far, with the entries in `rest` still to come. */
  ghost predicate BatchLeft(s: Tables, now: Tables, p: nat, items: seq<Item>, rest: seq<Item>, confirmed: seq<Id>,
                            skipped: seq<(Id, Refusal)>)
  {
    && Batch(s, p, items).0 == Batch(now, p, rest).0
    && Candidates(Batch(s, p, items).1) == confirmed + Candidates(Batch(now, p, rest).1)
    && Skipped(s, p, items) == skipped + Skipped(now, p, rest)
  }

  lemma BatchStarts(s: Tables, p: nat, items: seq<Item>)
    ensures BatchLeft(s, s, p, items, items, [], [])
  {
    hide Batch, Skipped, Candidates;
  }

  lemma BatchNext(s: Tables, now: Tables, p: nat, items: seq<Item>, item: Item, rest: seq<Item>, confirmed: seq<Id>,
                  skipped: seq<(Id, Refusal)>)
    requires BatchLeft(s, now, p, items, [item] + rest, confirmed, skipped)
    ensures var r := Confirmation(now, p, item);
      if r.Err? then BatchLeft(s, now, p, items, rest, confirmed, skipped + [(item.candidate, r.error)])
      else BatchLeft(s, r.value.tables, p, items, rest, confirmed + [item.candidate], skipped)
  {
    hide Batch, Skipped, Candidates, Confirmation;
    BatchStep(now, p, item, rest);
  }

  lemma BatchDone(s: Tables, now: Tables, p: nat, items: seq<Item>, confirmed: seq<Id>, skipped: seq<(Id, Refusal)>)
    requires BatchLeft(s, now, p, items, [], confirmed, skipped)
    ensures now == Batch(s, p, items).0 && confirmed == Candidates(Batch(s, p, items).1)
    ensures skipped == Skipped(s, p, items)
  {
    hide Batch, Skipped, Candidates;
    BatchEnds(now, p);
  }

  lemma BatchEnds(s: Tables, p: nat)
    ensures Batch(s, p, []) == (s, []) && Skipped(s, p, []) == [] && Candidates([]) == []
  {
  }

  /** What one item adds to the batch. */
  lemma BatchStep(s: Tables, p: nat, item: Item, rest: seq<Item>)
    ensures var r := Confirmation(s, p, item);
      if r.Err? then
        && Batch(s, p, [item] + rest) == Batch(s, p, rest)
        && Skipped(s, p, [item] + rest) == [(item.candidate, r.error)] + Skipped(s, p, rest)
      else
        && Batch(s, p, [item] + rest).0 == Batch(r.value.tables, p, rest).0
        && Candidates(Batch(s, p, [item] + rest).1) == [item.candidate] + Candidates(Batch(r.value.tables, p, rest).1)
        && Skipped(s, p, [item] + rest) == Skipped(r.value.tables, p, rest)
  {
    hide Confirmation, UnionOf;
    var items := [item] + rest;
    assert items[0] == item && items[1..] == rest;
    if Confirmation(s, p, item).Ok? {
      CandidatesCons(UnionOf(s, item), Batch(Confirmation(s, p, item).value.tables, p, rest).1);
      UnionCandidate(s, item);
    }
  }

  /** The entries a batch skips, each with the refusal it met when its turn came. */
  ghost function Skipped(s: Tables, p: nat, items: seq<Item>): seq<(Id, Refusal)>
    decreases |items|
  {
    if items == [] then []
    else match Confirmation(s, p, items[0])
      case Err(x) => [(items[0].candidate, x)] + Skipped(s, p, items[1..])
      case Ok(o) => Skipped(o.tables, p, items[1..])
  }

  function Merged(canonical: map<Id, Id>): set<Id> { set e | e in canonical && canonical[e] != e }

  /** A rebuild that has everything but `todo` behind it. */
  ghost predicate Mapped(s: Tables, todo: set<Id>, canonical: map<Id, Id>, tombstoned: set<Id>, counts: MapReport) {
    && Filled(s, todo, canonical, tombstoned)
    && Counted(counts, canonical, Orphans(s, LineageOf(s)))
  }

  ghost predicate Filled(s: Tables, todo: set<Id>, canonical: map<Id, Id>, tombstoned: set<Id>) {
    && canonical.Keys == s.entities - todo && tombstoned <= s.entities
    && (forall e :: e in canonical ==> Resolve(LineageOf(s), e) == Some(canonical[e]))
    && (forall e :: e in canonical ==> (e in tombstoned <==> e in Orphans(s, LineageOf(s))))
  }

  ghost predicate Counted(counts: MapReport, canonical: map<Id, Id>, orphans: set<Id>) {
    counts == MapReport(|canonical.Keys|, |Merged(canonical)|, |orphans * canonical.Keys|)
  }

  lemma MappedNone(s: Tables)
    requires s.tombstoned <= s.entities
    ensures Mapped(s, s.entities, map[], s.tombstoned, MapReport(0, 0, 0))
  {
    hide LineageOf, Orphans;
    assert Merged(map[]) == {} && Orphans(s, LineageOf(s)) * {} == {};
  }

  lemma MappedNext(s: Tables, todo: set<Id>, canonical: map<Id, Id>, tombstoned: set<Id>, counts: MapReport,
                   e: Id, root: Id)
    requires Mapped(s, todo, canonical, tombstoned, counts)
    requires e in todo && todo <= s.entities && Resolve(LineageOf(s), e) == Some(root)
    ensures var orphaned := Held(s.memberships, e) == {} && root == e;
      Mapped(s, todo - {e}, canonical[e := root], if orphaned then tombstoned + {e} else tombstoned - {e},
             MapReport(counts.entities + 1, counts.merged + (if root != e then 1 else 0),
                       counts.tombstoned + (if orphaned then 1 else 0)))
  {
    hide LineageOf, Resolve, Held, Orphans, Counted, Filled;
    OrphansAre(s, LineageOf(s));
    FilledNext(s, todo, canonical, tombstoned, e, root);
    CountedNext(counts, canonical, Orphans(s, LineageOf(s)), e, root);
  }

  lemma FilledNext(s: Tables, todo: set<Id>, canonical: map<Id, Id>, tombstoned: set<Id>, e: Id, root: Id)
    requires Filled(s, todo, canonical, tombstoned)
    requires e in todo && todo <= s.entities && Resolve(LineageOf(s), e) == Some(root)
    ensures e !in canonical
    ensures Filled(s, todo - {e}, canonical[e := root],
                   if e in Orphans(s, LineageOf(s)) then tombstoned + {e} else tombstoned - {e})
  {
    hide LineageOf, Resolve, Orphans;
    assert canonical[e := root].Keys == canonical.Keys + {e} == s.entities - (todo - {e});
  }

  lemma CountedNext(counts: MapReport, canonical: map<Id, Id>, orphans: set<Id>, e: Id, root: Id)
    requires Counted(counts, canonical, orphans) && e !in canonical
    ensures Counted(MapReport(counts.entities + 1, counts.merged + (if root != e then 1 else 0),
                              counts.tombstoned + (if e in orphans then 1 else 0)), canonical[e := root], orphans)
  {
    hide Merged;
    MergedNext(canonical, e, root);
    OneMore(orphans, canonical.Keys, e);
    assert canonical[e := root].Keys == canonical.Keys + {e};
  }

  lemma MappedAll(s: Tables, canonical: map<Id, Id>, tombstoned: set<Id>, counts: MapReport)
    requires Mapped(s, {}, canonical, tombstoned, counts)
    ensures Rebuild(s) == Ok(s.(canonical := canonical, tombstoned := tombstoned))
    ensures counts == MapReport(|s.entities|, |Merged(canonical)|, |tombstoned|)
  {
    hide LineageOf, Resolve, Held, Merged;
    assert canonical == map e | e in s.entities :: Resolve(LineageOf(s), e).value;
    assert tombstoned == Orphans(s, LineageOf(s)) && tombstoned * canonical.Keys == tombstoned;
  }

  lemma MergedAre(canonical: map<Id, Id>)
    ensures Merged(canonical) == set e | e in canonical && canonical[e] != e
  {
  }

  lemma MergedNext(canonical: map<Id, Id>, e: Id, root: Id)
    requires e !in canonical
    ensures |Merged(canonical[e := root])| == |Merged(canonical)| + if root != e then 1 else 0
  {
    var next := canonical[e := root];
    forall x | x in canonical ensures x in next && next[x] == canonical[x] && x != e {}
    if root != e {
      assert Merged(next) == Merged(canonical) + {e};
    } else {
      assert Merged(next) == Merged(canonical);
    }
  }

  lemma OneMore(some: set<Id>, all: set<Id>, e: Id)
    requires e !in all
    ensures |some * (all + {e})| == |some * all| + (if e in some then 1 else 0)
  {
    assert some * (all + {e}) == some * all + if e in some then {e} else {};
  }

  lemma RebuildRefuses(s: Tables, e: Id)
    requires e in s.entities && Resolve(LineageOf(s), e).None?
    ensures Rebuild(s) == Err(CorruptLineage)
  {
    hide LineageOf, Resolve;
  }

  lemma OrphansAre(s: Tables, parent: Parent)
    ensures forall e ::
      (e in Orphans(s, parent) <==> e in s.entities && Held(s.memberships, e) == {} && Resolve(parent, e) == Some(e))
  {
  }

  lemma ConfirmStorable(s: Tables, p: nat, a: Id, b: Id, candidate: Option<Id>, rev: nat)
    requires Storable(s)
    ensures ConfirmMatch(s, p, a, b, candidate, rev).Ok? ==>
      Storable(ConfirmMatch(s, p, a, b, candidate, rev).value.tables)
  {
    hide Held, Settle, EntityOf, EntitiesOf, ScopeCurrent, Ids, MovedMentions, Replay;
    if ConfirmMatch(s, p, a, b, candidate, rev).Ok? {
      var to := EntityOf(s.memberships, a).value;
      var held := Held(s.memberships, EntityOf(s.memberships, b).value);
      MoveStorable(s.memberships, held, to, rev, s.entities);
    }
  }

  lemma MoveStorable(ms: set<Membership>, mentions: set<Id>, target: Id, rev: nat, entities: set<Id>)
    requires OneActive(ms) && EverHeld(ms) <= entities
    ensures OneActive(Move(ms, mentions, target, rev))
    ensures EverHeld(Move(ms, mentions, target, rev)) <= entities + {target}
  {
    hide Move;
    var ms' := Move(ms, mentions, target, rev);
    forall r, q | r in ms' && q in ms' && r.Active() && q.Active() && r.mention == q.mention ensures r == q {
      var r0 := MoveOrigin(ms, mentions, target, rev, r);
      var q0 := MoveOrigin(ms, mentions, target, rev, q);
    }
    forall r | r in ms' ensures r.entity in entities + {target} {
      var r0 := MoveOrigin(ms, mentions, target, rev, r);
    }
  }

  lemma UnionCandidate(s: Tables, item: Item)
    ensures UnionOf(s, item).candidate == item.candidate
  {
  }

  lemma NotTaken(ids: seq<Id>, i: nat)
    requires Ascending(ids, Before) && i < |ids|
    ensures ids[i] !in Taken(ids, i)
  {
    hide Before;
    forall k | 0 <= k < i ensures ids[k] != ids[i] {
      BeforeIrreflexive(ids[i]);
      assert Before(ids[k], ids[i]);
    }
  }

  lemma HoldersAre(ms: set<Membership>, holders: set<Id>)
    requires holders == set r | r in ms && r.closedAt.None? :: r.entity
    ensures forall e :: e in holders <==> Held(ms, e) != {}
  {
    forall e ensures e in holders <==> Held(ms, e) != {} {
      if e in holders {
        var r :| r in ms && r.closedAt.None? && r.entity == e;
        assert r.mention in Held(ms, e);
      }
      if Held(ms, e) != {} {
        var m :| m in Held(ms, e);
      }
    }
  }

  lemma StorableRows(s: Tables, s': Tables)
    requires Storable(s) && s'.memberships == s.memberships
    requires s.entities <= s'.entities && s'.tombstoned == s.tombstoned
    ensures Storable(s')
  {
    hide OneActive;
  }

  lemma SplitStorable(s: Tables, p: nat, e: Id, mentions: set<Id>, target: Option<Id>, newId: Id, rev: nat)
    requires Storable(s) && SplitEntity(s, p, e, mentions, target, newId, rev).Ok?
    ensures Storable(SplitEntity(s, p, e, mentions, target, newId, rev).value.tables)
  {
    hide Held, ScopeCurrent, Ids, MovedMentions, Replay, Move, UnattributableClaims;
    MoveStorable(s.memberships, mentions, Target(target, newId), rev, s.entities);
  }

  lemma OpenStorable(s: Tables, m: Id, e: Id, at: Option<nat>)
    requires Storable(s) && OpenMembership(s, m, e, at).Ok?
    ensures Storable(OpenMembership(s, m, e, at).value)
  {
    hide EntityOf, EverHeld;
    var rev := if at.Some? then at.value else s.head;
    assert OpenMembership(s, m, e, at).value.memberships == s.memberships + {Row(m, e, rev)};
    OpenEverHeld(s.memberships, m, e, rev);
    forall r | r in s.memberships && r.Active() ensures r.mention != m { ActiveHasOwner(s.memberships, r); }
  }

  lemma AnchorStorable(s: Tables, mention: Option<Id>, e: Option<Id>)
    requires Storable(s) && CheckAnchor(s, mention, e).Ok?
    ensures Storable(CheckAnchor(s, mention, e).value)
  {
    hide Storable, CheckAnchor, OpenMembership;
    AnchorEffect(s, mention, e);
    if CheckAnchor(s, mention, e).value != s {
      OpenStorable(s, mention.value, e.value, None);
    }
  }

  /** Every write keeps what the database enforces, on any tables it allows. */
  lemma ApplyStorable(s: Tables, op: Op)
    requires Storable(s)
    ensures Storable(Apply(s, op))
  {
    hide Storable, ConfirmMatch, SplitEntity, OpenMembership, RecordClaim, CheckAnchor, Constrain, Settle, Before,
      Blank;
    match op
    case DoConfirm(p, a, b, c, gap) => ConfirmStorable(s, p, a, b, c, s.head + 1 + gap);
    case DoSplit(p, e, ms, target, newId, gap) =>
      if SplitEntity(s, p, e, ms, target, newId, s.head + 1 + gap).Ok? {
        SplitStorable(s, p, e, ms, target, newId, s.head + 1 + gap);
      }
    case DoOpen(m, e, at) =>
      if OpenMembership(s, m, e, at).Ok? { OpenStorable(s, m, e, at); }
    case DoClaim(id, draft, literal, symmetric, required) =>
      if RecordClaim(s, id, draft, literal, symmetric, required).Ok? {
        var c := Normalized(draft, symmetric);
        var s1, s2 := ClaimEffect(s, id, draft, literal, symmetric, required);
        AnchorStorable(s, c.subjectMention, Some(c.subjectId));
        AnchorStorable(s1, c.objectMention, c.objectId);
        StorableRows(s2, Apply(s, op));
      }
    case _ => StorableRows(s, Apply(s, op));
  }

  lemma ScopeIs(ms: set<Membership>, mentions: set<Id>, scope: set<Id>)
    requires scope == set row | row in ms && row.closedAt.None? && row.mention in mentions :: row.entity
    ensures scope == EntitiesOf(ms, mentions)
  {
  }

  lemma HeldRows(ms: set<Membership>, e: Id, mentions: set<Id>)
    requires mentions <= Held(ms, e)
    ensures forall m :: m in mentions ==> exists r :: IsActiveRow(ms, m, r)
  {
    forall m | m in mentions ensures exists r :: IsActiveRow(ms, m, r) {
      var r :| r in ms && r.Active() && r.entity == e && r.mention == m;
      assert IsActiveRow(ms, m, r);
    }
  }

  ghost function Candidates(us: seq<Union>): seq<Id> {
    seq(|us|, i requires 0 <= i < |us| => us[i].candidate)
  }

  lemma CandidatesCons(u: Union, us: seq<Union>)
    ensures Candidates([u] + us) == [u.candidate] + Candidates(us)
  {
  }

  /** What the writes of a confirm leave behind. */
  ghost predicate AbsorbedInto(r: Result<seq<Id>, Refusal>, s: Tables, now: Tables, absorbed: Id, survivor: Id,
                               candidate: Option<Id>, rev: nat)
  {
    var held := Held(s.memberships, absorbed);
    match Settle(s.candidates, candidate, Confirmed, rev)
    case Err(e) => r == Err(e)
    case Ok(candidates) =>
      match Rebuild(s.(memberships := Move(s.memberships, held, survivor, rev), candidates := candidates))
      case Err(e) => r == Err(e)
      case Ok(rebuilt) => r == Ok(Ids(MovedMentions(s.memberships, held, survivor))) && now == rebuilt
  }

  /** A confirm whose scope is current. */
  ghost function ConfirmCurrent(s: Tables, p: nat, a: Id, b: Id, candidate: Option<Id>, rev: nat)
    : Result<Outcome, Refusal>
  {
    match (EntityOf(s.memberships, a), EntityOf(s.memberships, b))
    case (Some(survivor), Some(absorbed)) =>
      var held := Held(s.memberships, absorbed);
      (match Settle(s.candidates, candidate, Confirmed, rev)
       case Err(e) => Err(e)
       case Ok(candidates) =>
         match Rebuild(OpenDecision(s, Confirm, p, candidate, {a, b}, rev)
                       .(memberships := Move(s.memberships, held, survivor, rev), candidates := candidates))
         case Err(e) => Err(e)
         case Ok(s2) =>
           Ok(Outcome(s2, Ids(MovedMentions(s.memberships, held, survivor)), Some(survivor), None, [], None)))
    case _ => Err(UnresolvedMention)
  }

  /** The stages of a confirm, as the handler passes through them. */
  lemma ConfirmStages(s: Tables, p: nat, a: Id, b: Id, candidate: Option<Id>, rev: nat)
    requires Storable(s)
    ensures var scope := EntitiesOf(s.memberships, {a, b});
      ConfirmMatch(s, p, a, b, candidate, rev)
      == if |scope| < 2 then Err(NothingToConfirm)
         else if !ScopeCurrent(s.memberships, p, scope) then Err(Stale)
         else ConfirmCurrent(s, p, a, b, candidate, rev)
  {
    hide Held, Move, Rebuild, Ids, MovedMentions, EntitiesOf, ScopeCurrent, Settle;
    if EntityOf(s.memberships, a).Some? {
      assert s.entities + {EntityOf(s.memberships, a).value} == s.entities;
    }
  }
}
