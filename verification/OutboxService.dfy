/** The access actions, the dispatcher and the rebuild as they run: rows inserted and updated
    in place, the store called one tuple at a time. */
module OutboxService {
  import opened Common
  import opened Outbox
  import opened OutboxRuns

  class AccessService {
    var cases: set<Id>
    var members: map<(Id, Id), string>
    var evidence: map<Id, Option<Id>>
    var custody: map<Id, seq<CustodyEvent>>
    var outbox: seq<OutboxRow>
    var fga: set<Grant>

    ghost function View(): Access
      reads this
    {
      Access(cases, members, evidence, custody, outbox, fga)
    }

    constructor ()
      ensures Converges(View())
    {
      cases, members, evidence, custody, outbox, fga := {}, map[], map[], map[], [], {};
      new;
      EmptyConverges();
    }

    method Queue(op: Op)
      modifies this`outbox
      ensures outbox == old(outbox) + Enqueued([op])
    {
      outbox := outbox + [OutboxRow(op, false, 0)];
    }

    // ----------------------------------------------------------------- actions

    method AssignCaseMember(case_: Id, user: Id, role: string) returns (r: Result<(), Refusal>)
      modifies this`members, this`outbox
      ensures match AssignMember(old(View()), case_, user, role)
        case Ok(a) => r.Ok? && View() == a
        case Err(e) => r == Err(e) && View() == old(View())
    {
      hide Blank;
      var relation := RelationOf(role);
      if relation.None? {
        return Err(NotACaseRole);
      }
      if Blank(user) {
        return Err(EmptyText);
      }
      if case_ !in cases {
        return Err(NoSuchCase);
      }
      var k := (case_, user);
      if k in members {
        if members[k] == role {
          return Err(SameRole);
        }
        var old_ := RelationOf(members[k]);
        if old_.None? {
          return Err(UnknownOldRole);
        }
        Queue(Delete(MemberGrant(k, old_.value)));
      }
      members := members[k := role];
      Queue(Write(MemberGrant(k, relation.value)));
      assert k in old(members) ==> outbox == old(outbox) + Enqueued(
        [Delete(MemberGrant(k, RelationOf(old(members)[k]).value)), Write(MemberGrant(k, relation.value))]);
      return Ok(());
    }

    method RemoveCaseMember(case_: Id, user: Id) returns (r: Result<(), Refusal>)
      modifies this`members, this`outbox
      ensures match RemoveMember(old(View()), case_, user)
        case Ok(a) => r.Ok? && View() == a
        case Err(e) => r == Err(e) && View() == old(View())
    {
      hide Blank;
      if Blank(user) {
        return Err(EmptyText);
      }
      var k := (case_, user);
      if k !in members {
        return Err(NoSuchMembership);
      }
      var relation := RelationOf(members[k]);
      if relation.None? {
        return Err(UnknownOldRole);
      }
      Queue(Delete(MemberGrant(k, relation.value)));
      members := members - {k};
      return Ok(());
    }

    method RegisterEvidenceItem(id: Id, case_: Option<Id>, description: string) returns (r: Result<(), Refusal>)
      modifies this`evidence, this`outbox
      ensures match RegisterEvidence(old(View()), id, case_, description)
        case Ok(a) => r.Ok? && View() == a
        case Err(e) => r == Err(e) && View() == old(View())
    {
      hide Blank;
      if Blank(description) {
        return Err(EmptyText);
      }
      if case_.Some? && case_.value !in cases {
        return Err(NoSuchCase);
      }
      if id in evidence {
        return Err(IdTaken);
      }
      evidence := evidence[id := case_];
      if case_.Some? {
        Queue(Write(EvidenceGrant(id, case_.value)));
      }
      return Ok(());
    }

    method TransferCustody(id: Id, toActor: string, fromActor: Option<string>, occurredAt: int, purpose: string)
      returns (r: Result<(), Refusal>)
      modifies this`custody, this`outbox
      ensures match AddCustodyEvent(old(View()), id, toActor, fromActor, occurredAt, purpose)
        case Ok(a) => r.Ok? && View() == a
        case Err(e) => r == Err(e) && View() == old(View())
    {
      hide Blank;
      if Blank(toActor) || Blank(purpose) {
        return Err(EmptyText);
      }
      if id !in evidence {
        return Err(NoSuchEvidence);
      }
      var events := if id in custody then custody[id] else [];
      if events == [] {
        if fromActor.Some? {
          return Err(NotCustodian);
        }
      } else {
        var current := events[|events| - 1];
        if fromActor.Some? && fromActor.value != current.toActor {
          return Err(NotCustodian);
        }
        if occurredAt < current.occurredAt {
          return Err(OutOfOrder);
        }
        if toActor == current.toActor {
          return Err(SameCustodian);
        }
        Queue(Delete(CustodyGrant(id, current.toActor)));
      }
      custody := custody[id := events + [CustodyEvent(toActor, occurredAt)]];
      Queue(Write(CustodyGrant(id, toActor)));
      assert events != [] ==> outbox == old(outbox) + Enqueued(
        [Delete(CustodyGrant(id, events[|events| - 1].toActor)), Write(CustodyGrant(id, toActor))]);
      return Ok(());
    }

    // ------------------------------------------------------------------- drain

    /** One row: attempted once if it is pending, marked processed if the call works. */
    method TryRow(row: OutboxRow, call: Call) returns (after: OutboxRow, worked: bool, failed: bool)
      modifies this`fga
      ensures if row.processed then after == row && !worked && !failed && fga == old(fga)
        else
          && worked == call.Works? && failed == !worked
          && after == row.(attempts := row.attempts + 1, processed := worked)
          && fga == if call.Fails? then old(fga) else Effect(row.op, old(fga))
    {
      if row.processed {
        return row, false, false;
      }
      if !call.Fails? {
        fga := if row.op.Write? then fga + {row.op.grant} else fga - {row.op.grant};
      }
      worked := call.Works?;
      return row.(attempts := row.attempts + 1, processed := worked), worked, !worked;
    }

    /** Tries the rows in insertion order and stops at the first failure. */
    method TryRows(calls: seq<Call>, limit: Option<nat>) returns (rows: seq<OutboxRow>, processed: nat, failed: bool)
      modifies this`fga
      ensures Drained(rows, fga, processed, failed) == Drain(outbox, old(fga), calls, 0, limit)
    {
      hide Drain, Effect;
      var saved := outbox;
      var done: seq<OutboxRow> := [];
      var i := 0;
      processed, failed := 0, false;
      ghost var all := Drain(saved, fga, calls, 0, limit);
      assert saved[0..] == saved;
      while i < |saved| && !failed && (limit.None? || processed < limit.value)
        modifies this`fga
        invariant 0 <= i == |done| <= |saved|
        invariant all == if failed then Drained(done + saved[i..], fga, processed, true)
                         else Prepend(done, Drain(saved[i..], fga, calls, processed, limit))
      {
        DrainNext(done, saved, i, fga, calls, processed, limit);
        var row, worked;
        row, worked, failed := TryRow(saved[i], CallAt(calls, processed));
        done := done + [row];
        processed := if worked then processed + 1 else processed;
        i := i + 1;
      }
      DrainStops(saved[i..], fga, calls, processed, limit);
      rows := done + saved[i..];
    }

    /** One drain in one transaction: the row updates are kept only if it commits, the store keeps
        what reached it either way. */
    method SyncOutbox(calls: seq<Call>, limit: Option<nat>, commits: bool) returns (processed: nat, failed: bool)
      modifies this`outbox, this`fga
      ensures View() == Next(old(View()), Sync(calls, limit, commits))
      ensures var d := Drain(old(outbox), old(fga), calls, 0, limit);
        processed == d.processed && failed == d.failed
      ensures Converges(old(View())) ==> Converges(View())
    {
      hide Fold, Drain, Desired, Effect, Converges;
      ghost var before := View();
      var rows;
      rows, processed, failed := TryRows(calls, limit);
      if commits {
        outbox := rows;
      }
      if Converges(before) {
        SyncConverges(before, calls, limit, commits);
      }
    }

    /** Post-commit removal of a revoked grant; a failure is only logged. */
    method DeleteInline(grant: Grant, call: Call) returns (ok: bool)
      modifies this`fga
      ensures View() == Next(old(View()), OutboxRuns.InlineDelete(grant, call)) && ok == call.Works?
      ensures Converges(old(View())) ==>
        (Converges(View()) <==>
           call.Fails? || Mentions(Pending(old(outbox)), grant) || grant !in Desired(old(View())))
    {
      if Converges(View()) {
        InlineDeleteIff(View(), grant);
      }
      if !call.Fails? {
        fga := fga - {grant};
      }
      return call.Works?;
    }

    // ----------------------------------------------------------------- rebuild

    method DesiredTuples() returns (desired: set<Grant>)
      ensures desired == Desired(View())
    {
      hide RelationOf, MemberGrant, EvidenceGrant, CustodyGrant;
      var ofMembers := DesiredOfMembers();
      var ofEvidence := DesiredOfEvidence();
      var ofCustody := DesiredOfCustody();
      desired := ofMembers + ofEvidence + ofCustody;
    }

    method DesiredOfEvidence() returns (desired: set<Grant>)
      ensures desired == set e | e in evidence && evidence[e].Some? :: EvidenceGrant(e, evidence[e].value)
    {
      hide EvidenceGrant;
      desired := {};
      var todo := evidence.Keys;
      while todo != {}
        invariant todo <= evidence.Keys
        invariant desired
          == set e | e in evidence.Keys - todo && evidence[e].Some? :: EvidenceGrant(e, evidence[e].value)
        decreases todo
      {
        var e :| e in todo;
        if evidence[e].Some? {
          desired := desired + {EvidenceGrant(e, evidence[e].value)};
        }
        todo := todo - {e};
      }
    }

    method DesiredOfCustody() returns (desired: set<Grant>)
      ensures desired
        == set e | e in custody && custody[e] != [] :: CustodyGrant(e, custody[e][|custody[e]| - 1].toActor)
    {
      hide CustodyGrant;
      desired := {};
      var todo := custody.Keys;
      while todo != {}
        invariant todo <= custody.Keys
        invariant desired
          == set e | e in custody.Keys - todo && custody[e] != []
             :: CustodyGrant(e, custody[e][|custody[e]| - 1].toActor)
        decreases todo
      {
        var e :| e in todo;
        if custody[e] != [] {
          desired := desired + {CustodyGrant(e, custody[e][|custody[e]| - 1].toActor)};
        }
        todo := todo - {e};
      }
    }

    method DesiredOfMembers() returns (desired: set<Grant>)
      ensures desired == MemberGrants(members)
    {
      hide RelationOf, MemberGrant;
      desired := {};
      var todo := members.Keys;
      while todo != {}
        invariant todo <= members.Keys
        invariant desired == set k | k in members.Keys - todo && RelationOf(members[k]).Some?
                             :: MemberGrant(k, RelationOf(members[k]).value)
        decreases todo
      {
        var k :| k in todo;
        var relation := RelationOf(members[k]);
        if relation.Some? {
          desired := desired + {MemberGrant(k, relation.value)};
        }
        todo := todo - {k};
      }
    }

    /** Reconciles the store tuple by tuple; `answers` calls work before one raises. */
    method RebuildStore(answers: nat) returns (done: bool)
      modifies this`outbox, this`fga
      ensures done ==> View() == Next(old(View()), OutboxRuns.Rebuild)
      ensures done ==> fga == Desired(View()) && Pending(outbox) == []
      ensures !done ==> Towards(old(fga), fga, Desired(old(View()))) && View() == old(View()).(fga := fga)
      ensures done || Converges(old(View())) ==> Converges(View())
    {
      hide Desired, Fold;
      ghost var before := View();
      var desired := DesiredTuples();
      var existing := fga;
      var left := answers;
      var missing := desired - existing;
      while missing != {} && left > 0
        modifies this`fga
        invariant missing <= desired - existing && fga == existing + (desired - existing - missing)
        decreases missing
      {
        var g :| g in missing;
        fga := fga + {g};
        missing := missing - {g};
        left := left - 1;
      }
      var extra := existing - desired;
      if missing == {} {
        while extra != {} && left > 0
          modifies this`fga
          invariant extra <= existing - desired && fga == existing + desired - (existing - desired - extra)
          decreases extra
        {
          var g :| g in extra;
          fga := fga - {g};
          extra := extra - {g};
          left := left - 1;
        }
      }
      if missing != {} || extra != {} {
        assert Towards(existing, fga, desired);
        if Converges(before) {
          PartialRebuild(before, fga);
        }
        return false;
      }
      assert fga == desired;
      var rows := outbox;
      outbox := seq(|rows|, i requires 0 <= i < |rows| => rows[i].(processed := true));
      assert outbox == Superseded(rows);
      RebuildConverges(before);
      return true;
    }
  }

  ghost function Prepend(front: seq<OutboxRow>, d: Drained): Drained {
    d.(rows := front + d.rows)
  }

  lemma PrependMore(done: seq<OutboxRow>, row: OutboxRow, rest: seq<OutboxRow>, d: Drained)
    ensures Prepend(done, d.(rows := [row] + d.rows)) == Prepend(done + [row], d)
    ensures done + ([row] + rest) == (done + [row]) + rest
  {
    assert done + ([row] + d.rows) == (done + [row]) + d.rows;
  }

  /** One unfolding of the drain, behind the rows that are done. */
  lemma DrainNext(done: seq<OutboxRow>, rows: seq<OutboxRow>, i: nat, fga: set<Grant>, calls: seq<Call>, n: nat,
                  limit: Option<nat>)
    requires i < |rows| && (limit.None? || n < limit.value)
    ensures var tried := rows[i].(attempts := rows[i].attempts + 1);
      Prepend(done, Drain(rows[i..], fga, calls, n, limit))
      == if rows[i].processed then Prepend(done + [rows[i]], Drain(rows[i + 1..], fga, calls, n, limit))
         else match CallAt(calls, n)
           case Works =>
             Prepend(done + [tried.(processed := true)],
                     Drain(rows[i + 1..], Effect(rows[i].op, fga), calls, n + 1, limit))
           case Fails => Drained(done + [tried] + rows[i + 1..], fga, n, true)
           case FailsAfterEffect => Drained(done + [tried] + rows[i + 1..], Effect(rows[i].op, fga), n, true)
  {
    hide Drain, Effect;
    var tried := rows[i].(attempts := rows[i].attempts + 1);
    assert rows[i..][0] == rows[i] && rows[i..][1..] == rows[i + 1..];
    DrainOnce(rows[i..], fga, calls, n, limit);
    PrependMore(done, rows[i], rows[i + 1..], Drain(rows[i + 1..], fga, calls, n, limit));
    PrependMore(done, tried, rows[i + 1..], Drain(rows[i + 1..], fga, calls, n, limit));
    PrependMore(done, tried.(processed := true), rows[i + 1..],
                Drain(rows[i + 1..], Effect(rows[i].op, fga), calls, n + 1, limit));
  }

  lemma DrainStops(rows: seq<OutboxRow>, fga: set<Grant>, calls: seq<Call>, n: nat, limit: Option<nat>)
    ensures rows == [] || (limit.Some? && n >= limit.value)
      ==> Drain(rows, fga, calls, n, limit) == Drained(rows, fga, n, false)
  {
  }
}
