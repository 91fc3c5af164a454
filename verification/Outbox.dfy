/** The authorization store as a projection of the access tables through an ordered outbox
    (aegis/authz/outbox.py, aegis/actions/service.py:1015-1335). */
module Outbox {
  import opened Common

  datatype Grant = Grant(user: string, relation: string, obj: string)

  datatype Op = Write(grant: Grant) | Delete(grant: Grant)

  datatype OutboxRow = OutboxRow(op: Op, processed: bool, attempts: nat)

  datatype CustodyEvent = CustodyEvent(toActor: string, occurredAt: int)

  datatype Access = Access(
    cases: set<Id>,
    members: map<(Id, Id), string>,
    evidence: map<Id, Option<Id>>,
    custody: map<Id, seq<CustodyEvent>>,
    outbox: seq<OutboxRow>,
    fga: set<Grant>)

  datatype Refusal =
    | NotACaseRole | EmptyText | NoSuchCase | SameRole | UnknownOldRole | NoSuchMembership
    | IdTaken | NoSuchEvidence | NotCustodian | OutOfOrder | SameCustodian

  // ------------------------------------------------------------------- desired

  function RelationOf(role: string): Option<string> {
    if role == "analyst" then Some("analyst")
    else if role == "investigator" then Some("investigator")
    else if role == "supervisor" then Some("supervisor")
    else if role == "auditor" then Some("auditor_grant")
    else None
  }

  function MemberGrant(member: (Id, Id), relation: string): Grant {
    Grant("user:" + member.1, relation, "case:" + member.0)
  }

  function EvidenceGrant(evidence: Id, case_: Id): Grant {
    Grant("case:" + case_, "case", "evidence_item:" + evidence)
  }

  function CustodyGrant(evidence: Id, actor: string): Grant {
    Grant("user:" + actor, "custodian", "evidence_item:" + evidence)
  }

  function MemberGrants(members: map<(Id, Id), string>): set<Grant> {
    set k | k in members && RelationOf(members[k]).Some? :: MemberGrant(k, RelationOf(members[k]).value)
  }

  function EvidenceGrants(evidence: map<Id, Option<Id>>): set<Grant> {
    set e | e in evidence && evidence[e].Some? :: EvidenceGrant(e, evidence[e].value)
  }

  /** The current custodian is the one of the latest event. */
  function CustodyGrants(custody: map<Id, seq<CustodyEvent>>): set<Grant> {
    set e | e in custody && custody[e] != [] :: CustodyGrant(e, custody[e][|custody[e]| - 1].toActor)
  }

  /** The whole tuple set the tables imply. */
  function Desired(a: Access): set<Grant> {
    MemberGrants(a.members) + EvidenceGrants(a.evidence) + CustodyGrants(a.custody)
  }

  // --------------------------------------------------------------------- queue

  function Effect(op: Op, s: set<Grant>): set<Grant> {
    if op.Write? then s + {op.grant} else s - {op.grant}
  }

  function Fold(ops: seq<Op>, s: set<Grant>): set<Grant>
    decreases |ops|
  {
    if ops == [] then s else Fold(ops[1..], Effect(ops[0], s))
  }

  function Pending(rows: seq<OutboxRow>): seq<Op> {
    if rows == [] then []
    else (if rows[0].processed then [] else [rows[0].op]) + Pending(rows[1..])
  }

  function Enqueued(ops: seq<Op>): seq<OutboxRow> {
    seq(|ops|, i requires 0 <= i < |ops| => OutboxRow(ops[i], false, 0))
  }

  /** What is queued turns what is stored into what is desired. */
  predicate Converges(a: Access) {
    Fold(Pending(a.outbox), a.fga) == Desired(a)
  }

  lemma {:induction false} FoldAppend(p: seq<Op>, q: seq<Op>, s: set<Grant>)
    ensures Fold(p + q, s) == Fold(q, Fold(p, s))
    decreases |p|
  {
    if p == [] {
      assert p + q == q;
    } else {
      assert (p + q)[1..] == p[1..] + q;
      FoldAppend(p[1..], q, Effect(p[0], s));
    }
  }

  lemma {:induction false} PendingAppend(p: seq<OutboxRow>, q: seq<OutboxRow>)
    ensures Pending(p + q) == Pending(p) + Pending(q)
  {
    if p == [] {
      assert p + q == q;
    } else {
      assert (p + q)[1..] == p[1..] + q;
      PendingAppend(p[1..], q);
    }
  }

  lemma {:induction false} PendingEnqueued(ops: seq<Op>)
    ensures Pending(Enqueued(ops)) == ops
    decreases |ops|
  {
    if ops == [] {
    } else {
      assert Enqueued(ops)[1..] == Enqueued(ops[1..]);
      PendingEnqueued(ops[1..]);
      assert ops == [ops[0]] + ops[1..];
    }
  }

  predicate Mentions(ops: seq<Op>, g: Grant) {
    exists i :: 0 <= i < |ops| && ops[i].grant == g
  }

  lemma MentionsCons(ops: seq<Op>, g: Grant)
    requires ops != []
    ensures Mentions(ops, g) <==> ops[0].grant == g || Mentions(ops[1..], g)
  {
    if i :| 0 <= i < |ops| && ops[i].grant == g {
      if i > 0 { assert ops[1..][i - 1].grant == g; }
    }
    if i :| 0 <= i < |ops[1..]| && ops[1..][i].grant == g {
      assert ops[i + 1].grant == g;
    }
  }

  /** The two stores agree about every grant no queued operation mentions. */
  ghost predicate AgreeElsewhere(ops: seq<Op>, s: set<Grant>, t: set<Grant>) {
    forall g :: !Mentions(ops, g) ==> (g in s <==> g in t)
  }

  /** Draining erases any difference the queue mentions: whatever a crash, a repeat or a
      half-failed call left behind, the end is the same. */
  lemma {:induction false} FoldForgets(ops: seq<Op>, s: set<Grant>, t: set<Grant>)
    requires AgreeElsewhere(ops, s, t)
    ensures Fold(ops, s) == Fold(ops, t)
    decreases |ops|
  {
    if ops == [] {
      forall g ensures g in s <==> g in t { assert !Mentions(ops, g); }
    } else {
      forall g | !Mentions(ops[1..], g) ensures g in Effect(ops[0], s) <==> g in Effect(ops[0], t) {
        MentionsCons(ops, g);
      }
      FoldForgets(ops[1..], Effect(ops[0], s), Effect(ops[0], t));
    }
  }

  /** The exact meaning of a queue for a grant it does not mention. */
  lemma {:induction false} FoldUnmentioned(ops: seq<Op>, s: set<Grant>, g: Grant)
    requires !Mentions(ops, g)
    ensures g in Fold(ops, s) <==> g in s
    decreases |ops|
  {
    if ops == [] {
    } else {
      MentionsCons(ops, g);
      FoldUnmentioned(ops[1..], Effect(ops[0], s), g);
    }
  }

  // ----------------------------------------------------------- access actions

  function Enqueue(a: Access, ops: seq<Op>): Access { a.(outbox := a.outbox + Enqueued(ops)) }

  function AssignMember(a: Access, case_: Id, user: Id, role: string): Result<Access, Refusal> {
    if RelationOf(role).None? then Err(NotACaseRole)
    else if Blank(user) then Err(EmptyText)
    else if case_ !in a.cases then Err(NoSuchCase)
    else
      var k := (case_, user);
      var write := Write(MemberGrant(k, RelationOf(role).value));
      if k !in a.members then Ok(Enqueue(a.(members := a.members[k := role]), [write]))
      else if a.members[k] == role then Err(SameRole)
      else if RelationOf(a.members[k]).None? then Err(UnknownOldRole)
      else Ok(Enqueue(a.(members := a.members[k := role]),
                      [Delete(MemberGrant(k, RelationOf(a.members[k]).value)), write]))
  }

  function RemoveMember(a: Access, case_: Id, user: Id): Result<Access, Refusal> {
    var k := (case_, user);
    if Blank(user) then Err(EmptyText)
    else if k !in a.members then Err(NoSuchMembership)
    else if RelationOf(a.members[k]).None? then Err(UnknownOldRole)
    else Ok(Enqueue(a.(members := a.members - {k}), [Delete(MemberGrant(k, RelationOf(a.members[k]).value))]))
  }

  function RegisterEvidence(a: Access, id: Id, case_: Option<Id>, description: string): Result<Access, Refusal> {
    if Blank(description) then Err(EmptyText)
    else if case_.Some? && case_.value !in a.cases then Err(NoSuchCase)
    else if id in a.evidence then Err(IdTaken)
    else
      var registered := a.(evidence := a.evidence[id := case_]);
      Ok(if case_.None? then registered else Enqueue(registered, [Write(EvidenceGrant(id, case_.value))]))
  }

  function EventsOf(a: Access, id: Id): seq<CustodyEvent> {
    if id in a.custody then a.custody[id] else []
  }

  function AddCustodyEvent(a: Access, id: Id, toActor: string, fromActor: Option<string>, occurredAt: int, purpose: string)
    : Result<Access, Refusal>
  {
    if Blank(toActor) || Blank(purpose) then Err(EmptyText)
    else if id !in a.evidence then Err(NoSuchEvidence)
    else
      var events := EventsOf(a, id);
      var next := a.(custody := a.custody[id := events + [CustodyEvent(toActor, occurredAt)]]);
      var write := Write(CustodyGrant(id, toActor));
      if events == [] then
        if fromActor.Some? then Err(NotCustodian) else Ok(Enqueue(next, [write]))
      else
        var current := events[|events| - 1];
        if fromActor.Some? && fromActor.value != current.toActor then Err(NotCustodian)
        else if occurredAt < current.occurredAt then Err(OutOfOrder)
        else if toActor == current.toActor then Err(SameCustodian)
        else Ok(Enqueue(next, [Delete(CustodyGrant(id, current.toActor)), write]))
  }

  // --------------------------------------------------------- grants do not clash

  lemma PrefixInjective(prefix: string, a: string, b: string)
    requires prefix + a == prefix + b
    ensures a == b
  {
    assert (prefix + a)[|prefix|..] == a && (prefix + b)[|prefix|..] == b;
  }

  lemma MemberGrantInjective(k: (Id, Id), r: string, l: (Id, Id), q: string)
    requires MemberGrant(k, r) == MemberGrant(l, q)
    ensures k == l && r == q
  {
    PrefixInjective("user:", k.1, l.1);
    PrefixInjective("case:", k.0, l.0);
  }

  lemma RelationKinds(role: string)
    ensures RelationOf(role).Some? ==> RelationOf(role).value != "case" && RelationOf(role).value != "custodian"
  {
  }

  /** Changing one membership changes exactly its own grants. */
  lemma MemberUpdate(members: map<(Id, Id), string>, k: (Id, Id), members': map<(Id, Id), string>)
    requires members' - {k} == members - {k}
    requires k in members ==> RelationOf(members[k]).Some?
    requires k in members' ==> RelationOf(members'[k]).Some?
    ensures MemberGrants(members')
      == MemberGrants(members)
         - (if k in members then {MemberGrant(k, RelationOf(members[k]).value)} else {})
         + (if k in members' then {MemberGrant(k, RelationOf(members'[k]).value)} else {})
  {
    hide RelationOf, MemberGrant;
    forall l | l != k ensures l in members <==> l in members'
      ensures l in members ==> members[l] == members'[l]
    {
      assert l in members <==> l in members - {k};
      assert l in members' <==> l in members' - {k};
      assert l in members ==> (members - {k})[l] == members[l];
      assert l in members' ==> (members' - {k})[l] == members'[l];
    }
    forall l, r, q | MemberGrant(k, r) == MemberGrant(l, q) ensures k == l && r == q {
      MemberGrantInjective(k, r, l, q);
    }
    MemberUpdateSets(members, k, members');
  }

  lemma MemberUpdateSets(members: map<(Id, Id), string>, k: (Id, Id), members': map<(Id, Id), string>)
    requires forall l :: l != k ==>
      (l in members <==> l in members') && (l in members ==> members[l] == members'[l])
    requires forall l, r, q :: MemberGrant(k, r) == MemberGrant(l, q) ==> k == l && r == q
    requires k in members ==> RelationOf(members[k]).Some?
    requires k in members' ==> RelationOf(members'[k]).Some?
    ensures MemberGrants(members')
      == MemberGrants(members)
         - (if k in members then {MemberGrant(k, RelationOf(members[k]).value)} else {})
         + (if k in members' then {MemberGrant(k, RelationOf(members'[k]).value)} else {})
  {
    hide RelationOf, MemberGrant;
    var gone := if k in members then {MemberGrant(k, RelationOf(members[k]).value)} else {};
    var added := if k in members' then {MemberGrant(k, RelationOf(members'[k]).value)} else {};
    var old_, new_ := MemberGrants(members), MemberGrants(members');
    forall g | g in new_ ensures g in old_ - gone + added {
      var l :| l in members' && RelationOf(members'[l]).Some? && g == MemberGrant(l, RelationOf(members'[l]).value);
      if l != k {
        assert l in members && members[l] == members'[l];
      }
    }
    forall g | g in old_ - gone + added ensures g in new_ {
      if g !in added {
        var l :| l in members && RelationOf(members[l]).Some? && g == MemberGrant(l, RelationOf(members[l]).value);
        assert l != k;
      }
    }
  }

  /** Changing one item's custody changes exactly its own grants. */
  lemma CustodyUpdate(custody: map<Id, seq<CustodyEvent>>, id: Id, events: seq<CustodyEvent>)
    requires events != []
    ensures CustodyGrants(custody[id := events])
      == CustodyGrants(custody)
         - (if id in custody && custody[id] != [] then {CustodyGrant(id, custody[id][|custody[id]| - 1].toActor)} else {})
         + {CustodyGrant(id, events[|events| - 1].toActor)}
  {
    var custody' := custody[id := events];
    var gone := if id in custody && custody[id] != [] then {CustodyGrant(id, custody[id][|custody[id]| - 1].toActor)} else {};
    var added := {CustodyGrant(id, events[|events| - 1].toActor)};
    forall e, p, q | CustodyGrant(id, p) == CustodyGrant(e, q) ensures id == e {
      PrefixInjective("evidence_item:", id, e);
    }
    hide CustodyGrant;
    forall g | g in CustodyGrants(custody') ensures g in CustodyGrants(custody) - gone + added {
      var e :| e in custody' && custody'[e] != [] && g == CustodyGrant(e, custody'[e][|custody'[e]| - 1].toActor);
    }
    forall g | g in CustodyGrants(custody) - gone + added ensures g in CustodyGrants(custody') {
      if g in added {
        assert id in custody' && custody'[id] == events;
      } else {
        var e :| e in custody && custody[e] != [] && g == CustodyGrant(e, custody[e][|custody[e]| - 1].toActor);
        assert e != id && e in custody' && custody'[e] == custody[e];
      }
    }
  }

  lemma EvidenceUpdate(evidence: map<Id, Option<Id>>, id: Id, case_: Option<Id>)
    requires id !in evidence
    ensures EvidenceGrants(evidence[id := case_])
      == EvidenceGrants(evidence) + (if case_.Some? then {EvidenceGrant(id, case_.value)} else {})
  {
    hide EvidenceGrant;
    var evidence' := evidence[id := case_];
    forall g | g in EvidenceGrants(evidence) ensures g in EvidenceGrants(evidence') {
      var e :| e in evidence && evidence[e].Some? && g == EvidenceGrant(e, evidence[e].value);
      assert e in evidence' && evidence'[e] == evidence[e];
    }
    if case_.Some? { assert id in evidence' && evidence'[id] == case_; }
  }

  /** The three kinds of grant differ in their relation. */
  lemma KindsApart(a: Access, g: Grant)
    ensures g in MemberGrants(a.members) ==> g.relation != "case" && g.relation != "custodian"
    ensures g in EvidenceGrants(a.evidence) ==> g.relation == "case"
    ensures g in CustodyGrants(a.custody) ==> g.relation == "custodian"
  {
    if g in MemberGrants(a.members) {
      var k :| k in a.members && RelationOf(a.members[k]).Some? && g == MemberGrant(k, RelationOf(a.members[k]).value);
      RelationKinds(a.members[k]);
    }
  }

  // --------------------------------------------------- actions keep convergence

  /** The queued operations turn the old desired set into the new one. */
  lemma Enqueues(a: Access, a': Access, ops: seq<Op>)
    requires Converges(a)
    requires a'.outbox == a.outbox + Enqueued(ops) && a'.fga == a.fga
    requires Fold(ops, Desired(a)) == Desired(a')
    ensures Converges(a')
  {
    PendingAppend(a.outbox, Enqueued(ops));
    PendingEnqueued(ops);
    FoldAppend(Pending(a.outbox), ops, a.fga);
  }

  lemma FoldOne(op: Op, s: set<Grant>)
    ensures Fold([op], s) == Effect(op, s)
  {
    assert [op][1..] == [];
  }

  lemma FoldTwo(p: Op, q: Op, s: set<Grant>)
    ensures Fold([p, q], s) == Effect(q, Effect(p, s))
  {
    assert [p, q][1..] == [q];
    FoldOne(q, Effect(p, s));
  }

  lemma AssignConverges(a: Access, case_: Id, user: Id, role: string)
    requires Converges(a) && AssignMember(a, case_, user, role).Ok?
    ensures Converges(AssignMember(a, case_, user, role).value)
  {
    hide Blank, RelationOf, MemberGrants, EvidenceGrants, CustodyGrants, Fold, Converges;
    var a' := AssignMember(a, case_, user, role).value;
    var k := (case_, user);
    MemberUpdate(a.members, k, a'.members);
    var write := Write(MemberGrant(k, RelationOf(role).value));
    if k !in a.members {
      FoldOne(write, Desired(a));
      Enqueues(a, a', [write]);
    } else {
      var gone := MemberGrant(k, RelationOf(a.members[k]).value);
      NotElsewhere(a, gone, a.members[k], k);
      FoldTwo(Delete(gone), write, Desired(a));
      Enqueues(a, a', [Delete(gone), write]);
    }
  }

  /** A membership grant is no evidence or custody grant. */
  lemma NotElsewhere(a: Access, g: Grant, role: string, k: (Id, Id))
    requires RelationOf(role).Some? && g == MemberGrant(k, RelationOf(role).value)
    ensures g !in EvidenceGrants(a.evidence) && g !in CustodyGrants(a.custody)
  {
    KindsApart(a, g);
    RelationKinds(role);
  }

  lemma RemoveConverges(a: Access, case_: Id, user: Id)
    requires Converges(a) && RemoveMember(a, case_, user).Ok?
    ensures Converges(RemoveMember(a, case_, user).value)
  {
    hide Blank, RelationOf, MemberGrants, EvidenceGrants, CustodyGrants, Fold, Converges;
    var a' := RemoveMember(a, case_, user).value;
    var k := (case_, user);
    var gone := MemberGrant(k, RelationOf(a.members[k]).value);
    MemberUpdate(a.members, k, a'.members);
    NotElsewhere(a, gone, a.members[k], k);
    FoldOne(Delete(gone), Desired(a));
    Enqueues(a, a', [Delete(gone)]);
  }

  lemma RegisterConverges(a: Access, id: Id, case_: Option<Id>, description: string)
    requires Converges(a) && RegisterEvidence(a, id, case_, description).Ok?
    ensures Converges(RegisterEvidence(a, id, case_, description).value)
  {
    hide Blank, RelationOf, MemberGrants, EvidenceGrants, CustodyGrants, Fold, Converges;
    var a' := RegisterEvidence(a, id, case_, description).value;
    EvidenceUpdate(a.evidence, id, case_);
    if case_.None? {
      assert a'.outbox == a.outbox + Enqueued([]);
      FoldNone(Desired(a));
      Enqueues(a, a', []);
    } else {
      FoldOne(Write(EvidenceGrant(id, case_.value)), Desired(a));
      Enqueues(a, a', [Write(EvidenceGrant(id, case_.value))]);
    }
  }

  lemma FoldNone(s: set<Grant>)
    ensures Fold([], s) == s
  {
  }

  lemma CustodyConverges(a: Access, id: Id, toActor: string, fromActor: Option<string>, occurredAt: int, purpose: string)
    requires Converges(a) && AddCustodyEvent(a, id, toActor, fromActor, occurredAt, purpose).Ok?
    ensures Converges(AddCustodyEvent(a, id, toActor, fromActor, occurredAt, purpose).value)
  {
    hide Blank, MemberGrants, EvidenceGrants, CustodyGrants, Fold, Converges;
    var a' := AddCustodyEvent(a, id, toActor, fromActor, occurredAt, purpose).value;
    var events := EventsOf(a, id);
    CustodyUpdate(a.custody, id, events + [CustodyEvent(toActor, occurredAt)]);
    var write := Write(CustodyGrant(id, toActor));
    if events == [] {
      FoldOne(write, Desired(a));
      Enqueues(a, a', [write]);
    } else {
      var gone := CustodyGrant(id, events[|events| - 1].toActor);
      KindsApart(a, gone);
      FoldTwo(Delete(gone), write, Desired(a));
      Enqueues(a, a', [Delete(gone), write]);
    }
  }
}
