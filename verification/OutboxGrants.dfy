/** What the access actions mean for the store, said of the tuples themselves: who may do what
    after each action, and what the tables are like after every run
    (aegis/actions/service.py:1015-1335, aegis/authz/outbox.py:182-202). */
module OutboxGrants {
  import opened Common
  import opened Outbox
  import opened OutboxRuns

  /** What the queue makes of the store once it is drained. */
  function LeadsTo(a: Access): set<Grant> { Fold(Pending(a.outbox), a.fga) }

  /** One unlimited drain of a store that answers is enough for that. */
  lemma DrainedStore(a: Access, calls: seq<Call>)
    requires forall i :: 0 <= i < |calls| ==> calls[i] == Works
    ensures Next(a, Sync(calls, None, true)).fga == LeadsTo(a)
    ensures Pending(Next(a, Sync(calls, None, true)).outbox) == []
  {
    hide Drain, Fold;
    DrainEmpties(a.outbox, a.fga, calls, 0);
  }

  // ------------------------------------------------------------- the tuples, spelled out

  /** The relation a role of a case membership stands for. */
  predicate Carries(role: string, relation: string) {
    || (role == "analyst" && relation == "analyst")
    || (role == "investigator" && relation == "investigator")
    || (role == "supervisor" && relation == "supervisor")
    || (role == "auditor" && relation == "auditor_grant")
  }

  predicate CaseRole(role: string) { role in {"analyst", "investigator", "supervisor", "auditor"} }

  predicate HasText(text: string) { exists c :: c in text && !IsSpace(c) }

  function OnCase(user: Id, relation: string, case_: Id): Grant { Grant("user:" + user, relation, "case:" + case_) }

  function OfCase(case_: Id, item: Id): Grant { Grant("case:" + case_, "case", "evidence_item:" + item) }

  function Holds(actor: string, item: Id): Grant { Grant("user:" + actor, "custodian", "evidence_item:" + item) }

  lemma RolesCarry(role: string, relation: string)
    ensures RelationOf(role) == Some(relation) <==> Carries(role, relation)
    ensures RelationOf(role).Some? <==> CaseRole(role)
  {
  }

  lemma CaseIsNoItem(case_: Id, item: Id)
    ensures "case:" + case_ != "evidence_item:" + item
  {
    assert ("case:" + case_)[0] != ("evidence_item:" + item)[0];
  }

  /** A user is given a relation on a case exactly by the role of the membership row. */
  lemma OnCaseIff(a: Access, user: Id, relation: string, case_: Id)
    ensures OnCase(user, relation, case_) in Desired(a)
      <==> (case_, user) in a.members && Carries(a.members[(case_, user)], relation)
  {
    hide RelationOf, Carries;
    var g := OnCase(user, relation, case_);
    forall e, x ensures g != EvidenceGrant(e, x) && g != CustodyGrant(e, x) {
      CaseIsNoItem(case_, e);
    }
    if g in MemberGrants(a.members) {
      var k :| k in a.members && RelationOf(a.members[k]).Some? && g == MemberGrant(k, RelationOf(a.members[k]).value);
      MemberGrantInjective(k, RelationOf(a.members[k]).value, (case_, user), relation);
      RolesCarry(a.members[k], relation);
    }
    if (case_, user) in a.members {
      RolesCarry(a.members[(case_, user)], relation);
      assert g == MemberGrant((case_, user), relation);
    }
  }

  /** An item of evidence is linked to exactly the case its row names. */
  lemma OfCaseIff(a: Access, case_: Id, item: Id)
    ensures OfCase(case_, item) in Desired(a) <==> item in a.evidence && a.evidence[item] == Some(case_)
  {
    var g := OfCase(case_, item);
    KindsApart(a, g);
    if g in EvidenceGrants(a.evidence) {
      var e :| e in a.evidence && a.evidence[e].Some? && g == EvidenceGrant(e, a.evidence[e].value);
      PrefixInjective("evidence_item:", e, item);
      PrefixInjective("case:", a.evidence[e].value, case_);
    }
    if item in a.evidence && a.evidence[item] == Some(case_) {
      assert g == EvidenceGrant(item, case_);
    }
  }

  /** The custodian of an item is exactly whom its last event names. */
  lemma HoldsIff(a: Access, actor: string, item: Id)
    ensures Holds(actor, item) in Desired(a)
      <==> item in a.custody && a.custody[item] != [] && a.custody[item][|a.custody[item]| - 1].toActor == actor
  {
    var g := Holds(actor, item);
    KindsApart(a, g);
    if g in CustodyGrants(a.custody) {
      var e :| e in a.custody && a.custody[e] != [] && g == CustodyGrant(e, a.custody[e][|a.custody[e]| - 1].toActor);
      PrefixInjective("evidence_item:", e, item);
      PrefixInjective("user:", a.custody[e][|a.custody[e]| - 1].toActor, actor);
    }
    if item in a.custody && a.custody[item] != [] && a.custody[item][|a.custody[item]| - 1].toActor == actor {
      assert g == CustodyGrant(item, actor);
    }
  }

  /** No other tuple is ever desired. */
  lemma NothingElse(a: Access, g: Grant)
    requires g in Desired(a)
    ensures (exists user, relation, case_ :: g == OnCase(user, relation, case_))
      || (exists case_, item :: g == OfCase(case_, item)) || (exists actor, item :: g == Holds(actor, item))
  {
    hide RelationOf;
    if g in MemberGrants(a.members) {
      var k :| k in a.members && RelationOf(a.members[k]).Some? && g == MemberGrant(k, RelationOf(a.members[k]).value);
      assert g == OnCase(k.1, RelationOf(a.members[k]).value, k.0);
    } else if g in EvidenceGrants(a.evidence) {
      var e :| e in a.evidence && a.evidence[e].Some? && g == EvidenceGrant(e, a.evidence[e].value);
      assert g == OfCase(a.evidence[e].value, e);
    } else {
      var e :| e in a.custody && a.custody[e] != [] && g == CustodyGrant(e, a.custody[e][|a.custody[e]| - 1].toActor);
      assert g == Holds(a.custody[e][|a.custody[e]| - 1].toActor, e);
    }
  }

  // -------------------------------------------------------- what each action means

  lemma AssignedIff(a: Access, case_: Id, user: Id, role: string)
    ensures AssignMember(a, case_, user, role).Ok?
      <==> CaseRole(role) && HasText(user) && case_ in a.cases
           && ((case_, user) in a.members ==> a.members[(case_, user)] != role && CaseRole(a.members[(case_, user)]))
  {
    hide RelationOf, CaseRole;
    RolesCarry(role, "");
    if (case_, user) in a.members { RolesCarry(a.members[(case_, user)], ""); }
  }

  /** After an assignment the user has the relation of the new role on the case and no other, and
      everybody and everything else is as before. */
  lemma AssignmentGrants(a: Access, case_: Id, user: Id, role: string)
    requires Converges(a) && AssignMember(a, case_, user, role).Ok?
    ensures var a' := AssignMember(a, case_, user, role).value;
      && a' == a.(members := a.members[(case_, user) := role], outbox := a'.outbox)
      && (forall relation :: OnCase(user, relation, case_) in LeadsTo(a') <==> Carries(role, relation))
      && forall g: Grant | g.user != "user:" + user || g.obj != "case:" + case_ :: g in LeadsTo(a') <==> g in LeadsTo(a)
  {
    hide Blank, RelationOf, Fold, MemberGrants, EvidenceGrants, CustodyGrants;
    var a' := AssignMember(a, case_, user, role).value;
    AssignConverges(a, case_, user, role);
    MemberUpdate(a.members, (case_, user), a'.members);
    forall relation ensures OnCase(user, relation, case_) in Desired(a') <==> Carries(role, relation) {
      OnCaseIff(a', user, relation, case_);
    }
  }

  lemma RemovedIff(a: Access, case_: Id, user: Id)
    ensures RemoveMember(a, case_, user).Ok?
      <==> HasText(user) && (case_, user) in a.members && CaseRole(a.members[(case_, user)])
  {
    hide RelationOf, CaseRole;
    if (case_, user) in a.members { RolesCarry(a.members[(case_, user)], ""); }
  }

  /** After a removal the user has no relation whatever on the case, and everybody and everything
      else is as before. */
  lemma RemovalRevokes(a: Access, case_: Id, user: Id)
    requires Converges(a) && RemoveMember(a, case_, user).Ok?
    ensures var a' := RemoveMember(a, case_, user).value;
      && (case_, user) !in a'.members && a' == a.(members := a.members - {(case_, user)}, outbox := a'.outbox)
      && (forall relation :: OnCase(user, relation, case_) !in LeadsTo(a'))
      && forall g: Grant | g.user != "user:" + user || g.obj != "case:" + case_ :: g in LeadsTo(a') <==> g in LeadsTo(a)
  {
    hide Blank, RelationOf, Fold, MemberGrants, EvidenceGrants, CustodyGrants;
    var a' := RemoveMember(a, case_, user).value;
    RemoveConverges(a, case_, user);
    MemberUpdate(a.members, (case_, user), a'.members);
    forall relation ensures OnCase(user, relation, case_) !in Desired(a') {
      OnCaseIff(a', user, relation, case_);
    }
  }

  lemma RegisteredIff(a: Access, id: Id, case_: Option<Id>, description: string)
    ensures RegisterEvidence(a, id, case_, description).Ok?
      <==> HasText(description) && (case_.Some? ==> case_.value in a.cases) && id !in a.evidence
  {
  }

  /** A registered item is linked to the case it was registered in, if any, and to no other. */
  lemma RegistrationLinks(a: Access, id: Id, case_: Option<Id>, description: string)
    requires Converges(a) && RegisterEvidence(a, id, case_, description).Ok?
    ensures var a' := RegisterEvidence(a, id, case_, description).value;
      && a' == a.(evidence := a.evidence[id := case_], outbox := a'.outbox)
      && (forall c :: OfCase(c, id) in LeadsTo(a') <==> case_ == Some(c))
      && forall g: Grant | g.relation != "case" || g.obj != "evidence_item:" + id ::
           g in LeadsTo(a') <==> g in LeadsTo(a)
  {
    hide Blank, Fold, MemberGrants, EvidenceGrants, CustodyGrants;
    var a' := RegisterEvidence(a, id, case_, description).value;
    RegisterConverges(a, id, case_, description);
    EvidenceUpdate(a.evidence, id, case_);
    forall c ensures OfCase(c, id) in Desired(a') <==> case_ == Some(c) {
      OfCaseIff(a', c, id);
    }
  }

  /** The event may follow those there are: named by the current custodian if by anyone, not
      earlier, and to somebody else. */
  predicate Follows(events: seq<CustodyEvent>, toActor: string, fromActor: Option<string>, occurredAt: int) {
    if events == [] then fromActor.None?
    else
      var last := events[|events| - 1];
      (fromActor.Some? ==> fromActor.value == last.toActor) && last.occurredAt <= occurredAt && toActor != last.toActor
  }

  lemma HandedOverIff(a: Access, id: Id, toActor: string, fromActor: Option<string>, occurredAt: int, purpose: string)
    ensures AddCustodyEvent(a, id, toActor, fromActor, occurredAt, purpose).Ok?
      <==> HasText(toActor) && HasText(purpose) && id in a.evidence
           && Follows(if id in a.custody then a.custody[id] else [], toActor, fromActor, occurredAt)
  {
  }

  /** After a handover the item has the new custodian and no other, and its history one more event. */
  lemma HandoverMoves(a: Access, id: Id, toActor: string, fromActor: Option<string>, occurredAt: int, purpose: string)
    requires Converges(a) && AddCustodyEvent(a, id, toActor, fromActor, occurredAt, purpose).Ok?
    ensures var a' := AddCustodyEvent(a, id, toActor, fromActor, occurredAt, purpose).value;
      var events := if id in a.custody then a.custody[id] else [];
      && a' == a.(custody := a.custody[id := events + [CustodyEvent(toActor, occurredAt)]], outbox := a'.outbox)
      && (forall actor :: Holds(actor, id) in LeadsTo(a') <==> actor == toActor)
      && forall g: Grant | g.relation != "custodian" || g.obj != "evidence_item:" + id ::
           g in LeadsTo(a') <==> g in LeadsTo(a)
  {
    hide Blank, Fold, MemberGrants, EvidenceGrants, CustodyGrants;
    var a' := AddCustodyEvent(a, id, toActor, fromActor, occurredAt, purpose).value;
    CustodyConverges(a, id, toActor, fromActor, occurredAt, purpose);
    CustodyUpdate(a.custody, id, EventsOf(a, id) + [CustodyEvent(toActor, occurredAt)]);
    forall actor ensures Holds(actor, id) in Desired(a') <==> actor == toActor {
      HoldsIff(a', actor, id);
    }
  }

  // ------------------------------------------------------------------- over runs

  /** Each event of a history follows those before it: in time, and from hand to hand. */
  ghost predicate HandToHand(events: seq<CustodyEvent>) {
    forall i :: 0 < i < |events| ==>
      events[i - 1].occurredAt <= events[i].occurredAt && events[i - 1].toActor != events[i].toActor
  }

  /** Memberships have case roles, memberships and evidence name known cases, and custody histories
      are of known items and run from hand to hand. */
  ghost predicate InOrder(a: Access) {
    && (forall k :: k in a.members ==> k.0 in a.cases && CaseRole(a.members[k]))
    && (forall e :: e in a.evidence && a.evidence[e].Some? ==> a.evidence[e].value in a.cases)
    && (forall e :: e in a.custody ==> e in a.evidence && HandToHand(a.custody[e]))
  }

  lemma NextInOrder(a: Access, e: Event)
    requires InOrder(a)
    ensures InOrder(Next(a, e))
  {
    hide AssignMember, RemoveMember, RegisterEvidence, AddCustodyEvent, InOrder, Drain, Desired;
    match e
    case Assign(c, u, role) =>
      if AssignMember(a, c, u, role).Ok? { AssignInOrder(a, c, u, role); }
    case Remove(c, u) =>
      if RemoveMember(a, c, u).Ok? { RemoveInOrder(a, c, u); }
    case Register(id, c, text) =>
      if RegisterEvidence(a, id, c, text).Ok? { RegisterInOrder(a, id, c, text); }
    case Custody(id, to, from, at, purpose) =>
      if AddCustodyEvent(a, id, to, from, at, purpose).Ok? { CustodyInOrder(a, id, to, from, at, purpose); }
    case _ => SameInOrder(a, Next(a, e));
  }

  lemma SameInOrder(a: Access, a': Access)
    requires InOrder(a) && a.cases <= a'.cases
    requires a'.members == a.members && a'.evidence == a.evidence && a'.custody == a.custody
    ensures InOrder(a')
  {
    hide CaseRole, HandToHand;
  }

  lemma AssignInOrder(a: Access, case_: Id, user: Id, role: string)
    requires InOrder(a) && AssignMember(a, case_, user, role).Ok?
    ensures InOrder(AssignMember(a, case_, user, role).value)
  {
    hide Blank, RelationOf, CaseRole, HandToHand, HasText;
    AssignedIff(a, case_, user, role);
  }

  lemma RemoveInOrder(a: Access, case_: Id, user: Id)
    requires InOrder(a) && RemoveMember(a, case_, user).Ok?
    ensures InOrder(RemoveMember(a, case_, user).value)
  {
    hide Blank, RelationOf, CaseRole, HandToHand;
  }

  lemma RegisterInOrder(a: Access, id: Id, case_: Option<Id>, description: string)
    requires InOrder(a) && RegisterEvidence(a, id, case_, description).Ok?
    ensures InOrder(RegisterEvidence(a, id, case_, description).value)
  {
    hide Blank, CaseRole, HandToHand;
  }

  lemma CustodyInOrder(a: Access, id: Id, toActor: string, fromActor: Option<string>, occurredAt: int, purpose: string)
    requires InOrder(a) && AddCustodyEvent(a, id, toActor, fromActor, occurredAt, purpose).Ok?
    ensures InOrder(AddCustodyEvent(a, id, toActor, fromActor, occurredAt, purpose).value)
  {
    hide AddCustodyEvent, CaseRole, HasText, HandToHand;
    HandedOverIff(a, id, toActor, fromActor, occurredAt, purpose);
    CustodyTables(a, id, toActor, fromActor, occurredAt, purpose);
    var events := if id in a.custody then a.custody[id] else [];
    NoHands();
    OneMoreHand(events, toActor, fromActor, occurredAt);
  }

  lemma CustodyTables(a: Access, id: Id, toActor: string, fromActor: Option<string>, occurredAt: int, purpose: string)
    requires AddCustodyEvent(a, id, toActor, fromActor, occurredAt, purpose).Ok?
    ensures var a' := AddCustodyEvent(a, id, toActor, fromActor, occurredAt, purpose).value;
      var events := if id in a.custody then a.custody[id] else [];
      a' == a.(custody := a.custody[id := events + [CustodyEvent(toActor, occurredAt)]], outbox := a'.outbox)
  {
    hide Blank;
  }

  lemma OneMoreHand(events: seq<CustodyEvent>, toActor: string, fromActor: Option<string>, occurredAt: int)
    requires HandToHand(events) && Follows(events, toActor, fromActor, occurredAt)
    ensures HandToHand(events + [CustodyEvent(toActor, occurredAt)])
  {
  }

  lemma NoHands()
    ensures HandToHand([])
  {
  }

  /** Over every run of actions, drains, failures, deletes and rebuilds the tables are in order. */
  lemma {:induction false} InOrderOverRuns(a: Access, es: seq<Event>)
    requires InOrder(a)
    ensures InOrder(Run(a, es))
    decreases |es|
  {
    hide InOrder, Next;
    if es == [] {
    } else {
      NextInOrder(a, es[0]);
      InOrderOverRuns(Next(a, es[0]), es[1..]);
    }
  }

  /** And one drain away the store says what they say: the relations of each user on each case are
      those of the membership row, each item is linked to its case, and its custodian is the last. */
  lemma StoreOverRuns(a: Access, es: seq<Event>)
    requires Converges(a) && AllAllowed(a, es)
    ensures var b := Run(a, es);
      && (forall user, relation, case_ :: OnCase(user, relation, case_) in LeadsTo(b)
            <==> (case_, user) in b.members && Carries(b.members[(case_, user)], relation))
      && (forall case_, item :: OfCase(case_, item) in LeadsTo(b)
            <==> item in b.evidence && b.evidence[item] == Some(case_))
      && (forall actor, item :: Holds(actor, item) in LeadsTo(b)
            <==> item in b.custody && b.custody[item] != []
                 && b.custody[item][|b.custody[item]| - 1].toActor == actor)
  {
    hide Carries, Desired, Fold, AllAllowed, Run, OnCase, OfCase, Holds;
    AlwaysConverges(a, es);
    var b := Run(a, es);
    forall user, relation, case_ ensures OnCase(user, relation, case_) in Desired(b)
      <==> (case_, user) in b.members && Carries(b.members[(case_, user)], relation)
    {
      OnCaseIff(b, user, relation, case_);
    }
    forall case_, item ensures OfCase(case_, item) in Desired(b)
      <==> item in b.evidence && b.evidence[item] == Some(case_)
    {
      OfCaseIff(b, case_, item);
    }
    forall actor, item ensures Holds(actor, item) in Desired(b)
      <==> item in b.custody && b.custody[item] != []
           && b.custody[item][|b.custody[item]| - 1].toActor == actor
    {
      HoldsIff(b, actor, item);
    }
  }
}
