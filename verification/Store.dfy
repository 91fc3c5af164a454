/** The identity tables and what each adjudication does to them
    (aegis/er/adjudication.py, aegis/er/ledger.py, aegis/er/canonical.py,
    and the claim writes of aegis/actions/service.py), as functions on values. */
module Store {
  import opened Common
  import opened Lineage

  datatype Kind = Confirm | Merge | Reject | Split | Unresolved

  /** One mention -> entity row, keyed by the revisions that opened and closed it. */
  datatype Membership = Membership(mention: Id, entity: Id, openedAt: nat, closedAt: Option<nat>) {
    predicate Active() { closedAt.None? }

    /** The row is in force at revision `r`. */
    predicate HoldsAt(r: nat) { openedAt <= r && (closedAt.None? || r < closedAt.value) }
  }

  /** A decision is identified by the one revision it results in. */
  datatype Decision = Decision(kind: Kind, parentRevision: nat, resultRevision: nat,
                               candidate: Option<Id>, inputs: set<Id>)

  datatype Disposition = Open | Confirmed | Rejected | MarkedUnresolved | Superseded

  datatype Candidate = Candidate(mentionA: Id, mentionB: Id, preVerified: bool,
                                 disposition: Disposition, decision: Option<nat>)

  /** A rejected pair; a constraint is identified by its position in the table. */
  datatype Constraint = Constraint(mentionA: Id, mentionB: Id, version: nat,
                                   decision: nat, supersededBy: Option<nat>)

  datatype Claim = Claim(subjectId: Id, subjectMention: Option<Id>, predicate_: Id,
                         objectId: Option<Id>, objectMention: Option<Id>,
                         validFrom: Option<int>, validTo: Option<int>, retracted: bool)

  datatype Tables = Tables(
    memberships: set<Membership>,
    decisions: seq<Decision>,
    head: nat,
    entities: set<Id>,
    canonical: map<Id, Id>,
    tombstoned: set<Id>,
    constraints: seq<Constraint>,
    candidates: map<Id, Candidate>,
    claims: map<Id, Claim>)

  datatype Refusal =
    | NothingToConfirm | Stale | UnresolvedMention | NoSuchCandidate | CandidateSettled
    | EmptySplit | StrayMentions | WholeEntity | NoSuchEntity | IdTaken
    | CorruptLineage | AlreadyMember | SamePair | NotPreVerified
    | ObjectNotExactlyOne | SelfClaim | InvertedDates | AnchorWithoutEntity | AnchorElsewhere
    | AnchorRequired | EmptyReason | NoSuchClaim | AlreadyRetracted | EmptyNote

  /** What an adjudication tells its caller. */
  datatype Report = Report(moved: seq<Id>, survivor: Option<Id>, created: Option<Id>,
                           unattributable: seq<Id>, constraint: Option<nat>)

  datatype Outcome = Outcome(tables: Tables, moved: seq<Id>, survivor: Option<Id>,
                             created: Option<Id>, unattributable: seq<Id>, constraint: Option<nat>)

  ghost function Ids(s: set<Id>): (q: seq<Id>)
    ensures Ascending(q, Before) && |q| == |s| && forall x :: x in q <==> x in s
  {
    BeforeIsStrictOrder();
    Sorted(s, Before)
  }

  method ListIds(s: set<Id>) returns (q: seq<Id>)
    ensures q == Ids(s)
  {
    hide StrictOrder;
    BeforeIsStrictOrder();
    q := List(s, Before);
  }

  lemma IdsUnique(q: seq<Id>, s: set<Id>)
    requires Ascending(q, Before) && forall x :: x in q <==> x in s
    ensures q == Ids(s)
  {
    hide StrictOrder;
    BeforeIsStrictOrder();
    AscendingUnique(q, Ids(s), Before);
  }

  // ------------------------------------------------------- reading memberships

  ghost function Active(ms: set<Membership>): set<(Id, Id)> {
    set r | r in ms && r.Active() :: (r.mention, r.entity)
  }

  /** Who belonged where at revision `r`. */
  ghost function At(ms: set<Membership>, r: nat): set<(Id, Id)> {
    set row | row in ms && row.HoldsAt(r) :: (row.mention, row.entity)
  }

  ghost function Held(ms: set<Membership>, e: Id): set<Id> {
    set r | r in ms && r.Active() && r.entity == e :: r.mention
  }

  ghost function HeldAt(ms: set<Membership>, e: Id, r: nat): set<Id> {
    set row | row in ms && row.HoldsAt(r) && row.entity == e :: row.mention
  }

  ghost predicate IsActiveRow(ms: set<Membership>, m: Id, r: Membership) {
    r in ms && r.Active() && r.mention == m
  }

  ghost function EntityOf(ms: set<Membership>, m: Id): Option<Id> {
    if exists r :: IsActiveRow(ms, m, r)
    then var r :| IsActiveRow(ms, m, r); Some(r.entity)
    else None
  }

  ghost function EntitiesOf(ms: set<Membership>, mentions: set<Id>): set<Id> {
    set r | r in ms && r.Active() && r.mention in mentions :: r.entity
  }

  /** Entities whose memberships a revision opened, or closed. */
  ghost function Opened(ms: set<Membership>, rev: nat): set<Id> {
    set r | r in ms && r.openedAt == rev :: r.entity
  }

  ghost function Closed(ms: set<Membership>, rev: nat): set<Id> {
    set r | r in ms && r.closedAt == Some(rev) :: r.entity
  }

  ghost function EverHeld(ms: set<Membership>): set<Id> {
    set r | r in ms :: r.entity
  }

  // ------------------------------------------------------------------- replay

  predicate Merging(kind: Kind) { kind.Confirm? || kind.Merge? }

  ghost function ReplayStep(parent: Parent, kind: Kind, gained: set<Id>, closed: set<Id>): Parent {
    if Merging(kind) then
      if |gained| == 1 then
        var winner :| winner in gained;
        parent + map l | l in closed - gained :: winner
      else parent
    else if kind.Split? then parent - gained
    else parent
  }

  /** The lineage after replaying decisions in revision order. */
  ghost function Replay(ms: set<Membership>, ds: seq<Decision>): Parent {
    if ds == [] then map[] else
    var d := ds[|ds| - 1];
    ReplayStep(Replay(ms, ds[..|ds| - 1]), d.kind, Opened(ms, d.resultRevision), Closed(ms, d.resultRevision))
  }

  ghost function LineageOf(s: Tables): Parent {
    Replay(s.memberships, s.decisions)
  }

  ghost function Orphans(s: Tables, parent: Parent): set<Id> {
    set e | e in s.entities && Held(s.memberships, e) == {} && Resolve(parent, e) == Some(e)
  }

  /** `rebuild_canonical_map`: refuses the whole rebuild if one entity does not resolve. */
  ghost function Rebuild(s: Tables): Result<Tables, Refusal> {
    var parent := LineageOf(s);
    if exists e :: e in s.entities && Resolve(parent, e).None? then Err(CorruptLineage)
    else Ok(s.(canonical := map e | e in s.entities :: Resolve(parent, e).value,
               tombstoned := Orphans(s, parent)))
  }

  /** A missing row degrades to "resolves to itself". */
  function Lookup(canonical: map<Id, Id>, e: Id): Id {
    if e in canonical then canonical[e] else e
  }

  /** A claim argument resolves through its anchor's membership, else through the map
      (aegis/projections/edges.py:335-340). */
  ghost function ResolveArgument(s: Tables, e: Id, mention: Option<Id>): Id {
    if mention.Some? && EntityOf(s.memberships, mention.value).Some?
    then EntityOf(s.memberships, mention.value).value
    else Lookup(s.canonical, e)
  }

  // ------------------------------------------------------------ ledger writes

  /** No membership of the scope was opened or closed after the parent revision. */
  ghost predicate ScopeCurrent(ms: set<Membership>, parentRevision: nat, scope: set<Id>) {
    forall r :: r in ms && r.entity in scope ==>
      r.openedAt <= parentRevision && (r.closedAt.Some? ==> r.closedAt.value <= parentRevision)
  }

  ghost function Moving(ms: set<Membership>, mentions: set<Id>, target: Id): set<Membership> {
    set r | r in ms && r.Active() && r.mention in mentions && r.entity != target
  }

  ghost function Move(ms: set<Membership>, mentions: set<Id>, target: Id, rev: nat): set<Membership> {
    var gone := Moving(ms, mentions, target);
    ms - gone
    + (set r | r in gone :: r.(closedAt := Some(rev)))
    + (set r | r in gone :: Membership(r.mention, target, rev, None))
  }

  ghost function MovedMentions(ms: set<Membership>, mentions: set<Id>, target: Id): set<Id> {
    set r | r in Moving(ms, mentions, target) :: r.mention
  }

  /** The tables after decision `d` moved `mentions` onto `target`, before the rebuild.
      The target is new to the entity table only when a split creates it. */
  ghost function Moved(s: Tables, d: Decision, mentions: set<Id>, target: Id): Tables {
    s.(head := d.resultRevision, decisions := s.decisions + [d],
       entities := s.entities + {target},
       memberships := Move(s.memberships, mentions, target, d.resultRevision))
  }

  function OpenDecision(s: Tables, kind: Kind, parentRevision: nat, candidate: Option<Id>,
                        inputs: set<Id>, rev: nat): Tables {
    s.(head := rev,
       decisions := s.decisions + [Decision(kind, parentRevision, rev, candidate, inputs)])
  }

  function Settle(candidates: map<Id, Candidate>, candidate: Option<Id>, disposition: Disposition, decision: nat)
    : Result<map<Id, Candidate>, Refusal>
  {
    if candidate.None? then Ok(candidates)
    else if candidate.value !in candidates then Err(NoSuchCandidate)
    else if candidates[candidate.value].disposition != Open then Err(CandidateSettled)
    else Ok(candidates[candidate.value :=
              candidates[candidate.value].(disposition := disposition, decision := Some(decision))])
  }

  ghost function ConfirmMatch(s: Tables, parentRevision: nat, a: Id, b: Id, candidate: Option<Id>, rev: nat)
    : Result<Outcome, Refusal>
  {
    var scope := EntitiesOf(s.memberships, {a, b});
    if |scope| < 2 then Err(NothingToConfirm)
    else if !ScopeCurrent(s.memberships, parentRevision, scope) then Err(Stale)
    else match (EntityOf(s.memberships, a), EntityOf(s.memberships, b))
      case (Some(survivor), Some(absorbed)) =>
        var held := Held(s.memberships, absorbed);
        var d := Decision(Confirm, parentRevision, rev, candidate, {a, b});
        (match Settle(s.candidates, candidate, Confirmed, rev)
         case Err(e) => Err(e)
         case Ok(candidates) =>
           match Rebuild(Moved(s, d, held, survivor).(candidates := candidates))
           case Err(e) => Err(e)
           case Ok(s3) => Ok(Outcome(s3, Ids(MovedMentions(s.memberships, held, survivor)),
                                     Some(survivor), None, [], None)))
      case _ => Err(UnresolvedMention)
  }

  predicate OnPair(c: Constraint, a: Id, b: Id) { c.mentionA == a && c.mentionB == b }

  /** The unsuperseded constraint of a pair with the highest version, among the first `n`. */
  function LatestConstraint(cs: seq<Constraint>, a: Id, b: Id, n: nat): (r: Option<nat>)
    requires n <= |cs|
    ensures r.Some? ==> r.value < n && OnPair(cs[r.value], a, b) && cs[r.value].supersededBy.None?
    ensures r.None? ==> forall i :: 0 <= i < n && OnPair(cs[i], a, b) ==> cs[i].supersededBy.Some?
  {
    if n == 0 then None else
    var before := LatestConstraint(cs, a, b, n - 1);
    if OnPair(cs[n - 1], a, b) && cs[n - 1].supersededBy.None?
       && (before.None? || cs[before.value].version <= cs[n - 1].version)
    then Some(n - 1) else before
  }

  /** Adds the next version of the pair's constraint and supersedes the previous one. */
  function Constrain(cs: seq<Constraint>, a: Id, b: Id, decision: nat): seq<Constraint> {
    match LatestConstraint(cs, a, b, |cs|)
    case None => cs + [Constraint(a, b, 1, decision, None)]
    case Some(i) => cs[i := cs[i].(supersededBy := Some(|cs|))]
                    + [Constraint(a, b, cs[i].version + 1, decision, None)]
  }

  function Low(a: Id, b: Id): Id { if Before(b, a) then b else a }
  function High(a: Id, b: Id): Id { if Before(b, a) then a else b }

  function RejectMatch(s: Tables, parentRevision: nat, a: Id, b: Id, candidate: Option<Id>, rev: nat)
    : Result<Outcome, Refusal>
  {
    if a == b then Err(SamePair) else
    match Settle(s.candidates, candidate, Rejected, rev)
    case Err(e) => Err(e)
    case Ok(candidates) =>
      var s1 := OpenDecision(s, Reject, parentRevision, candidate, {a, b}, rev);
      Ok(Outcome(s1.(constraints := Constrain(s.constraints, Low(a, b), High(a, b), rev), candidates := candidates),
                 [], None, None, [], Some(|s.constraints|)))
  }

  function MarkUnresolved(s: Tables, parentRevision: nat, a: Id, b: Id, candidate: Option<Id>, rev: nat)
    : Result<Outcome, Refusal>
  {
    match Settle(s.candidates, candidate, MarkedUnresolved, rev)
    case Err(e) => Err(e)
    case Ok(candidates) =>
      var s1 := OpenDecision(s, Unresolved, parentRevision, candidate, {a, b}, rev);
      Ok(Outcome(s1.(candidates := candidates), [], None, None, [], None))
  }

  /** Ids whose claims a split of `e` may have to re-attribute. */
  function Affected(canonical: map<Id, Id>, e: Id): set<Id> {
    {e} + set x | x in canonical && canonical[x] == e
  }

  predicate Unattributable(c: Claim, affected: set<Id>) {
    && !c.retracted
    && ((c.subjectId in affected && c.subjectMention.None?)
        || (c.objectId.Some? && c.objectId.value in affected && c.objectMention.None?))
  }

  ghost function UnattributableClaims(claims: map<Id, Claim>, canonical: map<Id, Id>, e: Id): set<Id> {
    set id | id in claims && Unattributable(claims[id], Affected(canonical, e))
  }

  /** A replacement for a claim, queued for a human (aegis/actions/service.py:669-731). */
  datatype Draft = Draft(original: Id, subjectId: Id, objectId: Option<Id>)

  /** The draft points whichever unanchored argument names the split entity at the new one. */
  function Redrafted(canonical: map<Id, Id>, id: Id, c: Claim, survivor: Option<Id>, created: Id): Draft {
    if Some(Lookup(canonical, c.subjectId)) == survivor && c.subjectMention.None? then Draft(id, created, c.objectId)
    else if c.objectId.Some? && Some(Lookup(canonical, c.objectId.value)) == survivor && c.objectMention.None?
    then Draft(id, c.subjectId, Some(created))
    else Draft(id, c.subjectId, c.objectId)
  }

  /** What an adjudication queues for the claims it surfaced: nothing unless it made an entity. */
  function Queued(claims: map<Id, Claim>, canonical: map<Id, Id>, ids: seq<Id>, survivor: Option<Id>,
                  created: Option<Id>): seq<Draft>
  {
    if ids == [] || created.None? then []
    else
      var last := ids[|ids| - 1];
      Queued(claims, canonical, ids[..|ids| - 1], survivor, created)
      + if last in claims then [Redrafted(canonical, last, claims[last], survivor, created.value)] else []
  }

  /** Where a split sends its mentions. */
  function Target(target: Option<Id>, newId: Id): Id { if target.Some? then target.value else newId }

  ghost function SplitEntity(s: Tables, parentRevision: nat, e: Id, mentions: set<Id>,
                             target: Option<Id>, newId: Id, rev: nat): Result<Outcome, Refusal>
  {
    if mentions == {} then Err(EmptySplit)
    else if !ScopeCurrent(s.memberships, parentRevision, {e}) then Err(Stale)
    else if !(mentions <= Held(s.memberships, e)) then Err(StrayMentions)
    else if mentions == Held(s.memberships, e) then Err(WholeEntity)
    else if target.None? && newId in s.entities then Err(IdTaken)
    else if target.Some? && target.value !in s.entities then Err(NoSuchEntity)
    else
      var to := Target(target, newId);
      var d := Decision(Split, parentRevision, rev, None, mentions);
      match Rebuild(Moved(s, d, mentions, to))
      case Err(x) => Err(x)
      case Ok(s2) => Ok(Outcome(s2, Ids(MovedMentions(s.memberships, mentions, to)), Some(e),
                                if target.None? then Some(newId) else None,
                                Ids(UnattributableClaims(s.claims, s.canonical, e)), None))
  }

  /** Attaches a so-far-unresolved mention; `at` is the migration's explicit revision. */
  ghost function OpenMembership(s: Tables, m: Id, e: Id, at: Option<nat>): Result<Tables, Refusal> {
    if EntityOf(s.memberships, m).Some? then Err(AlreadyMember)
    else if e !in s.entities then Err(NoSuchEntity)
    else
      var rev := if at.Some? then at.value else s.head;
      Ok(s.(memberships := s.memberships + {Membership(m, e, rev, None)}))
  }

  // ------------------------------------------------------------------- claims

  ghost function CheckAnchor(s: Tables, mention: Option<Id>, e: Option<Id>): Result<Tables, Refusal> {
    if mention.None? then Ok(s)
    else if e.None? then Err(AnchorWithoutEntity)
    else match EntityOf(s.memberships, mention.value)
      case None => OpenMembership(s, mention.value, e.value, None)
      case Some(owner) => if owner == e.value then Ok(s) else Err(AnchorElsewhere)
  }

  /** Symmetric predicates store the smaller id first; anchors travel with their arguments. */
  function Normalized(c: Claim, symmetric: bool): Claim {
    if symmetric && c.objectId.Some? && Before(c.objectId.value, c.subjectId)
    then c.(subjectId := c.objectId.value, objectId := Some(c.subjectId),
            subjectMention := c.objectMention, objectMention := c.subjectMention)
    else c
  }

  /** The claim as it would be stored, if its arguments and dates are in order. */
  function Drafted(entities: set<Id>, draft: Claim, literal: bool, symmetric: bool): Result<Claim, Refusal> {
    if draft.subjectId !in entities then Err(NoSuchEntity)
    else if draft.objectId.None? != literal then Err(ObjectNotExactlyOne)
    else if draft.objectId.Some? && draft.objectId.value !in entities then Err(NoSuchEntity)
    else if draft.objectId == Some(draft.subjectId) then Err(SelfClaim)
    else if draft.validFrom.Some? && draft.validTo.Some? && draft.validTo.value < draft.validFrom.value
    then Err(InvertedDates)
    else Ok(Normalized(draft, symmetric))
  }

  ghost function RecordClaim(s: Tables, id: Id, draft: Claim, literal: bool, symmetric: bool, anchorRequired: bool)
    : Result<Tables, Refusal>
  {
    match Drafted(s.entities, draft, literal, symmetric)
    case Err(e) => Err(e)
    case Ok(c) =>
      match CheckAnchor(s, c.subjectMention, Some(c.subjectId))
        case Err(e) => Err(e)
        case Ok(s1) =>
          match CheckAnchor(s1, c.objectMention, c.objectId)
          case Err(e) => Err(e)
          case Ok(s2) =>
            if anchorRequired && (c.subjectMention.None? || (c.objectId.Some? && c.objectMention.None?))
            then Err(AnchorRequired)
            else if id in s.claims then Err(IdTaken)
            else Ok(s2.(claims := s.claims[id := c.(retracted := false)]))
  }

  function RetractClaim(s: Tables, id: Id, reason: string): Result<Tables, Refusal> {
    if Blank(reason) then Err(EmptyReason)
    else if id !in s.claims then Err(NoSuchClaim)
    else if s.claims[id].retracted then Err(AlreadyRetracted)
    else Ok(s.(claims := s.claims[id := s.claims[id].(retracted := true)]))
  }
}
