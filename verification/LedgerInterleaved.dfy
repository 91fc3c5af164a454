/** A merge can still be undone after later writes: for every run that leaves the moved mentions
    where the merge put them, the split leaves what that run leaves when the pair was never merged. */
module LedgerInterleaved {
  import opened Common
  import opened Lineage
  import opened Store
  import opened LedgerInvariant
  import opened LedgerSteps
  import opened LedgerOpens
  import opened LedgerRuns
  import opened LedgerRows
  import opened LedgerHistory
  import opened LedgerReversal

  /** One merge: `moved` went from `absorbed` to `survivor` at revision `rev`. */
  datatype Absorption = Absorption(survivor: Id, absorbed: Id, moved: set<Id>, rev: nat) {
    function Pair(): set<Id> { {survivor, absorbed} }
  }

  // --------------------------------------------------------------- moves commute

  /** Moves of different mentions can be made in either order. */
  lemma MovesCommute(ms: set<Membership>, m1: set<Id>, t1: Id, r1: nat, m2: set<Id>, t2: Id, r2: nat)
    requires m1 !! m2
    ensures Move(Move(ms, m1, t1, r1), m2, t2, r2) == Move(Move(ms, m2, t2, r2), m1, t1, r1)
  {
    hide Move;
    forall r | r in Move(Move(ms, m1, t1, r1), m2, t2, r2) ensures r in Move(Move(ms, m2, t2, r2), m1, t1, r1) {
      RowCommutes(ms, m1, t1, r1, m2, t2, r2, r);
    }
    forall r | r in Move(Move(ms, m2, t2, r2), m1, t1, r1) ensures r in Move(Move(ms, m1, t1, r1), m2, t2, r2) {
      RowCommutes(ms, m2, t2, r2, m1, t1, r1, r);
    }
  }

  lemma RowCommutes(ms: set<Membership>, m1: set<Id>, t1: Id, r1: nat, m2: set<Id>, t2: Id, r2: nat, r: Membership)
    requires m1 !! m2 && r in Move(Move(ms, m1, t1, r1), m2, t2, r2)
    ensures r in Move(Move(ms, m2, t2, r2), m1, t1, r1)
  {
    hide Move;
    var q := MoveOrigin(Move(ms, m1, t1, r1), m2, t2, r2, r);
    var o := MoveOrigin(ms, m1, t1, r1, q);
    MoveKeeps(ms, m2, t2, r2, o);
    var after := Move(ms, m2, t2, r2);
    MoveKeeps(after, m1, t1, r1, After(o, m2, t2, r2));
    if o in Moving(ms, m2, t2) {
      MoveKeeps(after, m1, t1, r1, Membership(o.mention, t2, r2, None));
    }
  }

  lemma RowAddedCommutes(ms: set<Membership>, m1: set<Id>, t1: Id, r1: nat, row: Membership)
    requires row.mention !in m1
    ensures Move(ms + {row}, m1, t1, r1) == Move(ms, m1, t1, r1) + {row}
  {
    assert Moving(ms + {row}, m1, t1) == Moving(ms, m1, t1);
  }

  // ------------------------------------------------------------------- twin ledgers

  /** `x` made the merge where `y` left the pair unresolved; otherwise they went the same way. */
  ghost predicate Twins(x: Tables, y: Tables, g: Absorption) {
    && Valid(x) && Valid(y)
    && Apart(y, g)
    && x.memberships == Move(y.memberships, g.moved, g.survivor, g.rev)
    && LineageOf(x) == LineageOf(y)[g.absorbed := g.survivor]
    && SameFields(x, y)
  }

  /** What twins have in common beside the rows. */
  ghost predicate SameFields(x: Tables, y: Tables) {
    && x.head == y.head && x.entities == y.entities && x.claims == y.claims
    && SameOpen(x.candidates, y.candidates) && SameDecisions(x.decisions, y.decisions)
  }

  /** In `y` the two entities are still apart. */
  ghost predicate Apart(y: Tables, g: Absorption) {
    && g.survivor != g.absorbed && g.Pair() <= y.entities
    && g.moved == Held(y.memberships, g.absorbed) && Held(y.memberships, g.survivor) != {}
    && g.survivor !in LineageOf(y) && g.absorbed !in LineageOf(y)
  }

  ghost predicate SameOpen(cs: map<Id, Candidate>, ds: map<Id, Candidate>) {
    && cs.Keys == ds.Keys
    && forall id :: id in cs ==> cs[id] == ds[id] || (cs[id].disposition != Open && ds[id].disposition != Open)
  }

  /** The same revisions, and the same kinds but where a merge stands for an unresolved mark. */
  ghost predicate SameDecisions(ds: seq<Decision>, es: seq<Decision>) {
    && |ds| == |es|
    && forall i :: 0 <= i < |ds| ==>
      ds[i].resultRevision == es[i].resultRevision && (ds[i].kind == es[i].kind || es[i].kind.Unresolved?)
  }

  lemma SettleAlike(cs: map<Id, Candidate>, ds: map<Id, Candidate>, c: Option<Id>, d: Disposition, e: Disposition,
                    rev: nat)
    requires SameOpen(cs, ds) && d != Open && e != Open
    ensures Settle(cs, c, d, rev).Ok? <==> Settle(ds, c, e, rev).Ok?
    ensures Settle(cs, c, d, rev).Ok? ==> SameOpen(Settle(cs, c, d, rev).value, Settle(ds, c, e, rev).value)
  {
  }

  lemma OneMoreDecision(ds: seq<Decision>, es: seq<Decision>, d: Decision, e: Decision)
    requires SameDecisions(ds, es)
    requires d.resultRevision == e.resultRevision && (d.kind == e.kind || e.kind.Unresolved?)
    ensures SameDecisions(ds + [d], es + [e])
  {
  }

  // -------------------------------------------------------------- what the twins share

  lemma TwinParts(x: Tables, y: Tables, g: Absorption)
    requires Twins(x, y, g)
    ensures Exclusive(x.memberships) && Exclusive(y.memberships)
    ensures Detachable(y.memberships, g.moved, g.absorbed, g.survivor)
  {
    hide Held, HandedOver, LineageMatches, MapCurrent, HeadMerge, ClaimsAnchored, LineageOf;
  }

  lemma TwinHeld(x: Tables, y: Tables, g: Absorption, e: Id)
    requires Twins(x, y, g)
    ensures e !in g.Pair() ==> Held(x.memberships, e) == Held(y.memberships, e)
    ensures Held(x.memberships, g.survivor) == Held(y.memberships, g.survivor) + g.moved
  {
    hide Held, Valid, LineageOf, Move;
    TwinParts(x, y, g);
    DetachedHeld(y.memberships, g.moved, g.absorbed, g.survivor, g.rev, e);
    DetachedHeld(y.memberships, g.moved, g.absorbed, g.survivor, g.rev, g.survivor);
  }

  /** Only the moved mentions have another owner. */
  lemma TwinOwner(x: Tables, y: Tables, g: Absorption, m: Id)
    requires Twins(x, y, g)
    ensures m in g.moved ==>
      EntityOf(x.memberships, m) == Some(g.survivor) && EntityOf(y.memberships, m) == Some(g.absorbed)
    ensures m !in g.moved ==> EntityOf(x.memberships, m) == EntityOf(y.memberships, m)
  {
    hide Held, Valid, LineageOf, Move, EntityOf, Twins;
    TwinParts(x, y, g);
    TwinApart(x, y, g);
    TwinHeld(x, y, g, g.survivor);
    if m in g.moved {
      EntityOfRow(x.memberships, m, g.survivor);
      EntityOfRow(y.memberships, m, g.absorbed);
    } else {
      forall e ensures EntityOf(x.memberships, m) == Some(e) <==> EntityOf(y.memberships, m) == Some(e) {
        TwinHeld(x, y, g, e);
        EntityOfRow(x.memberships, m, e);
        EntityOfRow(y.memberships, m, e);
        AbsorbedHoldsNothing(x, y, g);
      }
      if EntityOf(x.memberships, m).Some? {
        assert EntityOf(x.memberships, m) == Some(EntityOf(x.memberships, m).value);
      }
      if EntityOf(y.memberships, m).Some? {
        assert EntityOf(y.memberships, m) == Some(EntityOf(y.memberships, m).value);
      }
    }
  }

  lemma TwinApart(x: Tables, y: Tables, g: Absorption)
    requires Twins(x, y, g)
    ensures Apart(y, g)
  {
    hide Valid, Held, LineageOf, Move;
  }

  lemma AbsorbedHoldsNothing(x: Tables, y: Tables, g: Absorption)
    requires Twins(x, y, g)
    ensures Held(x.memberships, g.absorbed) == {}
  {
    hide Held, Valid, LineageOf, Move;
    TwinParts(x, y, g);
    DetachedHeld(y.memberships, g.moved, g.absorbed, g.survivor, g.rev, g.absorbed);
  }

  /** Rows of other entities are the same rows. */
  lemma TwinRows(x: Tables, y: Tables, g: Absorption, r: Membership)
    requires Twins(x, y, g) && r.entity !in g.Pair()
    ensures r in x.memberships <==> r in y.memberships
  {
    hide Held, Valid, LineageOf, Move, OneActive;
    TwinParts(x, y, g);
    DetachedRows(y.memberships, g.moved, g.absorbed, g.survivor);
    if r in x.memberships {
      var q := MoveOrigin(y.memberships, g.moved, g.survivor, g.rev, r);
    }
    if r in y.memberships {
      MoveKeeps(y.memberships, g.moved, g.survivor, g.rev, r);
    }
  }

  /** The survivor has the same rows, and those the merge opened. */
  lemma TwinSurvivorRows(x: Tables, y: Tables, g: Absorption, r: Membership)
    requires Twins(x, y, g) && r.entity == g.survivor
    ensures r in y.memberships ==> r in x.memberships
    ensures r in x.memberships ==> r in y.memberships || (r.openedAt == g.rev && r.Active())
  {
    hide Held, Valid, LineageOf, Move, OneActive;
    TwinParts(x, y, g);
    DetachedRows(y.memberships, g.moved, g.absorbed, g.survivor);
    if r in x.memberships {
      var q := MoveOrigin(y.memberships, g.moved, g.survivor, g.rev, r);
    }
    if r in y.memberships {
      MoveKeeps(y.memberships, g.moved, g.survivor, g.rev, r);
    }
  }

  /** A scope check fares alike; for the survivor, from the merge's revision on. */
  lemma TwinScope(x: Tables, y: Tables, g: Absorption, p: nat, scope: set<Id>)
    requires Twins(x, y, g) && g.absorbed !in scope && (g.survivor in scope ==> g.rev <= p)
    ensures ScopeCurrent(x.memberships, p, scope) <==> ScopeCurrent(y.memberships, p, scope)
  {
    hide Twins;
    forall r: Membership | r.entity in scope
      ensures r in y.memberships ==> r in x.memberships
      ensures r in x.memberships ==> r in y.memberships || (g.rev <= p && r.openedAt == g.rev && r.Active())
    {
      if r.entity == g.survivor { TwinSurvivorRows(x, y, g, r); } else { TwinRows(x, y, g, r); }
    }
  }

  // ------------------------------------------------------------------ keeping clear

  /** An anchor names the absorbed entity by no mention, and the survivor by none that moved. */
  ghost predicate ClearAnchor(g: Absorption, mention: Option<Id>, e: Option<Id>) {
    mention.Some? && e.Some? ==> e.value != g.absorbed && (e.value == g.survivor ==> mention.value !in g.moved)
  }

  /** A confirm that absorbs neither entity of the merge. The survivor may absorb another by a
      mention of its own, judged on what it held since the merge. */
  ghost predicate ClearConfirm(x: Tables, g: Absorption, p: nat, a: Id, b: Id) {
    && EntityOf(x.memberships, b) != Some(g.survivor)
    && (EntityOf(x.memberships, a) == Some(g.survivor) ==> a !in g.moved && g.rev <= p)
  }

  /** A split that gives the absorbed entity nothing, and takes from the survivor some of its own
      mentions but not all, judged on what it held since the merge. */
  ghost predicate ClearSplit(x: Tables, g: Absorption, p: nat, e: Id, mentions: set<Id>, target: Option<Id>) {
    && e != g.absorbed && target != Some(g.absorbed)
    && (e == g.survivor ==>
          mentions !! g.moved && mentions + g.moved != Held(x.memberships, g.survivor) && g.rev <= p)
  }

  /** The write leaves the moved mentions where the merge put them and gives the absorbed entity
      nothing. The survivor may gain mentions by merges, splits, opens and anchors, and lose its
      own by splits. */
  ghost predicate Clear(x: Tables, op: Op, g: Absorption) {
    match op
    case DoConfirm(p, a, b, _, _) => ClearConfirm(x, g, p, a, b)
    case DoSplit(p, e, mentions, target, _, _) => ClearSplit(x, g, p, e, mentions, target)
    case DoOpen(_, e, _) => e != g.absorbed
    case DoClaim(_, draft, _, _, _) =>
      && ClearAnchor(g, draft.subjectMention, Some(draft.subjectId))
      && ClearAnchor(g, draft.objectMention, draft.objectId)
    case _ => true
  }

  ghost predicate AllClear(x: Tables, ops: seq<Op>, g: Absorption)
    decreases |ops|
  {
    ops == [] || (Clear(x, ops[0], g) && AllClear(Apply(x, ops[0]), ops[1..], g))
  }

  // ---------------------------------------------------------------- adjudications

  /** The same move on both sides keeps the merge the only difference. */
  lemma TwinMove(x: Tables, y: Tables, g: Absorption, mentions: set<Id>, source: Id, to: Id, rev: nat)
    requires Twins(x, y, g) && source != g.absorbed && to != g.absorbed && mentions <= Held(y.memberships, source)
    requires source == g.survivor ==> mentions != Held(y.memberships, source)
    ensures var ms := Move(y.memberships, mentions, to, rev);
      && Move(x.memberships, mentions, to, rev) == Move(ms, g.moved, g.survivor, g.rev)
      && Held(ms, g.absorbed) == g.moved && Held(ms, g.survivor) != {}
  {
    hide Held, Valid, LineageOf, Move, Exclusive;
    TwinParts(x, y, g);
    HeldApart(y.memberships, source, g.absorbed);
    MovesCommute(y.memberships, g.moved, g.survivor, g.rev, mentions, to, rev);
    if source == to {
      MoveNothing(y.memberships, mentions, source, rev);
    } else {
      DetachedHeld(y.memberships, mentions, source, to, rev, g.absorbed);
      DetachedHeld(y.memberships, mentions, source, to, rev, g.survivor);
      if source == g.survivor {
        SomeRemain(mentions, Held(y.memberships, source));
      }
    }
  }

  lemma SomeRemain(some: set<Id>, all: set<Id>)
    requires some <= all && some != all
    ensures all - some != {}
  {
    if all - some == {} {
      forall x | x in all ensures x in some { assert x !in all - some; }
    }
  }

  /** Neither mention of a clear confirm moved, so both sides see the same two entities. */
  lemma TwinScopeOfPair(x: Tables, y: Tables, g: Absorption, p: nat, a: Id, b: Id)
    requires Twins(x, y, g) && ClearConfirm(x, g, p, a, b)
    ensures EntitiesOf(y.memberships, {a, b}) == EntitiesOf(x.memberships, {a, b})
    ensures EntityOf(y.memberships, a) == EntityOf(x.memberships, a)
    ensures EntityOf(y.memberships, b) == EntityOf(x.memberships, b)
    ensures EntityOf(x.memberships, a) != Some(g.absorbed) && EntityOf(x.memberships, b) != Some(g.absorbed)
    ensures g.absorbed !in EntitiesOf(x.memberships, {a, b})
    ensures g.survivor in EntitiesOf(x.memberships, {a, b}) ==> g.rev <= p
  {
    hide Twins, EntitiesOf, EntityOf, Held;
    TwinParts(x, y, g);
    ScopeOfPair(x.memberships, a, b);
    ScopeOfPair(y.memberships, a, b);
    TwinOwner(x, y, g, a);
    TwinOwner(x, y, g, b);
    AbsorbedHoldsNothing(x, y, g);
    EntityOfRow(x.memberships, a, g.absorbed);
    EntityOfRow(x.memberships, b, g.absorbed);
  }

  lemma TwinConfirmAlike(x: Tables, y: Tables, g: Absorption, p: nat, a: Id, b: Id, c: Option<Id>, rev: nat)
    requires Twins(x, y, g) && ClearConfirm(x, g, p, a, b) && x.head < rev
    ensures ConfirmMatch(x, p, a, b, c, rev).Ok? <==> ConfirmMatch(y, p, a, b, c, rev).Ok?
    ensures ConfirmMatch(x, p, a, b, c, rev).Ok? ==>
      SameOpen(ConfirmMatch(x, p, a, b, c, rev).value.tables.candidates,
               ConfirmMatch(y, p, a, b, c, rev).value.tables.candidates)
  {
    hide Valid, Held, Move, LineageOf, EntityOf, EntitiesOf, ScopeCurrent, ConfirmMatch, Settle, Merges, SameOpen,
      Apart, SameDecisions, ClearConfirm;
    var sx, ax := ConfirmValid(x, p, a, b, c, rev);
    var sy, ay := ConfirmValid(y, p, a, b, c, rev);
    TwinScopeOfPair(x, y, g, p, a, b);
    TwinScope(x, y, g, p, EntitiesOf(x.memberships, {a, b}));
    SettleAlike(x.candidates, y.candidates, c, Confirmed, Confirmed, rev);
  }

  lemma TwinConfirm(x: Tables, y: Tables, g: Absorption, p: nat, a: Id, b: Id, c: Option<Id>, gap: nat)
    requires Twins(x, y, g) && ClearConfirm(x, g, p, a, b)
    ensures Twins(Apply(x, DoConfirm(p, a, b, c, gap)), Apply(y, DoConfirm(p, a, b, c, gap)), g)
  {
    hide Valid, Held, Move, LineageOf, EntityOf, EntitiesOf, ScopeCurrent, ConfirmMatch, Settle, Merges, SameOpen,
      Apart, SameDecisions, ClearConfirm;
    var rev := x.head + 1 + gap;
    TwinConfirmAlike(x, y, g, p, a, b, c, rev);
    if ConfirmMatch(x, p, a, b, c, rev).Ok? {
      var sx, ax := ConfirmValid(x, p, a, b, c, rev);
      var sy, ay := ConfirmValid(y, p, a, b, c, rev);
      var x', y' := ConfirmMatch(x, p, a, b, c, rev).value.tables, ConfirmMatch(y, p, a, b, c, rev).value.tables;
      TwinMerged(x, y, g, x', y', p, a, b, sx, ax, sy, ay, rev);
    }
  }

  lemma TwinMerged(x: Tables, y: Tables, g: Absorption, x': Tables, y': Tables, p: nat, a: Id, b: Id,
                   sx: Id, ax: Id, sy: Id, ay: Id, rev: nat)
    requires Twins(x, y, g) && ClearConfirm(x, g, p, a, b)
    requires Valid(x') && Valid(y') && SameOpen(x'.candidates, y'.candidates)
    requires Merges(x, x', a, b, sx, ax, rev) && Merges(y, y', a, b, sy, ay, rev)
    ensures Twins(x', y', g)
  {
    hide Valid, Held, Move, LineageOf, EntityOf, EntitiesOf, CanMove, SameOpen, SameDecisions;
    TwinScopeOfPair(x, y, g, p, a, b);
    TwinHeld(x, y, g, ax);
    TwinMove(x, y, g, Held(y.memberships, ax), ax, sx, rev);
    TwinDecided(x, y, x', y', rev);
  }

  lemma TwinDecided(x: Tables, y: Tables, x': Tables, y': Tables, rev: nat)
    requires SameDecisions(x.decisions, y.decisions)
    requires exists d :: x'.decisions == x.decisions + [d] && d.kind == Confirm && d.resultRevision == rev
    requires exists e :: y'.decisions == y.decisions + [e] && e.kind == Confirm && e.resultRevision == rev
    ensures SameDecisions(x'.decisions, y'.decisions)
  {
    hide SameDecisions;
    var d :| x'.decisions == x.decisions + [d] && d.kind == Confirm && d.resultRevision == rev;
    var e :| y'.decisions == y.decisions + [e] && e.kind == Confirm && e.resultRevision == rev;
    OneMoreDecision(x.decisions, y.decisions, d, e);
  }

  lemma TwinSplitAlike(x: Tables, y: Tables, g: Absorption, p: nat, e: Id, mentions: set<Id>, target: Option<Id>,
                       newId: Id, rev: nat)
    requires Twins(x, y, g) && ClearSplit(x, g, p, e, mentions, target) && x.head < rev
    ensures SplitEntity(x, p, e, mentions, target, newId, rev).Ok?
      <==> SplitEntity(y, p, e, mentions, target, newId, rev).Ok?
    ensures SplitEntity(x, p, e, mentions, target, newId, rev).Ok? ==> mentions < Held(y.memberships, e)
  {
    hide Valid, Held, Move, LineageOf, ScopeCurrent, SplitEntity, SameOpen, SameDecisions, Exclusive;
    TwinParts(x, y, g);
    SplitAcceptedIff(x, p, e, mentions, target, newId, rev);
    SplitAcceptedIff(y, p, e, mentions, target, newId, rev);
    TwinHeld(x, y, g, e);
    HeldApart(y.memberships, g.survivor, g.absorbed);
    TwinScope(x, y, g, p, {e});
  }

  lemma TwinSplit(x: Tables, y: Tables, g: Absorption, p: nat, e: Id, mentions: set<Id>, target: Option<Id>,
                  newId: Id, gap: nat)
    requires Twins(x, y, g) && ClearSplit(x, g, p, e, mentions, target)
    ensures Twins(Apply(x, DoSplit(p, e, mentions, target, newId, gap)),
                  Apply(y, DoSplit(p, e, mentions, target, newId, gap)), g)
  {
    hide Valid, Held, Move, LineageOf, ScopeCurrent, SplitEntity, SameOpen, SameDecisions;
    var rev := x.head + 1 + gap;
    TwinSplitAlike(x, y, g, p, e, mentions, target, newId, rev);
    SplitValid(x, p, e, mentions, target, newId, rev);
    SplitValid(y, p, e, mentions, target, newId, rev);
    if SplitEntity(x, p, e, mentions, target, newId, rev).Ok? {
      var to := Target(target, newId);
      SplitAcceptedIff(x, p, e, mentions, target, newId, rev);
      TwinMove(x, y, g, mentions, e, to, rev);
      OneMoreDecision(x.decisions, y.decisions, Decision(Split, p, rev, None, mentions),
                      Decision(Split, p, rev, None, mentions));
      CutCommutes(LineageOf(y), g.absorbed, g.survivor, to);
    }
  }

  lemma CutCommutes(parent: Parent, a: Id, s: Id, t: Id)
    requires a != t
    ensures parent[a := s] - {t} == (parent - {t})[a := s]
  {
  }

  // -------------------------------------------------------------- opens and claims

  /** Who owns a mention is the same, up to the merge. */
  ghost predicate SameOwners(ms: set<Membership>, ns: set<Membership>, g: Absorption) {
    && OneActive(ms) && OneActive(ns)
    && forall m {:trigger EntityOf(ms, m)} :: SameOwner(m, EntityOf(ms, m), EntityOf(ns, m), g)
  }

  predicate SameOwner(m: Id, o: Option<Id>, q: Option<Id>, g: Absorption) {
    if m in g.moved then o == Some(g.survivor) && q == Some(g.absorbed) else o == q
  }

  lemma OwnerAfterOpen(ms: set<Membership>, m: Id, e: Id, rev: nat, n: Id)
    requires OneActive(ms) && EntityOf(ms, m).None?
    ensures OneActive(ms + {Row(m, e, rev)})
    ensures EntityOf(ms + {Row(m, e, rev)}, n) == if n == m then Some(e) else EntityOf(ms, n)
  {
    hide EntityOf, Held;
    var ms' := ms + {Row(m, e, rev)};
    forall r | r in ms && r.Active() ensures r.mention != m { ActiveHasOwner(ms, r); }
    assert OneActive(ms');
    forall x ensures EntityOf(ms', n) == Some(x) <==> (if n == m then x == e else EntityOf(ms, n) == Some(x)) {
      EntityOfActive(ms', n, x);
      EntityOfActive(ms, n, x);
      EntityOfActive(ms, m, x);
      OpenHeld(ms, m, e, rev, x);
    }
    if EntityOf(ms', n).Some? { assert EntityOf(ms', n) == Some(EntityOf(ms', n).value); }
    if EntityOf(ms, n).Some? { assert EntityOf(ms, n) == Some(EntityOf(ms, n).value); }
  }

  lemma OwnersAfterOpen(ms: set<Membership>, ns: set<Membership>, g: Absorption, m: Id, e: Id, rev: nat)
    requires SameOwners(ms, ns, g) && EntityOf(ms, m).None? && EntityOf(ns, m).None?
    ensures SameOwners(ms + {Row(m, e, rev)}, ns + {Row(m, e, rev)}, g)
  {
    hide EntityOf, OneActive;
    OwnerAfterOpen(ms, m, e, rev, m);
    OwnerAfterOpen(ns, m, e, rev, m);
    forall n
      ensures SameOwner(n, EntityOf(ms + {Row(m, e, rev)}, n), EntityOf(ns + {Row(m, e, rev)}, n), g)
    {
      OwnerAfterOpen(ms, m, e, rev, n);
      OwnerAfterOpen(ns, m, e, rev, n);
      assert SameOwner(n, EntityOf(ms, n), EntityOf(ns, n), g);
    }
  }

  /** An anchor is accepted on both sides or on neither. */
  lemma AnchorAlike(x: Tables, y: Tables, g: Absorption, mention: Option<Id>, e: Option<Id>)
    requires SameOwners(x.memberships, y.memberships, g) && x.entities == y.entities && x.head == y.head
    requires ClearAnchor(g, mention, e)
    ensures CheckAnchor(x, mention, e).Ok? <==> CheckAnchor(y, mention, e).Ok?
    ensures CheckAnchor(x, mention, e).Ok? ==>
      var x', y' := CheckAnchor(x, mention, e).value, CheckAnchor(y, mention, e).value;
      SameOwners(x'.memberships, y'.memberships, g) && x'.entities == y'.entities && x'.head == y'.head
  {
    hide OneActive, EntityOf;
    if mention.Some? && e.Some? {
      var m := mention.value;
      assert SameOwner(m, EntityOf(x.memberships, m), EntityOf(y.memberships, m), g);
      if EntityOf(x.memberships, mention.value).None? {
        OwnersAfterOpen(x.memberships, y.memberships, g, mention.value, e.value, x.head);
      }
    }
  }

  lemma TwinOwners(x: Tables, y: Tables, g: Absorption)
    requires Twins(x, y, g)
    ensures SameOwners(x.memberships, y.memberships, g)
  {
    hide Twins, EntityOf;
    TwinParts(x, y, g);
    forall m ensures SameOwner(m, EntityOf(x.memberships, m), EntityOf(y.memberships, m), g) {
      TwinOwner(x, y, g, m);
    }
  }

  lemma ClaimAlike(x: Tables, y: Tables, g: Absorption, id: Id, draft: Claim, literal: bool, symmetric: bool,
                   required: bool)
    requires Twins(x, y, g)
    requires ClearAnchor(g, draft.subjectMention, Some(draft.subjectId))
    requires ClearAnchor(g, draft.objectMention, draft.objectId)
    ensures RecordClaim(x, id, draft, literal, symmetric, required).Ok?
      <==> RecordClaim(y, id, draft, literal, symmetric, required).Ok?
  {
    hide SameOwners, CheckAnchor, Valid, LineageOf, Move, Before;
    TwinOwners(x, y, g);
    var c := Normalized(draft, symmetric);
    AnchorAlike(x, y, g, c.subjectMention, Some(c.subjectId));
    if CheckAnchor(x, c.subjectMention, Some(c.subjectId)).Ok? {
      AnchorAlike(CheckAnchor(x, c.subjectMention, Some(c.subjectId)).value,
                  CheckAnchor(y, c.subjectMention, Some(c.subjectId)).value, g, c.objectMention, c.objectId);
    }
  }

  /** Where the merge was made, the other ledger only marked the pair. */
  ghost predicate MergeMarked(y: Tables, g: Absorption) {
    && g.rev <= y.head
    && forall i | 0 <= i < |y.decisions| && y.decisions[i].resultRevision == g.rev :: y.decisions[i].kind.Unresolved?
  }

  lemma MarkStays(y: Tables, op: Op, g: Absorption)
    requires MergeMarked(y, g)
    ensures MergeMarked(Apply(y, op), g)
  {
    hide Apply;
    ApplyAppendsDecisions(y, op);
    var y' := Apply(y, op);
    forall i | 0 <= i < |y'.decisions| && y'.decisions[i].resultRevision == g.rev
      ensures y'.decisions[i].kind.Unresolved?
    {
      if i < |y.decisions| { assert y'.decisions[i] == y.decisions[i]; }
    }
  }

  /** An open that is safe beside the merge is safe without it. */
  lemma TwinSafe(x: Tables, y: Tables, g: Absorption, e: Id, at: Option<nat>)
    requires Twins(x, y, g) && MergeMarked(y, g) && e != g.absorbed && OpenIsSafe(x, e, at)
    ensures OpenIsSafe(y, e, at)
  {
    hide Valid, Held, Move, LineageOf, SameOpen;
    if LastDecision(y).Some? && Merging(LastDecision(y).value.kind) && at.None? {
      assert LastDecision(x).Some? && Merging(LastDecision(x).value.kind);
      var r :| r in x.memberships && r.openedAt == x.head && r.entity == e;
      if e == g.survivor { TwinSurvivorRows(x, y, g, r); } else { TwinRows(x, y, g, r); }
    }
  }

  lemma TwinOpen(x: Tables, y: Tables, g: Absorption, m: Id, e: Id, at: Option<nat>)
    requires Twins(x, y, g) && MergeMarked(y, g) && e != g.absorbed
    requires OpenMembership(x, m, e, at).Ok? ==> OpenIsSafe(x, e, at)
    ensures OpenMembership(x, m, e, at).Ok? <==> OpenMembership(y, m, e, at).Ok?
    ensures OpenMembership(x, m, e, at).Ok? ==>
      OpenIsSafe(y, e, at) && Twins(OpenMembership(x, m, e, at).value, OpenMembership(y, m, e, at).value, g)
  {
    hide Valid, Held, Move, LineageOf, EntityOf, SameOpen, SameDecisions, OpenIsSafe;
    TwinOwner(x, y, g, m);
    if OpenMembership(x, m, e, at).Ok? {
      TwinSafe(x, y, g, e, at);
      OpenValid(x, m, e, at);
      OpenValid(y, m, e, at);
      var rev := if at.Some? then at.value else x.head;
      RowAddedCommutes(y.memberships, g.moved, g.survivor, g.rev, Row(m, e, rev));
      OpenHeld(y.memberships, m, e, rev, g.absorbed);
      OpenHeld(y.memberships, m, e, rev, g.survivor);
    }
  }

  lemma TwinAnchor(x: Tables, y: Tables, g: Absorption, mention: Option<Id>, e: Option<Id>)
    requires Twins(x, y, g) && MergeMarked(y, g) && ClearAnchor(g, mention, e) && AnchorIsSafe(x, mention, e)
    requires CheckAnchor(x, mention, e).Ok? && CheckAnchor(y, mention, e).Ok?
    ensures AnchorIsSafe(y, mention, e)
    ensures Twins(CheckAnchor(x, mention, e).value, CheckAnchor(y, mention, e).value, g)
    ensures MergeMarked(CheckAnchor(y, mention, e).value, g)
  {
    hide Twins, OpenMembership, OpenIsSafe, EntityOf;
    AnchorKeepsDecisions(y, mention, e);
    if mention.Some? && e.Some? {
      TwinOwner(x, y, g, mention.value);
      if EntityOf(x.memberships, mention.value).None? {
        TwinOpen(x, y, g, mention.value, e.value, None);
      }
    }
  }

  /** Writes that touch neither rows nor lineage. */
  lemma TwinFields(x: Tables, y: Tables, x': Tables, y': Tables, g: Absorption)
    requires Twins(x, y, g) && Valid(x') && Valid(y')
    requires x'.memberships == x.memberships && y'.memberships == y.memberships
    requires LineageOf(x') == LineageOf(x) && LineageOf(y') == LineageOf(y)
    requires SameFields(x', y') && x.entities <= x'.entities
    ensures Twins(x', y', g)
  {
    hide Valid, Held, Move, LineageOf, SameOpen, SameDecisions;
  }

  lemma TwinClaim(x: Tables, y: Tables, g: Absorption, id: Id, draft: Claim, literal: bool, symmetric: bool,
                   required: bool)
    requires Twins(x, y, g) && MergeMarked(y, g)
    requires ClearAnchor(g, draft.subjectMention, Some(draft.subjectId))
    requires ClearAnchor(g, draft.objectMention, draft.objectId)
    requires ClaimIsSafe(x, draft, symmetric) && RecordClaim(x, id, draft, literal, symmetric, required).Ok?
    ensures RecordClaim(y, id, draft, literal, symmetric, required).Ok?
    ensures Twins(RecordClaim(x, id, draft, literal, symmetric, required).value,
                  RecordClaim(y, id, draft, literal, symmetric, required).value, g)
  {
    hide Twins, CheckAnchor, AnchorIsSafe, Before, MergeMarked;
    ClaimAlike(x, y, g, id, draft, literal, symmetric, required);
    var c := Normalized(draft, symmetric);
    TwinAnchor(x, y, g, c.subjectMention, Some(c.subjectId));
    var x1, y1 := CheckAnchor(x, c.subjectMention, Some(c.subjectId)).value,
                  CheckAnchor(y, c.subjectMention, Some(c.subjectId)).value;
    TwinAnchor(x1, y1, g, c.objectMention, c.objectId);
    ClaimFields(x, y, g, id, draft, literal, symmetric, required,
                CheckAnchor(x1, c.objectMention, c.objectId).value, CheckAnchor(y1, c.objectMention, c.objectId).value);
  }

  lemma ClaimFields(x: Tables, y: Tables, g: Absorption, id: Id, draft: Claim, literal: bool, symmetric: bool,
                    required: bool, x2: Tables, y2: Tables)
    requires Twins(x, y, g) && Twins(x2, y2, g)
    requires ClaimIsSafe(x, draft, symmetric) && RecordClaim(x, id, draft, literal, symmetric, required).Ok?
    requires ClaimIsSafe(y, draft, symmetric) && RecordClaim(y, id, draft, literal, symmetric, required).Ok?
    requires var c := Normalized(draft, symmetric);
      var rx := CheckAnchor(x, c.subjectMention, Some(c.subjectId));
      var ry := CheckAnchor(y, c.subjectMention, Some(c.subjectId));
      && rx.Ok? && CheckAnchor(rx.value, c.objectMention, c.objectId) == Ok(x2)
      && ry.Ok? && CheckAnchor(ry.value, c.objectMention, c.objectId) == Ok(y2)
    ensures Twins(RecordClaim(x, id, draft, literal, symmetric, required).value,
                  RecordClaim(y, id, draft, literal, symmetric, required).value, g)
  {
    hide Valid, CheckAnchor, Move, Held, ClaimIsSafe, SameOpen, SameDecisions, Before, Replay;
    ClaimValid(x, id, draft, literal, symmetric, required);
    ClaimValid(y, id, draft, literal, symmetric, required);
    TwinFields(x2, y2, RecordClaim(x, id, draft, literal, symmetric, required).value,
               RecordClaim(y, id, draft, literal, symmetric, required).value, g);
  }

  lemma QuietAlike(x: Tables, y: Tables, op: Op)
    requires SameFields(x, y) && (op.DoReject? || op.DoUnresolved? || op.DoEntity? || op.DoPropose?)
    ensures SameFields(Apply(x, op), Apply(y, op)) && x.entities <= Apply(x, op).entities
  {
    hide Constrain, Settle, SameOpen, SameDecisions, ConfirmMatch, SplitEntity, OpenMembership, RecordClaim,
      RetractClaim, Before;
    match op {
      case DoReject(p, a, b, c, gap) =>
        SettleAlike(x.candidates, y.candidates, c, Rejected, Rejected, x.head + 1 + gap);
        TwinMark(x, y, Decision(Reject, p, x.head + 1 + gap, c, {a, b}));
      case DoUnresolved(p, a, b, c, gap) =>
        SettleAlike(x.candidates, y.candidates, c, MarkedUnresolved, MarkedUnresolved, x.head + 1 + gap);
        TwinMark(x, y, Decision(Unresolved, p, x.head + 1 + gap, c, {a, b}));
      case DoPropose(id, c) =>
        ProposeAlike(x.candidates, y.candidates, id, c);
      case DoEntity(e) =>
    }
  }

  lemma TwinQuiet(x: Tables, y: Tables, g: Absorption, op: Op)
    requires Twins(x, y, g) && (op.DoReject? || op.DoUnresolved? || op.DoEntity? || op.DoPropose?)
    ensures Twins(Apply(x, op), Apply(y, op), g)
  {
    hide Valid, Apply, Apart, Move, LineageOf;
    QuietValid(x, op);
    QuietValid(y, op);
    QuietAlike(x, y, op);
    TwinFields(x, y, Apply(x, op), Apply(y, op), g);
  }

  lemma TwinMark(x: Tables, y: Tables, d: Decision)
    requires SameDecisions(x.decisions, y.decisions)
    ensures SameDecisions(x.decisions + [d], y.decisions + [d])
  {
    OneMoreDecision(x.decisions, y.decisions, d, d);
  }

  lemma ProposeAlike(cs: map<Id, Candidate>, ds: map<Id, Candidate>, id: Id, c: Candidate)
    requires SameOpen(cs, ds)
    ensures id in cs <==> id in ds
    ensures SameOpen(cs[id := c], ds[id := c])
  {
  }

  lemma TwinRetract(x: Tables, y: Tables, g: Absorption, id: Id, reason: string)
    requires Twins(x, y, g)
    ensures RetractClaim(x, id, reason).Ok? <==> RetractClaim(y, id, reason).Ok?
    ensures RetractClaim(x, id, reason).Ok? ==>
      Twins(RetractClaim(x, id, reason).value, RetractClaim(y, id, reason).value, g)
  {
    hide Valid, Held, Move, LineageOf, SameOpen, SameDecisions;
    if RetractClaim(x, id, reason).Ok? {
      RetractValid(x, id, reason);
      RetractValid(y, id, reason);
      TwinFields(x, y, RetractClaim(x, id, reason).value, RetractClaim(y, id, reason).value, g);
    }
  }

  // ------------------------------------------------------------------------- runs

  lemma TwinStep(x: Tables, y: Tables, g: Absorption, op: Op)
    requires Twins(x, y, g) && MergeMarked(y, g) && Clear(x, op, g) && Safe(x, op)
    ensures Twins(Apply(x, op), Apply(y, op), g) && MergeMarked(Apply(y, op), g)
  {
    hide Twins, MergeMarked, ClearConfirm, ClearSplit, ConfirmMatch, SplitEntity, RejectMatch, MarkUnresolved,
      OpenMembership, RecordClaim, RetractClaim, OpenIsSafe, ClaimIsSafe, ClearAnchor, EntitiesOf;
    MarkStays(y, op, g);
    match op
    case DoConfirm(p, a, b, c, gap) => TwinConfirm(x, y, g, p, a, b, c, gap);
    case DoSplit(p, e, mentions, target, newId, gap) => TwinSplit(x, y, g, p, e, mentions, target, newId, gap);
    case DoOpen(m, e, at) => TwinOpen(x, y, g, m, e, at);
    case DoClaim(id, draft, literal, symmetric, required) =>
      ClaimAlike(x, y, g, id, draft, literal, symmetric, required);
      if RecordClaim(x, id, draft, literal, symmetric, required).Ok? {
        TwinClaim(x, y, g, id, draft, literal, symmetric, required);
      }
    case DoRetract(id, reason) => TwinRetract(x, y, g, id, reason);
    case _ => TwinQuiet(x, y, g, op);
  }

  lemma {:induction false} TwinRun(x: Tables, y: Tables, ops: seq<Op>, g: Absorption)
    requires Twins(x, y, g) && MergeMarked(y, g) && WellFormed(x, ops) && AllClear(x, ops, g)
    ensures Twins(Run(x, ops), Run(y, ops), g)
    decreases |ops|
  {
    hide Twins, MergeMarked, Apply, Clear, Safe;
    if ops == [] {
    } else {
      TwinStep(x, y, g, ops[0]);
      TwinRun(Apply(x, ops[0]), Apply(y, ops[0]), ops[1..], g);
    }
  }

  // --------------------------------------------------------------------- reversal

  /** A confirm and an unresolved mark of the same pair start out as twins. */
  lemma TwinStart(s: Tables, p: nat, a: Id, b: Id, candidate: Option<Id>, rev: nat) returns (g: Absorption)
    requires Valid(s) && s.head < rev && ConfirmMatch(s, p, a, b, candidate, rev).Ok?
    ensures MarkUnresolved(s, p, a, b, candidate, rev).Ok?
    ensures var merged := ConfirmMatch(s, p, a, b, candidate, rev).value;
      && EntityOf(s.memberships, a) == Some(g.survivor) && EntityOf(s.memberships, b) == Some(g.absorbed)
      && g.moved == (set m | m in merged.moved) && g.rev == rev
      && Twins(merged.tables, MarkUnresolved(s, p, a, b, candidate, rev).value.tables, g)
      && MergeMarked(MarkUnresolved(s, p, a, b, candidate, rev).value.tables, g)
  {
    hide Valid, Held, Move, LineageOf, ConfirmMatch, EntityOf, EntitiesOf, ScopeCurrent, CanMove, Settle, SameOpen,
      SameDecisions, Twins;
    var survivor, absorbed := ConfirmValid(s, p, a, b, candidate, rev);
    var x := ConfirmMatch(s, p, a, b, candidate, rev).value.tables;
    g := Absorption(survivor, absorbed, Held(s.memberships, absorbed), rev);
    SameAsItself(s);
    SettleAlike(s.candidates, s.candidates, candidate, Confirmed, MarkedUnresolved, rev);
    var y := MarkUnresolved(s, p, a, b, candidate, rev).value.tables;
    var d := Decision(Unresolved, p, rev, candidate, {a, b});
    QuietDecision(s, d, y);
    ValidRows(s);
    var c :| x.decisions == s.decisions + [c] && c.kind == Confirm && c.resultRevision == rev;
    OneMoreDecision(s.decisions, s.decisions, c, d);
    MergedTwins(s, x, y, a, b, g);
  }

  lemma MergedTwins(s: Tables, x: Tables, y: Tables, a: Id, b: Id, g: Absorption)
    requires Valid(s) && Valid(x) && Valid(y)
    requires Merges(s, x, a, b, g.survivor, g.absorbed, g.rev) && g.moved == Held(s.memberships, g.absorbed)
    requires y.memberships == s.memberships && LineageOf(y) == LineageOf(s) && y.entities == s.entities
    requires SameFields(x, y)
    ensures Twins(x, y, g)
  {
    hide Valid, Held, Move, LineageOf, EntityOf, CanMove, SameFields;
    HolderInStore(s, g.survivor);
    HolderInStore(s, g.absorbed);
  }

  lemma SameAsItself(s: Tables)
    ensures SameOpen(s.candidates, s.candidates) && SameDecisions(s.decisions, s.decisions)
  {
  }

  /** The move back, on a store where the merge is the only difference. */
  lemma TwinReversal(x: Tables, y: Tables, g: Absorption, parentRevision: nat, newId: Id, rev: nat)
    requires Twins(x, y, g) && x.head < rev && g.moved != {}
    requires ScopeCurrent(x.memberships, parentRevision, {g.survivor})
    ensures var undone := SplitEntity(x, parentRevision, g.survivor, g.moved, Some(g.absorbed), newId, rev);
      undone.Ok? && Valid(undone.value.tables) && SameIdentity(undone.value.tables, y)
  {
    hide Valid, Held, Move, LineageOf, SplitEntity, SameOpen, SameDecisions, Active, OneActive, Exclusive, HandedOver,
      ResolveArgument, Lookup;
    TwinParts(x, y, g);
    ValidParts(x);
    TwinHeld(x, y, g, g.survivor);
    HeldApart(y.memberships, g.survivor, g.absorbed);
    SplitAcceptedIff(x, parentRevision, g.survivor, g.moved, Some(g.absorbed), newId, rev);
    SplitValid(x, parentRevision, g.survivor, g.moved, Some(g.absorbed), newId, rev);
    var z := SplitEntity(x, parentRevision, g.survivor, g.moved, Some(g.absorbed), newId, rev).value.tables;
    forall e ensures Held(z.memberships, e) == Held(y.memberships, e) {
      TwinHeld(x, y, g, e);
      AbsorbedHoldsNothing(x, y, g);
      MovedBack(x, g, rev, e);
    }
    ActiveFromHeld(z.memberships, y.memberships);
    assert LineageOf(z) == LineageOf(y)[g.absorbed := g.survivor] - {g.absorbed} == LineageOf(y);
    assert z.entities == y.entities;
    SameLookups(z, y);
  }

  lemma MovedBack(x: Tables, g: Absorption, rev: nat, e: Id)
    requires Exclusive(x.memberships) && g.moved <= Held(x.memberships, g.survivor) && g.survivor != g.absorbed
    ensures Held(Move(x.memberships, g.moved, g.absorbed, rev), e)
      == if e == g.absorbed then Held(x.memberships, e) + g.moved
         else if e == g.survivor then Held(x.memberships, e) - g.moved
         else Held(x.memberships, e)
  {
    hide Held, Move;
    DetachedHeld(x.memberships, g.moved, g.survivor, g.absorbed, rev, e);
  }

  /** The reversal law at its full reach: confirm a pair, let any well-formed run go by that
      leaves the merge as it is, then split the moved mentions back. Every parent revision that
      passes the scope check will do, and every identity answer is the one that run gives when
      the pair was left unresolved instead. */
  lemma ReversalAfterRun(s: Tables, p: nat, a: Id, b: Id, candidate: Option<Id>, rev: nat, ops: seq<Op>,
                         parentRevision: nat, newId: Id, rev2: nat) returns (g: Absorption)
    requires Valid(s) && s.head < rev && ConfirmMatch(s, p, a, b, candidate, rev).Ok?
    ensures MarkUnresolved(s, p, a, b, candidate, rev).Ok?
    ensures var merged := ConfirmMatch(s, p, a, b, candidate, rev).value;
      && EntityOf(s.memberships, a) == Some(g.survivor) && EntityOf(s.memberships, b) == Some(g.absorbed)
      && g.moved == (set m | m in merged.moved) && g.rev == rev
      && (WellFormed(merged.tables, ops) && AllClear(merged.tables, ops, g) && Run(merged.tables, ops).head < rev2
          && ScopeCurrent(Run(merged.tables, ops).memberships, parentRevision, {g.survivor}) ==>
            var undone := SplitEntity(Run(merged.tables, ops), parentRevision, g.survivor, g.moved, Some(g.absorbed),
                                      newId, rev2);
            && undone.Ok? && Valid(undone.value.tables)
            && SameIdentity(undone.value.tables, Run(MarkUnresolved(s, p, a, b, candidate, rev).value.tables, ops)))
  {
    hide Valid, ConfirmMatch, MarkUnresolved, SplitEntity, Run, WellFormed, AllClear, SameIdentity, EntityOf, Twins,
      MergeMarked, ScopeCurrent;
    g := TwinStart(s, p, a, b, candidate, rev);
    var x := ConfirmMatch(s, p, a, b, candidate, rev).value.tables;
    var y := MarkUnresolved(s, p, a, b, candidate, rev).value.tables;
    if WellFormed(x, ops) && AllClear(x, ops, g) && Run(x, ops).head < rev2
       && ScopeCurrent(Run(x, ops).memberships, parentRevision, {g.survivor}) {
      TwinRun(x, y, ops, g);
      SomethingMoved(s, p, a, b, candidate, rev, g);
      TwinReversal(Run(x, ops), Run(y, ops), g, parentRevision, newId, rev2);
    }
  }

  /** In particular: when the run stays away from the survivor altogether, any parent revision
      from the merge's on will do. */
  lemma ReversalLeftAlone(s: Tables, p: nat, a: Id, b: Id, candidate: Option<Id>, rev: nat, ops: seq<Op>,
                          parentRevision: nat, newId: Id, rev2: nat) returns (g: Absorption)
    requires Valid(s) && s.head < rev && ConfirmMatch(s, p, a, b, candidate, rev).Ok?
    requires rev <= parentRevision
    ensures MarkUnresolved(s, p, a, b, candidate, rev).Ok?
    ensures var merged := ConfirmMatch(s, p, a, b, candidate, rev).value;
      && EntityOf(s.memberships, a) == Some(g.survivor) && EntityOf(s.memberships, b) == Some(g.absorbed)
      && g.moved == (set m | m in merged.moved)
      && (WellFormed(merged.tables, ops) && AllClear(merged.tables, ops, g)
          && AllElsewhere(merged.tables, ops, {g.survivor}) && Run(merged.tables, ops).head < rev2 ==>
            var undone := SplitEntity(Run(merged.tables, ops), parentRevision, g.survivor, g.moved, Some(g.absorbed),
                                      newId, rev2);
            && undone.Ok? && Valid(undone.value.tables)
            && SameIdentity(undone.value.tables, Run(MarkUnresolved(s, p, a, b, candidate, rev).value.tables, ops)))
  {
    hide Valid, ConfirmMatch, MarkUnresolved, SplitEntity, Run, WellFormed, AllClear, SameIdentity, EntityOf,
      EntitiesOf, ScopeCurrent, AllElsewhere, AllInReach, RowsSound, Merges, Settle;
    g := ReversalAfterRun(s, p, a, b, candidate, rev, ops, parentRevision, newId, rev2);
    var survivor, absorbed := ConfirmValid(s, p, a, b, candidate, rev);
    var x := ConfirmMatch(s, p, a, b, candidate, rev).value.tables;
    if WellFormed(x, ops) && AllElsewhere(x, ops, {g.survivor}) {
      MergedIsCurrent(s, x, a, b, survivor, absorbed, rev, parentRevision, g.survivor);
      ValidRows(x);
      WellFormedInReach(x, ops);
      NeverStaleFromElsewhere(x, ops, parentRevision, {g.survivor});
    }
  }

  lemma MergedIsCurrent(s: Tables, x: Tables, a: Id, b: Id, survivor: Id, absorbed: Id, rev: nat,
                        parentRevision: nat, e: Id)
    requires Valid(x) && Merges(s, x, a, b, survivor, absorbed, rev) && rev <= parentRevision
    ensures ScopeCurrent(x.memberships, parentRevision, {e})
  {
    hide Move, Held, LineageOf, EntityOf, CanMove;
    ScopeAtHead(x, parentRevision, {e});
  }

  lemma SomethingMoved(s: Tables, p: nat, a: Id, b: Id, candidate: Option<Id>, rev: nat, g: Absorption)
    requires Valid(s) && s.head < rev && ConfirmMatch(s, p, a, b, candidate, rev).Ok?
    requires g.moved == set m | m in ConfirmMatch(s, p, a, b, candidate, rev).value.moved
    ensures g.moved != {}
  {
    hide Valid, Held, ConfirmMatch, EntitiesOf, ScopeCurrent, Settle, Move, LineageOf, CanMove, EntityOf;
    var survivor, absorbed := ConfirmValid(s, p, a, b, candidate, rev);
    assert b in g.moved;
  }
}
