/** Batch confirmation: one decision per pair, one shared parent revision, a savepoint
    per pair (aegis/api/routes/identity.py:283-322). */
module LedgerBatch {
  import opened Common
  import opened Lineage
  import opened Store
  import opened LedgerInvariant
  import opened LedgerSteps
  import opened LedgerReversal

  datatype Item = Item(candidate: Id, gap: nat)

  /** One merge the batch made. */
  datatype Union = Union(candidate: Id, survivor: Id, absorbed: Id) {
    function Pair(): set<Id> { {survivor, absorbed} }
  }

  ghost function Confirmation(s: Tables, p: nat, item: Item): Result<Outcome, Refusal> {
    if item.candidate !in s.candidates then Err(NoSuchCandidate)
    else
      var c := s.candidates[item.candidate];
      if !c.preVerified then Err(NotPreVerified)
      else if c.disposition != Open then Err(CandidateSettled)
      else ConfirmMatch(s, p, c.mentionA, c.mentionB, Some(item.candidate), s.head + 1 + item.gap)
  }

  ghost function Accepted(s: Tables, p: nat, item: Item): Tables {
    var r := Confirmation(s, p, item);
    if r.Ok? then r.value.tables else s
  }

  /** The merge an item would make now. */
  ghost function UnionOf(s: Tables, item: Item): Union {
    if item.candidate in s.candidates then
      var c := s.candidates[item.candidate];
      match (EntityOf(s.memberships, c.mentionA), EntityOf(s.memberships, c.mentionB))
      case (Some(x), Some(y)) => Union(item.candidate, x, y)
      case _ => Union(item.candidate, "", "")
    else Union(item.candidate, "", "")
  }

  /** The loop: a refused pair leaves the tables as they were and is skipped. */
  ghost function Batch(s: Tables, p: nat, items: seq<Item>): (Tables, seq<Union>)
    decreases |items|
  {
    if items == [] then (s, [])
    else match Confirmation(s, p, items[0])
      case Err(_) => Batch(s, p, items[1..])
      case Ok(o) =>
        var rest := Batch(o.tables, p, items[1..]);
        (rest.0, [UnionOf(s, items[0])] + rest.1)
  }

  // ------------------------------------------------------------ closed forms

  /** Where an entity's mentions end up after a list of merges. */
  function Follow(us: seq<Union>, e: Id): Id
    decreases |us|
  {
    if us == [] then e
    else Follow(us[1..], if e == us[0].absorbed then us[0].survivor else e)
  }

  ghost function Redirect(active: set<(Id, Id)>, us: seq<Union>): set<(Id, Id)> {
    set p | p in active :: (p.0, Follow(us, p.1))
  }

  ghost function Linked(parent: Parent, us: seq<Union>): Parent
    decreases |us|
  {
    if us == [] then parent else Linked(parent[us[0].absorbed := us[0].survivor], us[1..])
  }

  ghost predicate PairwiseDisjoint(us: seq<Union>) {
    forall i, j :: 0 <= i < j < |us| ==> us[i].Pair() !! us[j].Pair()
  }

  ghost predicate Proper(us: seq<Union>) {
    PairwiseDisjoint(us) && forall i :: 0 <= i < |us| ==> us[i].survivor != us[i].absorbed
  }

  lemma {:induction false} FollowStays(us: seq<Union>, e: Id)
    requires forall i :: 0 <= i < |us| ==> us[i].absorbed != e
    ensures Follow(us, e) == e
    decreases |us|
  {
    if us == [] {
    } else {
      assert us[0].absorbed != e;
      FollowStays(us[1..], e);
    }
  }

  /** With disjoint pairs, an entity is redirected once: to the survivor of its own merge. */
  lemma {:induction false} FollowOnce(us: seq<Union>, i: nat)
    requires Proper(us) && i < |us|
    ensures Follow(us, us[i].absorbed) == us[i].survivor
    decreases |us|
  {
    if i == 0 {
      forall k | 0 <= k < |us[1..]| ensures us[1..][k].absorbed != us[0].survivor {
        assert us[0].Pair() !! us[k + 1].Pair();
      }
      FollowStays(us[1..], us[0].survivor);
    } else {
      assert us[0].Pair() !! us[i].Pair();
      ProperTail(us);
      FollowOnce(us[1..], i - 1);
    }
  }

  lemma ProperTail(us: seq<Union>)
    requires Proper(us) && us != []
    ensures Proper(us[1..])
  {
    forall i, j | 0 <= i < j < |us[1..]| ensures us[1..][i].Pair() !! us[1..][j].Pair() {
      assert us[i + 1].Pair() !! us[j + 1].Pair();
    }
  }

  // --------------------------------------------------------------- one merge

  lemma FollowOne(u: Union, e: Id)
    ensures Follow([u], e) == if e == u.absorbed then u.survivor else e
  {
    assert [u][1..] == [];
  }

  lemma MergeForward(s: Tables, s': Tables, a: Id, b: Id, u: Union, rev: nat, m: Id, e: Id)
    requires Valid(s) && Merges(s, s', a, b, u.survivor, u.absorbed, rev)
    requires m in Held(s.memberships, e)
    ensures m in Held(s'.memberships, Follow([u], e))
  {
    hide Valid, Held, Move, CanMove;
    var held := Held(s.memberships, u.absorbed);
    ValidParts(s);
    FollowOne(u, e);
    MoveHeld(s.memberships, held, u.absorbed, u.survivor, rev, Follow([u], e));
    if e != u.absorbed {
      HeldApart(s.memberships, e, u.absorbed);
    }
  }

  lemma MergeBackward(s: Tables, s': Tables, a: Id, b: Id, u: Union, rev: nat, m: Id, e: Id) returns (e0: Id)
    requires Valid(s) && Merges(s, s', a, b, u.survivor, u.absorbed, rev)
    requires m in Held(s'.memberships, e)
    ensures m in Held(s.memberships, e0) && Follow([u], e0) == e
  {
    hide Valid, Held, Move, CanMove;
    var held := Held(s.memberships, u.absorbed);
    MoveHeld(s.memberships, held, u.absorbed, u.survivor, rev, e);
    e0 := if e == u.survivor && m in held then u.absorbed else e;
    FollowOne(u, e0);
  }

  lemma MergeRedirects(s: Tables, s': Tables, a: Id, b: Id, u: Union, rev: nat)
    requires Valid(s) && Merges(s, s', a, b, u.survivor, u.absorbed, rev)
    ensures Active(s'.memberships) == Redirect(Active(s.memberships), [u])
  {
    hide Valid, Held, Move, CanMove, Active, Merges, Follow;
    var ms, ms' := s.memberships, s'.memberships;
    forall p: (Id, Id) | p in Active(ms) ensures (p.0, Follow([u], p.1)) in Active(ms') {
      HeldInActive(ms, p.0, p.1);
      MergeForward(s, s', a, b, u, rev, p.0, p.1);
      HeldInActive(ms', p.0, Follow([u], p.1));
    }
    forall p: (Id, Id) | p in Active(ms') ensures p in Redirect(Active(ms), [u]) {
      HeldInActive(ms', p.0, p.1);
      var e0 := MergeBackward(s, s', a, b, u, rev, p.0, p.1);
      HeldInActive(ms, p.0, e0);
      assert (p.0, e0) in Active(ms) && p == ((p.0, e0).0, Follow([u], (p.0, e0).1));
    }
  }

  /** Both entities of a merge are touched at its revision, so no later decision computed
      against an earlier one may involve them. */
  lemma MergeTouches(s: Tables, s': Tables, a: Id, b: Id, u: Union, rev: nat, p: nat, e: Id)
    requires Valid(s) && Merges(s, s', a, b, u.survivor, u.absorbed, rev)
    requires p < rev && e in u.Pair()
    ensures !ScopeCurrent(s'.memberships, p, {e})
  {
    MoveOpenedNow(s.memberships, Held(s.memberships, u.absorbed), u.absorbed, u.survivor, rev);
    if e == u.survivor {
      assert e in Opened(s'.memberships, rev);
      var r :| r in s'.memberships && r.openedAt == rev && r.entity == e;
    } else {
      assert e in Closed(s'.memberships, rev);
      var r :| r in s'.memberships && r.closedAt == Some(rev) && r.entity == e;
    }
  }

  /** Entities outside a merge are exactly as current as before it. */
  lemma MergeLeavesScope(s: Tables, s': Tables, a: Id, b: Id, u: Union, rev: nat, p: nat, e: Id)
    requires Valid(s) && Merges(s, s', a, b, u.survivor, u.absorbed, rev)
    requires e !in u.Pair()
    ensures ScopeCurrent(s'.memberships, p, {e}) <==> ScopeCurrent(s.memberships, p, {e})
  {
    hide Valid, Held, Move, LineageOf, Exclusive;
    var held := Held(s.memberships, u.absorbed);
    MovingRows(s.memberships, held, u.absorbed, u.survivor, rev);
    forall r | r in s.memberships && r.entity == e ensures r in s'.memberships {
      MoveKeeps(s.memberships, held, u.survivor, rev, r);
    }
    forall r | r in s'.memberships && r.entity == e ensures r in s.memberships {
      var q := MoveOrigin(s.memberships, held, u.survivor, rev, r);
    }
  }

  lemma ScopeSplits(ms: set<Membership>, p: nat, x: Id, y: Id)
    ensures ScopeCurrent(ms, p, {x, y}) <==> ScopeCurrent(ms, p, {x}) && ScopeCurrent(ms, p, {y})
  {
  }

  // ------------------------------------------------------------- acceptance

  /** What makes an item acceptable: an open pre-verified candidate between two different
      entities, neither of which changed after the parent revision. */
  ghost predicate Acceptable(s: Tables, p: nat, item: Item) {
    && item.candidate in s.candidates
    && var c := s.candidates[item.candidate];
    && c.preVerified && c.disposition == Open
    && EntityOf(s.memberships, c.mentionA).Some? && EntityOf(s.memberships, c.mentionB).Some?
    && var u := UnionOf(s, item);
    && u.survivor != u.absorbed
    && ScopeCurrent(s.memberships, p, u.Pair())
  }

  lemma AcceptableIff(s: Tables, p: nat, item: Item)
    requires Valid(s)
    ensures Confirmation(s, p, item).Ok? <==> Acceptable(s, p, item)
    ensures Acceptable(s, p, item) ==>
      var c := s.candidates[item.candidate];
      var s' := Accepted(s, p, item);
      && Valid(s')
      && Merges(s, s', c.mentionA, c.mentionB, UnionOf(s, item).survivor, UnionOf(s, item).absorbed,
                s.head + 1 + item.gap)
      && item.candidate in s'.candidates && s'.candidates[item.candidate].disposition != Open
      && s'.candidates == s.candidates[item.candidate := s'.candidates[item.candidate]]
  {
    hide Valid, Merges, LineageOf, ScopeCurrent, EntityOf, ConfirmMatch;
    if item.candidate in s.candidates {
      var c := s.candidates[item.candidate];
      if c.disposition == Open {
        ConfirmAcceptedIff(s, p, c.mentionA, c.mentionB, item.candidate, s.head + 1 + item.gap);
      }
    }
  }

  lemma ConfirmAcceptedIff(s: Tables, p: nat, a: Id, b: Id, candidate: Id, rev: nat)
    requires Valid(s) && s.head < rev
    requires candidate in s.candidates && s.candidates[candidate].disposition == Open
    ensures var r := ConfirmMatch(s, p, a, b, Some(candidate), rev);
      && (r.Ok? <==>
            && EntityOf(s.memberships, a).Some? && EntityOf(s.memberships, b).Some?
            && EntityOf(s.memberships, a) != EntityOf(s.memberships, b)
            && ScopeCurrent(s.memberships, p,
                            {EntityOf(s.memberships, a).value, EntityOf(s.memberships, b).value}))
      && (r.Ok? ==>
            && Valid(r.value.tables)
            && Merges(s, r.value.tables, a, b, EntityOf(s.memberships, a).value, EntityOf(s.memberships, b).value, rev)
            && r.value.tables.candidates
               == s.candidates[candidate := s.candidates[candidate].(disposition := Confirmed, decision := Some(rev))])
  {
    hide Valid, Held, Move, CanMove, LineageOf, ScopeCurrent, EntityOf, EntitiesOf, ConfirmMatch;
    var survivor, absorbed := ConfirmValid(s, p, a, b, Some(candidate), rev);
    ValidParts(s);
    ScopeOfPair(s.memberships, a, b);
    if EntityOf(s.memberships, a).Some? && EntityOf(s.memberships, b).Some?
       && EntityOf(s.memberships, a) != EntityOf(s.memberships, b) {
      assert EntitiesOf(s.memberships, {a, b})
          == {EntityOf(s.memberships, a).value, EntityOf(s.memberships, b).value};
    }
  }

  // ----------------------------------------------------- after the first merge

  lemma EntityAfterMerge(s: Tables, s': Tables, a: Id, b: Id, u: Union, rev: nat, m: Id)
    requires Valid(s) && Valid(s') && Merges(s, s', a, b, u.survivor, u.absorbed, rev)
    ensures EntityOf(s'.memberships, m)
            == match EntityOf(s.memberships, m)
               case None => None
               case Some(e) => Some(Follow([u], e))
  {
    hide Valid, Held, Move, CanMove, Follow, Merges;
    ValidParts(s);
    ValidParts(s');
    if EntityOf(s.memberships, m).Some? {
      var e := EntityOf(s.memberships, m).value;
      EntityOfRow(s.memberships, m, e);
      MergeForward(s, s', a, b, u, rev, m, e);
      EntityOfRow(s'.memberships, m, Follow([u], e));
    } else if EntityOf(s'.memberships, m).Some? {
      var e := EntityOf(s'.memberships, m).value;
      EntityOfRow(s'.memberships, m, e);
      var e0 := MergeBackward(s, s', a, b, u, rev, m, e);
      EntityOfRow(s.memberships, m, e0);
    }
  }

  /** Once a pair is merged, another item is acceptable exactly when it was before and
      involves neither of the merged entities. */
  lemma AcceptableAfter(s: Tables, p: nat, first: Item, item: Item)
    requires Valid(s) && p <= s.head && Acceptable(s, p, first)
    ensures var s' := Accepted(s, p, first);
      && (Acceptable(s', p, item)
          <==> Acceptable(s, p, item) && UnionOf(s, item).Pair() !! UnionOf(s, first).Pair())
      && (Acceptable(s', p, item) ==> UnionOf(s', item) == UnionOf(s, item))
  {
    hide Valid, Held, Move, CanMove, LineageOf, ScopeCurrent, EntityOf, Accepted, Follow, Merges;
    AcceptableIff(s, p, first);
    var s' := Accepted(s, p, first);
    var u := UnionOf(s, first);
    var rev := s.head + 1 + first.gap;
    var f := s.candidates[first.candidate];
    if item.candidate in s.candidates {
      var c := s.candidates[item.candidate];
      EntityAfterMerge(s, s', f.mentionA, f.mentionB, u, rev, c.mentionA);
      EntityAfterMerge(s, s', f.mentionA, f.mentionB, u, rev, c.mentionB);
      if EntityOf(s.memberships, c.mentionA).Some? && EntityOf(s.memberships, c.mentionB).Some? {
        var x, y := EntityOf(s.memberships, c.mentionA).value, EntityOf(s.memberships, c.mentionB).value;
        FollowOne(u, x);
        FollowOne(u, y);
        ArgumentAfter(s, s', f.mentionA, f.mentionB, u, rev, p, x);
        ArgumentAfter(s, s', f.mentionA, f.mentionB, u, rev, p, y);
        ScopeSplits(s.memberships, p, x, y);
        ScopeSplits(s'.memberships, p, Follow([u], x), Follow([u], y));
      }
    }
  }

  lemma ArgumentAfter(s: Tables, s': Tables, a: Id, b: Id, u: Union, rev: nat, p: nat, x: Id)
    requires Valid(s) && Merges(s, s', a, b, u.survivor, u.absorbed, rev) && p < rev
    ensures ScopeCurrent(s'.memberships, p, {Follow([u], x)})
            <==> x !in u.Pair() && ScopeCurrent(s.memberships, p, {x})
  {
    FollowOne(u, x);
    if x in u.Pair() {
      MergeTouches(s, s', a, b, u, rev, p, u.survivor);
    } else {
      MergeLeavesScope(s, s', a, b, u, rev, p, x);
    }
  }

  // -------------------------------------------------------------- the batch

  ghost predicate UnchangedPair(s: Tables, p: nat, u: Union) {
    ScopeCurrent(s.memberships, p, u.Pair())
  }

  /** For a parent revision at or before the head: the accepted merges touch pairwise
      disjoint entity pairs, none of which changed after the parent revision, and the
      result is exactly those merges. */
  lemma {:induction false} BatchOutcome(s: Tables, p: nat, items: seq<Item>)
    requires Valid(s) && p <= s.head
    ensures var (t, us) := Batch(s, p, items);
      && Valid(t) && s.head <= t.head
      && Proper(us)
      && (forall i :: 0 <= i < |us| ==> UnchangedPair(s, p, us[i]))
      && Active(t.memberships) == Redirect(Active(s.memberships), us)
      && LineageOf(t) == Linked(LineageOf(s), us)
      && t.entities == s.entities && t.claims == s.claims
    decreases |items|
  {
    hide Valid, Held, Move, CanMove, LineageOf, Confirmation, Follow, Active, Acceptable, ScopeCurrent;
    if items == [] {
      RedirectNothing(Active(s.memberships));
    } else {
      AcceptableIff(s, p, items[0]);
      if Confirmation(s, p, items[0]).Ok? {
        var s1 := Accepted(s, p, items[0]);
        BatchOutcome(s1, p, items[1..]);
        BatchConsPairs(s, p, items[0], Batch(s1, p, items[1..]).1);
        BatchConsTables(s, p, items[0], Batch(s1, p, items[1..]).1);
      } else {
        BatchOutcome(s, p, items[1..]);
      }
    }
  }

  lemma RedirectNothing(active: set<(Id, Id)>)
    ensures Redirect(active, []) == active
  {
    forall p: (Id, Id) | p in active ensures p in Redirect(active, []) {
      assert p == (p.0, Follow([], p.1));
    }
  }

  lemma RedirectCons(active: set<(Id, Id)>, u: Union, us: seq<Union>)
    ensures Redirect(Redirect(active, [u]), us) == Redirect(active, [u] + us)
  {
    var once := Redirect(active, [u]);
    assert ([u] + us)[1..] == us;
    forall p: (Id, Id) | p in active
      ensures (p.0, Follow(us, Follow([u], p.1))) == (p.0, Follow([u] + us, p.1))
    {
      FollowOne(u, p.1);
    }
    forall q | q in Redirect(active, [u] + us) ensures q in Redirect(once, us) {
      var p: (Id, Id) :| p in active && q == (p.0, Follow([u] + us, p.1));
      assert (p.0, Follow([u], p.1)) in once;
    }
    forall q | q in Redirect(once, us) ensures q in Redirect(active, [u] + us) {
      var o: (Id, Id) :| o in once && q == (o.0, Follow(us, o.1));
      var p: (Id, Id) :| p in active && o == (p.0, Follow([u], p.1));
    }
  }

  lemma UnchangedBefore(s: Tables, p: nat, first: Item, v: Union)
    requires Valid(s) && p <= s.head && Acceptable(s, p, first)
    requires UnchangedPair(Accepted(s, p, first), p, v)
    ensures v.Pair() !! UnionOf(s, first).Pair() && UnchangedPair(s, p, v)
  {
    hide Valid, Held, Move, CanMove, LineageOf, ScopeCurrent, Accepted, Acceptable;
    AcceptableIff(s, p, first);
    var s1 := Accepted(s, p, first);
    var c := s.candidates[first.candidate];
    var u := UnionOf(s, first);
    var rev := s.head + 1 + first.gap;
    ScopeSplits(s1.memberships, p, v.survivor, v.absorbed);
    ScopeSplits(s.memberships, p, v.survivor, v.absorbed);
    forall e | e in v.Pair() ensures e !in u.Pair() && ScopeCurrent(s.memberships, p, {e}) {
      if e in u.Pair() {
        MergeTouches(s, s1, c.mentionA, c.mentionB, u, rev, p, e);
      } else {
        MergeLeavesScope(s, s1, c.mentionA, c.mentionB, u, rev, p, e);
      }
    }
  }

  lemma BatchConsPairs(s: Tables, p: nat, first: Item, us: seq<Union>)
    requires Valid(s) && p <= s.head && Acceptable(s, p, first)
    requires Proper(us)
    requires forall i :: 0 <= i < |us| ==> UnchangedPair(Accepted(s, p, first), p, us[i])
    ensures Proper([UnionOf(s, first)] + us)
    ensures forall i :: 0 <= i < |us| + 1 ==> UnchangedPair(s, p, ([UnionOf(s, first)] + us)[i])
  {
    hide Valid, LineageOf, ScopeCurrent, Accepted, Acceptable, UnionOf, UnchangedPair, PairwiseDisjoint;
    var u := UnionOf(s, first);
    forall i | 0 <= i < |us| ensures u.Pair() !! us[i].Pair() && UnchangedPair(s, p, us[i]) {
      UnchangedBefore(s, p, first, us[i]);
    }
    AcceptedUnchanged(s, p, first);
    ProperCons(u, us);
  }

  lemma BatchConsTables(s: Tables, p: nat, first: Item, us: seq<Union>)
    requires Valid(s) && p <= s.head && Acceptable(s, p, first)
    ensures var s1 := Accepted(s, p, first);
      var u := UnionOf(s, first);
      && Redirect(Active(s1.memberships), us) == Redirect(Active(s.memberships), [u] + us)
      && Linked(LineageOf(s1), us) == Linked(LineageOf(s), [u] + us)
      && s1.head > s.head && s1.entities == s.entities && s1.claims == s.claims
  {
    hide Valid, Held, Move, CanMove, LineageOf, ScopeCurrent, Accepted, Redirect, Follow, Active, UnionOf, EntityOf;
    AcceptableIff(s, p, first);
    var s1 := Accepted(s, p, first);
    var c := s.candidates[first.candidate];
    var u := UnionOf(s, first);
    MergeRedirects(s, s1, c.mentionA, c.mentionB, u, s.head + 1 + first.gap);
    RedirectCons(Active(s.memberships), u, us);
    assert ([u] + us)[1..] == us;
  }

  lemma AcceptedUnchanged(s: Tables, p: nat, item: Item)
    requires Acceptable(s, p, item)
    ensures UnchangedPair(s, p, UnionOf(s, item)) && UnionOf(s, item).survivor != UnionOf(s, item).absorbed
  {
  }

  lemma ProperCons(u: Union, us: seq<Union>)
    requires Proper(us) && u.survivor != u.absorbed
    requires forall i :: 0 <= i < |us| ==> u.Pair() !! us[i].Pair()
    ensures Proper([u] + us)
  {
    forall i, j | 0 <= i < j < |[u] + us| ensures ([u] + us)[i].Pair() !! ([u] + us)[j].Pair() {
      if i > 0 {
        assert us[i - 1].Pair() !! us[j - 1].Pair();
      }
    }
  }
}
