/** The outcome of a batch depends on which pairs it accepted, not on their order, and any
    one of its merges can be undone without unpicking the others. */
module LedgerBatchOrder {
  import opened Common
  import opened Lists
  import opened Lineage
  import opened Store
  import opened LedgerInvariant
  import opened LedgerSteps
  import opened LedgerReversal
  import opened LedgerBatch

  /** The items a batch accepts, in its order. */
  ghost function AcceptedItems(s: Tables, p: nat, items: seq<Item>): seq<Item>
    decreases |items|
  {
    if items == [] then []
    else if Confirmation(s, p, items[0]).Ok?
    then [items[0]] + AcceptedItems(Accepted(s, p, items[0]), p, items[1..])
    else AcceptedItems(s, p, items[1..])
  }

  ghost function Unions(s: Tables, items: seq<Item>): seq<Union> {
    seq(|items|, i requires 0 <= i < |items| => UnionOf(s, items[i]))
  }

  /** Each item is acceptable on its own, and no two involve a common entity. */
  ghost predicate Compatible(s: Tables, p: nat, items: seq<Item>) {
    && (forall i :: 0 <= i < |items| ==> Acceptable(s, p, items[i]))
    && PairwiseDisjoint(Unions(s, items))
  }

  /** Refused pairs leave no trace: the batch is the batch of its accepted items alone. */
  lemma {:induction false} RefusedLeaveNoTrace(s: Tables, p: nat, items: seq<Item>)
    ensures Batch(s, p, AcceptedItems(s, p, items)) == Batch(s, p, items)
    ensures |Batch(s, p, items).1| == |AcceptedItems(s, p, items)|
    decreases |items|
  {
    if items == [] {
    } else {
      if Confirmation(s, p, items[0]).Ok? {
        var rest := AcceptedItems(Accepted(s, p, items[0]), p, items[1..]);
        RefusedLeaveNoTrace(Accepted(s, p, items[0]), p, items[1..]);
        assert ([items[0]] + rest)[1..] == rest;
      } else {
        RefusedLeaveNoTrace(s, p, items[1..]);
      }
    }
  }

  lemma CompatibleCons(s: Tables, p: nat, items: seq<Item>)
    requires Valid(s) && p <= s.head && items != [] && Acceptable(s, p, items[0])
    ensures Compatible(Accepted(s, p, items[0]), p, items[1..]) <==> Compatible(s, p, items)
    ensures Compatible(s, p, items) ==>
      Unions(Accepted(s, p, items[0]), items[1..]) == Unions(s, items)[1..]
  {
    hide Valid, Acceptable, Accepted, UnionOf;
    var s1 := Accepted(s, p, items[0]);
    var rest := items[1..];
    forall i | 0 <= i < |rest|
      ensures Acceptable(s1, p, rest[i])
              <==> Acceptable(s, p, items[i + 1])
                   && UnionOf(s, items[i + 1]).Pair() !! UnionOf(s, items[0]).Pair()
      ensures Acceptable(s1, p, rest[i]) ==> UnionOf(s1, rest[i]) == UnionOf(s, items[i + 1])
    {
      AcceptableAfter(s, p, items[0], items[i + 1]);
    }
    if Compatible(s1, p, rest) {
      CompatibleBack(s, p, items, s1);
    }
    if Compatible(s, p, items) {
      CompatibleOn(s, p, items, s1);
    }
  }

  lemma CompatibleBack(s: Tables, p: nat, items: seq<Item>, s1: Tables)
    requires items != [] && Acceptable(s, p, items[0]) && Compatible(s1, p, items[1..])
    requires forall i :: 0 <= i < |items[1..]| ==>
      Acceptable(s, p, items[i + 1])
      && UnionOf(s, items[i + 1]).Pair() !! UnionOf(s, items[0]).Pair()
      && UnionOf(s1, items[1..][i]) == UnionOf(s, items[i + 1])
    ensures Compatible(s, p, items)
  {
    hide Acceptable, UnionOf;
    forall i | 0 <= i < |items| ensures Acceptable(s, p, items[i]) {
      if i > 0 { assert Acceptable(s, p, items[(i - 1) + 1]); }
    }
    forall i, j | 0 <= i < j < |items| ensures Unions(s, items)[i].Pair() !! Unions(s, items)[j].Pair() {
      assert UnionOf(s, items[(j - 1) + 1]).Pair() !! UnionOf(s, items[0]).Pair();
      if i > 0 {
        assert Unions(s1, items[1..])[i - 1].Pair() !! Unions(s1, items[1..])[j - 1].Pair();
        assert UnionOf(s1, items[1..][i - 1]) == UnionOf(s, items[(i - 1) + 1]);
        assert UnionOf(s1, items[1..][j - 1]) == UnionOf(s, items[(j - 1) + 1]);
      }
    }
  }

  lemma CompatibleOn(s: Tables, p: nat, items: seq<Item>, s1: Tables)
    requires items != [] && Compatible(s, p, items)
    requires forall i :: 0 <= i < |items[1..]| ==>
      (UnionOf(s, items[i + 1]).Pair() !! UnionOf(s, items[0]).Pair() ==>
         Acceptable(s1, p, items[1..][i]) && UnionOf(s1, items[1..][i]) == UnionOf(s, items[i + 1]))
    ensures Compatible(s1, p, items[1..])
    ensures Unions(s1, items[1..]) == Unions(s, items)[1..]
  {
    hide Acceptable, UnionOf;
    forall i | 0 <= i < |items[1..]|
      ensures Acceptable(s1, p, items[1..][i]) && UnionOf(s1, items[1..][i]) == UnionOf(s, items[i + 1])
    {
      assert Unions(s, items)[0].Pair() !! Unions(s, items)[i + 1].Pair();
    }
    assert Unions(s1, items[1..]) == Unions(s, items)[1..];
    forall i, j | 0 <= i < j < |items[1..]|
      ensures Unions(s1, items[1..])[i].Pair() !! Unions(s1, items[1..])[j].Pair()
    {
      assert Unions(s, items)[i + 1].Pair() !! Unions(s, items)[j + 1].Pair();
    }
  }

  lemma {:induction false} BatchShrinks(s: Tables, p: nat, items: seq<Item>)
    ensures |Batch(s, p, items).1| <= |items|
    decreases |items|
  {
    if items == [] {
    } else {
      BatchShrinks(s, p, items[1..]);
      BatchShrinks(Accepted(s, p, items[0]), p, items[1..]);
    }
  }

  /** A whole list is accepted exactly when its items are acceptable and pairwise apart in
      the store the batch starts from; the merges are then the ones visible there. */
  lemma {:induction false} AllAcceptedIff(s: Tables, p: nat, items: seq<Item>)
    requires Valid(s) && p <= s.head
    ensures |Batch(s, p, items).1| == |items| <==> Compatible(s, p, items)
    ensures Compatible(s, p, items) ==> Batch(s, p, items).1 == Unions(s, items)
    decreases |items|
  {
    hide Valid, Acceptable, Confirmation, UnionOf;
    if items == [] {
    } else {
      AcceptableIff(s, p, items[0]);
      BatchShrinks(s, p, items[1..]);
      if Acceptable(s, p, items[0]) {
        AcceptedLater(s, p, items[0]);
        AllAcceptedIff(Accepted(s, p, items[0]), p, items[1..]);
        CompatibleCons(s, p, items);
        assert Compatible(s, p, items) ==> Unions(s, items) == [UnionOf(s, items[0])] + Unions(s, items)[1..];
      }
    }
  }

  lemma AcceptedLater(s: Tables, p: nat, item: Item)
    requires Valid(s) && Acceptable(s, p, item)
    ensures Valid(Accepted(s, p, item)) && s.head < Accepted(s, p, item).head
  {
    hide Valid, Acceptable, Accepted;
    AcceptableIff(s, p, item);
  }

  // -------------------------------------------------------------------- order

  lemma FollowSame(us: seq<Union>, vs: seq<Union>, e: Id)
    requires Proper(us) && Proper(vs) && forall u :: u in us <==> u in vs
    ensures Follow(us, e) == Follow(vs, e)
  {
    if i :| 0 <= i < |us| && us[i].absorbed == e {
      assert us[i] in vs;
      var j :| 0 <= j < |vs| && vs[j] == us[i];
      FollowOnce(us, i);
      FollowOnce(vs, j);
    } else {
      forall j | 0 <= j < |vs| ensures vs[j].absorbed != e {
        assert vs[j] in us;
      }
      FollowStays(us, e);
      FollowStays(vs, e);
    }
  }

  lemma CompatiblePermutes(s: Tables, p: nat, items: seq<Item>, order: seq<Item>)
    requires Compatible(s, p, items) && multiset(order) == multiset(items)
    ensures Compatible(s, p, order)
  {
    hide Acceptable, UnionOf;
    SameElements(order, items);
    forall i | 0 <= i < |order| ensures Acceptable(s, p, order[i]) {
      assert order[i] in items;
    }
    forall i, j | 0 <= i < j < |order|
      ensures Unions(s, order)[i].Pair() !! Unions(s, order)[j].Pair()
    {
      var k, l := TwoPlaces(items, order, i, j);
      assert Unions(s, items)[k].Pair() !! Unions(s, items)[l].Pair();
    }
  }

  lemma UnionsSameElements(s: Tables, items: seq<Item>, order: seq<Item>)
    requires multiset(order) == multiset(items)
    ensures forall u :: u in Unions(s, items) <==> u in Unions(s, order)
  {
    hide UnionOf;
    SameElements(order, items);
    forall u | u in Unions(s, items) ensures u in Unions(s, order) {
      var i :| 0 <= i < |items| && u == Unions(s, items)[i];
      assert items[i] in order;
      var j :| 0 <= j < |order| && order[j] == items[i];
      assert Unions(s, order)[j] == u;
    }
    forall u | u in Unions(s, order) ensures u in Unions(s, items) {
      var i :| 0 <= i < |order| && u == Unions(s, order)[i];
      assert order[i] in items;
      var j :| 0 <= j < |items| && items[j] == order[i];
      assert Unions(s, items)[j] == u;
    }
  }

  lemma AcceptedItemsCompatible(s: Tables, p: nat, items: seq<Item>)
    requires Valid(s) && p <= s.head
    ensures Compatible(s, p, AcceptedItems(s, p, items))
  {
    hide Valid, Compatible;
    RefusedLeaveNoTrace(s, p, items);
    AllAcceptedIff(s, p, AcceptedItems(s, p, items));
  }

  predicate Absorbs(us: seq<Union>, k: Id, i: int) { 0 <= i < |us| && us[i].absorbed == k }

  /** The links a list of merges adds. */
  lemma {:induction false} LinkedAt(parent: Parent, us: seq<Union>, k: Id)
    requires PairwiseDisjoint(us)
    ensures k in Linked(parent, us) <==> k in parent || exists i :: Absorbs(us, k, i)
    ensures forall i :: Absorbs(us, k, i) ==> Linked(parent, us)[k] == us[i].survivor
    ensures k in parent && (forall i :: !Absorbs(us, k, i)) ==> Linked(parent, us)[k] == parent[k]
    decreases |us|
  {
    if us == [] {
    } else {
      var first, rest := us[0], us[1..];
      forall i, j | 0 <= i < j < |rest| ensures rest[i].Pair() !! rest[j].Pair() {
        assert us[i + 1].Pair() !! us[j + 1].Pair();
      }
      LinkedAt(parent[first.absorbed := first.survivor], rest, k);
      forall i | 0 < i < |us| ensures Absorbs(us, k, i) <==> Absorbs(rest, k, i - 1) {}
      assert forall i :: 0 < i < |us| ==> us[0].Pair() !! us[i].Pair();
      assert forall i :: Absorbs(rest, k, i) ==> Absorbs(us, k, i + 1);
      assert k == first.absorbed ==> Absorbs(us, k, 0);
    }
  }

  lemma SameAbsorber(us: seq<Union>, vs: seq<Union>, k: Id)
    requires forall u :: u in us ==> u in vs
    ensures forall i :: Absorbs(us, k, i) ==> exists j :: Absorbs(vs, k, j) && vs[j] == us[i]
  {
    forall i | Absorbs(us, k, i) ensures exists j :: Absorbs(vs, k, j) && vs[j] == us[i] {
      assert us[i] in vs;
      var j :| 0 <= j < |vs| && vs[j] == us[i];
      assert Absorbs(vs, k, j);
    }
  }

  lemma LinkedSame(parent: Parent, us: seq<Union>, vs: seq<Union>)
    requires PairwiseDisjoint(us) && PairwiseDisjoint(vs) && forall u :: u in us <==> u in vs
    ensures Linked(parent, us) == Linked(parent, vs)
  {
    hide Linked;
    forall k
      ensures k in Linked(parent, us) <==> k in Linked(parent, vs)
      ensures k in Linked(parent, us) ==> Linked(parent, us)[k] == Linked(parent, vs)[k]
    {
      LinkedAt(parent, us, k);
      LinkedAt(parent, vs, k);
      SameAbsorber(us, vs, k);
      SameAbsorber(vs, us, k);
    }
  }

  lemma RedirectSame(active: set<(Id, Id)>, us: seq<Union>, vs: seq<Union>)
    requires Proper(us) && Proper(vs) && forall u :: u in us <==> u in vs
    ensures Redirect(active, us) == Redirect(active, vs)
  {
    hide Follow, Proper;
    forall e ensures Follow(us, e) == Follow(vs, e) { FollowSame(us, vs, e); }
    forall q | q in Redirect(active, us) ensures q in Redirect(active, vs) {
      var x: (Id, Id) :| x in active && q == (x.0, Follow(us, x.1));
      assert q == (x.0, Follow(vs, x.1));
    }
    forall q | q in Redirect(active, vs) ensures q in Redirect(active, us) {
      var x: (Id, Id) :| x in active && q == (x.0, Follow(vs, x.1));
      assert q == (x.0, Follow(us, x.1));
    }
  }

  /** The accepted pairs, confirmed on their own and in any order, are all accepted again
      and leave every identity answer the same: memberships, lineage, resolutions. */
  lemma BatchOrderIrrelevant(s: Tables, p: nat, items: seq<Item>, order: seq<Item>)
    requires Valid(s) && p <= s.head
    requires multiset(order) == multiset(AcceptedItems(s, p, items))
    ensures |Batch(s, p, order).1| == |order|
    ensures SameIdentity(Batch(s, p, order).0, Batch(s, p, items).0)
  {
    hide Valid, Compatible, Active, Batch, Redirect, AcceptedItems, Unions, LineageOf, Linked, UnchangedPair,
      ResolveArgument, Lookup, PairwiseDisjoint;
    var chosen := AcceptedItems(s, p, items);
    AcceptedItemsCompatible(s, p, items);
    RefusedLeaveNoTrace(s, p, items);
    CompatiblePermutes(s, p, chosen, order);
    AllAcceptedIff(s, p, chosen);
    AllAcceptedIff(s, p, order);
    BatchOutcome(s, p, chosen);
    BatchOutcome(s, p, order);
    UnionsSameElements(s, chosen, order);
    var us, vs := Unions(s, chosen), Unions(s, order);
    RedirectSame(Active(s.memberships), us, vs);
    LinkedSame(LineageOf(s), us, vs);
    SameLookups(Batch(s, p, order).0, Batch(s, p, items).0);
  }

  // ---------------------------------------------------------- undoing one merge

  ghost function Without<T>(xs: seq<T>, i: nat): seq<T>
    requires i < |xs|
  {
    xs[..i] + xs[i + 1..]
  }

  lemma WithoutProper(us: seq<Union>, i: nat)
    requires Proper(us) && i < |us|
    ensures Proper(Without(us, i))
  {
    var vs := Without(us, i);
    forall j, k | 0 <= j < k < |vs| ensures vs[j].Pair() !! vs[k].Pair() {
      var j', k' := if j < i then j else j + 1, if k < i then k else k + 1;
      assert us[j'].Pair() !! us[k'].Pair();
    }
  }

  /** Dropping one merge changes only where its absorbed entity is sent. */
  lemma FollowWithout(us: seq<Union>, i: nat, e: Id)
    requires Proper(us) && i < |us|
    ensures Follow(Without(us, i), e) == if e == us[i].absorbed then e else Follow(us, e)
  {
    var vs := Without(us, i);
    WithoutProper(us, i);
    if j :| 0 <= j < |us| && us[j].absorbed == e {
      FollowOnce(us, j);
      if j == i {
        forall k | 0 <= k < |vs| ensures vs[k].absorbed != e {
          var k' := if k < i then k else k + 1;
          assert k' < i ==> us[k'].Pair() !! us[i].Pair();
          assert i < k' ==> us[i].Pair() !! us[k'].Pair();
        }
        FollowStays(vs, e);
      } else {
        var j' := if j < i then j else j - 1;
        assert j < i ==> us[j].Pair() !! us[i].Pair();
        assert i < j ==> us[i].Pair() !! us[j].Pair();
        assert vs[j'] == us[j];
        FollowOnce(vs, j');
      }
    } else {
      FollowStays(us, e);
      forall k | 0 <= k < |vs| ensures vs[k].absorbed != e {
        var k' := if k < i then k else k + 1;
        assert vs[k] == us[k'];
      }
      FollowStays(vs, e);
    }
  }

  lemma AbsorbsWithout(us: seq<Union>, i: nat, k: Id)
    requires Proper(us) && i < |us|
    ensures forall j | Absorbs(us, k, j) && j != i ::
      k != us[i].absorbed && Absorbs(Without(us, i), k, if j < i then j else j - 1)
    ensures forall j | Absorbs(Without(us, i), k, j) :: Absorbs(us, k, if j < i then j else j + 1)
  {
    var vs := Without(us, i);
    forall j | Absorbs(us, k, j) && j != i
      ensures k != us[i].absorbed && Absorbs(vs, k, if j < i then j else j - 1)
    {
      assert j < i ==> us[j].Pair() !! us[i].Pair();
      assert i < j ==> us[i].Pair() !! us[j].Pair();
    }
    forall j | Absorbs(vs, k, j) ensures Absorbs(us, k, if j < i then j else j + 1) {}
  }

  lemma LinkedWithoutAt(parent: Parent, us: seq<Union>, i: nat, k: Id)
    requires Proper(us) && i < |us| && us[i].absorbed !in parent
    ensures var vs := Without(us, i);
      && (k in Linked(parent, vs) <==> k in Linked(parent, us) && k != us[i].absorbed)
      && (k in Linked(parent, vs) ==> Linked(parent, vs)[k] == Linked(parent, us)[k])
  {
    hide Linked, PairwiseDisjoint;
    var vs := Without(us, i);
    WithoutProper(us, i);
    LinkedAt(parent, us, k);
    LinkedAt(parent, vs, k);
    AbsorbsWithout(us, i, k);
    assert k == us[i].absorbed <==> Absorbs(us, k, i);
  }

  /** Dropping one merge drops its link. */
  lemma LinkedWithout(parent: Parent, us: seq<Union>, i: nat)
    requires Proper(us) && i < |us| && us[i].absorbed !in parent
    ensures Linked(parent, us) - {us[i].absorbed} == Linked(parent, Without(us, i))
  {
    hide Linked, Proper, Without;
    forall k
      ensures k in Linked(parent, Without(us, i)) <==> k in Linked(parent, us) && k != us[i].absorbed
      ensures k in Linked(parent, Without(us, i)) ==> Linked(parent, Without(us, i))[k] == Linked(parent, us)[k]
    {
      LinkedWithoutAt(parent, us, i, k);
    }
  }

  /** A batch without one of its accepted items makes the other merges, all of them. */
  lemma BatchWithout(s: Tables, p: nat, items: seq<Item>, i: nat)
    requires Valid(s) && p <= s.head && i < |AcceptedItems(s, p, items)| && i < |Batch(s, p, items).1|
    ensures Batch(s, p, Without(AcceptedItems(s, p, items), i)).1 == Without(Batch(s, p, items).1, i)
  {
    hide Valid, Acceptable, UnionOf, AcceptedItems, Batch;
    var chosen := AcceptedItems(s, p, items);
    var fewer := Without(chosen, i);
    AcceptedItemsCompatible(s, p, items);
    RefusedLeaveNoTrace(s, p, items);
    AllAcceptedIff(s, p, chosen);
    forall j, k | 0 <= j < k < |fewer| ensures Unions(s, fewer)[j].Pair() !! Unions(s, fewer)[k].Pair() {
      var j', k' := if j < i then j else j + 1, if k < i then k else k + 1;
      assert Unions(s, chosen)[j'].Pair() !! Unions(s, chosen)[k'].Pair();
    }
    AllAcceptedIff(s, p, fewer);
    assert Unions(s, fewer) == Without(Unions(s, chosen), i);
  }

  /** Splitting one merge of a batch back out leaves every identity answer as the batch
      would have left it without that item. */
  lemma BatchReversal(s: Tables, p: nat, items: seq<Item>, i: nat, parentRevision: nat, newId: Id, rev: nat)
    requires Valid(s) && p <= s.head && i < |AcceptedItems(s, p, items)| && i < |Batch(s, p, items).1|
    requires Batch(s, p, items).0.head <= parentRevision && Batch(s, p, items).0.head < rev
    ensures var (t, us) := Batch(s, p, items);
      var undone := SplitEntity(t, parentRevision, us[i].survivor, Held(s.memberships, us[i].absorbed),
                                Some(us[i].absorbed), newId, rev);
      && undone.Ok? && Valid(undone.value.tables)
      && SameIdentity(undone.value.tables, Batch(s, p, Without(AcceptedItems(s, p, items), i)).0)
  {
    hide Valid, Active, Held, Move, Batch, LineageOf, Linked, SplitEntity, ScopeCurrent, Redirect, AcceptedItems,
      PairwiseDisjoint, ResolveArgument, Lookup, UnchangedPair;
    var (t, us) := Batch(s, p, items);
    BatchOutcome(s, p, items);
    var u := us[i];
    var moved := Held(s.memberships, u.absorbed);
    BatchHolders(s, t, us, i);
    UnionEntities(s, p, items, i);
    ValidParts(s);
    HeldApart(s.memberships, u.survivor, u.absorbed);
    var stays :| stays in Held(s.memberships, u.survivor);
    assert stays in Held(t.memberships, u.survivor) && stays !in moved;
    ValidParts(t);
    ScopeAtHead(t, parentRevision, {u.survivor});
    SplitAcceptedIff(t, parentRevision, u.survivor, moved, Some(u.absorbed), newId, rev);
    SplitValid(t, parentRevision, u.survivor, moved, Some(u.absorbed), newId, rev);
    UndoneActive(s, t, us, i, rev);
    HolderIsRoot(s, u.absorbed);
    LinkedWithout(LineageOf(s), us, i);
    BatchWithout(s, p, items, i);
    BatchOutcome(s, p, Without(AcceptedItems(s, p, items), i));
    assert t.entities + {u.absorbed} == t.entities;
    SameLookups(SplitEntity(t, parentRevision, u.survivor, moved, Some(u.absorbed), newId, rev).value.tables,
                Batch(s, p, Without(AcceptedItems(s, p, items), i)).0);
  }

  /** The unions of a batch are between entities that hold mentions when it starts. */
  lemma UnionEntities(s: Tables, p: nat, items: seq<Item>, i: nat)
    requires Valid(s) && p <= s.head && i < |Batch(s, p, items).1|
    ensures var u := Batch(s, p, items).1[i];
      && Held(s.memberships, u.survivor) != {} && Held(s.memberships, u.absorbed) != {}
      && u.absorbed in s.entities
  {
    hide Valid, Held, LineageOf, ScopeCurrent, Accepted, Confirmation, Batch, Merges;
    var chosen := AcceptedItems(s, p, items);
    AcceptedItemsCompatible(s, p, items);
    RefusedLeaveNoTrace(s, p, items);
    AllAcceptedIff(s, p, chosen);
    assert Batch(s, p, items).1 == Unions(s, chosen);
    assert Acceptable(s, p, chosen[i]);
    var c := s.candidates[chosen[i].candidate];
    var u := UnionOf(s, chosen[i]);
    ValidParts(s);
    EntityOfRow(s.memberships, c.mentionA, u.survivor);
    EntityOfRow(s.memberships, c.mentionB, u.absorbed);
    HolderInStore(s, u.absorbed);
  }

  lemma InRedirect(active: set<(Id, Id)>, us: seq<Union>, m: Id, e: Id)
    ensures (m, e) in Redirect(active, us) <==> exists e0 :: (m, e0) in active && Follow(us, e0) == e
  {
    if (m, e) in Redirect(active, us) {
      var p: (Id, Id) :| p in active && (m, e) == (p.0, Follow(us, p.1));
      assert (m, p.1) in active && Follow(us, p.1) == e;
    }
    if e0 :| (m, e0) in active && Follow(us, e0) == e {
      assert (m, e) == ((m, e0).0, Follow(us, (m, e0).1));
    }
  }

  /** What the merged entity holds after a batch includes what its absorbed side held, and
      its own mentions besides. */
  lemma BatchHolders(s: Tables, t: Tables, us: seq<Union>, i: nat)
    requires Proper(us) && i < |us|
    requires Active(t.memberships) == Redirect(Active(s.memberships), us)
    ensures Held(s.memberships, us[i].absorbed) <= Held(t.memberships, us[i].survivor)
    ensures Held(s.memberships, us[i].survivor) <= Held(t.memberships, us[i].survivor)
  {
    hide Held, Active, Redirect;
    var u := us[i];
    FollowOnce(us, i);
    forall j | 0 <= j < |us| ensures us[j].absorbed != u.survivor {
      assert j < i ==> us[j].Pair() !! u.Pair();
      assert i < j ==> u.Pair() !! us[j].Pair();
    }
    FollowStays(us, u.survivor);
    forall m | m in Held(s.memberships, u.absorbed) ensures m in Held(t.memberships, u.survivor) {
      HeldInActive(s.memberships, m, u.absorbed);
      InRedirect(Active(s.memberships), us, m, u.survivor);
      HeldInActive(t.memberships, m, u.survivor);
    }
    forall m | m in Held(s.memberships, u.survivor) ensures m in Held(t.memberships, u.survivor) {
      HeldInActive(s.memberships, m, u.survivor);
      InRedirect(Active(s.memberships), us, m, u.survivor);
      HeldInActive(t.memberships, m, u.survivor);
    }
  }

  lemma UndoneActive(s: Tables, t: Tables, us: seq<Union>, i: nat, rev: nat)
    requires Valid(s) && Valid(t) && Proper(us) && i < |us| && t.head < rev
    requires Active(t.memberships) == Redirect(Active(s.memberships), us)
    requires var moved := Held(s.memberships, us[i].absorbed);
      moved != {} && moved <= Held(t.memberships, us[i].survivor)
    ensures var moved := Held(s.memberships, us[i].absorbed);
      Active(Move(t.memberships, moved, us[i].absorbed, rev)) == Redirect(Active(s.memberships), Without(us, i))
  {
    hide Valid, Held, Active, Move, Redirect;
    var u := us[i];
    var moved := Held(s.memberships, u.absorbed);
    var ms2 := Move(t.memberships, moved, u.absorbed, rev);
    CanMoveNow(t, moved, u.survivor, u.absorbed, rev);
    forall m, e ensures (m, e) in Active(ms2) <==> (m, e) in Redirect(Active(s.memberships), Without(us, i)) {
      UndonePair(s, t, us, i, rev, m, e);
    }
    forall q: (Id, Id) ensures q in Active(ms2) <==> q in Redirect(Active(s.memberships), Without(us, i)) {
      assert q == (q.0, q.1);
    }
  }

  lemma UndonePair(s: Tables, t: Tables, us: seq<Union>, i: nat, rev: nat, m: Id, e: Id)
    requires Valid(s) && Valid(t) && Proper(us) && i < |us|
    requires Active(t.memberships) == Redirect(Active(s.memberships), us)
    requires CanMove(t.memberships, Held(s.memberships, us[i].absorbed), us[i].survivor, us[i].absorbed, rev)
    ensures (m, e) in Active(Move(t.memberships, Held(s.memberships, us[i].absorbed), us[i].absorbed, rev))
            <==> (m, e) in Redirect(Active(s.memberships), Without(us, i))
  {
    hide Valid, Held, Active, Move, Redirect, CanMove, Follow;
    var u := us[i];
    var moved := Held(s.memberships, u.absorbed);
    var ms2 := Move(t.memberships, moved, u.absorbed, rev);
    ValidParts(s);
    HeldInActive(ms2, m, e);
    HeldInActive(t.memberships, m, e);
    HeldInActive(t.memberships, m, u.absorbed);
    MoveHeld(t.memberships, moved, u.survivor, u.absorbed, rev, e);
    InRedirect(Active(s.memberships), us, m, e);
    InRedirect(Active(s.memberships), Without(us, i), m, e);
    FollowOnce(us, i);
    forall e0
      ensures Follow(Without(us, i), e0) == (if e0 == u.absorbed then e0 else Follow(us, e0))
      ensures (m, e0) in Active(s.memberships) <==> m in Held(s.memberships, e0)
      ensures e0 != u.absorbed ==> Held(s.memberships, e0) !! moved
      ensures Follow(us, e0) != u.absorbed
    {
      FollowWithout(us, i, e0);
      HeldInActive(s.memberships, m, e0);
      if e0 != u.absorbed {
        HeldApart(s.memberships, e0, u.absorbed);
      }
      FollowAvoids(us, i, e0);
    }
  }

  /** Nothing is ever redirected onto an absorbed entity. */
  lemma FollowAvoids(us: seq<Union>, i: nat, e: Id)
    requires Proper(us) && i < |us|
    ensures Follow(us, e) != us[i].absorbed
  {
    if j :| 0 <= j < |us| && us[j].absorbed == e {
      FollowOnce(us, j);
      assert j < i ==> us[j].Pair() !! us[i].Pair();
      assert i < j ==> us[i].Pair() !! us[j].Pair();
    } else {
      FollowStays(us, e);
    }
  }
}
