/** Merge lineage `loser -> winner` and the chain walk that resolves an entity
    through it (aegis/er/canonical.py). */
module Lineage {
  import opened Common

  type Parent = map<Id, Id>

  /** The chain walk from `current`, refusing as soon as an id repeats. */
  function Walk(parent: Parent, current: Id, seen: set<Id>): Option<Id>
    decreases parent.Values - seen
  {
    if current !in parent then Some(current)
    else if parent[current] in seen then None
    else Walk(parent, parent[current], seen + {parent[current]})
  }

  function Resolve(parent: Parent, e: Id): Option<Id> {
    Walk(parent, e, {e})
  }

  method ResolveChain(parent: Parent, e: Id) returns (r: Option<Id>)
    ensures r == Resolve(parent, e)
  {
    var seen := [e];
    var current := e;
    assert (set x | x in seen) == {e};
    while current in parent
      invariant Walk(parent, current, set x | x in seen) == Walk(parent, e, {e})
      decreases parent.Values - set x | x in seen
    {
      var next := parent[current];
      if next in seen {
        return None;
      }
      assert (set x | x in seen + [next]) == (set x | x in seen) + {next};
      current := next;
      seen := seen + [next];
    }
    return Some(current);
  }

  // ---------------------------------------------------------------- refusal

  /** From `e` the chain leaves the lineage after exactly `n` links. */
  ghost predicate Leaves(parent: Parent, e: Id, n: nat)
    decreases n
  {
    if n == 0 then e !in parent else e in parent && Leaves(parent, parent[e], n - 1)
  }

  ghost predicate LeavesEventually(parent: Parent, e: Id) {
    exists n: nat :: Leaves(parent, e, n)
  }

  /** From `e` the chain leaves, but only after more than `n` links. */
  ghost predicate LeavesAfter(parent: Parent, e: Id, n: int) {
    exists k: nat :: k > n && Leaves(parent, e, k)
  }

  lemma {:induction false} LeavesOnce(parent: Parent, e: Id, n: nat, k: nat)
    requires Leaves(parent, e, n) && Leaves(parent, e, k)
    ensures n == k
    decreases n
  {
    if n == 0 || k == 0 {
    } else {
      LeavesOnce(parent, parent[e], n - 1, k - 1);
    }
  }

  lemma {:induction false} WalkFollows(parent: Parent, e: Id, n: nat, seen: set<Id>)
    requires Leaves(parent, e, n)
    requires forall x :: x in seen && x != e ==> LeavesAfter(parent, x, n)
    ensures Walk(parent, e, seen).Some? && Walk(parent, e, seen).value !in parent
    decreases n
  {
    if n == 0 {
    } else {
      var next := parent[e];
      if next in seen {
        if next == e {
          LeavesOnce(parent, e, n, n - 1);
        } else {
          var k: nat :| k > n && Leaves(parent, next, k);
          LeavesOnce(parent, next, n - 1, k);
        }
        assert false;
      }
      forall x | x in seen + {next} && x != next
        ensures LeavesAfter(parent, x, n - 1)
      {
        if x == e {
          assert Leaves(parent, x, n);
        } else {
          assert LeavesAfter(parent, x, n);
        }
      }
      WalkFollows(parent, next, n - 1, seen + {next});
    }
  }

  lemma {:induction false} WalkEnds(parent: Parent, e: Id, seen: set<Id>) returns (n: nat)
    requires Walk(parent, e, seen).Some?
    ensures Leaves(parent, e, n)
    decreases parent.Values - seen
  {
    if e !in parent {
      n := 0;
    } else {
      var k := WalkEnds(parent, parent[e], seen + {parent[e]});
      n := k + 1;
    }
  }

  /** The walk refuses an entity exactly when its chain never leaves the lineage. */
  lemma RefusesExactlyCycles(parent: Parent, e: Id)
    ensures Resolve(parent, e).None? <==> !LeavesEventually(parent, e)
    ensures Resolve(parent, e).Some? ==> Resolve(parent, e).value !in parent
  {
    if LeavesEventually(parent, e) {
      var n: nat :| Leaves(parent, e, n);
      WalkFollows(parent, e, n, {e});
    }
    if Resolve(parent, e).Some? {
      var n: nat := WalkEnds(parent, e, {e});
      assert Leaves(parent, e, n);
      WalkFollows(parent, e, n, {e});
    }
  }

  // ------------------------------------------------------------------ forest

  /** `rank` strictly falls along every link: a certificate that there is no cycle. */
  ghost predicate Ranked(parent: Parent, rank: Id -> nat) {
    forall e :: e in parent ==> rank(parent[e]) < rank(e)
  }

  ghost predicate Forest(parent: Parent) {
    exists rank: Id -> nat :: Ranked(parent, rank)
  }

  lemma {:induction false} RankedLeaves(parent: Parent, rank: Id -> nat, e: Id) returns (n: nat)
    requires Ranked(parent, rank)
    ensures Leaves(parent, e, n)
    decreases rank(e)
  {
    if e !in parent {
      n := 0;
    } else {
      var k := RankedLeaves(parent, rank, parent[e]);
      n := k + 1;
    }
  }

  ghost function StepsOut(parent: Parent, e: Id): nat {
    if LeavesEventually(parent, e) then var n: nat :| Leaves(parent, e, n); n else 0
  }

  /** A lineage is a forest exactly when the walk resolves every entity. */
  lemma ForestIffResolves(parent: Parent)
    ensures Forest(parent) <==> forall e :: Resolve(parent, e).Some?
  {
    if Forest(parent) {
      var rank: Id -> nat :| Ranked(parent, rank);
      forall e ensures Resolve(parent, e).Some? {
        var n := RankedLeaves(parent, rank, e);
        assert Leaves(parent, e, n);
        RefusesExactlyCycles(parent, e);
      }
    }
    if forall e :: Resolve(parent, e).Some? {
      var rank := e => StepsOut(parent, e);
      forall e | e in parent ensures rank(parent[e]) < rank(e) {
        RefusesExactlyCycles(parent, e);
        RefusesExactlyCycles(parent, parent[e]);
        var n: nat :| Leaves(parent, parent[e], n);
        assert Leaves(parent, e, n + 1);
        LeavesOnce(parent, parent[e], n, StepsOut(parent, parent[e]));
        LeavesOnce(parent, e, n + 1, StepsOut(parent, e));
      }
      assert Ranked(parent, rank);
    }
  }

  /** The entity `e` resolves to in a forest. */
  ghost function Root(parent: Parent, e: Id): (r: Id)
    requires Forest(parent)
    ensures Resolve(parent, e) == Some(r)
  {
    ForestIffResolves(parent);
    Resolve(parent, e).value
  }

  lemma {:induction false} WalkIgnoresSeen(parent: Parent, e: Id, seen: set<Id>, seen': set<Id>)
    requires Walk(parent, e, seen).Some? && Walk(parent, e, seen').Some?
    ensures Walk(parent, e, seen) == Walk(parent, e, seen')
    decreases parent.Values - seen
  {
    if e !in parent {
    } else {
      WalkIgnoresSeen(parent, parent[e], seen + {parent[e]}, seen' + {parent[e]});
    }
  }

  /** One link at a time: an entity resolves to what its parent resolves to. */
  lemma RootStep(parent: Parent, e: Id)
    requires Forest(parent)
    ensures Root(parent, e) !in parent
    ensures e !in parent ==> Root(parent, e) == e
    ensures e in parent ==> parent[e] != e && Root(parent, e) == Root(parent, parent[e])
  {
    RefusesExactlyCycles(parent, e);
    if e in parent {
      var rank: Id -> nat :| Ranked(parent, rank);
      assert rank(parent[e]) < rank(e);
      ForestIffResolves(parent);
      assert Resolve(parent, parent[e]).Some?;
      assert {e} + {parent[e]} == {e, parent[e]};
      WalkIgnoresSeen(parent, parent[e], {e} + {parent[e]}, {parent[e]});
    }
  }

  // ----------------------------------------------------- merging and splitting

  lemma LinkKeepsForest(parent: Parent, a: Id, s: Id)
    requires Forest(parent)
    requires a !in parent && s !in parent && a != s
    ensures Forest(parent[a := s])
  {
    var rank: Id -> nat :| Ranked(parent, rank);
    var rank' := e => if e == s then 0 else rank(e) + 1;
    assert Ranked(parent[a := s], rank');
  }

  /** Linking root `a` under root `s` redirects exactly the entities of `a`. */
  lemma {:induction false} LinkRoot(parent: Parent, a: Id, s: Id, e: Id, rank: Id -> nat)
    requires Ranked(parent, rank) && Forest(parent)
    requires a !in parent && s !in parent && a != s
    requires Forest(parent[a := s])
    ensures Root(parent[a := s], e) == if Root(parent, e) == a then s else Root(parent, e)
    decreases rank(e)
  {
    RootStep(parent, e);
    RootStep(parent[a := s], e);
    RootStep(parent[a := s], s);
    if e !in parent {
    } else {
      LinkRoot(parent, a, s, parent[e], rank);
    }
  }

  lemma CutKeepsForest(parent: Parent, gone: set<Id>)
    requires Forest(parent)
    ensures Forest(parent - gone)
  {
    var rank: Id -> nat :| Ranked(parent, rank);
    assert Ranked(parent - gone, rank);
  }

  /** A chain stays inside any set that its start and all links stay inside. */
  lemma {:induction false} RootWithin(parent: Parent, e: Id, inside: set<Id>, rank: Id -> nat)
    requires Ranked(parent, rank) && Forest(parent)
    requires e in inside && forall k :: k in parent ==> parent[k] in inside
    ensures Root(parent, e) in inside
    decreases rank(e)
  {
    RootStep(parent, e);
    if e !in parent {
    } else {
      RootWithin(parent, parent[e], inside, rank);
    }
  }
}
