/** Lists compared as multisets, and the sizes of sets. */
module Lists {
  lemma SameElements<T>(xs: seq<T>, ys: seq<T>)
    requires multiset(xs) == multiset(ys)
    ensures forall x :: x in xs <==> x in ys
    ensures |xs| == |ys|
  {
    forall x ensures x in xs <==> x in ys {
      assert x in xs <==> x in multiset(xs);
      assert x in ys <==> x in multiset(ys);
    }
    assert |multiset(xs)| == |xs| && |multiset(ys)| == |ys|;
  }

  lemma {:induction false} CountTwo<T>(xs: seq<T>, i: nat, j: nat)
    requires i < j < |xs| && xs[i] == xs[j]
    ensures multiset(xs)[xs[i]] >= 2
  {
    assert xs == xs[..j] + [xs[j]] + xs[j + 1..];
    assert xs[..j][i] == xs[i];
    assert xs[i] in multiset(xs[..j]);
  }

  lemma {:induction false} Twice<T>(xs: seq<T>, x: T) returns (i: nat, j: nat)
    requires multiset(xs)[x] >= 2
    ensures i < j < |xs| && xs[i] == x && xs[j] == x
  {
    var last := xs[|xs| - 1];
    var front := xs[..|xs| - 1];
    assert xs == front + [last];
    if last == x {
      assert x in multiset(front);
      i :| 0 <= i < |front| && front[i] == x;
      j := |xs| - 1;
    } else {
      i, j := Twice(front, x);
    }
  }

  /** Two places of one list correspond to two different places of its permutation. */
  lemma TwoPlaces<T>(items: seq<T>, order: seq<T>, i: nat, j: nat) returns (k: nat, l: nat)
    requires multiset(order) == multiset(items) && i < j < |order|
    ensures k < l < |items|
    ensures (items[k] == order[i] && items[l] == order[j]) || (items[k] == order[j] && items[l] == order[i])
  {
    if order[i] == order[j] {
      CountTwo(order, i, j);
      k, l := Twice(items, order[i]);
    } else {
      SameElements(order, items);
      assert order[i] in items && order[j] in items;
      k :| 0 <= k < |items| && items[k] == order[i];
      l :| 0 <= l < |items| && items[l] == order[j];
      if l < k {
        k, l := l, k;
      }
    }
  }

  lemma TakeOut<T>(q: seq<T>, j: nat)
    requires j < |q|
    ensures multiset(q[..j] + q[j + 1..]) == multiset(q) - multiset{q[j]}
  {
    assert q == q[..j] + [q[j]] + q[j + 1..];
  }

  lemma MoreThanOne<T>(s: set<T>, x: T, y: T)
    requires x in s && y in s && x != y
    ensures |s| > 1
  {
    assert y in s - {x};
    assert |s| == |s - {x}| + 1;
  }

  lemma HasMember<T>(q: seq<T>)
    requires q != []
    ensures exists x :: x in q
  {
    assert q[0] in q;
  }

  ghost predicate NoRepeats<T>(q: seq<T>) {
    forall i, j :: 0 <= i < j < |q| ==> q[i] != q[j]
  }

  lemma PermutedNoRepeats<T>(p: seq<T>, q: seq<T>)
    requires multiset(p) == multiset(q) && NoRepeats(p)
    ensures NoRepeats(q)
  {
    forall i, j | 0 <= i < j < |q| ensures q[i] != q[j] {
      var k, l := TwoPlaces(p, q, i, j);
    }
  }
}
