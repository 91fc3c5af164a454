/** Rejections are permanent: the versioned negative constraints of each pair
    (aegis/er/adjudication.py:364-397). */
module LedgerConstraints {
  import opened Common
  import opened Store
  import opened LedgerRuns

  /** How many of the first `n` constraints are on the pair. */
  function Count(cs: seq<Constraint>, a: Id, b: Id, n: nat): nat
    requires n <= |cs|
  {
    if n == 0 then 0 else Count(cs, a, b, n - 1) + if OnPair(cs[n - 1], a, b) then 1 else 0
  }

  /** Smaller id first; the version counts the earlier constraints of the pair; superseded
      by the pair's next version, or by nothing if there is none. */
  ghost predicate RightAt(cs: seq<Constraint>, i: nat)
    requires i < |cs|
  {
    && Before(cs[i].mentionA, cs[i].mentionB)
    && cs[i].version == 1 + Count(cs, cs[i].mentionA, cs[i].mentionB, i)
    && match cs[i].supersededBy
       case None => forall j :: i < j < |cs| ==> !OnPair(cs[j], cs[i].mentionA, cs[i].mentionB)
       case Some(j) => i < j < |cs| && OnPair(cs[j], cs[i].mentionA, cs[i].mentionB)
                       && cs[j].version == cs[i].version + 1
  }

  /** The versions of each pair run 1, 2, .. in order of insertion, each superseded by the
      next and only the last in force. */
  ghost predicate Versioned(cs: seq<Constraint>) {
    forall i {:trigger RightAt(cs, i)} :: 0 <= i < |cs| ==> RightAt(cs, i)
  }

  /** The pairs a producer must not propose. */
  function Constrained(cs: seq<Constraint>): set<(Id, Id)> {
    set c | c in cs && c.supersededBy.None? :: (c.mentionA, c.mentionB)
  }

  lemma {:induction false} CountPrefix(cs: seq<Constraint>, ds: seq<Constraint>, a: Id, b: Id, n: nat)
    requires n <= |cs| && n <= |ds|
    requires forall i :: 0 <= i < n ==> (OnPair(cs[i], a, b) <==> OnPair(ds[i], a, b))
    ensures Count(cs, a, b, n) == Count(ds, a, b, n)
  {
    if n == 0 {
    } else {
      CountPrefix(cs, ds, a, b, n - 1);
    }
  }

  lemma {:induction false} CountStops(cs: seq<Constraint>, a: Id, b: Id, k: nat, n: nat)
    requires k <= n <= |cs|
    requires forall i :: k <= i < n ==> !OnPair(cs[i], a, b)
    ensures Count(cs, a, b, n) == Count(cs, a, b, k)
  {
    if k == n {
    } else {
      CountStops(cs, a, b, k, n - 1);
    }
  }

  /** The constraint in force carries the number of times the pair was rejected. */
  lemma LatestCounts(cs: seq<Constraint>, a: Id, b: Id)
    requires Versioned(cs)
    ensures var latest := LatestConstraint(cs, a, b, |cs|);
      Count(cs, a, b, |cs|) == if latest.None? then 0 else cs[latest.value].version
  {
    var latest := LatestConstraint(cs, a, b, |cs|);
    if latest.None? {
      NoneInForce(cs, a, b, |cs|);
      CountStops(cs, a, b, 0, |cs|);
    } else {
      assert RightAt(cs, latest.value);
      CountStops(cs, a, b, latest.value + 1, |cs|);
    }
  }

  lemma {:induction false} NoneInForce(cs: seq<Constraint>, a: Id, b: Id, n: nat)
    requires Versioned(cs) && n <= |cs|
    requires forall i :: 0 <= i < |cs| && OnPair(cs[i], a, b) ==> cs[i].supersededBy.Some?
    ensures forall i :: |cs| - n <= i < |cs| ==> !OnPair(cs[i], a, b)
  {
    if n == 0 {
    } else {
      NoneInForce(cs, a, b, n - 1);
      assert RightAt(cs, |cs| - n);
    }
  }

  /** A rejection keeps the versions right and constrains its pair. */
  lemma ConstrainVersioned(cs: seq<Constraint>, a: Id, b: Id, decision: nat)
    requires Versioned(cs) && Before(a, b)
    ensures Versioned(Constrain(cs, a, b, decision))
    ensures Constrained(Constrain(cs, a, b, decision)) == Constrained(cs) + {(a, b)}
  {
    hide Before, Constrained;
    var ds := Constrain(cs, a, b, decision);
    var latest := LatestConstraint(cs, a, b, |cs|);
    LatestCounts(cs, a, b);
    assert |ds| == |cs| + 1;
    assert forall i :: 0 <= i < |cs| ==>
      ds[i] == if latest == Some(i) then cs[i].(supersededBy := Some(|cs|)) else cs[i];
    forall i | 0 <= i < |ds| ensures RightAt(ds, i) {
      CountPrefix(cs, ds, ds[i].mentionA, ds[i].mentionB, i);
      if i < |cs| {
        assert RightAt(cs, i);
        if OnPair(cs[i], a, b) && cs[i].supersededBy.None? {
          OneInForce(cs, a, b, i);
        }
      }
    }
    ConstrainedAfter(cs, a, b, decision);
  }

  lemma OneInForce(cs: seq<Constraint>, a: Id, b: Id, i: nat)
    requires Versioned(cs) && i < |cs| && OnPair(cs[i], a, b) && cs[i].supersededBy.None?
    ensures LatestConstraint(cs, a, b, |cs|) == Some(i)
  {
    var latest := LatestConstraint(cs, a, b, |cs|);
    assert RightAt(cs, i);
    if latest.Some? {
      assert RightAt(cs, latest.value);
    }
  }

  lemma ConstrainedAfter(cs: seq<Constraint>, a: Id, b: Id, decision: nat)
    ensures Constrained(Constrain(cs, a, b, decision)) == Constrained(cs) + {(a, b)}
  {
    var ds := Constrain(cs, a, b, decision);
    var latest := LatestConstraint(cs, a, b, |cs|);
    assert ds[|cs|] in ds && ds[|cs|].supersededBy.None?;
    assert (a, b) in Constrained(ds);
    forall c | c in cs && c.supersededBy.None? ensures (c.mentionA, c.mentionB) in Constrained(ds) {
      var i :| 0 <= i < |cs| && cs[i] == c;
      if latest != Some(i) {
        assert ds[i] == c && ds[i] in ds;
      }
    }
    forall c | c in ds && c.supersededBy.None? ensures (c.mentionA, c.mentionB) in Constrained(cs) + {(a, b)} {
      var i :| 0 <= i < |ds| && ds[i] == c;
      if i < |cs| {
        assert ds[i] == cs[i] && cs[i] in cs;
      }
    }
  }

  predicate InForce(cs: seq<Constraint>, a: Id, b: Id, i: int) {
    0 <= i < |cs| && OnPair(cs[i], a, b) && cs[i].supersededBy.None?
  }

  /** Two positions of one pair carry different versions, so exactly one is in force. */
  lemma ExactlyOneInForce(cs: seq<Constraint>, a: Id, b: Id)
    requires Versioned(cs)
    ensures (exists i :: 0 <= i < |cs| && OnPair(cs[i], a, b)) <==> (a, b) in Constrained(cs)
    ensures forall i, j :: InForce(cs, a, b, i) && InForce(cs, a, b, j) ==> i == j
  {
    if i :| 0 <= i < |cs| && OnPair(cs[i], a, b) {
      if LatestConstraint(cs, a, b, |cs|).None? {
        NoneInForce(cs, a, b, |cs|);
      } else {
        var l := LatestConstraint(cs, a, b, |cs|).value;
        assert cs[l] in cs;
        assert (cs[l].mentionA, cs[l].mentionB) in Constrained(cs);
      }
    }
    forall i, j | InForce(cs, a, b, i) && InForce(cs, a, b, j) ensures i == j {
      OneInForce(cs, a, b, i);
      OneInForce(cs, a, b, j);
    }
  }

  lemma LowBeforeHigh(a: Id, b: Id)
    requires a != b
    ensures Before(Low(a, b), High(a, b))
  {
    BeforeTotal(a, b);
  }

  lemma ApplyConstrains(s: Tables, op: Op)
    requires Versioned(s.constraints)
    ensures Versioned(Apply(s, op).constraints)
    ensures Constrained(s.constraints) <= Constrained(Apply(s, op).constraints)
  {
    hide EntitiesOf, ScopeCurrent, Held, Move, EntityOf, LineageOf, Constrain, Versioned, Constrained,
      Affected, UnattributableClaims, Drafted, Before, Ids, MovedMentions, Orphans;
    if op.DoReject? && op.a != op.b {
      LowBeforeHigh(op.a, op.b);
      ConstrainVersioned(s.constraints, Low(op.a, op.b), High(op.a, op.b), s.head + 1 + op.gap);
    }
  }

  /** Over every run, well-formed or not: the versions stay right and a constrained pair
      stays constrained. */
  lemma {:induction false} RejectionIsPermanent(s: Tables, ops: seq<Op>)
    requires Versioned(s.constraints)
    ensures Versioned(Run(s, ops).constraints)
    ensures Constrained(s.constraints) <= Constrained(Run(s, ops).constraints)
    decreases |ops|
  {
    hide Versioned, Constrained, Apply;
    if ops == [] {
    } else {
      ApplyConstrains(s, ops[0]);
      RejectionIsPermanent(Apply(s, ops[0]), ops[1..]);
    }
  }
}
