/** The identifier rule in terms of the records themselves: who is paired, and on what evidence
    (aegis/er/rules.py:121-203, 385-394). */
module MatcherRule {
  import opened Common
  import opened Matcher
  import opened MatcherOrder

  // --------------------------------------------------------------- one number

  lemma {:induction false} SqueezeAppend(a: string, b: string)
    ensures Squeeze(a + b) == Squeeze(a) + Squeeze(b)
  {
    if a == "" {
      assert a + b == b;
    } else {
      assert (a + b)[0] == a[0] && (a + b)[1..] == a[1..] + b;
      SqueezeAppend(a[1..], b);
    }
  }

  /** Spacing is ignored, wherever it stands. */
  lemma SpacingIsIgnored(a: string, spaces: string, b: string)
    requires Blank(spaces)
    ensures Squeeze(a + spaces + b) == Squeeze(a + b)
  {
    SqueezeAppend(a + spaces, b);
    SqueezeAppend(a, spaces);
    SqueezeAppend(a, b);
    SqueezeBlank(spaces);
  }

  lemma {:induction false} SqueezeBlank(spaces: string)
    requires Blank(spaces)
    ensures Squeeze(spaces) == ""
  {
    if spaces == "" {
    } else {
      assert spaces[0] in spaces && forall c :: c in spaces[1..] ==> c in spaces;
      SqueezeBlank(spaces[1..]);
    }
  }

  /** Nothing else is. */
  lemma {:induction false} OnlySpacingIsIgnored(a: string)
    requires forall c :: c in a ==> !IsSpace(c)
    ensures Squeeze(a) == a
  {
    if a == "" {
    } else {
      assert a[0] in a && forall c :: c in a[1..] ==> c in a;
      OnlySpacingIsIgnored(a[1..]);
    }
  }

  /** The records give one number: under one predicate the same text, but for case and spacing. */
  predicate OneNumber(upper: Upper, l: Observation, r: Observation) {
    && l.predicate_ == r.predicate_
    && upper(Squeeze(l.value)) == upper(Squeeze(r.value)) && upper(Squeeze(l.value)) != ""
  }

  lemma OneNumberIff(upper: Upper, l: Observation, r: Observation)
    ensures OneNumber(upper, l, r) <==> KeyOf(upper, l).Some? && KeyOf(upper, l) == KeyOf(upper, r)
  {
  }

  // ----------------------------------------------------------- who is paired

  /** The issuers, where both are given, agree. */
  predicate OneIssuer(l: Observation, r: Observation) {
    l.jurisdiction.Some? && r.jurisdiction.Some? ==> l.jurisdiction.value == r.jurisdiction.value
  }

  /** Both records are in force on the day. */
  predicate BothOn(l: Observation, r: Observation, d: int) {
    && (l.validFrom.Some? ==> l.validFrom.value <= d) && (l.validTo.Some? ==> d <= l.validTo.value)
    && (r.validFrom.Some? ==> r.validFrom.value <= d) && (r.validTo.Some? ==> d <= r.validTo.value)
  }

  /** The two records support each other: one number, no two issuers, and a day in common. */
  ghost predicate Support(upper: Upper, l: Observation, r: Observation) {
    OneNumber(upper, l, r) && OneIssuer(l, r) && exists d :: BothOn(l, r, d)
  }

  /** As the claim table keeps them: no window ends before it begins. */
  predicate WindowsInOrder(obs: seq<Observation>) {
    forall o :: o in obs && o.validFrom.Some? && o.validTo.Some? ==> o.validFrom.value <= o.validTo.value
  }

  lemma SupportIff(upper: Upper, obs: seq<Observation>, l: Observation, r: Observation)
    requires WindowsInOrder(obs) && l in obs && r in obs
    ensures Support(upper, l, r) <==> OneNumber(upper, l, r) && !Conflict(l, r)
  {
    hide OneNumber;
    OverlapIsSharedDay(l, r);
    forall d ensures BothOn(l, r, d) <==> InWindow(l, d) && InWindow(r, d) {
    }
  }

  /** No later record of the mention gives the same number. */
  predicate IsLatest(upper: Upper, obs: seq<Observation>, i: nat)
    requires i < |obs|
  {
    forall j :: i < j < |obs| && obs[j].mention == obs[i].mention ==> !OneNumber(upper, obs[i], obs[j])
  }

  /** The latest records of the two mentions support each other. */
  ghost predicate LatestSupport(upper: Upper, obs: seq<Observation>, m: Id, n: Id, i: nat, j: nat)
    requires i < |obs| && j < |obs|
  {
    && obs[i].mention == m && obs[j].mention == n
    && IsLatest(upper, obs, i) && IsLatest(upper, obs, j) && Support(upper, obs[i], obs[j])
  }

  lemma LatestIsHolder(upper: Upper, obs: seq<Observation>, i: nat, key: Key)
    requires i < |obs| && IsLatest(upper, obs, i) && KeyOf(upper, obs[i]) == Some(key)
    ensures obs[i].mention in Holders(upper, obs, key) && Holders(upper, obs, key)[obs[i].mention] == obs[i]
  {
    hide OneNumber, KeyOf;
    forall j | 0 <= j < |obs| ensures OneNumber(upper, obs[i], obs[j])
      <==> KeyOf(upper, obs[i]).Some? && KeyOf(upper, obs[i]) == KeyOf(upper, obs[j])
    {
      OneNumberIff(upper, obs[i], obs[j]);
    }
    LaterOneWins(upper, obs, key, i);
  }

  lemma {:induction false} LatestOf(upper: Upper, obs: seq<Observation>, key: Key, m: Id, n: nat) returns (i: nat)
    requires n <= |obs|
    requires exists k :: 0 <= k < n && KeyOf(upper, obs[k]) == Some(key) && obs[k].mention == m
    ensures i < n && KeyOf(upper, obs[i]) == Some(key) && obs[i].mention == m
    ensures forall j :: i < j < n && KeyOf(upper, obs[j]) == Some(key) ==> obs[j].mention != m
  {
    hide KeyOf;
    if KeyOf(upper, obs[n - 1]) == Some(key) && obs[n - 1].mention == m {
      i := n - 1;
    } else {
      i := LatestOf(upper, obs, key, m, n - 1);
    }
  }

  lemma HolderIsLatest(upper: Upper, obs: seq<Observation>, key: Key, m: Id) returns (i: nat)
    requires m in Holders(upper, obs, key)
    ensures i < |obs| && obs[i].mention == m && KeyOf(upper, obs[i]) == Some(key) && IsLatest(upper, obs, i)
    ensures Holders(upper, obs, key)[m] == obs[i]
  {
    hide KeyOf, OneNumber, Holders;
    HoldersAreSeen(upper, obs, key, m);
    i := LatestOf(upper, obs, key, m, |obs|);
    forall j | 0 <= j < |obs| ensures OneNumber(upper, obs[i], obs[j])
      <==> KeyOf(upper, obs[i]).Some? && KeyOf(upper, obs[i]) == KeyOf(upper, obs[j])
    {
      OneNumberIff(upper, obs[i], obs[j]);
    }
    LaterOneWins(upper, obs, key, i);
  }

  /** The rule, for any list of records: two mentions are paired, smaller id first, exactly when the
      latest records of each under some number name no two issuers and have a day in common. */
  lemma PairedIff(upper: Upper, obs: seq<Observation>, m: Id, n: Id)
    requires WindowsInOrder(obs)
    ensures Paired(upper, obs, m, n)
      <==> Before(m, n) && exists i: nat, j: nat :: i < |obs| && j < |obs| && LatestSupport(upper, obs, m, n, i, j)
  {
    hide WindowsInOrder, Paired, EmittedUnder, Conflict, Support, OneNumber, IsLatest, Holders, KeyOf, Before;
    PairedUnder(upper, obs, m, n);
    if Paired(upper, obs, m, n) {
      var key :| EmittedUnder(upper, obs, key, m, n);
      EmittedUnderIff(upper, obs, key, m, n);
      var i := HolderIsLatest(upper, obs, key, m);
      var j := HolderIsLatest(upper, obs, key, n);
      OneNumberIff(upper, obs[i], obs[j]);
      SupportIff(upper, obs, obs[i], obs[j]);
      assert LatestSupport(upper, obs, m, n, i, j);
    }
    if i: nat, j: nat :| i < |obs| && j < |obs| && LatestSupport(upper, obs, m, n, i, j) && Before(m, n) {
      SupportIff(upper, obs, obs[i], obs[j]);
      OneNumberIff(upper, obs[i], obs[j]);
      var key := KeyOf(upper, obs[i]).value;
      LatestIsHolder(upper, obs, i, key);
      LatestIsHolder(upper, obs, j, key);
      EmittedUnderIff(upper, obs, key, m, n);
    }
  }

  // ------------------------------------------------------------- on what evidence

  /** The pair names the two claims, and the issuers they give. */
  ghost predicate Evidence(upper: Upper, p: Pair, l: Observation, r: Observation) {
    && l.mention == p.mentionA && r.mention == p.mentionB && Support(upper, l, r)
    && p.predicate_ == l.predicate_ && p.claims == {l.claim, r.claim}
    && forall j :: j in p.jurisdictions <==> l.jurisdiction == Some(j) || r.jurisdiction == Some(j)
  }

  /** Every emitted pair is evidenced by two of the records. */
  lemma EmittedOnEvidence(upper: Upper, obs: seq<Observation>, p: Pair)
    requires WindowsInOrder(obs) && Emitted(upper, obs, Keys(upper, obs), p)
    ensures exists l, r :: l in obs && r in obs && Evidence(upper, p, l, r)
  {
    hide WindowsInOrder, Conflict, Support, OneNumber, Holders, KeyOf, Ordered;
    var key, i, j := PlacesOf(upper, obs, p);
    PlacesAreHolders(upper, obs, key);
    var q := Ordered(upper, obs, key);
    HoldersAreSeen(upper, obs, key, q[i].mention);
    HoldersAreSeen(upper, obs, key, q[j].mention);
    OneNumberIff(upper, q[i], q[j]);
    SupportIff(upper, obs, q[i], q[j]);
    assert Evidence(upper, p, q[i], q[j]);
  }
}
