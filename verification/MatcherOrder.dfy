/** When the order of the observations matters to the identifier rule, and when it does not
    (aegis/er/rules.py:164-178). */
module MatcherOrder {
  import opened Common
  import opened Lists
  import opened Store
  import opened Matcher

  // ------------------------------------------------------------ the last one wins

  lemma HoldersNext(upper: Upper, obs: seq<Observation>, o: Observation, key: Key)
    ensures Holders(upper, obs + [o], key)
      == if KeyOf(upper, o) == Some(key) then Holders(upper, obs, key)[o.mention := o] else Holders(upper, obs, key)
  {
    hide KeyOf;
    var group := GroupOf(upper, obs, key);
    assert (obs + [o])[..|obs|] == obs && (group + [o])[..|group|] == group;
  }

  /** Of the observations of a mention under a key only the last one is compared. */
  lemma {:induction false} LaterOneWins(upper: Upper, obs: seq<Observation>, key: Key, i: nat)
    requires i < |obs| && KeyOf(upper, obs[i]) == Some(key)
    requires forall j :: i < j < |obs| && KeyOf(upper, obs[j]) == Some(key) ==> obs[j].mention != obs[i].mention
    ensures obs[i].mention in Holders(upper, obs, key) && Holders(upper, obs, key)[obs[i].mention] == obs[i]
  {
    hide KeyOf, Holders;
    var front, last := obs[..|obs| - 1], obs[|obs| - 1];
    assert obs == front + [last];
    HoldersNext(upper, front, last, key);
    if i == |front| {
    } else {
      assert forall j :: 0 <= j < |front| ==> front[j] == obs[j];
      LaterOneWins(upper, front, key, i);
    }
  }

  // -------------------------------------------------------------- one pair, one key

  /** The observation belongs to the key and to the mention. */
  predicate Seen(upper: Upper, obs: seq<Observation>, key: Key, m: Id, o: Observation) {
    o in obs && KeyOf(upper, o) == Some(key) && o.mention == m
  }

  /** The rule emits the pair of mentions for this key. */
  ghost predicate EmittedUnder(upper: Upper, obs: seq<Observation>, key: Key, m: Id, n: Id) {
    exists p, i, j :: FromPlaces(Ordered(upper, obs, key), p, i, j) && p.mentionA == m && p.mentionB == n
  }

  lemma HoldersAreSeen(upper: Upper, obs: seq<Observation>, key: Key, m: Id)
    ensures m in Holders(upper, obs, key) ==> Seen(upper, obs, key, m, Holders(upper, obs, key)[m])
    ensures m in Holders(upper, obs, key) <==> exists o :: Seen(upper, obs, key, m, o)
  {
    hide KeyOf, LastBy, GroupOf;
    HoldersAreObserved(upper, obs, key);
    GroupIsComplete(upper, obs, key);
    LastByIsMember(GroupOf(upper, obs, key));
  }

  lemma PlacesAreHolders(upper: Upper, obs: seq<Observation>, key: Key)
    ensures var q, holders := Ordered(upper, obs, key), Holders(upper, obs, key);
      && (forall i :: 0 <= i < |q| ==> q[i].mention in holders && holders[q[i].mention] == q[i])
      && (forall i, j :: 0 <= i < j < |q| ==> Before(q[i].mention, q[j].mention))
      && (forall m :: m in holders ==> holders[m] in q && holders[m].mention == m)
  {
    hide KeyOf, GroupOf, LastBy, Ids, Before;
    var holders := Holders(upper, obs, key);
    var ids := Ids(holders.Keys);
    var q := Ordered(upper, obs, key);
    LastByIsMember(GroupOf(upper, obs, key));
    forall m | m in holders ensures holders[m] in q {
      assert m in ids;
      var i :| 0 <= i < |ids| && ids[i] == m;
      assert q[i] == holders[m];
    }
    forall i | 0 <= i < |q| ensures q[i].mention == ids[i] {
      assert ids[i] in ids;
    }
  }

  /** A pair is emitted under a key exactly when the two holders do not conflict. */
  lemma EmittedUnderIff(upper: Upper, obs: seq<Observation>, key: Key, m: Id, n: Id)
    ensures EmittedUnder(upper, obs, key, m, n)
      <==> var holders := Holders(upper, obs, key);
           Before(m, n) && m in holders && n in holders && !Conflict(holders[m], holders[n])
  {
    hide Holders, Ordered, Before, Conflict;
    var holders := Holders(upper, obs, key);
    var q := Ordered(upper, obs, key);
    PlacesAreHolders(upper, obs, key);
    if Before(m, n) && m in holders && n in holders && !Conflict(holders[m], holders[n]) {
      var i :| 0 <= i < |q| && q[i] == holders[m];
      var j :| 0 <= j < |q| && q[j] == holders[n];
      NotAfter(q, i, j);
      assert FromPlaces(q, PairFrom(q[i], q[j]), i, j);
    }
  }

  lemma NotAfter(q: seq<Observation>, i: nat, j: nat)
    requires i < |q| && j < |q| && Before(q[i].mention, q[j].mention)
    requires forall k, l :: 0 <= k < l < |q| ==> Before(q[k].mention, q[l].mention)
    ensures i < j
  {
    hide Before;
    BeforeIrreflexive(q[i].mention);
    if j < i {
      BeforeTransitive(q[i].mention, q[j].mention, q[i].mention);
    }
  }

  // ------------------------------------------------------------- the exact condition

  /** The verdict on the pair is the same for every order of the observations. */
  ghost predicate OrderFree(upper: Upper, obs: seq<Observation>, key: Key, m: Id, n: Id) {
    forall other {:trigger EmittedUnder(upper, other, key, m, n)} :: multiset(other) == multiset(obs) ==>
      (EmittedUnder(upper, other, key, m, n) <==> EmittedUnder(upper, obs, key, m, n))
  }

  /** Any two observations of the mentions under the key conflict, or no two do. */
  ghost predicate OneVerdict(upper: Upper, obs: seq<Observation>, key: Key, m: Id, n: Id) {
    forall l, r, k, t | Seen(upper, obs, key, m, l) && Seen(upper, obs, key, n, r)
                        && Seen(upper, obs, key, m, k) && Seen(upper, obs, key, n, t) ::
      Conflict(l, r) <==> Conflict(k, t)
  }

  lemma SeenInAnyOrder(upper: Upper, obs: seq<Observation>, other: seq<Observation>, key: Key, m: Id)
    requires multiset(other) == multiset(obs)
    ensures forall o :: Seen(upper, other, key, m, o) <==> Seen(upper, obs, key, m, o)
  {
    SameElements(other, obs);
  }

  lemma {:induction false} GroupWithout(upper: Upper, obs: seq<Observation>, j: nat, key: Key)
    requires j < |obs| && KeyOf(upper, obs[j]) != Some(key)
    ensures GroupOf(upper, obs[..j] + obs[j + 1..], key) == GroupOf(upper, obs, key)
  {
    hide KeyOf;
    var last := |obs| - 1;
    if j == last {
      assert obs[..j] + obs[j + 1..] == obs[..last];
    } else {
      GroupWithout(upper, obs[..last], j, key);
      var rest := obs[..j] + obs[j + 1..];
      assert obs[..last][..j] + obs[..last][j + 1..] == rest[..|rest| - 1] && rest[|rest| - 1] == obs[last];
    }
  }

  /** An observation moves to the end: the groups of other keys do not notice. */
  lemma ObservedLast(upper: Upper, obs: seq<Observation>, o: Observation, key: Key) returns (front: seq<Observation>)
    requires o in obs && KeyOf(upper, o) == Some(key)
    ensures multiset(front + [o]) == multiset(obs)
    ensures forall k | k != key :: Holders(upper, front + [o], k) == Holders(upper, obs, k)
  {
    hide KeyOf, GroupOf, LastBy;
    var j :| 0 <= j < |obs| && obs[j] == o;
    front := obs[..j] + obs[j + 1..];
    TakeOut(obs, j);
    assert o in multiset(obs);
    forall k | k != key ensures Holders(upper, front + [o], k) == Holders(upper, obs, k) {
      GroupWithout(upper, obs, j, k);
      HoldersNext(upper, front, o, k);
    }
  }

  /** Any two observations of the pair can be the last ones: then they decide. Nothing changes
      under another key. */
  lemma DecidedByLast(upper: Upper, obs: seq<Observation>, key: Key, m: Id, n: Id, l: Observation, r: Observation)
    returns (other: seq<Observation>)
    requires Before(m, n) && Seen(upper, obs, key, m, l) && Seen(upper, obs, key, n, r)
    ensures multiset(other) == multiset(obs)
    ensures EmittedUnder(upper, other, key, m, n) <==> !Conflict(l, r)
    ensures forall k | k != key :: Holders(upper, other, k) == Holders(upper, obs, k)
  {
    hide KeyOf, Holders, Before, Conflict, EmittedUnder;
    BeforeOneWay(m, n);
    var once := ObservedLast(upper, obs, r, key);
    SameElements(once + [r], obs);
    assert l in once;
    var twice := ObservedLast(upper, once, l, key);
    other := (twice + [l]) + [r];
    assert multiset(other) == multiset(twice + [l]) + multiset{r} == multiset(once + [r]);
    HoldersNext(upper, twice, l, key);
    HoldersNext(upper, twice + [l], r, key);
    EmittedUnderIff(upper, other, key, m, n);
    forall k | k != key ensures Holders(upper, other, k) == Holders(upper, obs, k) {
      HoldersNext(upper, twice + [l], r, k);
      HoldersNext(upper, once, r, k);
    }
  }

  lemma BeforeOneWay(m: Id, n: Id)
    requires Before(m, n)
    ensures m != n
  {
    BeforeIrreflexive(m);
  }

  lemma VerdictStands(upper: Upper, obs: seq<Observation>, other: seq<Observation>, key: Key, m: Id, n: Id)
    requires multiset(other) == multiset(obs) && OneVerdict(upper, obs, key, m, n)
    ensures EmittedUnder(upper, other, key, m, n) <==> EmittedUnder(upper, obs, key, m, n)
  {
    hide KeyOf, Holders, Before, Conflict, EmittedUnder;
    EmittedUnderIff(upper, obs, key, m, n);
    EmittedUnderIff(upper, other, key, m, n);
    SeenInAnyOrder(upper, obs, other, key, m);
    SeenInAnyOrder(upper, obs, other, key, n);
    HoldersAreSeen(upper, obs, key, m);
    HoldersAreSeen(upper, obs, key, n);
    HoldersAreSeen(upper, other, key, m);
    HoldersAreSeen(upper, other, key, n);
  }

  /** The order of the observations is immaterial to a pair under a key exactly when all its
      observations there give one verdict. */
  lemma OrderFreeIff(upper: Upper, obs: seq<Observation>, key: Key, m: Id, n: Id)
    requires Before(m, n)
    ensures OrderFree(upper, obs, key, m, n) <==> OneVerdict(upper, obs, key, m, n)
  {
    hide KeyOf, Before, Conflict, EmittedUnder;
    if OneVerdict(upper, obs, key, m, n) {
      forall other | multiset(other) == multiset(obs)
        ensures EmittedUnder(upper, other, key, m, n) <==> EmittedUnder(upper, obs, key, m, n)
      {
        VerdictStands(upper, obs, other, key, m, n);
      }
    }
    if OrderFree(upper, obs, key, m, n) {
      forall l, r, k, t | Seen(upper, obs, key, m, l) && Seen(upper, obs, key, n, r)
                          && Seen(upper, obs, key, m, k) && Seen(upper, obs, key, n, t)
        ensures Conflict(l, r) <==> Conflict(k, t)
      {
        var first := DecidedByLast(upper, obs, key, m, n, l, r);
        var second := DecidedByLast(upper, obs, key, m, n, k, t);
      }
    }
  }

  // ------------------------------------------------------------ one pair, every key

  /** The identifier rule emits the pair. */
  ghost predicate Paired(upper: Upper, obs: seq<Observation>, m: Id, n: Id) {
    exists p :: Emitted(upper, obs, Keys(upper, obs), p) && p.mentionA == m && p.mentionB == n
  }

  lemma PairedUnder(upper: Upper, obs: seq<Observation>, m: Id, n: Id)
    ensures Paired(upper, obs, m, n) <==> exists key :: EmittedUnder(upper, obs, key, m, n)
    ensures Paired(upper, obs, m, n) ==> exists key | key in Keys(upper, obs) :: EmittedUnder(upper, obs, key, m, n)
  {
    hide Keys, Ordered, FromPlaces;
    if p :| Emitted(upper, obs, Keys(upper, obs), p) && p.mentionA == m && p.mentionB == n {
      var key, i, j :| key in Keys(upper, obs) && FromPlaces(Ordered(upper, obs, key), p, i, j);
      assert EmittedUnder(upper, obs, key, m, n);
    }
    if key :| EmittedUnder(upper, obs, key, m, n) {
      EmittedIsUnder(upper, obs, key, m, n);
    }
  }

  /** Whether the rule emits the pair is the same for every order of the observations. */
  ghost predicate PairOrderFree(upper: Upper, obs: seq<Observation>, m: Id, n: Id) {
    forall other :: multiset(other) == multiset(obs) ==> (Paired(upper, other, m, n) <==> Paired(upper, obs, m, n))
  }

  /** Under this key the two mentions meet, and no two of their observations conflict. */
  ghost predicate Agree(upper: Upper, obs: seq<Observation>, key: Key, m: Id, n: Id) {
    && (exists l :: Seen(upper, obs, key, m, l)) && (exists r :: Seen(upper, obs, key, n, r))
    && forall l, r | Seen(upper, obs, key, m, l) && Seen(upper, obs, key, n, r) :: !Conflict(l, r)
  }

  /** Under this key the two mentions have two observations that do not conflict. */
  ghost predicate MayAgree(upper: Upper, obs: seq<Observation>, key: Key, m: Id, n: Id) {
    exists l, r :: Seen(upper, obs, key, m, l) && Seen(upper, obs, key, n, r) && !Conflict(l, r)
  }

  /** Some key always pairs the mentions, or no key ever does. */
  ghost predicate OneWay(upper: Upper, obs: seq<Observation>, m: Id, n: Id) {
    (exists key :: Agree(upper, obs, key, m, n)) || forall key :: !MayAgree(upper, obs, key, m, n)
  }

  lemma UnderEither(upper: Upper, obs: seq<Observation>, other: seq<Observation>, key: Key, m: Id, n: Id)
    requires multiset(other) == multiset(obs) && Before(m, n)
    ensures Agree(upper, obs, key, m, n) ==> EmittedUnder(upper, other, key, m, n)
    ensures EmittedUnder(upper, other, key, m, n) ==> MayAgree(upper, obs, key, m, n)
  {
    hide KeyOf, Holders, Before, Conflict, EmittedUnder, Seen;
    EmittedUnderIff(upper, other, key, m, n);
    SeenInAnyOrder(upper, obs, other, key, m);
    SeenInAnyOrder(upper, obs, other, key, n);
    HoldersAreSeen(upper, other, key, m);
    HoldersAreSeen(upper, other, key, n);
  }

  /** Unless some key always pairs the mentions, one order of the observations pairs them under
      none of the given keys: under each of them conflicting observations come last. */
  lemma {:induction false} AllConflict(upper: Upper, obs: seq<Observation>, m: Id, n: Id, keys: set<Key>)
    returns (other: seq<Observation>)
    requires Before(m, n) && forall key :: !Agree(upper, obs, key, m, n)
    ensures multiset(other) == multiset(obs)
    ensures forall key | key in keys :: !EmittedUnder(upper, other, key, m, n)
    decreases keys
  {
    hide KeyOf, Holders, Before, Conflict, EmittedUnder, Seen;
    if keys == {} {
      other := obs;
    } else {
      var k :| k in keys;
      var rest := AllConflict(upper, obs, m, n, keys - {k});
      if (exists l :: Seen(upper, obs, k, m, l)) && (exists r :: Seen(upper, obs, k, n, r)) {
        assert !Agree(upper, obs, k, m, n);
        var l, r :| Seen(upper, obs, k, m, l) && Seen(upper, obs, k, n, r) && Conflict(l, r);
        SeenInAnyOrder(upper, obs, rest, k, m);
        SeenInAnyOrder(upper, obs, rest, k, n);
        other := DecidedByLast(upper, rest, k, m, n, l, r);
      } else {
        other := rest;
        UnderEither(upper, obs, other, k, m, n);
      }
      forall key | key in keys - {k} ensures !EmittedUnder(upper, other, key, m, n) {
        EmittedUnderIff(upper, rest, key, m, n);
        EmittedUnderIff(upper, other, key, m, n);
      }
    }
  }

  lemma OnlyInOrder(upper: Upper, obs: seq<Observation>, m: Id, n: Id)
    ensures Paired(upper, obs, m, n) ==> Before(m, n)
  {
    hide KeyOf, Holders, Before, Conflict, EmittedUnder, Keys, Emitted;
    PairedUnder(upper, obs, m, n);
    if key :| EmittedUnder(upper, obs, key, m, n) {
      EmittedUnderIff(upper, obs, key, m, n);
    }
  }

  /** What decides for a candidate, over all keys at once: the order of the observations is
      immaterial to a pair exactly when some key always pairs it or no key ever does. */
  lemma PairOrderFreeIff(upper: Upper, obs: seq<Observation>, m: Id, n: Id)
    ensures PairOrderFree(upper, obs, m, n) <==> !Before(m, n) || OneWay(upper, obs, m, n)
  {
    hide KeyOf, Before, Conflict, EmittedUnder, Seen, Agree, MayAgree, Paired, Keys;
    if !Before(m, n) {
      forall other ensures !Paired(upper, other, m, n) {
        OnlyInOrder(upper, other, m, n);
      }
    } else if OneWay(upper, obs, m, n) {
      OneWayIsFree(upper, obs, m, n);
    } else {
      var key :| MayAgree(upper, obs, key, m, n);
      var paired := AgreeLast(upper, obs, key, m, n);
      SameElements(paired, obs);
      var apart := AllConflict(upper, obs, m, n, Keys(upper, obs));
      SameKeys(upper, obs, apart);
      PairedUnder(upper, apart, m, n);
    }
  }

  lemma SameKeys(upper: Upper, obs: seq<Observation>, other: seq<Observation>)
    requires multiset(other) == multiset(obs)
    ensures Keys(upper, other) == Keys(upper, obs)
  {
    hide KeyOf;
    SameElements(other, obs);
  }

  lemma AgreeLast(upper: Upper, obs: seq<Observation>, key: Key, m: Id, n: Id) returns (other: seq<Observation>)
    requires Before(m, n) && MayAgree(upper, obs, key, m, n)
    ensures multiset(other) == multiset(obs) && Paired(upper, other, m, n)
  {
    hide KeyOf, Holders, Before, Conflict, EmittedUnder, Seen, Paired;
    var l, r :| Seen(upper, obs, key, m, l) && Seen(upper, obs, key, n, r) && !Conflict(l, r);
    other := DecidedByLast(upper, obs, key, m, n, l, r);
    PairedUnder(upper, other, m, n);
  }

  lemma OneWayIsFree(upper: Upper, obs: seq<Observation>, m: Id, n: Id)
    requires Before(m, n) && OneWay(upper, obs, m, n)
    ensures PairOrderFree(upper, obs, m, n)
  {
    hide Before, EmittedUnder, Agree, MayAgree, Paired;
    forall other | multiset(other) == multiset(obs)
      ensures Paired(upper, other, m, n) <==> exists key :: Agree(upper, obs, key, m, n)
    {
      PairedUnder(upper, other, m, n);
      if key :| Agree(upper, obs, key, m, n) {
        UnderEither(upper, obs, other, key, m, n);
      } else if key :| EmittedUnder(upper, other, key, m, n) {
        UnderEither(upper, obs, other, key, m, n);
      }
    }
  }

  // ------------------------------------------------------------------- whole outputs

  /** Under each key every mention has one observation. */
  ghost predicate OneObservationEach(upper: Upper, obs: seq<Observation>) {
    forall x, y | x in obs && y in obs && x.mention == y.mention
                  && KeyOf(upper, x).Some? && KeyOf(upper, x) == KeyOf(upper, y) :: x == y
  }

  /** Then the emitted pairs, evidence included, are the same for every order. */
  lemma OneEachIsOrderFree(upper: Upper, obs: seq<Observation>, other: seq<Observation>, p: Pair)
    requires OneObservationEach(upper, obs) && multiset(other) == multiset(obs)
    ensures Emitted(upper, other, Keys(upper, other), p) <==> Emitted(upper, obs, Keys(upper, obs), p)
  {
    hide KeyOf, FromPlaces, Ids, Holders;
    SameElements(other, obs);
    assert Keys(upper, other) == Keys(upper, obs);
    forall key ensures Ordered(upper, other, key) == Ordered(upper, obs, key) {
      SameHolders(upper, obs, other, key);
    }
  }

  lemma SameHolders(upper: Upper, obs: seq<Observation>, other: seq<Observation>, key: Key)
    requires OneObservationEach(upper, obs) && multiset(other) == multiset(obs)
    ensures Holders(upper, other, key) == Holders(upper, obs, key)
  {
    hide KeyOf, Holders;
    SameElements(other, obs);
    forall m
      ensures m in Holders(upper, other, key) <==> m in Holders(upper, obs, key)
      ensures m in Holders(upper, obs, key) ==> Holders(upper, other, key)[m] == Holders(upper, obs, key)[m]
    {
      SeenInAnyOrder(upper, obs, other, key, m);
      HoldersAreSeen(upper, obs, key, m);
      HoldersAreSeen(upper, other, key, m);
    }
  }

  // -------------------------------------------------------------------- an instance

  lemma FirstTwo()
    ensures Before("m1", "m2")
  {
    assert "m1"[1..] == "1" && "m2"[1..] == "2";
  }

  lemma KeyOfV(upper: Upper, o: Observation)
    requires upper("V") == "V" && o.value == "V"
    ensures KeyOf(upper, o) == Some(Key(o.predicate_, "V"))
  {
    assert "V"[1..] == "" && Squeeze("") == "" && !IsSpace('V');
    assert Squeeze("V") == ['V'] + "" == "V";
  }

  /** One passport recorded for a mention under two issuers, and for another mention under one. */
  const ISSUED_BY_A := Observation("m1", "c1", "passport", "V", Some("A"), None, None)
  const ISSUED_BY_B := Observation("m1", "c2", "passport", "V", Some("B"), None, None)
  const PARTNER := Observation("m2", "c3", "passport", "V", Some("A"), None, None)

  const A_BEFORE_B: seq<Observation> := [ISSUED_BY_A, ISSUED_BY_B, PARTNER]
  const B_BEFORE_A: seq<Observation> := [ISSUED_BY_B, ISSUED_BY_A, PARTNER]

  lemma ThreeHolders(upper: Upper, x: Observation, y: Observation, z: Observation, key: Key, k: Key)
    requires KeyOf(upper, x) == KeyOf(upper, y) == KeyOf(upper, z) == Some(key) && x.mention == y.mention
    ensures Holders(upper, [x, y, z], k) == if k == key then map[y.mention := y][z.mention := z] else map[]
  {
    hide KeyOf, Holders;
    NoHolders(upper, k);
    HoldersNext(upper, [], x, k);
    HoldersNext(upper, [x], y, k);
    HoldersNext(upper, [x, y], z, k);
    assert [] + [x] == [x] && [x] + [y] == [x, y] && [x, y] + [z] == [x, y, z];
  }

  lemma NoHolders(upper: Upper, key: Key)
    ensures Holders(upper, [], key) == map[]
  {
  }

  /** The last record of the mention decides whether the pair is emitted. */
  lemma LastRecordDecides(upper: Upper, x: Observation, y: Observation, z: Observation, key: Key)
    requires KeyOf(upper, x) == KeyOf(upper, y) == KeyOf(upper, z) == Some(key) && x.mention == y.mention
    requires Before(y.mention, z.mention)
    ensures Paired(upper, [x, y, z], y.mention, z.mention) <==> !Conflict(y, z)
    ensures forall m, n :: Paired(upper, [x, y, z], m, n) ==> (m, n) == (y.mention, z.mention)
  {
    hide KeyOf, Holders, Before, Conflict, EmittedUnder, Paired;
    var obs := [x, y, z];
    forall m, n ensures Paired(upper, obs, m, n) <==> (m, n) == (y.mention, z.mention) && !Conflict(y, z) {
      PairedUnder(upper, obs, m, n);
      OnlyOneKey(upper, x, y, z, key, m, n, key);
      if k :| EmittedUnder(upper, obs, k, m, n) {
        OnlyOneKey(upper, x, y, z, key, m, n, k);
      }
    }
  }

  lemma OnlyOneKey(upper: Upper, x: Observation, y: Observation, z: Observation, key: Key, m: Id, n: Id, k: Key)
    requires KeyOf(upper, x) == KeyOf(upper, y) == KeyOf(upper, z) == Some(key) && x.mention == y.mention
    requires Before(y.mention, z.mention)
    ensures EmittedUnder(upper, [x, y, z], k, m, n)
      <==> k == key && (m, n) == (y.mention, z.mention) && !Conflict(y, z)
  {
    hide KeyOf, Holders, Before, Conflict, EmittedUnder;
    BeforeOneWay(y.mention, z.mention);
    ThreeHolders(upper, x, y, z, key, k);
    EmittedUnderIff(upper, [x, y, z], k, m, n);
    if Before(m, n) {
      BeforeOneWay(m, n);
      if (m, n) == (z.mention, y.mention) {
        BeforeTransitive(y.mention, z.mention, y.mention);
        BeforeIrreflexive(y.mention);
      }
    }
  }

  /** The condition can fail: a mention recorded under two issuers is paired or suppressed
      according to which record comes last. */
  lemma OrderMatters(upper: Upper)
    requires upper("V") == "V"
    ensures multiset(A_BEFORE_B) == multiset(B_BEFORE_A)
    ensures forall m, n :: !Paired(upper, A_BEFORE_B, m, n)
    ensures forall m, n :: Paired(upper, B_BEFORE_A, m, n) <==> (m, n) == ("m1", "m2")
  {
    hide KeyOf, Before, Paired;
    KeyOfV(upper, ISSUED_BY_A);
    KeyOfV(upper, ISSUED_BY_B);
    KeyOfV(upper, PARTNER);
    FirstTwo();
    LastRecordDecides(upper, ISSUED_BY_A, ISSUED_BY_B, PARTNER, Key("passport", "V"));
    LastRecordDecides(upper, ISSUED_BY_B, ISSUED_BY_A, PARTNER, Key("passport", "V"));
  }

  lemma EmittedIsUnder(upper: Upper, obs: seq<Observation>, key: Key, m: Id, n: Id)
    ensures EmittedUnder(upper, obs, key, m, n) ==>
      exists p :: Emitted(upper, obs, Keys(upper, obs), p) && p.mentionA == m && p.mentionB == n
  {
    hide KeyOf, Ordered, Conflict;
    if EmittedUnder(upper, obs, key, m, n) {
      var p, i, j :| FromPlaces(Ordered(upper, obs, key), p, i, j) && p.mentionA == m && p.mentionB == n;
      HeldKey(upper, obs, key, i);
      assert Emitted(upper, obs, Keys(upper, obs), p);
    }
  }

  lemma HeldKey(upper: Upper, obs: seq<Observation>, key: Key, i: nat)
    requires i < |Ordered(upper, obs, key)|
    ensures key in Keys(upper, obs)
  {
    hide KeyOf, Holders;
    var m := Ordered(upper, obs, key)[i].mention;
    PlacesAreHolders(upper, obs, key);
    HoldersAreSeen(upper, obs, key, m);
  }
}
