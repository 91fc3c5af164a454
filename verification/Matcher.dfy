/** The deterministic identifier rule and the same-document rule
    (aegis/er/rules.py:74-221, 385-394). */
module Matcher {
  import opened Common
  import opened Store

  /** One mention reachable from one identifier claim. */
  datatype Observation = Observation(mention: Id, claim: Id, predicate_: Id, value: string,
                                     jurisdiction: Option<string>, validFrom: Option<int>, validTo: Option<int>)

  datatype Pair = Pair(mentionA: Id, mentionB: Id, predicate_: Id, claims: set<Id>, jurisdictions: set<string>)

  /** Observations are compared within one predicate and one normalised value. */
  datatype Key = Key(predicate_: Id, value: string)

  /** One mention as the same-document rule sees it. */
  datatype MentionKey = MentionKey(mention: Id, record: Id, normKey: string)

  /** `str.upper`, whose tables are not part of this model. */
  type Upper = string -> string

  // ----------------------------------------------------------------- conflicts

  predicate WindowsOverlap(l: Observation, r: Observation) {
    && !(l.validTo.Some? && r.validFrom.Some? && l.validTo.value < r.validFrom.value)
    && !(r.validTo.Some? && l.validFrom.Some? && r.validTo.value < l.validFrom.value)
  }

  predicate Conflict(l: Observation, r: Observation) {
    || (l.jurisdiction.Some? && r.jurisdiction.Some? && l.jurisdiction != r.jurisdiction)
    || !WindowsOverlap(l, r)
  }

  predicate InWindow(o: Observation, d: int) {
    (o.validFrom.Some? ==> o.validFrom.value <= d) && (o.validTo.Some? ==> d <= o.validTo.value)
  }

  /** Two windows that are not inverted overlap exactly when some day lies in both. */
  lemma OverlapIsSharedDay(l: Observation, r: Observation)
    requires l.validFrom.Some? && l.validTo.Some? ==> l.validFrom.value <= l.validTo.value
    requires r.validFrom.Some? && r.validTo.Some? ==> r.validFrom.value <= r.validTo.value
    ensures WindowsOverlap(l, r) <==> exists d :: InWindow(l, d) && InWindow(r, d)
  {
    if WindowsOverlap(l, r) {
      var d := if l.validFrom.Some? then
                 if r.validFrom.Some? && l.validFrom.value < r.validFrom.value then r.validFrom.value
                 else l.validFrom.value
               else if r.validFrom.Some? then r.validFrom.value
               else if l.validTo.Some? then
                 if r.validTo.Some? && r.validTo.value < l.validTo.value then r.validTo.value else l.validTo.value
               else if r.validTo.Some? then r.validTo.value else 0;
      assert InWindow(l, d) && InWindow(r, d);
    }
  }

  // -------------------------------------------------------------------- groups

  function Squeeze(text: string): string {
    if text == "" then ""
    else (if IsSpace(text[0]) then "" else [text[0]]) + Squeeze(text[1..])
  }

  /** Case and spacing removed; None when nothing is left. */
  function IdentifierValue(upper: Upper, text: string): Option<string> {
    var value := upper(Squeeze(text));
    if value == "" then None else Some(value)
  }

  function KeyOf(upper: Upper, o: Observation): Option<Key> {
    var v := IdentifierValue(upper, o.value);
    if v.None? then None else Some(Key(o.predicate_, v.value))
  }

  function GroupOf(upper: Upper, obs: seq<Observation>, key: Key): seq<Observation> {
    if obs == [] then []
    else
      var last := obs[|obs| - 1];
      if KeyOf(upper, last) == Some(key) then GroupOf(upper, obs[..|obs| - 1], key) + [last]
      else GroupOf(upper, obs[..|obs| - 1], key)
  }

  /** One observation per mention: the last one seen wins. */
  function LastBy(q: seq<Observation>): map<Id, Observation> {
    if q == [] then map[] else LastBy(q[..|q| - 1])[q[|q| - 1].mention := q[|q| - 1]]
  }

  ghost function Keys(upper: Upper, obs: seq<Observation>): set<Key> {
    set o | o in obs && KeyOf(upper, o).Some? :: KeyOf(upper, o).value
  }

  /** The distinct mentions observed under a key. */
  ghost function MentionsUnder(upper: Upper, obs: seq<Observation>, key: Key): set<Id> {
    set o | o in obs && KeyOf(upper, o) == Some(key) :: o.mention
  }

  ghost function Mentions(upper: Upper, obs: seq<Observation>): map<Key, set<Id>> {
    map key | key in Keys(upper, obs) :: MentionsUnder(upper, obs, key)
  }

  ghost function Holders(upper: Upper, obs: seq<Observation>, key: Key): map<Id, Observation> {
    LastBy(GroupOf(upper, obs, key))
  }

  lemma {:induction false} HoldersAreObserved(upper: Upper, obs: seq<Observation>, key: Key)
    ensures forall o :: o in GroupOf(upper, obs, key) ==> o in obs && KeyOf(upper, o) == Some(key)
  {
    if obs == [] {
    } else {
      HoldersAreObserved(upper, obs[..|obs| - 1], key);
    }
  }

  lemma {:induction false} LastByIsMember(q: seq<Observation>)
    ensures forall m :: m in LastBy(q) ==> LastBy(q)[m] in q && LastBy(q)[m].mention == m
    ensures forall o :: o in q ==> o.mention in LastBy(q)
  {
    if q == [] {
    } else {
      LastByIsMember(q[..|q| - 1]);
      assert q == q[..|q| - 1] + [q[|q| - 1]];
    }
  }

  lemma {:induction false} GroupIsComplete(upper: Upper, obs: seq<Observation>, key: Key)
    ensures forall o :: o in obs && KeyOf(upper, o) == Some(key) ==> o in GroupOf(upper, obs, key)
  {
    if obs == [] {
    } else {
      GroupIsComplete(upper, obs[..|obs| - 1], key);
      assert obs == obs[..|obs| - 1] + [obs[|obs| - 1]];
    }
  }

  /** One holder for each distinct mention of the group. */
  lemma HoldersPerMention(upper: Upper, obs: seq<Observation>, key: Key)
    ensures Holders(upper, obs, key).Keys == MentionsUnder(upper, obs, key)
  {
    hide KeyOf;
    HoldersAreObserved(upper, obs, key);
    GroupIsComplete(upper, obs, key);
    LastByIsMember(GroupOf(upper, obs, key));
  }

  // --------------------------------------------------------------- counting pairs

  /** Unordered pairs among `n` things. */
  function PairsAmong(n: nat): nat { if n == 0 then 0 else PairsAmong(n - 1) + (n - 1) }

  lemma {:induction false} PairsFormula(n: nat)
    ensures 2 * PairsAmong(n) == n * (n - 1)
  {
    if n == 0 {
    } else {
      PairsFormula(n - 1);
    }
  }

  /** The unordered pairs inside all the groups together. */
  ghost function PairTotal<K(!new)>(groups: map<K, set<Id>>): nat
    decreases |groups|
  {
    if groups == map[] then 0
    else
      var key :| key in groups;
      PairsAmong(|groups[key]|) + PairTotal(groups - {key})
  }

  lemma {:induction false} PairTotalTake<K(!new)>(groups: map<K, set<Id>>, key: K)
    requires key in groups
    ensures PairTotal(groups) == PairsAmong(|groups[key]|) + PairTotal(groups - {key})
    decreases |groups|
  {
    var first :| first in groups && PairTotal(groups) == PairsAmong(|groups[first]|) + PairTotal(groups - {first});
    if first == key {
    } else {
      PairTotalTake(groups - {first}, key);
      PairTotalTake(groups - {key}, first);
      assert groups - {first} - {key} == groups - {key} - {first};
    }
  }

  // ----------------------------------------------------------------- pairing up

  function SomeOf(o: Option<string>): set<string> { if o.Some? then {o.value} else {} }

  function PairFrom(l: Observation, r: Observation): Pair {
    Pair(l.mention, r.mention, l.predicate_, {l.claim, r.claim}, SomeOf(l.jurisdiction) + SomeOf(r.jurisdiction))
  }

  /** The pair comes from two places of the list that do not conflict. */
  ghost predicate FromPlaces(q: seq<Observation>, p: Pair, i: int, j: int) {
    0 <= i < j < |q| && !Conflict(q[i], q[j]) && p == PairFrom(q[i], q[j])
  }

  /** All pairs of a list ordered by mention, conflicting ones counted instead of kept. */
  method PairUp(q: seq<Observation>) returns (pairs: seq<Pair>, suppressed: nat)
    ensures |pairs| + suppressed == PairsAmong(|q|)
    ensures forall p :: p in pairs <==> exists i, j :: FromPlaces(q, p, i, j)
  {
    hide Conflict;
    pairs, suppressed := [], 0;
    var i := 0;
    while i < |q|
      invariant 0 <= i <= |q|
      invariant |pairs| + suppressed + PairsAmong(|q| - i) == PairsAmong(|q|)
      invariant forall p :: p in pairs <==> exists k, l :: k < i && FromPlaces(q, p, k, l)
    {
      ghost var pairs0 := pairs;
      ghost var count := |pairs| + suppressed;
      var j := i + 1;
      while j < |q|
        invariant i < j <= |q|
        invariant |pairs| + suppressed == count + (j - i - 1)
        invariant forall p :: p in pairs <==> p in pairs0 || exists l :: l < j && FromPlaces(q, p, i, l)
      {
        ghost var before := pairs;
        if Conflict(q[i], q[j]) {
          suppressed := suppressed + 1;
        } else {
          pairs := pairs + [PairFrom(q[i], q[j])];
          assert FromPlaces(q, PairFrom(q[i], q[j]), i, j);
        }
        j := j + 1;
      }
      i := i + 1;
    }
  }

  /** The holders of a group, ordered by mention. */
  ghost function Ordered(upper: Upper, obs: seq<Observation>, key: Key): seq<Observation> {
    var holders := Holders(upper, obs, key);
    var ids := Ids(holders.Keys);
    seq(|ids|, i requires 0 <= i < |ids| => holders[ids[i]])
  }

  method OrderHolders(group: seq<Observation>) returns (q: seq<Observation>)
    ensures var holders := LastBy(group);
      var ids := Ids(holders.Keys);
      q == seq(|ids|, i requires 0 <= i < |ids| => holders[ids[i]])
  {
    hide Ids;
    var unique: map<Id, Observation> := map[];
    var i := 0;
    while i < |group|
      invariant 0 <= i <= |group|
      invariant unique == LastBy(group[..i])
    {
      assert group[..i + 1][..i] == group[..i];
      unique := unique[group[i].mention := group[i]];
      i := i + 1;
    }
    assert group[..|group|] == group;
    var ids := ListIds(unique.Keys);
    q := seq(|ids|, i requires 0 <= i < |ids| => unique[ids[i]]);
  }

  function Grouped(groups: map<Key, seq<Observation>>, key: Key): seq<Observation> {
    if key in groups then groups[key] else []
  }

  lemma GroupNext(upper: Upper, obs: seq<Observation>, o: Observation, key: Key)
    ensures GroupOf(upper, obs + [o], key)
      == if KeyOf(upper, o) == Some(key) then GroupOf(upper, obs, key) + [o] else GroupOf(upper, obs, key)
  {
    hide KeyOf;
    assert (obs + [o])[..|obs|] == obs;
  }

  method GroupObservations(upper: Upper, obs: seq<Observation>) returns (groups: map<Key, seq<Observation>>)
    ensures groups.Keys == Keys(upper, obs)
    ensures forall key :: Grouped(groups, key) == GroupOf(upper, obs, key)
  {
    hide KeyOf, GroupOf, Keys;
    groups := map[];
    var i := 0;
    NoGroups(upper);
    assert obs[..0] == [];
    while i < |obs|
      invariant 0 <= i <= |obs|
      invariant groups.Keys == Keys(upper, obs[..i])
      invariant forall key :: Grouped(groups, key) == GroupOf(upper, obs[..i], key)
    {
      ghost var before := groups;
      var o := obs[i];
      assert obs[..i + 1] == obs[..i] + [o];
      var key := KeyOf(upper, o);
      KeysNext(upper, obs[..i], o);
      if key.Some? {
        groups := groups[key.value := Grouped(groups, key.value) + [o]];
      }
      forall k ensures Grouped(groups, k) == GroupOf(upper, obs[..i + 1], k) {
        GroupNext(upper, obs[..i], o, k);
        assert Grouped(before, k) == GroupOf(upper, obs[..i], k);
      }
      i := i + 1;
    }
    assert obs[..|obs|] == obs;
  }

  lemma NoGroups(upper: Upper)
    ensures Keys(upper, []) == {} && forall key :: GroupOf(upper, [], key) == []
  {
  }

  lemma KeysNext(upper: Upper, obs: seq<Observation>, o: Observation)
    ensures Keys(upper, obs + [o])
      == Keys(upper, obs) + if KeyOf(upper, o).Some? then {KeyOf(upper, o).value} else {}
  {
    hide KeyOf;
    var all := obs + [o];
    assert o in all && forall x :: x in all <==> x in obs || x == o;
    forall k | k in Keys(upper, obs) ensures k in Keys(upper, all) {
      var x :| x in obs && KeyOf(upper, x).Some? && KeyOf(upper, x).value == k;
      assert x in all;
    }
  }

  /** Two holders of one of the groups make the pair. */
  ghost predicate Emitted(upper: Upper, obs: seq<Observation>, keys: set<Key>, p: Pair) {
    exists key, i, j :: key in keys && FromPlaces(Ordered(upper, obs, key), p, i, j)
  }

  /** The identifier rule: nothing is lost between emitted and suppressed, and a pair is
      emitted exactly for two non-conflicting holders of one group. */
  method EvaluateIdentifiers(upper: Upper, obs: seq<Observation>) returns (pairs: seq<Pair>, suppressed: nat)
    ensures |pairs| + suppressed == PairTotal(Mentions(upper, obs))
    ensures forall p :: p in pairs <==> Emitted(upper, obs, Keys(upper, obs), p)
  {
    hide Keys, KeyOf, FromPlaces, GroupOf, LastBy, Ids, MentionsUnder, PairTotal;
    var groups := GroupObservations(upper, obs);
    pairs, suppressed := [], 0;
    var todo := groups.Keys;
    ghost var all := Keys(upper, obs);
    ghost var rest := Mentions(upper, obs);
    while todo != {}
      invariant todo <= all && rest.Keys == todo
      invariant forall key :: key in todo ==> rest[key] == MentionsUnder(upper, obs, key)
      invariant |pairs| + suppressed + PairTotal(rest) == PairTotal(Mentions(upper, obs))
      invariant forall p :: p in pairs <==> Emitted(upper, obs, all - todo, p)
      decreases todo
    {
      var key :| key in todo;
      assert Grouped(groups, key) == GroupOf(upper, obs, key);
      var ordered := OrderHolders(groups[key]);
      assert ordered == Ordered(upper, obs, key);
      HoldersPerMention(upper, obs, key);
      PairTotalTake(rest, key);
      var more, conflicts := PairUp(ordered);
      pairs := pairs + more;
      suppressed := suppressed + conflicts;
      rest := rest - {key};
      todo := todo - {key};
    }
    EmptyTotal(rest);
  }

  lemma EmptyTotal<K(!new)>(groups: map<K, set<Id>>)
    requires groups.Keys == {}
    ensures PairTotal(groups) == 0
  {
    assert groups == map[];
  }

  /** Two observations of the key that do not conflict, one for each mention of the pair. */
  ghost predicate Witnesses(upper: Upper, obs: seq<Observation>, key: Key, p: Pair, l: Observation, r: Observation) {
    && l in obs && r in obs && KeyOf(upper, l) == Some(key) && KeyOf(upper, r) == Some(key)
    && l.mention == p.mentionA && r.mention == p.mentionB && !Conflict(l, r)
    && p.claims == {l.claim, r.claim} && p.predicate_ == key.predicate_
  }

  lemma HoldersWitness(upper: Upper, obs: seq<Observation>, key: Key, p: Pair, i: nat, j: nat)
    requires FromPlaces(Ordered(upper, obs, key), p, i, j)
    ensures Before(p.mentionA, p.mentionB)
    ensures exists l, r :: Witnesses(upper, obs, key, p, l, r)
  {
    hide Conflict, Before, Ids, KeyOf, GroupOf, LastBy;
    var holders := Holders(upper, obs, key);
    var ids := Ids(holders.Keys);
    HoldersAreObserved(upper, obs, key);
    LastByIsMember(GroupOf(upper, obs, key));
    assert ids[i] in ids && ids[j] in ids;
    var l, r := holders[ids[i]], holders[ids[j]];
    assert KeyOf(upper, l) == Some(key) && l.predicate_ == key.predicate_ by { KeyHoldsPredicate(upper, l); }
    assert Witnesses(upper, obs, key, p, l, r);
  }

  lemma KeyHoldsPredicate(upper: Upper, o: Observation)
    ensures KeyOf(upper, o).Some? ==> KeyOf(upper, o).value.predicate_ == o.predicate_
  {
  }

  /** Every emitted pair is in order and has two witnesses among the observations. */
  lemma EmittedHaveWitnesses(upper: Upper, obs: seq<Observation>, p: Pair)
    requires Emitted(upper, obs, Keys(upper, obs), p)
    ensures Before(p.mentionA, p.mentionB)
    ensures exists key, l, r :: Witnesses(upper, obs, key, p, l, r)
  {
    hide *;
    var key, i, j := PlacesOf(upper, obs, p);
    HoldersWitness(upper, obs, key, p, i, j);
  }

  lemma PlacesOf(upper: Upper, obs: seq<Observation>, p: Pair) returns (key: Key, i: nat, j: nat)
    requires Emitted(upper, obs, Keys(upper, obs), p)
    ensures FromPlaces(Ordered(upper, obs, key), p, i, j)
  {
    hide Keys, Ordered, Conflict, PairFrom;
    key, i, j :| key in Keys(upper, obs) && FromPlaces(Ordered(upper, obs, key), p, i, j);
  }

  // ------------------------------------------------------- same-document rule

  /** Two mentions of one record that share a normalized key, smaller id first. */
  ghost predicate SameKey(keys: seq<MentionKey>, p: (Id, Id)) {
    && Before(p.0, p.1)
    && exists x, y :: x in keys && y in keys && x.mention == p.0 && y.mention == p.1
                      && x.record == y.record && x.normKey == y.normKey
  }

  function DocumentOf(k: MentionKey): (Id, string) { (k.record, k.normKey) }

  ghost function Documents(keys: seq<MentionKey>): set<(Id, string)> {
    set k | k in keys :: DocumentOf(k)
  }

  ghost function MentionsIn(keys: seq<MentionKey>, d: (Id, string)): set<Id> {
    set x | x in keys && DocumentOf(x) == d :: x.mention
  }

  /** The mentions of each record and normalized key. */
  ghost function ByDocument(keys: seq<MentionKey>): map<(Id, string), set<Id>> {
    map d | d in Documents(keys) :: MentionsIn(keys, d)
  }

  lemma DocumentsNext(keys: seq<MentionKey>, k: MentionKey, d: (Id, string))
    ensures Documents(keys + [k]) == Documents(keys) + {DocumentOf(k)}
    ensures MentionsIn(keys + [k], d) == MentionsIn(keys, d) + if DocumentOf(k) == d then {k.mention} else {}
    ensures d !in Documents(keys) ==> MentionsIn(keys, d) == {}
  {
    hide DocumentOf;
    assert forall x :: x in keys + [k] <==> x in keys || x == k;
  }

  lemma NoDocuments()
    ensures ByDocument([]) == map[]
  {
    assert Documents([]) == {};
  }

  ghost predicate InGroup(groups: map<(Id, string), set<Id>>, d: (Id, string), p: (Id, Id)) {
    d in groups && p.0 in groups[d] && p.1 in groups[d] && Before(p.0, p.1)
  }

  method GroupByDocument(keys: seq<MentionKey>) returns (groups: map<(Id, string), set<Id>>)
    ensures groups == ByDocument(keys)
  {
    hide Documents, MentionsIn;
    NoDocuments();
    groups := map[];
    var i := 0;
    while i < |keys|
      invariant 0 <= i <= |keys|
      invariant groups.Keys == Documents(keys[..i])
      invariant forall e :: e in groups ==> groups[e] == MentionsIn(keys[..i], e)
    {
      assert keys[..i + 1] == keys[..i] + [keys[i]];
      var d := DocumentOf(keys[i]);
      forall e ensures Documents(keys[..i + 1]) == Documents(keys[..i]) + {d}
        && MentionsIn(keys[..i + 1], e) == MentionsIn(keys[..i], e) + (if d == e then {keys[i].mention} else {})
        && (e !in Documents(keys[..i]) ==> MentionsIn(keys[..i], e) == {})
      {
        DocumentsNext(keys[..i], keys[i], e);
      }
      groups := groups[d := (if d in groups then groups[d] else {}) + {keys[i].mention}];
      i := i + 1;
    }
    assert keys[..|keys|] == keys;
    assert groups == ByDocument(keys);
  }

  /** The pairs of one group, smaller mention first. */
  method AllPairs(mentions: set<Id>) returns (pairs: seq<(Id, Id)>)
    ensures |pairs| == PairsAmong(|mentions|)
    ensures forall p :: p in pairs <==> p.0 in mentions && p.1 in mentions && Before(p.0, p.1)
  {
    hide Ids;
    var q := ListIds(mentions);
    pairs := [];
    var i := 0;
    while i < |q|
      invariant 0 <= i <= |q|
      invariant |pairs| + PairsAmong(|q| - i) == PairsAmong(|q|)
      invariant forall p :: p in pairs <==> exists k, l :: 0 <= k < i && k < l < |q| && p == (q[k], q[l])
    {
      var more := seq(|q| - i - 1, k requires 0 <= k < |q| - i - 1 => (q[i], q[i + 1 + k]));
      forall p ensures p in more <==> exists l :: i < l < |q| && p == (q[i], q[l]) {
        if l :| i < l < |q| && p == (q[i], q[l]) {
          assert more[l - i - 1] == p;
        }
      }
      pairs := pairs + more;
      i := i + 1;
    }
    forall p: (Id, Id) | p.0 in mentions && p.1 in mentions && Before(p.0, p.1) ensures p in pairs {
      var k :| 0 <= k < |q| && q[k] == p.0;
      var l :| 0 <= l < |q| && q[l] == p.1;
      BeforeIsStrictOrder();
      assert k < l;
    }
  }

  /** The same-document rule proposes exactly the pairs that share a record and a key, and
      none twice within a group. */
  method EvaluateSameKey(keys: seq<MentionKey>) returns (pairs: seq<(Id, Id)>)
    ensures |pairs| == PairTotal(ByDocument(keys))
    ensures forall p :: p in pairs <==> SameKey(keys, p)
  {
    hide Before, PairTotal;
    var groups := GroupByDocument(keys);
    pairs := [];
    var todo := groups.Keys;
    ghost var rest := groups;
    while todo != {}
      invariant rest.Keys == todo && forall d :: d in todo ==> d in groups && rest[d] == groups[d]
      invariant |pairs| + PairTotal(rest) == PairTotal(groups)
      invariant forall p: (Id, Id) :: p in pairs <==> exists d :: d !in todo && InGroup(groups, d, p)
      decreases todo
    {
      var d :| d in todo;
      PairTotalTake(rest, d);
      var more := AllPairs(groups[d]);
      pairs := pairs + more;
      rest := rest - {d};
      todo := todo - {d};
    }
    EmptyTotal(rest);
    forall p ensures p in pairs <==> SameKey(keys, p) {
      if SameKey(keys, p) {
        var x, y :| x in keys && y in keys && x.mention == p.0 && y.mention == p.1
          && x.record == y.record && x.normKey == y.normKey;
        assert InGroup(groups, DocumentOf(x), p);
      }
    }
  }
}
