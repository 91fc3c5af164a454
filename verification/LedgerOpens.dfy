/** Opening a membership for an unresolved mention: exactly when it is harmless,
    and the claim writes that do it (aegis/er/ledger.py:79-111,
    aegis/actions/service.py:528-563). */
module LedgerOpens {
  import opened Common
  import opened Lineage
  import opened Lists
  import opened Store
  import opened LedgerInvariant
  import opened LedgerSteps

  /** What a caller can check first: the entity is not absorbed, and if the head revision
      is a merge then the entity is its winner. The migration's explicit revision is the baseline. */
  ghost predicate OpenIsSafe(s: Tables, e: Id, at: Option<nat>) {
    && e !in LineageOf(s)
    && (at.None? && LastDecision(s).Some? && Merging(LastDecision(s).value.kind) ==>
          e in Opened(s.memberships, s.head))
    && (at.Some? ==> at.value == 0)
  }

  /** The stored map answers what a rebuild would, and holders resolve to themselves. */
  ghost predicate Coherent(s: Tables) {
    && Forest(LineageOf(s))
    && MapCurrent(s.canonical, LineageOf(s))
    && forall e :: Held(s.memberships, e) != {} ==> Root(LineageOf(s), e) == e
  }

  // ------------------------------------------------------------ one more row

  function Row(m: Id, e: Id, rev: nat): Membership { Membership(m, e, rev, None) }

  lemma OpenRevisions(ms: set<Membership>, m: Id, e: Id, rev: nat, r: nat)
    ensures Opened(ms + {Row(m, e, rev)}, r) == Opened(ms, r) + (if r == rev then {e} else {})
    ensures Closed(ms + {Row(m, e, rev)}, r) == Closed(ms, r)
  {
    var ms' := ms + {Row(m, e, rev)};
    assert Row(m, e, rev) in ms';
    forall x | x in Opened(ms, r) ensures x in Opened(ms', r) {
      var q :| q in ms && q.openedAt == r && q.entity == x;
      assert q in ms';
    }
    forall x | x in Closed(ms, r) ensures x in Closed(ms', r) {
      var q :| q in ms && q.closedAt == Some(r) && q.entity == x;
      assert q in ms';
    }
  }

  lemma OpenHeld(ms: set<Membership>, m: Id, e: Id, rev: nat, x: Id)
    ensures Held(ms + {Row(m, e, rev)}, x) == Held(ms, x) + (if x == e then {m} else {})
  {
    var ms' := ms + {Row(m, e, rev)};
    assert Row(m, e, rev) in ms';
    forall n | n in Held(ms, x) ensures n in Held(ms', x) {
      var q :| q in ms && q.Active() && q.entity == x && q.mention == n;
      assert q in ms';
    }
  }

  lemma OpenEverHeld(ms: set<Membership>, m: Id, e: Id, rev: nat)
    ensures EverHeld(ms + {Row(m, e, rev)}) == EverHeld(ms) + {e}
  {
    var ms' := ms + {Row(m, e, rev)};
    assert Row(m, e, rev) in ms';
    forall x | x in EverHeld(ms) ensures x in EverHeld(ms') {
      var q :| q in ms && q.entity == x;
      assert q in ms';
    }
  }

  /** A mention that ever belonged somewhere belongs somewhere now. */
  lemma {:induction false} StaysResolved(ms: set<Membership>, head: nat, r: Membership) returns (q: Membership)
    requires HandedOver(ms) && r in ms
    requires forall x :: x in ms && x.closedAt.Some? ==> x.openedAt < x.closedAt.value <= head
    ensures IsActiveRow(ms, r.mention, q)
    decreases head - r.openedAt
  {
    if r.Active() {
      q := r;
    } else {
      assert Continued(ms, r);
      var next :| next in ms && TakesOver(next, r);
      q := StaysResolved(ms, head, next);
    }
  }

  lemma OpenTiled(s: Tables, m: Id, e: Id, rev: nat)
    requires RowsInRange(s.memberships, s.head, s.entities) && Tiled(s.memberships)
    requires EntityOf(s.memberships, m).None?
    ensures Tiled(s.memberships + {Row(m, e, rev)})
  {
    var ms' := s.memberships + {Row(m, e, rev)};
    forall r | r in s.memberships ensures r.mention != m {
      var q := StaysResolved(s.memberships, s.head, r);
    }
    forall r | r in ms' && r.closedAt.Some? ensures Continued(ms', r) {
      assert Continued(s.memberships, r);
      var q :| q in s.memberships && TakesOver(q, r);
      assert q in ms';
    }
  }

  // ---------------------------------------------------------------- lineage

  lemma ReplayBefore(s: Tables, m: Id, e: Id, rev: nat, ds: seq<Decision>)
    requires forall i :: 0 <= i < |ds| ==> ds[i].resultRevision != rev
    ensures Replay(s.memberships + {Row(m, e, rev)}, ds) == Replay(s.memberships, ds)
  {
    forall i | 0 <= i < |ds|
      ensures Opened(s.memberships, ds[i].resultRevision)
              == Opened(s.memberships + {Row(m, e, rev)}, ds[i].resultRevision)
      ensures Closed(s.memberships, ds[i].resultRevision)
              == Closed(s.memberships + {Row(m, e, rev)}, ds[i].resultRevision)
    {
      OpenRevisions(s.memberships, m, e, rev, ds[i].resultRevision);
    }
    ReplayFrame(s.memberships, s.memberships + {Row(m, e, rev)}, ds);
  }

  /** The replay after an open that lands on the head revision. */
  lemma ReplayAfterOpen(s: Tables, m: Id, e: Id)
    requires DecisionsInOrder(s.decisions, s.head)
    ensures var ms' := s.memberships + {Row(m, e, s.head)};
      Replay(ms', s.decisions)
      == match LastDecision(s)
         case None => LineageOf(s)
         case Some(d) =>
           ReplayStep(Replay(s.memberships, s.decisions[..|s.decisions| - 1]), d.kind,
                      Opened(s.memberships, s.head) + {e}, Closed(s.memberships, s.head))
  {
    if LastDecision(s).None? {
      ReplayBefore(s, m, e, s.head, s.decisions);
    } else {
      ReplayBefore(s, m, e, s.head, s.decisions[..|s.decisions| - 1]);
      OpenRevisions(s.memberships, m, e, s.head, s.head);
    }
  }

  lemma HeadMergePair(s: Tables) returns (a: Id, w: Id)
    requires Valid(s) && LastDecision(s).Some? && Merging(LastDecision(s).value.kind)
    ensures MergedAt(s.memberships, s.head, a, w)
    ensures a !in Replay(s.memberships, s.decisions[..|s.decisions| - 1])
    ensures LineageOf(s) == Replay(s.memberships, s.decisions[..|s.decisions| - 1])[a := w]
    ensures w !in LineageOf(s)
  {
    a, w :| && MergedAt(s.memberships, s.head, a, w)
            && a !in Replay(s.memberships, s.decisions[..|s.decisions| - 1])
            && LineageOf(s) == Replay(s.memberships, s.decisions[..|s.decisions| - 1])[a := w];
    WinnerIsRoot(s, w);
  }

  /** A row opened at the head revision is still active, so its entity is a root. */
  lemma WinnerIsRoot(s: Tables, w: Id)
    requires Valid(s) && w in Opened(s.memberships, s.head)
    ensures w !in LineageOf(s)
  {
    var r :| r in s.memberships && r.openedAt == s.head && r.entity == w;
    assert r.mention in Held(s.memberships, w);
    HolderIsRoot(s, w);
  }

  /** A safe open changes nothing that replay reads. */
  lemma SafeOpenLineage(s: Tables, m: Id, e: Id, at: Option<nat>)
    requires Valid(s) && OpenIsSafe(s, e, at)
    ensures var ms' := s.memberships + {Row(m, e, if at.Some? then at.value else s.head)};
      Replay(ms', s.decisions) == LineageOf(s)
  {
    if at.Some? {
      ReplayBefore(s, m, e, 0, s.decisions);
    } else {
      ReplayAfterOpen(s, m, e);
      if LastDecision(s).Some? {
        if Merging(LastDecision(s).value.kind) {
          var a, w := HeadMergePair(s);
          assert Opened(s.memberships, s.head) + {e} == Opened(s.memberships, s.head);
        }
      }
    }
  }

  lemma SafeOpenHead(s: Tables, m: Id, e: Id, at: Option<nat>, s': Tables)
    requires Valid(s) && OpenIsSafe(s, e, at)
    requires s' == s.(memberships := s.memberships + {Row(m, e, if at.Some? then at.value else s.head)})
    ensures LineageOf(s') == LineageOf(s)
    ensures HeadMerge(s')
  {
    hide Held, EverHeld, Exclusive, RowsInRange, ClaimsAnchored, LineageMatches, MapCurrent;
    SafeOpenLineage(s, m, e, at);
    if LastDecision(s').Some? && Merging(LastDecision(s').value.kind) {
      var a, w := HeadMergePair(s);
      var rev := if at.Some? then at.value else s.head;
      OpenRevisions(s.memberships, m, e, rev, s.head);
      if at.Some? {
        ReplayBefore(s, m, e, 0, s.decisions[..|s.decisions| - 1]);
      } else {
        ReplayBefore(s, m, e, s.head, s.decisions[..|s.decisions| - 1]);
      }
      assert MergedAt(s'.memberships, s'.head, a, w);
    }
  }

  lemma OpenMatches(ms: set<Membership>, parent: Parent, m: Id, e: Id, rev: nat)
    requires LineageMatches(ms, parent) && e !in parent
    ensures LineageMatches(ms + {Row(m, e, rev)}, parent)
  {
    var ms' := ms + {Row(m, e, rev)};
    OpenEverHeld(ms, m, e, rev);
    forall x | x in EverHeld(ms') ensures x !in parent <==> Held(ms', x) != {} {
      OpenHeld(ms, m, e, rev, x);
      if x == e {
        assert m in Held(ms', x);
      }
    }
  }

  /** A safe open keeps every invariant and the lineage. */
  lemma OpenValid(s: Tables, m: Id, e: Id, at: Option<nat>)
    requires Valid(s) && OpenMembership(s, m, e, at).Ok? && OpenIsSafe(s, e, at)
    ensures var s' := OpenMembership(s, m, e, at).value;
      Valid(s') && LineageOf(s') == LineageOf(s)
  {
    var rev := if at.Some? then at.value else s.head;
    var s' := OpenMembership(s, m, e, at).value;
    assert s' == s.(memberships := s.memberships + {Row(m, e, rev)});
    SafeOpenHead(s, m, e, at, s');
    OpenTiled(s, m, e, rev);
    OpenMatches(s.memberships, LineageOf(s), m, e, rev);
    forall r | r in s.memberships ensures EverIn(s'.memberships, r.mention, r.entity) {
      assert r in s'.memberships;
    }
    AnchorsSurvive(s, s');
  }

  lemma OpenAddsHolder(s: Tables, m: Id, e: Id)
    requires OpenMembership(s, m, e, None).Ok?
    ensures m in Held(OpenMembership(s, m, e, None).value.memberships, e)
  {
    OpenHeld(s.memberships, m, e, s.head, e);
    assert OpenMembership(s, m, e, None).value.memberships == s.memberships + {Row(m, e, s.head)};
  }

  // ------------------------------------------------------- symmetric claims

  /** The same claim said the other way round. */
  function Mirrored(c: Claim): Claim
    requires c.objectId.Some?
  {
    c.(subjectId := c.objectId.value, objectId := Some(c.subjectId),
       subjectMention := c.objectMention, objectMention := c.subjectMention)
  }

  /** A claim under a symmetric predicate is stored alike whichever way round it is given,
      smaller id first and each anchor beside the argument it anchors. */
  lemma EitherWayRound(entities: set<Id>, c: Claim)
    requires c.objectId.Some? && c.objectId.value != c.subjectId
    requires Drafted(entities, c, false, true).Ok?
    ensures Drafted(entities, Mirrored(c), false, true) == Drafted(entities, c, false, true)
    ensures var stored := Drafted(entities, c, false, true).value;
      && Before(stored.subjectId, stored.objectId.value)
      && stored.subjectMention == (if stored.subjectId == c.subjectId then c.subjectMention else c.objectMention)
  {
    hide Before;
    BeforeIsStrictOrder();
  }

  lemma ValidIsCoherent(s: Tables)
    requires Valid(s)
    ensures Coherent(s)
  {
    forall e | Held(s.memberships, e) != {} ensures Root(LineageOf(s), e) == e {
      HolderIsRoot(s, e);
      RootStep(LineageOf(s), e);
    }
  }

  /** A merge revision at which another entity gains too is replayed as no merge: the stored map
      still sends the absorbed entity to the winner. */
  lemma ForgottenMerge(s: Tables, s': Tables, e: Id)
    requires Valid(s) && LastDecision(s).Some? && Merging(LastDecision(s).value.kind)
    requires e !in Opened(s.memberships, s.head) && s'.canonical == s.canonical
    requires LineageOf(s') == ReplayStep(Replay(s.memberships, s.decisions[..|s.decisions| - 1]),
                                         LastDecision(s).value.kind,
                                         Opened(s.memberships, s.head) + {e}, Closed(s.memberships, s.head))
    ensures !Coherent(s')
  {
    hide RowsInRange, Exclusive, HandedOver, DecisionsInOrder, LineageMatches, ClaimsAnchored, Held, EverHeld, Opened,
      Closed, Replay;
    var a, w := HeadMergePair(s);
    MoreThanOne(Opened(s.memberships, s.head) + {e}, w, e);
    RootStep(LineageOf(s), a);
    RootStep(LineageOf(s), w);
    assert Lookup(s.canonical, a) == Root(LineageOf(s), a) == w;
    if Forest(LineageOf(s')) {
      RootStep(LineageOf(s'), a);
    }
  }

  /** An absorbed entity that holds a mention resolves elsewhere by the stored map. */
  lemma AbsorbedHolder(s: Tables, s': Tables, e: Id)
    requires Valid(s) && e in LineageOf(s) && s'.canonical == s.canonical && Held(s'.memberships, e) != {}
    ensures !Coherent(s')
  {
    hide RowsInRange, Exclusive, HandedOver, DecisionsInOrder, LineageMatches, ClaimsAnchored, Held, EverHeld, Replay;
    HasForest(s);
    RootStep(LineageOf(s), e);
    assert Lookup(s.canonical, e) == Root(LineageOf(s), e);
    if Forest(LineageOf(s')) && MapCurrent(s'.canonical, LineageOf(s')) {
      assert Lookup(s'.canonical, e) == Root(LineageOf(s'), e);
    }
  }

  lemma HasForest(s: Tables)
    requires Valid(s)
    ensures Forest(LineageOf(s))
  {
  }

  /** An unsafe open at the head revision leaves a stored map that no rebuild would give,
      or a holder that resolves elsewhere. */
  lemma UnsafeOpenIncoherent(s: Tables, m: Id, e: Id)
    requires Valid(s) && OpenMembership(s, m, e, None).Ok? && !OpenIsSafe(s, e, None)
    ensures !Coherent(OpenMembership(s, m, e, None).value)
  {
    hide Valid, Coherent, Held, Opened, Closed, EntityOf, Replay, ReplayStep;
    var s' := OpenMembership(s, m, e, None).value;
    OpenAddsHolder(s, m, e);
    if e in LineageOf(s) {
      AbsorbedHolder(s, s', e);
    } else {
      assert DecisionsInOrder(s.decisions, s.head) by { HasOrder(s); }
      ReplayAfterOpen(s, m, e);
      LineageReplayed(s', s.memberships + {Row(m, e, s.head)}, s.decisions);
      ForgottenMerge(s, s', e);
    }
  }

  lemma HasOrder(s: Tables)
    requires Valid(s)
    ensures DecisionsInOrder(s.decisions, s.head)
  {
  }

  lemma LineageReplayed(s: Tables, ms: set<Membership>, ds: seq<Decision>)
    requires s.memberships == ms && s.decisions == ds
    ensures LineageOf(s) == Replay(ms, ds)
  {
  }

  /** The exact condition: a default-revision open leaves the ledger coherent if and only
      if its entity is not absorbed and, on a merge revision, is the merge's winner. */
  lemma OpenCoherentIff(s: Tables, m: Id, e: Id)
    requires Valid(s) && OpenMembership(s, m, e, None).Ok?
    ensures Coherent(OpenMembership(s, m, e, None).value) <==> OpenIsSafe(s, e, None)
  {
    if OpenIsSafe(s, e, None) {
      OpenValid(s, m, e, None);
      ValidIsCoherent(OpenMembership(s, m, e, None).value);
    } else {
      UnsafeOpenIncoherent(s, m, e);
    }
  }
}
