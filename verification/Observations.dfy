/** Which mentions an identifier claim speaks for, and what a merge does to that
    (aegis/er/rules.py:397-408). */
module Observations {
  import opened Common
  import opened Lineage
  import opened Store
  import opened LedgerInvariant
  import opened LedgerSteps
  import opened LedgerRuns
  import opened LedgerReversal
  import opened LedgerSplit

  /** The mentions the rule observes for a claim: its anchor, else what its stored subject holds. */
  ghost function SpeaksFor(s: Tables, c: Claim): set<Id> {
    if c.subjectMention.Some? then {c.subjectMention.value} else Held(s.memberships, c.subjectId)
  }

  /** The mentions the claim applies to: its anchor, else the whole entity its subject stands for. */
  ghost function AppliesTo(s: Tables, c: Claim): set<Id> {
    if c.subjectMention.Some? then {c.subjectMention.value}
    else Held(s.memberships, Lookup(s.canonical, c.subjectId))
  }

  /** The rule hears a claim on the whole entity if and only if the claim is anchored or its
      subject still resolves to itself; otherwise it does not hear the claim at all. */
  lemma HeardIff(s: Tables, c: Claim)
    requires Valid(s)
    ensures SpeaksFor(s, c) == AppliesTo(s, c)
      <==> c.subjectMention.Some? || Lookup(s.canonical, c.subjectId) == c.subjectId
    ensures SpeaksFor(s, c) != AppliesTo(s, c) ==> SpeaksFor(s, c) == {}
  {
    hide Valid, Held, LineageOf, Lookup, Resolve;
    MapAnswers(s, c.subjectId);
    if c.subjectMention.None? && Lookup(s.canonical, c.subjectId) != c.subjectId {
      AbsorbedHoldsNone(s, c.subjectId);
      ResolvesToHolders(s);
    }
  }

  /** An entity that resolves elsewhere held mentions once and holds none now. */
  lemma AbsorbedHoldsNone(s: Tables, e: Id)
    requires Valid(s) && Resolve(LineageOf(s), e) != Some(e)
    ensures e in EverHeld(s.memberships) && Held(s.memberships, e) == {}
  {
    hide Held, EverHeld, Replay, Exclusive, HandedOver;
    RootStep(LineageOf(s), e);
  }

  /** An accepted merge silences every unanchored claim about the absorbed entity: heard for
      what it held before, for nothing afterwards, though it then applies to what both held. */
  lemma MergeSilences(s: Tables, p: nat, a: Id, b: Id, candidate: Option<Id>, rev: nat, c: Claim)
    requires Valid(s) && s.head < rev && ConfirmMatch(s, p, a, b, candidate, rev).Ok?
    requires c.subjectMention.None? && EntityOf(s.memberships, b) == Some(c.subjectId)
    ensures var s' := ConfirmMatch(s, p, a, b, candidate, rev).value.tables;
      && b in SpeaksFor(s, c) && SpeaksFor(s, c) == AppliesTo(s, c)
      && SpeaksFor(s', c) == {} && a in AppliesTo(s', c) && SpeaksFor(s, c) < AppliesTo(s', c)
  {
    hide Valid, Held, Move, LineageOf, ConfirmMatch, EntityOf, EntitiesOf, ScopeCurrent, CanMove, Lookup, Settle;
    var survivor, absorbed := ConfirmValid(s, p, a, b, candidate, rev);
    var s' := ConfirmMatch(s, p, a, b, candidate, rev).value.tables;
    HolderLooksUp(s, absorbed);
    MoveHeld(s.memberships, Held(s.memberships, absorbed), absorbed, survivor, rev, absorbed);
    MoveHeld(s.memberships, Held(s.memberships, absorbed), absorbed, survivor, rev, survivor);
    MergedLooksUp(s, s', absorbed, survivor);
    ValidParts(s);
    HeldApart(s.memberships, survivor, absorbed);
  }

  lemma MergedLooksUp(s: Tables, s': Tables, absorbed: Id, survivor: Id)
    requires Valid(s) && Valid(s') && LineageOf(s') == LineageOf(s)[absorbed := survivor]
    requires absorbed != survivor && survivor !in LineageOf(s)
    ensures Lookup(s'.canonical, absorbed) == survivor
  {
    hide LineageOf;
    ValidForest(s');
    MapAnswers(s', absorbed);
    RootStep(LineageOf(s'), absorbed);
    RootStep(LineageOf(s'), survivor);
  }
}
