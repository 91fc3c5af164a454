/** Reachable ledgers to which the laws apply, and the ones at which a promise fails. */
module LedgerExamples {
  import opened Common
  import opened Lineage
  import opened Lists
  import opened Store
  import opened LedgerInvariant
  import opened LedgerSteps
  import opened LedgerOpens
  import opened LedgerRuns
  import opened LedgerReversal
  import opened LedgerSplit
  import opened LedgerRows
  import opened LedgerCycles
  import opened LedgerNested
  import Projection

  // --------------------------------------------------------------- staging a run

  lemma {:induction false} RunConcat(s: Tables, p: seq<Op>, q: seq<Op>)
    ensures Run(s, p + q) == Run(Run(s, p), q)
    ensures WellFormed(s, p + q) <==> WellFormed(s, p) && WellFormed(Run(s, p), q)
    decreases |p|
  {
    hide Apply, Safe;
    if p == [] {
      assert p + q == q;
    } else {
      assert (p + q)[0] == p[0] && (p + q)[1..] == p[1..] + q;
      RunConcat(Apply(s, p[0]), p[1..], q);
    }
  }

  function Creates(es: seq<Id>): seq<Op> { seq(|es|, i requires 0 <= i < |es| => DoEntity(es[i])) }

  function Opens(rows: seq<(Id, Id)>): seq<Op> {
    seq(|rows|, i requires 0 <= i < |rows| => DoOpen(rows[i].0, rows[i].1, None))
  }

  function RowsOf(rows: seq<(Id, Id)>): set<Membership> { set r | r in rows :: Row(r.0, r.1, 0) }

  lemma {:induction false} CreatesRun(s: Tables, es: seq<Id>)
    ensures WellFormed(s, Creates(es))
    ensures Run(s, Creates(es)) == s.(entities := s.entities + (set e | e in es))
    decreases |es|
  {
    if es == [] {
      assert s.entities + {} == s.entities;
    } else {
      var s1 := s.(entities := s.entities + {es[0]});
      assert Creates(es)[1..] == Creates(es[1..]) && Apply(s, Creates(es)[0]) == s1;
      CreatesRun(s1, es[1..]);
      assert es == [es[0]] + es[1..];
      assert s1.entities + (set e | e in es[1..]) == s.entities + set e | e in es;
    }
  }

  lemma FreshOpen(s: Tables, m: Id, e: Id)
    requires s.decisions == [] && e in s.entities && forall r :: r in s.memberships ==> r.mention != m
    ensures Safe(s, DoOpen(m, e, None))
    ensures Apply(s, DoOpen(m, e, None)) == s.(memberships := s.memberships + {Row(m, e, s.head)})
  {
    assert LineageOf(s) == map[];
  }

  lemma RowsOfNone()
    ensures RowsOf([]) == {}
  {
  }

  lemma RowsOfMore(rows: seq<(Id, Id)>)
    requires rows != []
    ensures RowsOf(rows) == {Row(rows[0].0, rows[0].1, 0)} + RowsOf(rows[1..])
  {
    assert rows == [rows[0]] + rows[1..];
  }

  lemma {:induction false} OpensRun(s: Tables, rows: seq<(Id, Id)>)
    requires s.decisions == [] && s.head == 0
    requires forall i :: 0 <= i < |rows| ==> rows[i].1 in s.entities
    requires forall i, r :: 0 <= i < |rows| && r in s.memberships ==> r.mention != rows[i].0
    requires forall i, j :: 0 <= i < j < |rows| ==> rows[i].0 != rows[j].0
    ensures WellFormed(s, Opens(rows))
    ensures Run(s, Opens(rows)) == s.(memberships := s.memberships + RowsOf(rows))
    decreases |rows|
  {
    hide Apply, Safe, RowsOf;
    if rows == [] {
      assert s.memberships + RowsOf([]) == s.memberships by { RowsOfNone(); }
    } else {
      var s1 := s.(memberships := s.memberships + {Row(rows[0].0, rows[0].1, 0)});
      assert Opens(rows)[1..] == Opens(rows[1..]) && Opens(rows)[0] == DoOpen(rows[0].0, rows[0].1, None);
      FreshOpen(s, rows[0].0, rows[0].1);
      OpensRun(s1, rows[1..]);
      RowsOfMore(rows);
      assert s1.memberships + RowsOf(rows[1..]) == s.memberships + RowsOf(rows);
    }
  }

  function Stage(es: seq<Id>, rows: seq<(Id, Id)>): seq<Op> { Creates(es) + Opens(rows) }

  function Staged(es: seq<Id>, rows: seq<(Id, Id)>): Tables {
    BASELINE.(entities := (set e | e in es), memberships := RowsOf(rows))
  }

  /** Any assignment of mentions to entities is reached by a well-formed run. */
  lemma StageRun(es: seq<Id>, rows: seq<(Id, Id)>)
    requires forall i :: 0 <= i < |rows| ==> rows[i].1 in es
    requires forall i, j :: 0 <= i < j < |rows| ==> rows[i].0 != rows[j].0
    ensures WellFormed(BASELINE, Stage(es, rows))
    ensures Run(BASELINE, Stage(es, rows)) == Staged(es, rows) && Valid(Staged(es, rows))
  {
    hide Valid, Run, WellFormed;
    var created := BASELINE.(entities := (set e | e in es));
    CreatesRun(BASELINE, es);
    assert {} + (set e | e in es) == (set e | e in es);
    OpensRun(created, rows);
    assert {} + RowsOf(rows) == RowsOf(rows);
    RunConcat(BASELINE, Creates(es), Opens(rows));
    BaselineValid();
    RunValid(BASELINE, Stage(es, rows));
  }

  // ------------------------------------------------------------------ two mentions

  /** Ledgers with something to confirm exist: two mentions opened on two entities by a
      well-formed run can be merged, and by the reversal law split apart again. */
  lemma MergesHappen(a: Id, b: Id, e: Id, f: Id)
    requires a != b && e != f
    ensures WellFormed(BASELINE, Stage([e, f], [(a, e), (b, f)]))
    ensures var s := Run(BASELINE, Stage([e, f], [(a, e), (b, f)]));
      Valid(s) && ConfirmMatch(s, s.head, a, b, None, s.head + 1).Ok?
  {
    hide Valid, Run, WellFormed, ConfirmMatch, EntityOf;
    StageRun([e, f], [(a, e), (b, f)]);
    var s := Staged([e, f], [(a, e), (b, f)]);
    FirstConfirm(s, a, b, e, f);
  }

  /** In a staged ledger any two mentions of different entities can be confirmed. */
  lemma FirstConfirm(s: Tables, a: Id, b: Id, e: Id, f: Id)
    requires Valid(s) && e != f && s.head == 0
    requires Row(a, e, 0) in s.memberships && Row(b, f, 0) in s.memberships
    ensures ConfirmMatch(s, 0, a, b, None, 1).Ok?
    ensures var s1 := ConfirmMatch(s, 0, a, b, None, 1).value.tables;
      Valid(s1) && Merges(s, s1, a, b, e, f, 1)
  {
    hide Valid, ConfirmMatch, EntityOf, Held, Move, CanMove, LineageOf, EntitiesOf, ScopeCurrent;
    ValidParts(s);
    RowIsHeld(s.memberships, a, e);
    RowIsHeld(s.memberships, b, f);
    EntityOfRow(s.memberships, a, e);
    EntityOfRow(s.memberships, b, f);
    ScopeOfPair(s.memberships, a, b);
    ScopeAtHead(s, 0, EntitiesOf(s.memberships, {a, b}));
    var survivor, absorbed := ConfirmValid(s, 0, a, b, None, 1);
  }

  lemma RowIsHeld(ms: set<Membership>, m: Id, e: Id)
    requires Row(m, e, 0) in ms
    ensures m in Held(ms, e)
  {
  }

  // ----------------------------------------------------- a claim that goes unreported

  function Asserted(subject: Id, obj: Id): Claim { Claim(subject, None, "", Some(obj), None, None, None, false) }

  /** An unanchored claim is stored as it is. */
  lemma ClaimStored(s: Tables, k: Id, subject: Id, obj: Id)
    requires Valid(s) && subject in s.entities && obj in s.entities && subject != obj && k !in s.claims
    ensures var op := DoClaim(k, Asserted(subject, obj), false, false, false);
      && Safe(s, op) && Valid(Apply(s, op))
      && Apply(s, op) == s.(claims := s.claims[k := Asserted(subject, obj)])
  {
    hide Valid;
    var op := DoClaim(k, Asserted(subject, obj), false, false, false);
    assert Safe(s, op);
    ApplyValid(s, op);
  }

  /** Merge `y` into `x`, then split `z` onto `y`: the claim about `y` was resolved to `x`,
      is resolved to `y` afterwards, and is not among the claims the split surfaces. */
  lemma SplitCanGoUnreported(a: Id, b: Id, c: Id, d: Id, x: Id, y: Id, z: Id, w: Id, k: Id)
    requires a != b && a != c && a != d && b != c && b != d && c != d
    requires x != y && x != z && x != w && y != z && y != w && z != w
    ensures var ops := Stage([x, y, z, w], [(a, x), (b, y), (c, z), (d, z)])
                       + [DoClaim(k, Asserted(y, w), false, false, false), DoConfirm(0, a, b, None, 0)];
      var s := Run(BASELINE, ops);
      var split := SplitEntity(s, s.head, z, {c}, Some(y), "", s.head + 1);
      && WellFormed(BASELINE, ops) && Valid(s)
      && split.Ok? && Unreported(s, split.value, k)
      && Lookup(s.canonical, y) == x && Lookup(split.value.tables.canonical, y) == y
  {
    hide Valid, Run, WellFormed, ConfirmMatch, SplitEntity, Apply, Safe, Unreported, Lookup;
    var rows := [(a, x), (b, y), (c, z), (d, z)];
    var stage := Stage([x, y, z, w], rows);
    StageRun([x, y, z, w], rows);
    var s0 := Staged([x, y, z, w], rows);
    var claim, confirm := DoClaim(k, Asserted(y, w), false, false, false), DoConfirm(0, a, b, None, 0);
    ClaimStored(s0, k, y, w);
    var s := Apply(s0, claim);
    RunTwo(s0, claim, confirm);
    OpensNothing(s, confirm);
    RunConcat(BASELINE, stage, [claim, confirm]);
    ConfirmApplied(s, a, b, x, y);
    SplitOnto(s, Apply(s, confirm), a, b, c, d, x, y, z, w, k);
  }

  lemma RunTwo(s: Tables, op: Op, next: Op)
    ensures Run(s, [op, next]) == Apply(Apply(s, op), next)
    ensures WellFormed(s, [op, next]) <==> Safe(s, op) && Safe(Apply(s, op), next)
  {
    hide Apply, Safe;
    RunOne(Apply(s, op), next);
    assert [op, next][1..] == [next];
  }

  lemma RunOne(s: Tables, op: Op)
    ensures Run(s, [op]) == Apply(s, op)
    ensures WellFormed(s, [op]) <==> Safe(s, op)
  {
    hide Apply, Safe;
    assert [op][1..] == [];
    assert Run(s, [op]) == Run(Apply(s, op), []);
    assert WellFormed(Apply(s, op), []);
  }

  lemma ConfirmApplied(s: Tables, a: Id, b: Id, x: Id, y: Id)
    requires Valid(s) && x != y && s.head == 0
    requires Row(a, x, 0) in s.memberships && Row(b, y, 0) in s.memberships
    ensures var s1 := Apply(s, DoConfirm(0, a, b, None, 0));
      Valid(s1) && Merges(s, s1, a, b, x, y, 1)
  {
    hide Valid, ConfirmMatch, Merges;
    FirstConfirm(s, a, b, x, y);
  }

  lemma SplitOnto(s: Tables, s1: Tables, a: Id, b: Id, c: Id, d: Id, x: Id, y: Id, z: Id, w: Id, k: Id)
    requires Valid(s) && Valid(s1) && Merges(s, s1, a, b, x, y, 1)
    requires c != d && x != z && y != z && x != w && y != w && z != w && x != y
    requires s.decisions == [] && y in s.entities && k in s.claims && s.claims[k] == Asserted(y, w)
    requires Row(c, z, 0) in s.memberships && Row(d, z, 0) in s.memberships
    ensures var split := SplitEntity(s1, 1, z, {c}, Some(y), "", 2);
      && split.Ok? && Unreported(s1, split.value, k)
      && Lookup(s1.canonical, y) == x && Lookup(split.value.tables.canonical, y) == y
  {
    hide Valid, SplitEntity, Held, Move, CanMove, Unreported, Reaches, Drifts, Lookup;
    assert LineageOf(s) == map[] && LineageOf(s1) == map[y := x];
    MoveHeld(s.memberships, Held(s.memberships, y), y, x, 1, z);
    RowIsHeld(s.memberships, c, z);
    RowIsHeld(s.memberships, d, z);
    ValidParts(s1);
    ScopeAtHead(s1, 1, {z});
    SplitAcceptedIff(s1, 1, z, {c}, Some(y), "", 2);
    OneLink(s1, y, x, y);
    OneLink(s1, y, x, w);
    ReachesItself(LineageOf(s1), y);
    NotDrifting(s1, z, y, x);
    NotDrifting(s1, z, w, w);
    UnreportedIff(s1, 1, z, {c}, Some(y), "", 2, k);
    SplitRestoresChain(s1, 1, z, {c}, Some(y), "", 2, y);
  }

  /** Split a mention off onto an entity that exists: the claim about the split entity is
      surfaced, and nothing is queued for it. */
  lemma SplitCanQueueNothing(a: Id, b: Id, x: Id, w: Id, k: Id)
    requires a != b && x != w
    ensures var ops := Stage([x, w], [(a, x), (b, x)]) + [DoClaim(k, Asserted(x, w), false, false, false)];
      var s := Run(BASELINE, ops);
      var split := SplitEntity(s, 0, x, {b}, Some(w), "", 1);
      && WellFormed(BASELINE, ops) && Valid(s)
      && split.Ok? && k in split.value.unattributable
      && Queued(s.claims, split.value.tables.canonical, split.value.unattributable, Some(x), split.value.created) == []
  {
    hide Valid, Run, WellFormed, SplitEntity, Apply, Safe, LineageOf, Resolve, Held;
    var rows := [(a, x), (b, x)];
    var claim := DoClaim(k, Asserted(x, w), false, false, false);
    StageRun([x, w], rows);
    var s0 := Staged([x, w], rows);
    ClaimStored(s0, k, x, w);
    RunOne(s0, claim);
    RunConcat(BASELINE, Stage([x, w], rows), [claim]);
    var s := Apply(s0, claim);
    RowIsHeld(s.memberships, a, x);
    RowIsHeld(s.memberships, b, x);
    ValidParts(s);
    ScopeAtHead(s, 0, {x});
    SplitAcceptedIff(s, 0, x, {b}, Some(w), "", 1);
    NoLineage(s, x);
    SplitSurfaces(s, 0, x, {b}, Some(w), "", 1, k);
    SplitReport(s, 0, x, {b}, Some(w), "", 1);
  }

  lemma NoLineage(s: Tables, x: Id)
    requires s.decisions == []
    ensures Resolve(LineageOf(s), x) == Some(x)
  {
  }

  lemma NotDrifting(s: Tables, e: Id, arg: Id, root: Id)
    requires Valid(s) && Lookup(s.canonical, arg) == root && root != e
    ensures !Drifts(s, e, arg, None)
  {
    MapAnswers(s, arg);
  }

  lemma OneLink(s: Tables, loser: Id, winner: Id, arg: Id)
    requires Valid(s) && LineageOf(s) == map[loser := winner] && loser != winner
    ensures Lookup(s.canonical, arg) == if arg == loser then winner else arg
  {
    hide LineageOf;
    ValidForest(s);
    MapAnswers(s, arg);
    RootStep(LineageOf(s), arg);
    RootStep(LineageOf(s), winner);
  }

  // --------------------------------------------------------- merges inside merges

  /** Merge `y` into `x`, then `x` into `z`: a reachable ledger at which the two confirms are
      accepted one on top of the other, so that nested reversals are about something. */
  lemma NestedMergesHappen(a: Id, b: Id, c: Id, x: Id, y: Id, z: Id) returns (ops: seq<Op>)
    requires a != b && a != c && b != c && x != y && x != z && y != z
    ensures var s := Run(BASELINE, Stage([x, y, z], [(a, x), (b, y), (c, z)]));
      && WellFormed(BASELINE, Stage([x, y, z], [(a, x), (b, y), (c, z)])) && Valid(s)
      && |ops| == 4 && ops[..2] == [DoConfirm(0, a, b, None, 0), DoConfirm(1, c, a, None, 0)]
      && Balanced(s, ops, []) && SameIdentity(Run(s, ops), s)
  {
    hide Valid, Run, WellFormed, ConfirmMatch, EntityOf, Held, Move, Apply, Balanced, SameIdentity, CanMove, LineageOf,
      EntitiesOf, ScopeCurrent, SplitsAccepted;
    var rows := [(a, x), (b, y), (c, z)];
    StageRun([x, y, z], rows);
    var s := Staged([x, y, z], rows);
    var first, second := DoConfirm(0, a, b, None, 0), DoConfirm(1, c, a, None, 0);
    FirstConfirm(s, a, b, x, y);
    ConfirmApplied(s, a, b, x, y);
    SecondConfirm(s, Apply(s, first), a, b, c, x, y, z);
    ops := TwoDeep(s, first, second);
    NestedReversal(s, ops);
  }

  lemma SecondConfirm(s: Tables, s1: Tables, a: Id, b: Id, c: Id, x: Id, y: Id, z: Id)
    requires Valid(s) && Valid(s1) && Merges(s, s1, a, b, x, y, 1) && x != z && y != z
    requires Row(c, z, 0) in s.memberships
    ensures s1.head == 1 && ConfirmMatch(s1, 1, c, a, None, 2).Ok?
  {
    hide Valid, ConfirmMatch, EntityOf, Held, Move, CanMove, LineageOf, EntitiesOf, ScopeCurrent;
    ValidParts(s1);
    RowIsHeld(s.memberships, c, z);
    MoveHeld(s.memberships, Held(s.memberships, y), y, x, 1, x);
    MoveHeld(s.memberships, Held(s.memberships, y), y, x, 1, z);
    EntityOfRow(s1.memberships, c, z);
    EntityOfRow(s1.memberships, a, x);
    ScopeOfPair(s1.memberships, c, a);
    ScopeAtHead(s1, 1, EntitiesOf(s1.memberships, {c, a}));
    var survivor, absorbed := ConfirmValid(s1, 1, c, a, None, 2);
  }

  // ----------------------------------------------- an anchor that leaves its stored entity

  function Anchored(subject: Id, mention: Id, obj: Id): Claim {
    Claim(subject, Some(mention), "", Some(obj), None, None, None, false)
  }

  lemma AnchoredStored(s: Tables, k: Id, subject: Id, mention: Id, obj: Id)
    requires Valid(s) && subject in s.entities && obj in s.entities && subject != obj && k !in s.claims
    requires EntityOf(s.memberships, mention) == Some(subject)
    ensures var op := DoClaim(k, Anchored(subject, mention, obj), false, false, false);
      && Safe(s, op) && Valid(Apply(s, op))
      && Apply(s, op) == s.(claims := s.claims[k := Anchored(subject, mention, obj)])
  {
    hide Valid, EntityOf;
    var op := DoClaim(k, Anchored(subject, mention, obj), false, false, false);
    assert Safe(s, op);
    ApplyValid(s, op);
  }

  /** One split is enough for anchors and the map to part: a claim about `x` anchored by a mention
      that is split off is projected from the new entity, while the map still says `x`. */
  lemma AnchorCanLeave(a: Id, b: Id, x: Id, w: Id, n: Id, k: Id, symmetric: set<Id>)
    requires a != b && x != w && n != x && n != w && "" !in symmetric
    ensures var claim := DoClaim(k, Anchored(x, b, w), false, false, false);
      var ops := Stage([x, w], [(a, x), (b, x)]) + [claim, DoSplit(0, x, {b}, None, n, 0)];
      var s := Run(BASELINE, ops);
      && WellFormed(BASELINE, ops) && k in s.claims && s.claims[k] == Anchored(x, b, w)
      && Projection.KeyOf(s, symmetric, s.claims[k]) == Projection.Key(n, w, "")
      && Projection.KeyByMap(s, symmetric, s.claims[k]) == Projection.Key(x, w, "")
  {
    hide Valid, Run, WellFormed, SplitEntity, Apply, Safe, LineageOf, Held, EntityOf, Lookup;
    var rows := [(a, x), (b, x)];
    var claim, split := DoClaim(k, Anchored(x, b, w), false, false, false), DoSplit(0, x, {b}, None, n, 0);
    StageRun([x, w], rows);
    var s0 := Staged([x, w], rows);
    ValidParts(s0);
    RowIsHeld(s0.memberships, b, x);
    EntityOfRow(s0.memberships, b, x);
    AnchoredStored(s0, k, x, b, w);
    var s1 := Apply(s0, claim);
    OpensNothing(s1, split);
    RunTwo(s0, claim, split);
    RunConcat(BASELINE, Stage([x, w], rows), [claim, split]);
    AnchorSplitOff(s1, a, b, x, w, n);
  }

  lemma AnchorSplitOff(s: Tables, a: Id, b: Id, x: Id, w: Id, n: Id)
    requires Valid(s) && a != b && s.head == 0 && s.decisions == []
    requires Row(a, x, 0) in s.memberships && Row(b, x, 0) in s.memberships && n !in s.entities && x != n && w != n
    requires forall r | r in s.memberships :: r.entity == x
    ensures var s' := Apply(s, DoSplit(0, x, {b}, None, n, 0));
      && s'.claims == s.claims && EntityOf(s'.memberships, b) == Some(n)
      && Lookup(s'.canonical, x) == x && Lookup(s'.canonical, w) == w
  {
    hide Valid, SplitEntity, LineageOf, Held, EntityOf, Lookup, Move, ScopeCurrent, Resolve;
    ValidParts(s);
    RowIsHeld(s.memberships, a, x);
    RowIsHeld(s.memberships, b, x);
    ScopeAtHead(s, 0, {x});
    SplitAcceptedIff(s, 0, x, {b}, None, n, 1);
    SplitValid(s, 0, x, {b}, None, n, 1);
    var s' := Apply(s, DoSplit(0, x, {b}, None, n, 0));
    CanMoveNow(s, {b}, x, n, 1);
    MoveHeld(s.memberships, {b}, x, n, 1, x);
    MoveHeld(s.memberships, {b}, x, n, 1, n);
    ValidParts(s');
    EntityOfRow(s'.memberships, b, n);
    HolderLooksUp(s', x);
    EmptyLineage(s);
    assert LineageOf(s') == map[];
    MapAnswers(s', w);
    OutsideResolves(LineageOf(s'), w);
  }

  lemma EmptyLineage(s: Tables)
    requires s.decisions == []
    ensures LineageOf(s) == map[]
  {
  }

  // ----------------------------------------------- an open that forgets a merge

  lemma AfterFirstMerge(a: Id, b: Id, x: Id, y: Id) returns (s: Tables)
    requires a != b && x != y
    ensures var ops := Stage([x, y], [(a, x), (b, y)]) + [DoConfirm(0, a, b, None, 0)];
      s == Run(BASELINE, ops) && WellFormed(BASELINE, ops)
    ensures Valid(s) && s.head == 1 && s.entities == {x, y} && LineageOf(s) == map[y := x]
    ensures forall r | r in s.memberships :: r.mention in {a, b}
    ensures a in Held(s.memberships, x)
    ensures |s.decisions| == 1 && s.decisions[0].kind == Confirm && s.decisions[0].resultRevision == 1
    ensures Opened(s.memberships, 1) == {x}
  {
    hide Valid, Run, WellFormed, ConfirmMatch, Held, Move, Apply, Safe, EntityOf, Opened, Closed;
    var rows := [(a, x), (b, y)];
    StageRun([x, y], rows);
    var s0 := Staged([x, y], rows);
    var confirm := DoConfirm(0, a, b, None, 0);
    s := Apply(s0, confirm);
    ConfirmApplied(s0, a, b, x, y);
    RunOne(s0, confirm);
    OpensNothing(s0, confirm);
    RunConcat(BASELINE, Stage([x, y], rows), [confirm]);
    StagedIs(a, b, x, y);
    MoveOpenedNow(s0.memberships, Held(s0.memberships, y), y, x, 1);
    MoveHeld(s0.memberships, Held(s0.memberships, y), y, x, 1, x);
    forall r | r in s.memberships ensures r.mention in {a, b} {
      var q := MoveOrigin(s0.memberships, Held(s0.memberships, y), x, 1, r);
    }
  }

  lemma StagedIs(a: Id, b: Id, x: Id, y: Id)
    ensures var s := Staged([x, y], [(a, x), (b, y)]);
      && s.entities == {x, y} && s.decisions == [] && LineageOf(s) == map[]
      && forall r | r in s.memberships :: r.mention in {a, b}
  {
  }

  lemma NoOwner(ms: set<Membership>, m: Id)
    requires forall r | r in ms :: r.mention != m
    ensures EntityOf(ms, m).None?
  {
  }

  /** Merge `y` into `x`, create `z`, and open a new mention on it: what accepting a claim about
      a new mention does. The run is not well-formed, replay no longer has the merge, and the
      stored map still does. */
  lemma OpenCanForgetMerge(a: Id, b: Id, m: Id, x: Id, y: Id, z: Id)
    requires a != b && a != m && b != m && x != y && x != z && y != z
    ensures var ops := Stage([x, y], [(a, x), (b, y)]) + [DoConfirm(0, a, b, None, 0)] + [DoEntity(z)];
      var s := Run(BASELINE, ops);
      var s' := Run(BASELINE, ops + [DoOpen(m, z, None)]);
      && WellFormed(BASELINE, ops) && !WellFormed(BASELINE, ops + [DoOpen(m, z, None)])
      && LineageOf(s) == map[y := x] && Lookup(s.canonical, y) == x
      && m in Held(s'.memberships, z) && LineageOf(s') == map[] && Lookup(s'.canonical, y) == x
  {
    hide Valid, Run, WellFormed, Held, Safe, Apply, LineageOf, EntityOf, Opened, Closed, Lookup;
    var s1 := AfterFirstMerge(a, b, x, y);
    var merge := Stage([x, y], [(a, x), (b, y)]) + [DoConfirm(0, a, b, None, 0)];
    var create, open := DoEntity(z), DoOpen(m, z, None);
    RunOne(s1, create);
    OpensNothing(s1, create);
    RunConcat(BASELINE, merge, [create]);
    var s := Apply(s1, create);
    QuietValid(s1, create);
    EntityCreated(s1, z);
    OneLink(s, y, x, y);
    RunOne(s, open);
    RunConcat(BASELINE, merge + [create], [open]);
    NoOwner(s.memberships, m);
    OpenForgets(s, m, z, x, y);
  }

  lemma EntityCreated(s: Tables, z: Id)
    ensures Apply(s, DoEntity(z)) == s.(entities := s.entities + {z})
  {
  }

  lemma OpenForgets(s: Tables, m: Id, z: Id, x: Id, y: Id)
    requires Valid(s) && z in s.entities && EntityOf(s.memberships, m).None? && z != x
    requires s.head == 1 && |s.decisions| == 1
    requires s.decisions[0].kind == Confirm && s.decisions[0].resultRevision == 1
    requires Opened(s.memberships, 1) == {x}
    ensures var s' := Apply(s, DoOpen(m, z, None));
      && m in Held(s'.memberships, z) && LineageOf(s') == map[] && s'.canonical == s.canonical
    ensures !Safe(s, DoOpen(m, z, None))
  {
    hide Valid, EntityOf, Held, Opened, Closed;
    ValidRows(s);
    OpenAddsHolder(s, m, z);
    ReplayAfterOpen(s, m, z);
    assert s.decisions[..0] == [];
    MoreThanOne({x} + {z}, x, z);
  }

  // ------------------------------------------------- a confirm refused for its lineage

  /** Merge `y` into `x`, mark something unresolved, open a new mention on the absorbed `y`, and
      confirm it with a mention of `x`: every guard passes, and the rebuild finds a cycle. */
  lemma ConfirmCanBeRefused(a: Id, b: Id, m: Id, x: Id, y: Id)
    requires a != b && a != m && b != m && x != y
    ensures var ops := Stage([x, y], [(a, x), (b, y)]) + [DoConfirm(0, a, b, None, 0)]
                       + [DoUnresolved(1, a, b, None, 0), DoOpen(m, y, None)];
      var s := Run(BASELINE, ops);
      && LineageOf(s) == map[y := x] && s.head == 2
      && EntityOf(s.memberships, m) == Some(y) && EntityOf(s.memberships, a) == Some(x)
      && ConfirmMatch(s, 2, m, a, None, 3) == Err(CorruptLineage)
  {
    hide Valid, Run, WellFormed, Held, Safe, Apply, LineageOf, EntityOf, Opened, Closed, ConfirmMatch, RowsSound,
      Forest;
    var s1 := AfterFirstMerge(a, b, x, y);
    var merge := Stage([x, y], [(a, x), (b, y)]) + [DoConfirm(0, a, b, None, 0)];
    var mark, open := DoUnresolved(1, a, b, None, 0), DoOpen(m, y, None);
    RunTwo(s1, mark, open);
    RunConcat(BASELINE, merge, [mark, open]);
    var s2 := Apply(s1, mark);
    QuietValid(s1, mark);
    Marked(s1, a, b);
    NoOwner(s2.memberships, m);
    OpenOnAbsorbed(s2, a, m, x, y);
    var s := Apply(s2, open);
    RefusedByCycle(s, a, m, x, y);
  }

  lemma Marked(s: Tables, a: Id, b: Id)
    ensures var s' := Apply(s, DoUnresolved(1, a, b, None, 0));
      && s'.head == s.head + 1 && s'.entities == s.entities
      && LastDecision(s').Some? && LastDecision(s').value.kind == Unresolved
  {
  }

  lemma OpenOnAbsorbed(s: Tables, a: Id, m: Id, x: Id, y: Id)
    requires Valid(s) && y in s.entities && EntityOf(s.memberships, m).None? && a in Held(s.memberships, x)
    requires LastDecision(s).Some? && LastDecision(s).value.kind == Unresolved
    ensures var s' := Apply(s, DoOpen(m, y, None));
      && LineageOf(s') == LineageOf(s) && s'.head == s.head
      && RowsSound(s') && DecisionsInOrder(s'.decisions, s'.head)
      && EntityOf(s'.memberships, m) == Some(y) && EntityOf(s'.memberships, a) == Some(x)
  {
    hide Valid, EntityOf, Held, Opened, Closed, Exclusive, HandedOver, RowsInRange;
    ValidRows(s);
    OpenEffect(s, m, y, None);
    OpenKeepsRows(s, m, y, None);
    ReplayAfterOpen(s, m, y);
    var ms' := s.memberships + {Row(m, y, s.head)};
    OpenHeld(s.memberships, m, y, s.head, x);
    OpenHeld(s.memberships, m, y, s.head, y);
    EntityOfRow(ms', m, y);
    EntityOfRow(ms', a, x);
  }

  lemma RefusedByCycle(s: Tables, a: Id, m: Id, x: Id, y: Id)
    requires RowsSound(s) && DecisionsInOrder(s.decisions, s.head) && s.head == 2
    requires LineageOf(s) == map[y := x] && x != y
    requires EntityOf(s.memberships, m) == Some(y) && EntityOf(s.memberships, a) == Some(x)
    ensures ConfirmMatch(s, 2, m, a, None, 3) == Err(CorruptLineage)
  {
    hide LineageOf, EntityOf, EntitiesOf, ConfirmMatch, Tiled, Forest;
    RowsTiled(s);
    ScopeOfPair(s.memberships, m, a);
    assert ScopeCurrent(s.memberships, 2, EntitiesOf(s.memberships, {m, a}));
    OneLinkForest(y, x);
    var survivor, absorbed := ConfirmRefusedIff(s, 2, m, a, None, 3);
  }

  lemma OneLinkForest(loser: Id, winner: Id)
    requires loser != winner
    ensures Forest(map[loser := winner]) && Reaches(map[loser := winner], loser, winner)
  {
    assert Ranked(map[loser := winner], e => if e == loser then 1 else 0);
    assert ReachesIn(map[loser := winner], winner, winner, 0);
    assert ReachesIn(map[loser := winner], loser, winner, 1);
  }
}
