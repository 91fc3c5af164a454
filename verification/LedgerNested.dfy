/** Merges inside merges: however deeply confirms are nested, undoing them last in, first out
    brings back every identity answer (aegis/er/adjudication.py:296-345, 404-475). */
module LedgerNested {
  import opened Common
  import opened Store
  import opened LedgerInvariant
  import opened LedgerSteps
  import opened LedgerRuns
  import opened LedgerReversal

  /** A merge that has not been undone yet, and the tables it was made on. */
  datatype Frame = Frame(before: Tables, survivor: Id, absorbed: Id, moved: set<Id>)

  /** The merge an accepted confirm of `a` and `b` makes. */
  ghost function Opens(s: Tables, a: Id, b: Id): Frame {
    match (EntityOf(s.memberships, a), EntityOf(s.memberships, b))
    case (Some(survivor), Some(absorbed)) => Frame(s, survivor, absorbed, Held(s.memberships, absorbed))
    case _ => Frame(s, "", "", {})
  }

  /** The split sends exactly the mentions of the latest merge back, and its scope is current. */
  ghost predicate Undoes(s: Tables, op: Op, f: Frame)
    requires op.DoSplit?
  {
    && op.entity == f.survivor && op.mentions == f.moved && op.target == Some(f.absorbed)
    && ScopeCurrent(s.memberships, op.parentRevision, {f.survivor})
  }

  /** Like brackets: every accepted confirm is undone by a later split, the latest one first.
      Refused confirms, rejections, unresolved marks and proposals may stand anywhere. */
  ghost predicate Balanced(s: Tables, ops: seq<Op>, open: seq<Frame>)
    decreases |ops|
  {
    if ops == [] then open == []
    else
      var op, next, rest := ops[0], Apply(s, ops[0]), ops[1..];
      match op
      case DoConfirm(p, a, b, c, gap) =>
        Balanced(next, rest, if ConfirmMatch(s, p, a, b, c, s.head + 1 + gap).Ok? then open + [Opens(s, a, b)] else open)
      case DoSplit(_, _, _, _, _, _) =>
        open != [] && Undoes(s, op, open[|open| - 1]) && Balanced(next, rest, open[..|open| - 1])
      case DoReject(_, _, _, _, _) => Balanced(next, rest, open)
      case DoUnresolved(_, _, _, _, _) => Balanced(next, rest, open)
      case DoPropose(_, _) => Balanced(next, rest, open)
      case _ => false
  }

  /** The same holders, lineage, claims and entities: for valid tables that is the same identity. */
  ghost predicate Alike(s: Tables, t: Tables) {
    && Valid(s) && Valid(t)
    && (forall e :: Held(s.memberships, e) == Held(t.memberships, e))
    && LineageOf(s) == LineageOf(t) && s.claims == t.claims && s.entities == t.entities
  }

  lemma AlikeIsSame(s: Tables, t: Tables)
    requires Alike(s, t)
    ensures SameIdentity(s, t)
  {
    hide Valid, Held, LineageOf, ResolveArgument, Lookup, Active;
    ActiveFromHeld(s.memberships, t.memberships);
    SameLookups(s, t);
  }

  /** `x` is what the merge of the frame made of the tables before it. */
  ghost predicate Merged(x: Tables, f: Frame) {
    && Valid(x) && Valid(f.before)
    && f.survivor != f.absorbed && f.moved == Held(f.before.memberships, f.absorbed) && f.moved != {}
    && Held(f.before.memberships, f.survivor) != {}
    && (forall e :: Held(x.memberships, e)
                    == if e == f.survivor then Held(f.before.memberships, e) + f.moved
                       else if e == f.absorbed then {} else Held(f.before.memberships, e))
    && f.absorbed !in LineageOf(f.before) && LineageOf(x) == LineageOf(f.before)[f.absorbed := f.survivor]
    && x.claims == f.before.claims && x.entities == f.before.entities
  }

  /** The open merges lie on one another, and the lowest on the tables it all began with. */
  ghost predicate Stacked(s: Tables, open: seq<Frame>, x: Tables)
    decreases |open|
  {
    if open == [] then Alike(x, s)
    else
      var top := open[|open| - 1];
      Merged(x, top) && Stacked(s, open[..|open| - 1], top.before)
  }

  // --------------------------------------------------------------------------- steps

  lemma MergedAlike(x: Tables, y: Tables, f: Frame)
    requires Merged(x, f) && Alike(y, x)
    ensures Merged(y, f)
  {
    hide Valid, Held, LineageOf;
  }

  /** Only the standing of the tables matters to what lies below them. */
  lemma StackedAlike(s: Tables, open: seq<Frame>, x: Tables, y: Tables)
    requires Stacked(s, open, x) && Alike(y, x)
    ensures Stacked(s, open, y)
  {
    hide Valid, Held, LineageOf, Merged;
    if open != [] {
      MergedAlike(x, y, open[|open| - 1]);
    }
  }

  lemma ConfirmStacks(s: Tables, open: seq<Frame>, x: Tables, p: nat, a: Id, b: Id, c: Option<Id>, rev: nat)
    requires Stacked(s, open, x) && Valid(x) && x.head < rev && ConfirmMatch(x, p, a, b, c, rev).Ok?
    ensures Stacked(s, open + [Opens(x, a, b)], ConfirmMatch(x, p, a, b, c, rev).value.tables)
  {
    hide Valid, Held, LineageOf, ConfirmMatch, Merged, EntityOf, EntitiesOf, ScopeCurrent, CanMove, Settle, Move;
    var survivor, absorbed := ConfirmValid(x, p, a, b, c, rev);
    var x' := ConfirmMatch(x, p, a, b, c, rev).value.tables;
    MergeMakes(x, x', a, b, survivor, absorbed, rev);
    assert (open + [Opens(x, a, b)])[..|open|] == open;
  }

  lemma MergeMakes(x: Tables, x': Tables, a: Id, b: Id, survivor: Id, absorbed: Id, rev: nat)
    requires Valid(x) && Valid(x') && Merges(x, x', a, b, survivor, absorbed, rev)
    ensures Merged(x', Opens(x, a, b))
  {
    hide Valid, Held, LineageOf, EntityOf, CanMove, Move;
    var held := Held(x.memberships, absorbed);
    forall e ensures Held(x'.memberships, e)
      == if e == survivor then Held(x.memberships, e) + held else if e == absorbed then {} else Held(x.memberships, e)
    {
      MoveHeld(x.memberships, held, absorbed, survivor, rev, e);
    }
  }

  /** The reversing split is accepted, and leaves what was there before the merge. */
  lemma UndoAccepted(x: Tables, f: Frame, p: nat, newId: Id, rev: nat)
    requires Merged(x, f) && x.head < rev && ScopeCurrent(x.memberships, p, {f.survivor})
    ensures var undone := SplitEntity(x, p, f.survivor, f.moved, Some(f.absorbed), newId, rev);
      undone.Ok? && Alike(undone.value.tables, f.before)
  {
    hide Valid, Held, LineageOf, SplitEntity, ScopeCurrent, Move, Exclusive;
    ValidParts(x);
    ValidParts(f.before);
    HeldApart(f.before.memberships, f.survivor, f.absorbed);
    HolderInStore(f.before, f.absorbed);
    SplitAcceptedIff(x, p, f.survivor, f.moved, Some(f.absorbed), newId, rev);
    SplitValid(x, p, f.survivor, f.moved, Some(f.absorbed), newId, rev);
    UndoRestores(x, f, SplitEntity(x, p, f.survivor, f.moved, Some(f.absorbed), newId, rev).value.tables, rev);
  }

  lemma UndoRestores(x: Tables, f: Frame, y: Tables, rev: nat)
    requires Merged(x, f) && Valid(y) && x.head < rev
    requires y.memberships == Move(x.memberships, f.moved, f.absorbed, rev)
    requires LineageOf(y) == LineageOf(x) - {f.absorbed} && y.claims == x.claims
    requires y.entities == x.entities + {f.absorbed} && f.absorbed in x.entities
    ensures Alike(y, f.before)
  {
    hide Valid, Held, LineageOf, Move, Exclusive;
    ValidParts(f.before);
    HeldApart(f.before.memberships, f.survivor, f.absorbed);
    CanMoveNow(x, f.moved, f.survivor, f.absorbed, rev);
    forall e ensures Held(y.memberships, e) == Held(f.before.memberships, e) {
      MoveHeld(x.memberships, f.moved, f.survivor, f.absorbed, rev, e);
    }
    assert LineageOf(f.before)[f.absorbed := f.survivor] - {f.absorbed} == LineageOf(f.before);
    assert y.entities == f.before.entities;
  }

  lemma QuietAlike(x: Tables, op: Op)
    requires Valid(x) && (op.DoReject? || op.DoUnresolved? || op.DoPropose?)
    ensures Alike(Apply(x, op), x)
  {
    hide Valid, LineageOf, Constrain, Settle, Before;
    QuietValid(x, op);
  }

  // ---------------------------------------------------------------------------- runs

  /** Every reversing split of the run is accepted. */
  ghost predicate SplitsAccepted(s: Tables, ops: seq<Op>)
    decreases |ops|
  {
    ops == []
    || ((match ops[0]
         case DoSplit(p, e, ms, target, newId, gap) => SplitEntity(s, p, e, ms, target, newId, s.head + 1 + gap).Ok?
         case _ => true)
        && SplitsAccepted(Apply(s, ops[0]), ops[1..]))
  }

  lemma {:induction false} NestedRun(s: Tables, open: seq<Frame>, x: Tables, ops: seq<Op>)
    requires Stacked(s, open, x) && Valid(x) && Balanced(x, ops, open)
    ensures Alike(Run(x, ops), s) && SplitsAccepted(x, ops)
    decreases |ops|
  {
    hide Valid, Held, LineageOf, ConfirmMatch, SplitEntity, Merged, RejectMatch, MarkUnresolved, ScopeCurrent, Alike,
      Opens, Stacked;
    if ops == [] {
      assert Alike(x, s) by { StackedNone(s, x); }
    } else {
      var op, next := ops[0], Apply(x, ops[0]);
      var rest := NestedStep(s, open, x, ops);
      NestedRun(s, rest, next, ops[1..]);
    }
  }

  lemma StackedNone(s: Tables, x: Tables)
    requires Stacked(s, [], x)
    ensures Alike(x, s)
  {
  }

  lemma NestedStep(s: Tables, open: seq<Frame>, x: Tables, ops: seq<Op>) returns (rest: seq<Frame>)
    requires Stacked(s, open, x) && Valid(x) && ops != [] && Balanced(x, ops, open)
    ensures Stacked(s, rest, Apply(x, ops[0])) && Valid(Apply(x, ops[0]))
    ensures Balanced(Apply(x, ops[0]), ops[1..], rest)
    ensures match ops[0]
      case DoSplit(p, e, ms, target, newId, gap) => SplitEntity(x, p, e, ms, target, newId, x.head + 1 + gap).Ok?
      case _ => true
  {
    hide Valid, Held, LineageOf, ConfirmMatch, SplitEntity, Merged, RejectMatch, MarkUnresolved, ScopeCurrent, Opens,
      Safe;
    var op, next := ops[0], Apply(x, ops[0]);
    rest := open;
    match op {
      case DoConfirm(p, a, b, c, gap) =>
        ConfirmNext(s, open, x, op);
        if ConfirmMatch(x, p, a, b, c, x.head + 1 + gap).Ok? { rest := open + [Opens(x, a, b)]; }
      case DoSplit(p, e, ms, target, newId, gap) =>
        rest := open[..|open| - 1];
        UndoAccepted(x, open[|open| - 1], p, newId, x.head + 1 + gap);
        StackedAlike(s, rest, open[|open| - 1].before, next);
      case _ =>
        QuietAlike(x, op);
        StackedAlike(s, open, x, next);
    }
  }

  lemma ConfirmNext(s: Tables, open: seq<Frame>, x: Tables, op: Op)
    requires Stacked(s, open, x) && Valid(x) && op.DoConfirm?
    ensures Valid(Apply(x, op))
    ensures Stacked(s, if ConfirmMatch(x, op.parentRevision, op.a, op.b, op.candidate, x.head + 1 + op.gap).Ok?
                       then open + [Opens(x, op.a, op.b)] else open, Apply(x, op))
  {
    hide Valid, Held, LineageOf, ConfirmMatch, Merged, Opens, Stacked;
    OpensNothing(x, op);
    ApplyValid(x, op);
    if ConfirmMatch(x, op.parentRevision, op.a, op.b, op.candidate, x.head + 1 + op.gap).Ok? {
      ConfirmStacks(s, open, x, op.parentRevision, op.a, op.b, op.candidate, x.head + 1 + op.gap);
    }
  }

  /** Merges undone last in, first out leave no trace in any identity answer, also when a
      survivor was itself absorbed in between; and every reversing split is accepted. */
  lemma NestedReversal(s: Tables, ops: seq<Op>)
    requires Valid(s) && Balanced(s, ops, [])
    ensures SameIdentity(Run(s, ops), s) && SplitsAccepted(s, ops) && Valid(Run(s, ops))
  {
    hide Valid, Held, LineageOf, Balanced, SplitsAccepted, SameIdentity, Run;
    assert Stacked(s, [], s);
    NestedRun(s, [], s, ops);
    AlikeIsSame(Run(s, ops), s);
  }

  // ------------------------------------------------------------------- two deep

  /** The split that undoes the merge of a frame, with everything decided so far known. */
  ghost function Undo(f: Frame, head: nat): Op { DoSplit(head, f.survivor, f.moved, Some(f.absorbed), "", 0) }

  lemma UndoCurrent(s: Tables, f: Frame)
    requires Valid(s)
    ensures Undoes(s, Undo(f, s.head), f)
  {
    hide Valid;
    ValidParts(s);
    ScopeAtHead(s, s.head, {f.survivor});
  }

  lemma ConfirmBalanced(s: Tables, op: Op, rest: seq<Op>, open: seq<Frame>)
    requires op.DoConfirm?
    requires ConfirmMatch(s, op.parentRevision, op.a, op.b, op.candidate, s.head + 1 + op.gap).Ok?
    requires Balanced(Apply(s, op), rest, open + [Opens(s, op.a, op.b)])
    ensures Balanced(s, [op] + rest, open)
  {
    hide ConfirmMatch, Apply, Opens;
    assert ([op] + rest)[1..] == rest;
  }

  lemma UndoBalanced(s: Tables, f: Frame, head: nat, rest: seq<Op>, open: seq<Frame>)
    requires Undoes(s, Undo(f, head), f) && Balanced(Apply(s, Undo(f, head)), rest, open)
    ensures Balanced(s, [Undo(f, head)] + rest, open + [f])
  {
    hide Apply, Undoes, ConfirmMatch, Opens;
    assert ([Undo(f, head)] + rest)[1..] == rest && (open + [f])[..|open|] == open;
  }

  /** Such runs exist to depth two wherever a second confirm is accepted on top of a first: the
      two confirms and their two undoings are balanced. */
  lemma TwoDeep(s: Tables, first: Op, second: Op) returns (ops: seq<Op>)
    requires Valid(s) && first.DoConfirm? && second.DoConfirm?
    requires ConfirmMatch(s, first.parentRevision, first.a, first.b, first.candidate, s.head + 1 + first.gap).Ok?
    requires var s1 := Apply(s, first);
      ConfirmMatch(s1, second.parentRevision, second.a, second.b, second.candidate, s1.head + 1 + second.gap).Ok?
    ensures |ops| == 4 && ops[..2] == [first, second] && Balanced(s, ops, [])
  {
    hide Valid, Held, LineageOf, ConfirmMatch, Apply, Opens, Undoes, Merged, Balanced, Stacked;
    var s1, s2 := Apply(s, first), Apply(Apply(s, first), second);
    var f, g := Opens(s, first.a, first.b), Opens(s1, second.a, second.b);
    OpensNothing(s, first);
    ApplyValid(s, first);
    OpensNothing(s1, second);
    ApplyValid(s1, second);
    UndoCurrent(s2, g);
    var third := Undo(g, s2.head);
    var s3 := Apply(s2, third);
    OpensNothing(s2, third);
    ApplyValid(s2, third);
    UndoCurrent(s3, f);
    var fourth := Undo(f, s3.head);
    NothingOpen(Apply(s3, fourth));
    assert [] + [f] == [f] && [f] + [g] == [f, g] && [fourth] + [] == [fourth];
    assert [third] + [fourth] == [third, fourth] && [second] + [third, fourth] == [second, third, fourth];
    UndoBalanced(s3, f, s3.head, [], []);
    UndoBalanced(s2, g, s2.head, [fourth], [f]);
    ConfirmBalanced(s1, second, [third, fourth], [f]);
    ConfirmBalanced(s, first, [second, third, fourth], []);
    ops := [first] + [second, third, fourth];
  }

  lemma NothingOpen(s: Tables)
    ensures Balanced(s, [], [])
  {
  }
}
