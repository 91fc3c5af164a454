/** Delivery: ordered draining with failures and crashes, the inline delete, the rebuild,
    and every run of all of them (aegis/authz/outbox.py:64-125, 205-234). */
module OutboxRuns {
  import opened Common
  import opened Outbox

  /** One call to the store: it works, it fails, or it fails after taking effect. */
  datatype Call = Works | Fails | FailsAfterEffect

  function CallAt(calls: seq<Call>, i: nat): Call { if i < |calls| then calls[i] else Works }

  datatype Drained = Drained(rows: seq<OutboxRow>, fga: set<Grant>, processed: nat, failed: bool)

  /** Pending rows in order, at most `limit` of them, stopping at the first failure. */
  function Drain(rows: seq<OutboxRow>, fga: set<Grant>, calls: seq<Call>, n: nat, limit: Option<nat>): Drained {
    if rows == [] || (limit.Some? && n >= limit.value) then Drained(rows, fga, n, false)
    else if rows[0].processed then
      var rest := Drain(rows[1..], fga, calls, n, limit);
      rest.(rows := [rows[0]] + rest.rows)
    else
      var tried := rows[0].(attempts := rows[0].attempts + 1);
      match CallAt(calls, n)
      case Works =>
        var rest := Drain(rows[1..], Effect(rows[0].op, fga), calls, n + 1, limit);
        rest.(rows := [tried.(processed := true)] + rest.rows)
      case Fails => Drained([tried] + rows[1..], fga, n, true)
      case FailsAfterEffect => Drained([tried] + rows[1..], Effect(rows[0].op, fga), n, true)
  }

  /** What a drain did: it made the calls for the pending rows from the front, one each, and stopped
      at the limit or at the first that failed, whose effect may have been felt. Each row it tried
      counts one more attempt, and the ones that worked are pending no longer. */
  ghost predicate TookFront(rows: seq<OutboxRow>, fga: set<Grant>, calls: seq<Call>, n: nat, limit: Option<nat>,
                            d: Drained)
  {
    var ops, k := Pending(rows), d.processed - n;
    && n <= d.processed <= n + |ops|
    && Pending(d.rows) == ops[k..]
    && (forall i :: n <= i < d.processed ==> CallAt(calls, i) == Works)
    && (limit.Some? && n <= limit.value ==> d.processed <= limit.value)
    && (if d.failed then k < |ops| && CallAt(calls, d.processed) != Works
        else k == |ops| || (limit.Some? && d.processed >= limit.value))
    && d.fga == Fold(ops[..Felt(d, calls, n)], fga)
  }

  /** How many of the operations took effect. */
  function Felt(d: Drained, calls: seq<Call>, n: nat): int {
    d.processed - n + if d.failed && CallAt(calls, d.processed) == FailsAfterEffect then 1 else 0
  }

  lemma {:induction false} DrainTakesFront(rows: seq<OutboxRow>, fga: set<Grant>, calls: seq<Call>, n: nat,
                                           limit: Option<nat>)
    ensures TookFront(rows, fga, calls, n, limit, Drain(rows, fga, calls, n, limit))
    decreases |rows|
  {
    hide Effect, TookFront, Drain, Pending, Fold;
    DrainOnce(rows, fga, calls, n, limit);
    if rows == [] || (limit.Some? && n >= limit.value) {
      TookNone(rows, fga, calls, n, limit);
    } else {
      var row, rest := rows[0], rows[1..];
      assert rows == [row] + rest;
      if row.processed {
        DrainTakesFront(rest, fga, calls, n, limit);
        TookNoMore(row, rest, fga, calls, n, limit, Drain(rest, fga, calls, n, limit));
      } else if CallAt(calls, n) == Works {
        DrainTakesFront(rest, Effect(row.op, fga), calls, n + 1, limit);
        TookOneMore(row, rest, fga, calls, n, limit, Drain(rest, Effect(row.op, fga), calls, n + 1, limit));
      } else {
        TookFailing(row, rest, fga, calls, n, limit);
      }
    }
  }

  /** One unfolding of the drain. */
  lemma DrainOnce(rows: seq<OutboxRow>, fga: set<Grant>, calls: seq<Call>, n: nat, limit: Option<nat>)
    ensures Drain(rows, fga, calls, n, limit)
      == if rows == [] || (limit.Some? && n >= limit.value) then Drained(rows, fga, n, false)
         else if rows[0].processed then
           var rest := Drain(rows[1..], fga, calls, n, limit); rest.(rows := [rows[0]] + rest.rows)
         else
           var tried := rows[0].(attempts := rows[0].attempts + 1);
           if CallAt(calls, n) == Works then
             var rest := Drain(rows[1..], Effect(rows[0].op, fga), calls, n + 1, limit);
             rest.(rows := [tried.(processed := true)] + rest.rows)
           else
             Drained([tried] + rows[1..], if CallAt(calls, n) == Fails then fga else Effect(rows[0].op, fga), n, true)
  {
    hide Effect, CallAt;
  }

  lemma TookNone(rows: seq<OutboxRow>, fga: set<Grant>, calls: seq<Call>, n: nat, limit: Option<nat>)
    requires rows == [] || (limit.Some? && n >= limit.value)
    ensures TookFront(rows, fga, calls, n, limit, Drained(rows, fga, n, false))
  {
    assert Pending(rows)[..0] == [];
  }

  lemma TookNoMore(row: OutboxRow, rest: seq<OutboxRow>, fga: set<Grant>, calls: seq<Call>, n: nat, limit: Option<nat>,
                   d: Drained)
    requires row.processed && TookFront(rest, fga, calls, n, limit, d)
    ensures TookFront([row] + rest, fga, calls, n, limit, d.(rows := [row] + d.rows))
  {
    hide Pending, Fold;
    PendingSkip(row, rest);
    PendingSkip(row, d.rows);
  }

  lemma TookOneMore(row: OutboxRow, rest: seq<OutboxRow>, fga: set<Grant>, calls: seq<Call>, n: nat, limit: Option<nat>,
                    d: Drained)
    requires !row.processed && CallAt(calls, n) == Works && (limit.Some? ==> n < limit.value)
    requires TookFront(rest, Effect(row.op, fga), calls, n + 1, limit, d)
    ensures TookFront([row] + rest, fga, calls, n, limit,
                      d.(rows := [row.(attempts := row.attempts + 1, processed := true)] + d.rows))
  {
    hide Pending, Fold, Effect;
    PendingTake(row, rest, fga);
    PendingSkip(row.(attempts := row.attempts + 1, processed := true), d.rows);
    var felt := Felt(d, calls, n);
    assert ([row.op] + Pending(rest))[..felt] == [row.op] + Pending(rest)[..felt - 1];
    FoldCons(row.op, Pending(rest)[..felt - 1], fga);
    assert ([row.op] + Pending(rest))[d.processed - n..] == Pending(rest)[d.processed - n - 1..];
  }

  lemma FoldCons(op: Op, ops: seq<Op>, s: set<Grant>)
    ensures Fold([op] + ops, s) == Fold(ops, Effect(op, s))
  {
    hide Effect;
    assert ([op] + ops)[1..] == ops;
  }

  lemma FeltOfFailing(d: Drained, calls: seq<Call>, n: nat)
    requires d.failed && d.processed == n && CallAt(calls, n) != Works
    ensures Felt(d, calls, n) == if CallAt(calls, n) == Fails then 0 else 1
  {
  }

  lemma TookFailing(row: OutboxRow, rest: seq<OutboxRow>, fga: set<Grant>, calls: seq<Call>, n: nat, limit: Option<nat>)
    requires !row.processed && CallAt(calls, n) != Works && (limit.Some? ==> n < limit.value)
    ensures TookFront([row] + rest, fga, calls, n, limit,
                      Drained([row.(attempts := row.attempts + 1)] + rest,
                              if CallAt(calls, n) == Fails then fga else Effect(row.op, fga), n, true))
  {
    hide Pending, Effect, CallAt, Fold, Felt;
    var tried, fails := row.(attempts := row.attempts + 1), CallAt(calls, n) == Fails;
    var d := Drained([tried] + rest, if fails then fga else Effect(row.op, fga), n, true);
    var ops := Pending([row] + rest);
    assert ops != [] && ops[..1] == [row.op] && Pending(d.rows) == ops by {
      PendingTake(row, rest, fga);
      PendingTake(tried, rest, fga);
    }
    assert Felt(d, calls, n) == if fails then 0 else 1 by { FeltOfFailing(d, calls, n); }
    assert Fold(ops[..Felt(d, calls, n)], fga) == d.fga by {
      FoldOne(row.op, fga);
      FoldNone(fga);
      assert ops[..0] == [];
    }
  }

  /** A row the drain touched was pending and has one more attempt; every other is as it was. */
  lemma {:induction false} DrainKeepsRows(rows: seq<OutboxRow>, fga: set<Grant>, calls: seq<Call>, n: nat,
                                          limit: Option<nat>)
    ensures var d := Drain(rows, fga, calls, n, limit);
      && |d.rows| == |rows|
      && forall i :: 0 <= i < |rows| ==>
           d.rows[i] == rows[i]
           || (!rows[i].processed && d.rows[i] == rows[i].(attempts := rows[i].attempts + 1,
                                                           processed := d.rows[i].processed))
    decreases |rows|
  {
    hide Effect;
    if rows == [] || (limit.Some? && n >= limit.value) {
    } else {
      DrainKeepsRows(rows[1..], fga, calls, n, limit);
      DrainKeepsRows(rows[1..], Effect(rows[0].op, fga), calls, n + 1, limit);
      assert forall i :: 0 < i < |rows| ==> rows[i] == rows[1..][i - 1];
    }
  }

  /** A committed drain neither loses nor reorders: what is left of the queue still leads to
      the same store. */
  lemma {:induction false} DrainCommitted(rows: seq<OutboxRow>, fga: set<Grant>, calls: seq<Call>, n: nat, limit: Option<nat>)
    ensures var d := Drain(rows, fga, calls, n, limit);
      Fold(Pending(d.rows), d.fga) == Fold(Pending(rows), fga)
    decreases |rows|
  {
    if rows == [] || (limit.Some? && n >= limit.value) {
    } else if rows[0].processed {
      DrainCommitted(rows[1..], fga, calls, n, limit);
      PendingSkip(rows[0], Drain(rows[1..], fga, calls, n, limit).rows);
      PendingSkip(rows[0], rows[1..]);
      assert rows == [rows[0]] + rows[1..];
    } else {
      var op := rows[0].op;
      PendingTake(rows[0], rows[1..], fga);
      assert rows == [rows[0]] + rows[1..];
      match CallAt(calls, n)
      case Works =>
        DrainCommitted(rows[1..], Effect(op, fga), calls, n + 1, limit);
        PendingSkip(rows[0].(attempts := rows[0].attempts + 1, processed := true),
                    Drain(rows[1..], Effect(op, fga), calls, n + 1, limit).rows);
      case Fails =>
        PendingTake(rows[0].(attempts := rows[0].attempts + 1), rows[1..], fga);
      case FailsAfterEffect =>
        PendingTake(rows[0].(attempts := rows[0].attempts + 1), rows[1..], Effect(op, fga));
        assert Effect(op, Effect(op, fga)) == Effect(op, fga);
    }
  }

  lemma PendingSkip(row: OutboxRow, rest: seq<OutboxRow>)
    requires row.processed
    ensures Pending([row] + rest) == Pending(rest)
  {
    assert ([row] + rest)[1..] == rest;
  }

  lemma PendingTake(row: OutboxRow, rest: seq<OutboxRow>, s: set<Grant>)
    requires !row.processed
    ensures Pending([row] + rest) == [row.op] + Pending(rest)
    ensures Fold(Pending([row] + rest), s) == Fold(Pending(rest), Effect(row.op, s))
  {
    assert ([row] + rest)[1..] == rest;
    assert ([row.op] + Pending(rest))[1..] == Pending(rest);
  }

  /** Whatever a drain did to the store concerns only grants its queue mentions. */
  lemma {:induction false} DrainTouches(rows: seq<OutboxRow>, fga: set<Grant>, calls: seq<Call>, n: nat, limit: Option<nat>)
    ensures AgreeElsewhere(Pending(rows), Drain(rows, fga, calls, n, limit).fga, fga)
    decreases |rows|
  {
    if rows == [] || (limit.Some? && n >= limit.value) {
    } else if rows[0].processed {
      DrainTouches(rows[1..], fga, calls, n, limit);
      assert Pending(rows) == Pending(rows[1..]);
    } else {
      var ops := Pending(rows);
      assert ops[0] == rows[0].op && ops[1..] == Pending(rows[1..]);
      DrainTouches(rows[1..], Effect(rows[0].op, fga), calls, n + 1, limit);
      forall g | !Mentions(ops, g) ensures g in Drain(rows, fga, calls, n, limit).fga <==> g in fga {
        MentionsCons(ops, g);
      }
    }
  }

  /** A drain whose transaction is lost still leaves a store the whole queue repairs. */
  lemma DrainRolledBack(rows: seq<OutboxRow>, fga: set<Grant>, calls: seq<Call>, n: nat, limit: Option<nat>)
    ensures Fold(Pending(rows), Drain(rows, fga, calls, n, limit).fga) == Fold(Pending(rows), fga)
  {
    DrainTouches(rows, fga, calls, n, limit);
    FoldForgets(Pending(rows), Drain(rows, fga, calls, n, limit).fga, fga);
  }

  /** With a store that answers and no limit, one drain empties the queue. */
  lemma {:induction false} DrainEmpties(rows: seq<OutboxRow>, fga: set<Grant>, calls: seq<Call>, n: nat)
    requires forall i :: n <= i < |calls| ==> calls[i] == Works
    ensures var d := Drain(rows, fga, calls, n, None);
      Pending(d.rows) == [] && !d.failed && d.fga == Fold(Pending(rows), fga)
    decreases |rows|
  {
    if rows == [] {
    } else {
      if rows[0].processed {
        DrainEmpties(rows[1..], fga, calls, n);
        PendingSkip(rows[0], rows[1..]);
        assert rows == [rows[0]] + rows[1..];
        PendingSkip(rows[0], Drain(rows[1..], fga, calls, n, None).rows);
      } else {
        DrainEmpties(rows[1..], Effect(rows[0].op, fga), calls, n + 1);
        PendingSkip(rows[0].(attempts := rows[0].attempts + 1, processed := true),
                    Drain(rows[1..], Effect(rows[0].op, fga), calls, n + 1, None).rows);
        PendingTake(rows[0], rows[1..], fga);
        assert rows == [rows[0]] + rows[1..];
      }
    }
  }

  // ------------------------------------------------------------- inline delete

  /** The inline delete is harmless exactly when the queue mentions its grant or the grant
      is not desired. */
  lemma InlineDeleteIff(a: Access, g: Grant)
    requires Converges(a)
    ensures Converges(a.(fga := a.fga - {g})) <==> Mentions(Pending(a.outbox), g) || g !in Desired(a)
  {
    var ops := Pending(a.outbox);
    var after := a.(fga := a.fga - {g});
    assert Desired(after) == Desired(a);
    if Mentions(ops, g) {
      FoldForgets(ops, a.fga, a.fga - {g});
    } else {
      FoldUnmentioned(ops, a.fga, g);
      FoldUnmentioned(ops, a.fga - {g}, g);
      if g !in Desired(a) {
        assert a.fga - {g} == a.fga;
      }
    }
  }

  // ------------------------------------------------------------------- rebuild

  function Superseded(rows: seq<OutboxRow>): seq<OutboxRow> {
    seq(|rows|, i requires 0 <= i < |rows| => rows[i].(processed := true))
  }

  lemma {:induction false} SupersededPending(rows: seq<OutboxRow>)
    ensures Pending(Superseded(rows)) == []
    decreases |rows|
  {
    if rows == [] {
    } else {
      assert Superseded(rows)[1..] == Superseded(rows[1..]);
      SupersededPending(rows[1..]);
    }
  }

  /** A store moved part of the way towards the desired set. */
  ghost predicate Towards(s: set<Grant>, t: set<Grant>, desired: set<Grant>) {
    forall g :: (g in t ==> g in s || g in desired) && (g in s && g !in t ==> g !in desired)
  }

  /** A rebuild that fails midway leaves convergence to the queue, which it has not touched. */
  lemma PartialRebuild(a: Access, fga: set<Grant>)
    requires Converges(a) && Towards(a.fga, fga, Desired(a))
    ensures Converges(a.(fga := fga))
  {
    var ops := Pending(a.outbox);
    assert Desired(a.(fga := fga)) == Desired(a);
    forall g | !Mentions(ops, g) ensures g in a.fga <==> g in fga {
      FoldUnmentioned(ops, a.fga, g);
    }
    FoldForgets(ops, a.fga, fga);
  }

  // ------------------------------------------------------------------ all runs

  datatype Event =
    | Assign(case_: Id, user: Id, role: string)
    | Remove(case_: Id, user: Id)
    | Register(id: Id, inCase: Option<Id>, description: string)
    | Custody(id: Id, toActor: string, fromActor: Option<string>, occurredAt: int, purpose: string)
    | OpenCase(newCase: Id)
    | Sync(calls: seq<Call>, limit: Option<nat>, commits: bool)
    | InlineDelete(grant: Grant, call: Call)
    | Rebuild
    | BrokenRebuild(left: set<Grant>)

  function OrElse(r: Result<Access, Refusal>, a: Access): Access { if r.Ok? then r.value else a }

  function Next(a: Access, e: Event): Access {
    match e
    case Assign(c, u, role) => OrElse(AssignMember(a, c, u, role), a)
    case Remove(c, u) => OrElse(RemoveMember(a, c, u), a)
    case Register(id, c, text) => OrElse(RegisterEvidence(a, id, c, text), a)
    case Custody(id, to, from, at, purpose) => OrElse(AddCustodyEvent(a, id, to, from, at, purpose), a)
    case OpenCase(c) => a.(cases := a.cases + {c})
    case Sync(calls, limit, commits) =>
      var d := Drain(a.outbox, a.fga, calls, 0, limit);
      a.(outbox := if commits then d.rows else a.outbox, fga := d.fga)
    case InlineDelete(g, call) => if call.Fails? then a else a.(fga := a.fga - {g})
    case Rebuild => a.(outbox := Superseded(a.outbox), fga := Desired(a))
    case BrokenRebuild(left) => a.(fga := left)
  }

  /** What the environment keeps to: an inline delete follows its queued delete or names an
      undesired grant, and a broken rebuild has only moved towards the desired set. */
  ghost predicate Allowed(a: Access, e: Event) {
    && (e.InlineDelete? ==> Mentions(Pending(a.outbox), e.grant) || e.grant !in Desired(a))
    && (e.BrokenRebuild? ==> Towards(a.fga, e.left, Desired(a)))
  }

  ghost predicate AllAllowed(a: Access, es: seq<Event>)
    decreases |es|
  {
    es == [] || (Allowed(a, es[0]) && AllAllowed(Next(a, es[0]), es[1..]))
  }

  function Run(a: Access, es: seq<Event>): Access
    decreases |es|
  {
    if es == [] then a else Run(Next(a, es[0]), es[1..])
  }

  lemma NextConverges(a: Access, e: Event)
    requires Converges(a) && Allowed(a, e)
    ensures Converges(Next(a, e))
  {
    hide Converges, Desired, Drain, Fold, AssignMember, RemoveMember, RegisterEvidence, AddCustodyEvent, Blank;
    match e
    case Assign(c, u, role) =>
      if AssignMember(a, c, u, role).Ok? { AssignConverges(a, c, u, role); }
    case Remove(c, u) =>
      if RemoveMember(a, c, u).Ok? { RemoveConverges(a, c, u); }
    case Register(id, c, text) =>
      if RegisterEvidence(a, id, c, text).Ok? { RegisterConverges(a, id, c, text); }
    case Custody(id, to, from, at, purpose) =>
      if AddCustodyEvent(a, id, to, from, at, purpose).Ok? { CustodyConverges(a, id, to, from, at, purpose); }
    case Sync(calls, limit, commits) => SyncConverges(a, calls, limit, commits);
    case InlineDelete(g, call) => if !call.Fails? { InlineDeleteIff(a, g); }
    case Rebuild => RebuildConverges(a);
    case BrokenRebuild(left) => PartialRebuild(a, left);
    case OpenCase(c) => CaseConverges(a, c);
  }

  lemma CaseConverges(a: Access, c: Id)
    requires Converges(a)
    ensures Converges(a.(cases := a.cases + {c}))
  {
    assert Desired(a.(cases := a.cases + {c})) == Desired(a);
  }

  lemma SyncConverges(a: Access, calls: seq<Call>, limit: Option<nat>, commits: bool)
    requires Converges(a)
    ensures Converges(Next(a, Sync(calls, limit, commits)))
  {
    hide Drain, Fold, MemberGrants, EvidenceGrants, CustodyGrants;
    DrainCommitted(a.outbox, a.fga, calls, 0, limit);
    DrainRolledBack(a.outbox, a.fga, calls, 0, limit);
    assert Desired(Next(a, Sync(calls, limit, commits))) == Desired(a);
  }

  lemma RebuildConverges(a: Access)
    ensures Converges(Next(a, Rebuild)) && Pending(Next(a, Rebuild).outbox) == []
    ensures Next(a, Rebuild).fga == Desired(Next(a, Rebuild))
  {
    hide MemberGrants, EvidenceGrants, CustodyGrants;
    SupersededPending(a.outbox);
    assert Desired(Next(a, Rebuild)) == Desired(a);
  }

  /** The store is always one drain away from the tables, over every run of actions, drains,
      failures, crashes, inline deletes and rebuilds; and whenever the queue is empty the two
      are equal. */
  lemma {:induction false} AlwaysConverges(a: Access, es: seq<Event>)
    requires Converges(a) && AllAllowed(a, es)
    ensures Converges(Run(a, es))
    ensures Pending(Run(a, es).outbox) == [] ==> Run(a, es).fga == Desired(Run(a, es))
    decreases |es|
  {
    hide Desired, Next, Allowed;
    if es == [] {
    } else {
      NextConverges(a, es[0]);
      AlwaysConverges(Next(a, es[0]), es[1..]);
    }
  }

  /** Whatever the store drifted to, a finished rebuild repairs it, for every later run. */
  lemma RebuildRepairsDrift(a: Access, es: seq<Event>)
    requires AllAllowed(Next(a, Rebuild), es)
    ensures Next(a, Rebuild).fga == Desired(a)
    ensures Converges(Run(Next(a, Rebuild), es))
  {
    hide Next;
    RebuildConverges(a);
    AlwaysConverges(Next(a, Rebuild), es);
    RebuildKeepsTables(a);
  }

  lemma RebuildKeepsTables(a: Access)
    ensures Desired(Next(a, Rebuild)) == Desired(a)
  {
    hide MemberGrants, EvidenceGrants, CustodyGrants;
  }

  /** The empty deployment converges. */
  lemma EmptyConverges()
    ensures Converges(Access({}, map[], map[], map[], [], {}))
  {
  }
}
