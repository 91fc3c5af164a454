/** The append-only audit hash chain (aegis/audit/chain.py). The digest is a parameter: the
    theorems about editing assume only that it has no collisions. */
module AuditChain {
  import opened Common

  /** Every immutable field of an audit row; `detail` stands for its canonical JSON. */
  datatype Event = Event(id: nat, at: int, actor: string, sessionId: Option<string>, purpose: Option<string>,
                         caseId: Option<string>, action: string, resourceType: Option<string>,
                         resourceId: Option<string>, allow: bool, detail: string)

  datatype Row = Row(event: Event, prevHash: string, entryHash: string)

  type Digest = (string, Event) -> string

  const GENESIS: string := "0000000000000000000000000000000000000000000000000000000000000000"

  ghost predicate NoCollisions(digest: Digest) {
    forall p, e, q, f :: digest(p, e) == digest(q, f) ==> p == q && e == f
  }

  /** The hash the next row must carry as its predecessor. */
  function Head(log: seq<Row>): string {
    if log == [] then GENESIS else log[|log| - 1].entryHash
  }

  predicate LinkedAt(digest: Digest, log: seq<Row>, i: nat)
    requires i < |log|
  {
    && log[i].prevHash == Head(log[..i])
    && log[i].entryHash == digest(log[i].prevHash, log[i].event)
  }

  predicate Chained(digest: Digest, log: seq<Row>) {
    forall i :: 0 <= i < |log| ==> LinkedAt(digest, log, i)
  }

  datatype Reason = PreviousHash | EntryHash

  datatype Verdict =
    | Intact(checked: nat)
    | Broken(checked: nat, failedId: nat, reason: Reason, expected: string, actual: string)

  /** Recomputes the chain and stops at the first altered row. */
  method Verify(digest: Digest, log: seq<Row>) returns (v: Verdict)
    ensures v.Intact? <==> Chained(digest, log)
    ensures v.Intact? ==> v.checked == |log|
    ensures v.Broken? ==>
      && v.checked < |log| && v.failedId == log[v.checked].event.id
      && !LinkedAt(digest, log, v.checked)
      && (forall i :: 0 <= i < v.checked ==> LinkedAt(digest, log, i))
      && v.expected != v.actual
      && (v.reason.PreviousHash? ==> v.expected == Head(log[..v.checked]) && v.actual == log[v.checked].prevHash)
      && (v.reason.EntryHash? ==>
            && log[v.checked].prevHash == Head(log[..v.checked])
            && v.expected == digest(log[v.checked].prevHash, log[v.checked].event)
            && v.actual == log[v.checked].entryHash)
  {
    var expectedPrev := GENESIS;
    var checked := 0;
    while checked < |log|
      invariant 0 <= checked <= |log|
      invariant expectedPrev == Head(log[..checked])
      invariant forall i :: 0 <= i < checked ==> LinkedAt(digest, log, i)
    {
      var row := log[checked];
      if row.prevHash != expectedPrev {
        assert !LinkedAt(digest, log, checked);
        return Broken(checked, row.event.id, PreviousHash, expectedPrev, row.prevHash);
      }
      var expectedEntry := digest(row.prevHash, row.event);
      if row.entryHash != expectedEntry {
        assert !LinkedAt(digest, log, checked);
        return Broken(checked, row.event.id, EntryHash, expectedEntry, row.entryHash);
      }
      checked := checked + 1;
      expectedPrev := row.entryHash;
    }
    return Intact(checked);
  }

  class AuditLog {
    var rows: seq<Row>

    constructor ()
      ensures rows == []
    {
      rows := [];
    }

    /** Chains one event onto the head; the id comes from the table's sequence. */
    method Append(digest: Digest, event: Event) returns (ok: bool)
      modifies this
      ensures ok <==> !Blank(event.actor) && !Blank(event.action)
      ensures !ok ==> rows == old(rows)
      ensures ok ==> rows == old(rows) + [Row(event, Head(old(rows)), digest(Head(old(rows)), event))]
      ensures Chained(digest, old(rows)) ==> Chained(digest, rows)
    {
      if Blank(event.actor) || Blank(event.action) {
        return false;
      }
      var prevHash := if rows == [] then GENESIS else rows[|rows| - 1].entryHash;
      var row := Row(event, prevHash, "");
      row := row.(entryHash := digest(prevHash, event));
      AppendChains(digest, rows, row);
      rows := rows + [row];
      return true;
    }
  }

  lemma AppendChains(digest: Digest, log: seq<Row>, row: Row)
    requires row.prevHash == Head(log) && row.entryHash == digest(row.prevHash, row.event)
    ensures Chained(digest, log) ==> Chained(digest, log + [row])
  {
    if Chained(digest, log) {
      forall i | 0 <= i < |log| + 1 ensures LinkedAt(digest, log + [row], i) {
        assert (log + [row])[..i] == log[..i];
        if i < |log| { assert LinkedAt(digest, log, i); }
        assert log[..|log|] == log;
      }
    }
  }

  lemma ChainedFront(digest: Digest, log: seq<Row>)
    requires Chained(digest, log) && log != []
    ensures Chained(digest, log[..|log| - 1])
    ensures log[|log| - 1].prevHash == Head(log[..|log| - 1])
    ensures Head(log) == digest(Head(log[..|log| - 1]), log[|log| - 1].event)
  {
    var front := log[..|log| - 1];
    assert LinkedAt(digest, log, |log| - 1);
    forall i | 0 <= i < |front| ensures LinkedAt(digest, front, i) {
      assert LinkedAt(digest, log, i);
      assert front[..i] == log[..i];
    }
  }

  /** Two valid logs of equal length and equal head are the same log: any edit that keeps
      the final hash is caught. */
  lemma {:induction false} HeadDeterminesLog(digest: Digest, p: seq<Row>, q: seq<Row>)
    requires NoCollisions(digest)
    requires Chained(digest, p) && Chained(digest, q) && |p| == |q| && Head(p) == Head(q)
    ensures p == q
  {
    if p == [] {
    } else {
      ChainedFront(digest, p);
      ChainedFront(digest, q);
      HeadDeterminesLog(digest, p[..|p| - 1], q[..|q| - 1]);
      assert p == p[..|p| - 1] + [p[|p| - 1]] && q == q[..|q| - 1] + [q[|q| - 1]];
      assert LinkedAt(digest, p, |p| - 1) && LinkedAt(digest, q, |q| - 1);
    }
  }

  /** If moreover no event hashes to the genesis value, equal heads alone are enough:
      cutting or extending a log is caught too. */
  lemma {:induction false} HeadDeterminesLength(digest: Digest, p: seq<Row>, q: seq<Row>)
    requires NoCollisions(digest) && forall h, e :: digest(h, e) != GENESIS
    requires Chained(digest, p) && Chained(digest, q) && Head(p) == Head(q)
    ensures |p| == |q|
  {
    hide GENESIS;
    if p != [] { ChainedFront(digest, p); }
    if q != [] { ChainedFront(digest, q); }
    if p == [] || q == [] {
    } else {
      HeadDeterminesLength(digest, p[..|p| - 1], q[..|q| - 1]);
    }
  }

  /** An edited row in a valid log: either verification breaks, or the final hash moved. */
  lemma EditIsVisible(digest: Digest, log: seq<Row>, i: nat, edited: Row)
    requires NoCollisions(digest) && Chained(digest, log) && i < |log| && edited != log[i]
    ensures !Chained(digest, log[i := edited]) || Head(log[i := edited]) != Head(log)
  {
    var other := log[i := edited];
    assert other[i] != log[i];
    if Chained(digest, other) && Head(other) == Head(log) {
      HeadDeterminesLog(digest, log, other);
    }
  }
}
