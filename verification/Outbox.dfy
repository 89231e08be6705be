/**
 The outbox: rows written in the transaction that makes them true, claimed in
 batches, published, and marked sent only once the bus has them.
 */
module Outbox {
  import opened Prelude
  import opened Orders

  const DRAIN_BATCH := 100

  datatype Row = Row(tenant: string, deployment: string, subject: string, payload: string, sent: bool)

  datatype Refusal = TenantRequired | SubjectRequired | DeploymentRequired

  function Check(tenant: string, deployment: string, subject: string): (r: Option<Refusal>) {
    if tenant == "" then Some(TenantRequired)
    else if subject == "" then Some(SubjectRequired)
    else if deployment == "" then Some(DeploymentRequired)
    else None
  }

  // ---- what is owed ----------------------------------------------------------------------------

  predicate Owes(rows: map<nat, Row>, deployment: string, locked: set<nat>, id: nat) {
    id in rows && !rows[id].sent && rows[id].deployment == deployment && id !in locked
  }

  /** The deployment's unsent, unlocked rows with ids below a bound, oldest first. */
  function Owed(rows: map<nat, Row>, deployment: string, locked: set<nat>, bound: nat): (r: seq<nat>) {
    if bound == 0 then []
    else
      Owed(rows, deployment, locked, bound - 1)
      + (if Owes(rows, deployment, locked, bound - 1) then [bound - 1] else [])
  }

  lemma {:induction false} OwedMeans(rows: map<nat, Row>, deployment: string, locked: set<nat>, bound: nat)
    ensures var s := Owed(rows, deployment, locked, bound);
            Increasing(s) && forall id: nat :: id in s <==> id < bound && Owes(rows, deployment, locked, id)
  {
    if bound > 0 {
      OwedMeans(rows, deployment, locked, bound - 1);
      var s := Owed(rows, deployment, locked, bound - 1);
      assert forall i :: 0 <= i < |s| ==> s[i] in s;
    }
  }

  /** ORDER BY id LIMIT 100. */
  function Batch(owed: seq<nat>): (r: seq<nat>) {
    if |owed| <= DRAIN_BATCH then owed else owed[..DRAIN_BATCH]
  }

  /** The rows that get out before the first that will not. */
  function GetOut(ids: seq<nat>, fails: set<nat>): (r: seq<nat>)
    ensures r <= ids
  {
    if ids == [] || ids[0] in fails then [] else [ids[0]] + GetOut(ids[1..], fails)
  }

  function Mark(rows: map<nat, Row>, ids: seq<nat>): (r: map<nat, Row>)
    ensures r.Keys == rows.Keys
    ensures forall id :: id in rows ==> r[id] == if id in ids then rows[id].(sent := true) else rows[id]
  {
    map id | id in rows :: if id in ids then rows[id].(sent := true) else rows[id]
  }

  // ---- one plane, draining ------------------------------------------------------------------------

  /** The store's committed rows, and what the bus has accepted, as one drainer sees them. */
  class Outbox {
    const deployment: string
    var rows: map<nat, Row>
    var next: nat
    var accepted: seq<nat>

    ghost predicate Valid()
      reads this
    {
      forall id :: id in rows ==> id < next && rows[id].deployment != ""
    }

    constructor (name: string)
      ensures Valid() && deployment == name && rows == map[] && accepted == [] && next == 0
    {
      deployment, rows, next, accepted := name, map[], 0, [];
    }

    /** In a transaction that commits. */
    method Enqueue(tenant: string, subject: string, payload: string) returns (refused: Option<Refusal>)
      requires Valid()
      modifies this
      ensures Valid() && accepted == old(accepted) && refused == Check(tenant, deployment, subject)
      ensures refused.Some? ==> rows == old(rows)
      ensures refused.None? ==> rows == old(rows)[old(next) := Row(tenant, deployment, subject, payload, false)]
    {
      refused := Check(tenant, deployment, subject);
      if refused.None? {
        rows := rows[next := Row(tenant, deployment, subject, payload, false)];
        next := next + 1;
      }
    }

    ghost function Backlog(): (r: seq<nat>)
      reads this
    {
      Owed(rows, deployment, {}, next)
    }

    /** Publish in order, and stop at the first that fails. */
    method Publish(claimed: seq<nat>, fails: set<nat>) returns (sent: seq<nat>)
      modifies this
      ensures sent == GetOut(claimed, fails) && accepted == old(accepted) + sent
      ensures rows == old(rows) && next == old(next)
    {
      sent := [];
      var i := 0;
      while i < |claimed|
        invariant 0 <= i <= |claimed| && rows == old(rows) && next == old(next)
        invariant accepted == old(accepted) + sent && GetOut(claimed, fails) == sent + GetOut(claimed[i..], fails)
      {
        GetOutNext(claimed, i, fails, sent);
        if claimed[i] in fails { return; }
        Regroup(old(accepted), sent, [claimed[i]]);
        accepted := accepted + [claimed[i]];
        sent := sent + [claimed[i]];
        i := i + 1;
      }
      assert claimed[i..] == [] && sent + [] == sent;
    }

    /** One batch: `fails` are the rows the bus will not take just now, `commits` whether the marks stick. */
    method Drain(fails: set<nat>, commits: bool) returns (published: nat, failed: bool)
      requires Valid()
      modifies this
      ensures Valid() && next == old(next)
      ensures var out := GetOut(Batch(old(Backlog())), fails);
              && accepted == old(accepted) + out
              && rows == (if commits then Mark(old(rows), out) else old(rows))
              && published == (if commits then |out| else 0)
              && (failed <==> deployment == "" || !commits || |out| < |Batch(old(Backlog()))|)
              && (deployment == "" ==> |out| == 0)
    {
      if deployment == "" {
        NothingOwed(rows, next);
        return 0, true;
      }
      var claimed := Batch(Owed(rows, deployment, {}, next));
      var sent := Publish(claimed, fails);
      if !commits { return 0, true; }
      rows := Mark(rows, sent);
      return |sent|, |sent| < |claimed|;
    }

    /**
     Batch after batch until one fails or comes up short: exactly what one unbounded
     drain would have published and marked.
     */
    method DrainBacklog(fails: set<nat>)
      requires Valid()
      modifies this
      ensures Valid() && next == old(next)
      ensures var out := GetOut(old(Backlog()), fails); accepted == old(accepted) + out && rows == Mark(old(rows), out)
    {
      ghost var all := Backlog();
      ghost var done := 0;
      NothingDrained(all, rows, accepted, fails);
      while true
        invariant Valid() && next == old(next) && done <= |all| && Backlog() == all[done..]
        invariant Drained(all, done, old(rows), rows, old(accepted), accepted, fails)
        decreases |all| - done
      {
        ghost var out := GetOut(Batch(all[done..]), fails);
        ghost var before, had := rows, accepted;
        var n, failed := Drain(fails, true);
        DrainedMore(all, done, old(rows), before, old(accepted), had, fails, out);
        if failed || n < DRAIN_BATCH { return; }
        OwedAfterMark(before, deployment, next, out);
        done := done + |out|;
      }
    }
  }

  /** No row belongs to a plane without a name. */
  lemma NothingOwed(rows: map<nat, Row>, bound: nat)
    requires forall id :: id in rows ==> rows[id].deployment != ""
    ensures Owed(rows, "", {}, bound) == [] && Mark(rows, []) == rows
  {
    var owed := Owed(rows, "", {}, bound);
    assert owed != [] ==> owed[0] in owed;
    OwedMeans(rows, "", {}, bound);
  }

  /** The first rows of the backlog are out and marked, and nothing else has changed. */
  ghost predicate Drained(
    all: seq<nat>, done: nat, rows: map<nat, Row>, rows': map<nat, Row>, accepted: seq<nat>, accepted': seq<nat>,
    fails: set<nat>)
  {
    && done <= |all| && accepted' == accepted + all[..done] && rows' == Mark(rows, all[..done])
    && GetOut(all, fails) == all[..done] + GetOut(all[done..], fails)
  }

  lemma NothingDrained(all: seq<nat>, rows: map<nat, Row>, accepted: seq<nat>, fails: set<nat>)
    ensures Drained(all, 0, rows, rows, accepted, accepted, fails) && all[0..] == all
  {
    assert all[..0] == [] && all[0..] == all && accepted + [] == accepted;
    assert [] + GetOut(all, fails) == GetOut(all, fails);
    assert Mark(rows, []) == rows;
  }

  lemma DrainedMore(
    all: seq<nat>, done: nat, rows: map<nat, Row>, rows': map<nat, Row>, accepted: seq<nat>, accepted': seq<nat>,
    fails: set<nat>,
    out: seq<nat>)
    requires Drained(all, done, rows, rows', accepted, accepted', fails) && out == GetOut(Batch(all[done..]), fails)
    ensures |out| <= |all| - done && out == all[done..][..|out|] && |out| <= DRAIN_BATCH
    ensures |out| == DRAIN_BATCH ==>
              && Drained(all, done + |out|, rows, Mark(rows', out), accepted, accepted' + out, fails)
              && all[done..][|out|..] == all[done + |out|..]
    ensures |out| < DRAIN_BATCH ==>
              accepted' + out == accepted + GetOut(all, fails) && Mark(rows', out) == Mark(rows, GetOut(all, fails))
  {
    OutMore(all, done, fails, out);
    MarkTwice(rows, all, done, |out|);
    Regroup(accepted, all[..done], out);
  }

  lemma Regroup(a: seq<nat>, b: seq<nat>, c: seq<nat>)
    ensures a + b + c == a + (b + c)
  {
  }

  lemma OutMore(all: seq<nat>, done: nat, fails: set<nat>, out: seq<nat>)
    requires done <= |all| && GetOut(all, fails) == all[..done] + GetOut(all[done..], fails)
    requires out == GetOut(Batch(all[done..]), fails)
    ensures |out| <= |all| - done && out == all[done..][..|out|] == all[done..done + |out|] && |out| <= DRAIN_BATCH
    ensures all[done..][|out|..] == all[done + |out|..] && all[..done] + out == all[..done + |out|]
    ensures if |out| == DRAIN_BATCH then GetOut(all, fails) == all[..done + |out|] + GetOut(all[done + |out|..], fails)
            else GetOut(all, fails) == all[..done + |out|]
  {
    BatchGetsOut(all[done..], fails);
    assert all[done..][..|out|] == all[done..done + |out|];
    assert all[..done] + out == all[..done + |out|];
    assert all[done..][|out|..] == all[done + |out|..];
    Regroup(all[..done], out, GetOut(all[done + |out|..], fails));
  }

  lemma GetOutNext(ids: seq<nat>, i: nat, fails: set<nat>, sent: seq<nat>)
    requires i < |ids|
    ensures sent + GetOut(ids[i..], fails) ==
            if ids[i] in fails then sent else sent + [ids[i]] + GetOut(ids[i + 1..], fails)
  {
    assert ids[i..][1..] == ids[i + 1..] && ids[i..][0] == ids[i];
    assert sent + [] == sent;
    Regroup(sent, [ids[i]], GetOut(ids[i + 1..], fails));
  }

  lemma MarkTwice(rows: map<nat, Row>, all: seq<nat>, done: nat, more: nat)
    requires done + more <= |all|
    ensures Mark(Mark(rows, all[..done]), all[done..done + more]) == Mark(rows, all[..done + more])
  {
    assert all[..done + more] == all[..done] + all[done..done + more];
  }

  lemma {:induction false} GetOutSplits(a: seq<nat>, b: seq<nat>, fails: set<nat>)
    ensures GetOut(a + b, fails) == if GetOut(a, fails) == a then a + GetOut(b, fails) else GetOut(a, fails)
  {
    if a == [] {
      assert a + b == b;
    } else {
      assert (a + b)[1..] == a[1..] + b && a == [a[0]] + a[1..];
      GetOutSplits(a[1..], b, fails);
    }
  }

  /** A batch that gets out whole and is full leaves the rest; any other is the last. */
  lemma BatchGetsOut(owed: seq<nat>, fails: set<nat>)
    ensures var batch := Batch(owed); var out := GetOut(batch, fails);
            && |out| <= |owed| && out == owed[..|out|]
            && (|out| < |batch| || |out| < DRAIN_BATCH ==> GetOut(owed, fails) == out)
            && (|out| == DRAIN_BATCH ==> GetOut(owed, fails) == out + GetOut(owed[|out|..], fails))
  {
    var batch := Batch(owed);
    assert owed == batch + owed[|batch|..];
    GetOutSplits(batch, owed[|batch|..], fails);
    assert GetOut([], fails) == [];
  }

  lemma LaterPart(s: seq<nat>, k: nat, id: int)
    requires k <= |s| && Increasing(s)
    ensures id in s[k..] <==> id in s && id !in s[..k]
  {
    assert s == s[..k] + s[k..];
  }

  /** Marking the oldest owed rows leaves the rest owed. */
  lemma OwedAfterMark(rows: map<nat, Row>, deployment: string, bound: nat, out: seq<nat>)
    requires var owed := Owed(rows, deployment, {}, bound); |out| <= |owed| && out == owed[..|out|]
    ensures Owed(Mark(rows, out), deployment, {}, bound) == Owed(rows, deployment, {}, bound)[|out|..]
  {
    var owed := Owed(rows, deployment, {}, bound);
    var after := Owed(Mark(rows, out), deployment, {}, bound);
    OwedMeans(rows, deployment, {}, bound);
    OwedMeans(Mark(rows, out), deployment, {}, bound);
    forall id: int ensures id in after <==> id in owed[|out|..] {
      LaterPart(owed, |out|, id);
    }
    IncreasingIsUnique(after, owed[|out|..]);
  }
}
