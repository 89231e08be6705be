/** What a transaction and a drain come to, each served with nothing in between, from any world a run can reach. */
module Drains {
  import opened Prelude
  import opened Orders
  import opened Outbox
  import opened OutboxRuns

  // ---- a transaction --------------------------------------------------------------------------

  /**
   A message enqueued in a transaction is in the table, whole and unsent, exactly when
   it names a tenant, a deployment and a subject and the transaction commits; nothing
   else changes but the next id, and nothing is published.
   */
  lemma TransactionIsAtomic(
    w: World, tx: nat, tenant: string, deployment: string, subject: string, payload: string, commits: bool)
    requires tx !in w.open
    ensures var named := tenant != "" && deployment != "" && subject != "";
            var end := if commits then Commit(tx) else Rollback(tx);
            var row := Row(tenant, deployment, subject, payload, false);
            Do(Do(Do(w, Begin(tx)), Enqueue(tx, tenant, deployment, subject, payload)), end) ==
            World(if named && commits then w.rows[w.next := row] else w.rows,
                  if named then w.next + 1 else w.next, w.open, w.drains, w.bus, w.given)
  {
    var w1 := Do(w, Begin(tx));
    var w2 := Do(w1, Enqueue(tx, tenant, deployment, subject, payload));
    assert w2.open - {tx} == w.open;
    var row := Row(tenant, deployment, subject, payload, false);
    assert w.rows + map[] == w.rows;
    assert w.rows + map[][w.next := row] == w.rows[w.next := row];
  }

  /** Why a message is refused: the first of its names that is missing. */
  lemma RefusalIsTheFirst(tenant: string, deployment: string, subject: string)
    ensures Check(tenant, deployment, subject).None? <==> tenant != "" && deployment != "" && subject != ""
    ensures Check(tenant, deployment, subject) == Some(TenantRequired) <==> tenant == ""
    ensures Check(tenant, deployment, subject) == Some(SubjectRequired) <==> tenant != "" && subject == ""
  {
  }

  // ---- a drain ---------------------------------------------------------------------------------

  predicate Waiting(w: World, deployment: string, id: nat) {
    && id in w.rows && !w.rows[id].sent && w.rows[id].deployment == deployment
    && forall d :: d in w.drains ==> id !in w.drains[d].claimed
  }

  /** The oldest of what waits for a deployment, in order, a hundred at most. */
  ghost predicate IsBatch(w: World, deployment: string, batch: seq<nat>) {
    && Increasing(batch) && |batch| <= 100
    && (forall id :: id in batch ==> Waiting(w, deployment, id))
    && (forall id: nat :: Waiting(w, deployment, id) && id !in batch ==>
          |batch| == 100 && forall x :: x in batch ==> x < id)
  }

  /** What gets out of a batch: everything before the first the bus will not take. */
  predicate IsOut(batch: seq<nat>, fails: set<nat>, out: seq<nat>) {
    && out <= batch && (forall id :: id in out ==> id !in fails)
    && (out == batch || batch[|out|] in fails)
  }

  lemma BatchMeans(w: World, deployment: string)
    requires Inv(w)
    ensures IsBatch(w, deployment, Batch(Owed(w.rows, deployment, Locked(w), w.next)))
  {
    var owed := Owed(w.rows, deployment, Locked(w), w.next);
    var batch := Batch(owed);
    OwedMeans(w.rows, deployment, Locked(w), w.next);
    forall id: nat ensures id in owed <==> Waiting(w, deployment, id) {
      assert id in Locked(w) <==> exists d :: d in w.drains && id in w.drains[d].claimed;
      assert id in w.rows ==> id < w.next;
    }
    assert forall k :: 0 <= k < |batch| ==> batch[k] == owed[k] && batch[k] in batch;
    forall id: nat | id in owed && id !in batch ensures |batch| == 100 && forall x :: x in batch ==> x < id {
      var i :| 0 <= i < |owed| && owed[i] == id;
    }
  }

  lemma {:induction false} GetOutMeans(ids: seq<nat>, fails: set<nat>)
    ensures IsOut(ids, fails, GetOut(ids, fails))
  {
    if ids != [] && ids[0] !in fails {
      GetOutMeans(ids[1..], fails);
      assert ids == [ids[0]] + ids[1..];
    }
  }

  predicate AllIn(ids: seq<nat>, rows: map<nat, Row>) {
    forall id :: id in ids ==> id in rows
  }

  function Messages(rows: map<nat, Row>, ids: seq<nat>): (r: seq<Message>)
    requires AllIn(ids, rows)
  {
    seq(|ids|, i requires 0 <= i < |ids| =>
      assert ids[i] in ids;
      Message(ids[i], rows[ids[i]].deployment, rows[ids[i]].subject, rows[ids[i]].payload))
  }

  function Next(batch: seq<nat>, fails: set<nat>, d: nat, k: nat): (r: Action)
    requires k < |batch|
  {
    Publish(d, if batch[k] in fails then Refused else Taken)
  }

  /** The first k rows published in turn; the bus refuses those in `fails`. */
  function PublishAll(w: World, d: nat, batch: seq<nat>, fails: set<nat>, k: nat): (r: World)
    requires k <= |batch|
  {
    if k == 0 then w else Do(PublishAll(w, d, batch, fails, k - 1), Next(batch, fails, d, k - 1))
  }

  lemma GetOutPrefix(batch: seq<nat>, fails: set<nat>, k: nat)
    requires k < |batch|
    ensures var out := GetOut(batch[..k], fails);
            GetOut(batch[..k + 1], fails) == if |out| < k || batch[k] in fails then out else out + [batch[k]]
  {
    assert batch[..k + 1] == batch[..k] + [batch[k]];
    GetOutSplits(batch[..k], [batch[k]], fails);
    assert [batch[k]][1..] == [] && GetOut([batch[k]], fails) == if batch[k] in fails then [] else [batch[k]];
    assert batch[..k] + [] == batch[..k];
  }

  lemma OnePublish(w: World, d: nat, it: Drain, fails: set<nat>)
    requires d in w.drains && w.drains[d] == it && !it.stopped && it.published < |it.claimed|
    requires it.claimed[it.published] in w.rows
    ensures var id := it.claimed[it.published];
            Do(w, Publish(d, if id in fails then Refused else Taken)) ==
            if id in fails then w.(drains := w.drains[d := it.(stopped := true)])
            else w.(bus := w.bus + [Message(id, w.rows[id].deployment, w.rows[id].subject, w.rows[id].payload)],
                    drains := w.drains[d := it.(published := it.published + 1)])
  {
  }

  lemma StoppedStays(w: World, d: nat, how: Publication)
    requires d in w.drains && w.drains[d].stopped
    ensures Do(w, Publish(d, how)) == w
  {
  }

  lemma MessagesMore(bus: seq<Message>, rows: map<nat, Row>, ids: seq<nat>, id: nat)
    requires AllIn(ids, rows) && id in rows
    ensures bus + Messages(rows, ids + [id]) ==
            bus + Messages(rows, ids) + [Message(id, rows[id].deployment, rows[id].subject, rows[id].payload)]
  {
    var m := Message(id, rows[id].deployment, rows[id].subject, rows[id].payload);
    assert Messages(rows, ids + [id]) == Messages(rows, ids) + [m];
    assert bus + (Messages(rows, ids) + [m]) == bus + Messages(rows, ids) + [m];
  }

  /** The drain has put so much on the bus, and has stopped or not. */
  function OutSoFar(w: World, d: nat, it: Drain, out: seq<nat>, stopped: bool): (r: World)
    requires AllIn(out, w.rows)
  {
    w.(bus := w.bus + Messages(w.rows, out), drains := w.drains[d := it.(published := |out|, stopped := stopped)])
  }

  lemma OneMoreOut(w: World, d: nat, it: Drain, fails: set<nat>, out: seq<nat>)
    requires AllIn(out, w.rows) && |out| < |it.claimed| && it.claimed[|out|] in w.rows
    ensures var id := it.claimed[|out|];
            Do(OutSoFar(w, d, it, out, false), Next(it.claimed, fails, d, |out|)) ==
            if id in fails then OutSoFar(w, d, it, out, true) else OutSoFar(w, d, it, out + [id], false)
  {
    var before := OutSoFar(w, d, it, out, false);
    OnePublish(before, d, before.drains[d], fails);
    MessagesMore(w.bus, w.rows, out, it.claimed[|out|]);
  }

  lemma NoneOut(w: World, d: nat, it: Drain)
    requires d in w.drains && w.drains[d] == it && it.published == 0 && !it.stopped
    ensures OutSoFar(w, d, it, [], false) == w
  {
    assert Messages(w.rows, []) == [] && w.bus + [] == w.bus && w.drains[d := it] == w.drains;
  }

  lemma NextOut(w: World, d: nat, it: Drain, fails: set<nat>, k: nat, before: seq<nat>, out: seq<nat>)
    requires k < |it.claimed| && it.claimed[k] in w.rows && |before| <= k && AllIn(before, w.rows)
    requires out == if |before| < k || it.claimed[k] in fails then before else before + [it.claimed[k]]
    ensures Do(OutSoFar(w, d, it, before, |before| < k), Next(it.claimed, fails, d, k)) ==
            OutSoFar(w, d, it, out, |out| < k + 1)
  {
    if |before| < k {
      StoppedStays(OutSoFar(w, d, it, before, true), d, Next(it.claimed, fails, d, k).how);
    } else {
      OneMoreOut(w, d, it, fails, before);
    }
  }

  lemma OutIsStored(w: World, it: Drain, fails: set<nat>, k: nat)
    requires k <= |it.claimed| && AllIn(it.claimed, w.rows)
    ensures |GetOut(it.claimed[..k], fails)| <= k && AllIn(GetOut(it.claimed[..k], fails), w.rows)
  {
    var out := GetOut(it.claimed[..k], fails);
    assert out <= it.claimed[..k];
    assert forall i :: 0 <= i < |out| ==> out[i] == it.claimed[i] && it.claimed[i] in it.claimed;
  }

  lemma {:induction false} PublishesAll(w: World, d: nat, it: Drain, fails: set<nat>, k: nat)
    requires d in w.drains && w.drains[d] == it && it.published == 0 && !it.stopped
    requires k <= |it.claimed| && AllIn(it.claimed, w.rows)
    ensures var out := GetOut(it.claimed[..k], fails);
            && AllIn(out, w.rows)
            && PublishAll(w, d, it.claimed, fails, k) == OutSoFar(w, d, it, out, |out| < k)
  {
    OutIsStored(w, it, fails, k);
    if k == 0 {
      assert it.claimed[..0] == [];
      NoneOut(w, d, it);
    } else {
      PublishesAll(w, d, it, fails, k - 1);
      OutIsStored(w, it, fails, k - 1);
      GetOutPrefix(it.claimed, fails, k - 1);
      assert it.claimed[k - 1] in it.claimed;
      NextOut(w, d, it, fails, k - 1, GetOut(it.claimed[..k - 1], fails), GetOut(it.claimed[..k], fails));
    }
  }

  /** A drain from its claim to the end of its transaction. */
  function DrainAlone(
    w: World, d: nat, deployment: string, batch: seq<nat>, fails: set<nat>, commits: bool): (r: World)
  {
    Do(PublishAll(Do(w, Claim(d, deployment)), d, batch, fails, |batch|), Finish(d, commits))
  }

  lemma FinishesAll(w: World, d: nat, it: Drain, out: seq<nat>, commits: bool)
    requires d !in w.drains && out <= it.claimed && AllIn(out, w.rows)
    ensures Do(OutSoFar(w.(drains := w.drains[d := it]), d, it, out, |out| < |it.claimed|), Finish(d, commits)) ==
            World(if commits then Mark(w.rows, out) else w.rows, w.next, w.open, w.drains,
                  w.bus + Messages(w.rows, out), if commits then w.given else w.given + out)
  {
    var before := OutSoFar(w.(drains := w.drains[d := it]), d, it, out, |out| < |it.claimed|);
    assert OutboxRuns.Out(before.drains[d]) == out;
    assert before.drains - {d} == w.drains;
  }

  /**
   From every world a run can reach, a drain with nothing in between claims the oldest
   of what waits for its deployment, puts on the bus, whole and in order, everything
   before the first the bus refuses, and marks exactly those, if its marks commit;
   otherwise they stay owed, and nothing else changes.
   */
  lemma DrainIsServed(actions: seq<Action>, d: nat, deployment: string, fails: set<nat>, commits: bool)
    requires d !in Run(actions).drains && deployment != ""
    ensures var w := Run(actions);
            exists batch, out ::
              && IsBatch(w, deployment, batch) && IsOut(batch, fails, out) && AllIn(out, w.rows)
              && DrainAlone(w, d, deployment, batch, fails, commits) ==
                 World(if commits then Mark(w.rows, out) else w.rows, w.next, w.open, w.drains,
                       w.bus + Messages(w.rows, out), if commits then w.given else w.given + out)
  {
    var w := Run(actions);
    RunKeeps(actions);
    var batch := Batch(Owed(w.rows, deployment, Locked(w), w.next));
    BatchMeans(w, deployment);
    DrainServed(w, d, deployment, batch, fails, commits);
    GetOutMeans(batch, fails);
  }

  lemma DrainServed(w: World, d: nat, deployment: string, batch: seq<nat>, fails: set<nat>, commits: bool)
    requires d !in w.drains && deployment != "" && batch == Batch(Owed(w.rows, deployment, Locked(w), w.next))
    requires AllIn(batch, w.rows)
    ensures var out := GetOut(batch, fails);
            && AllIn(out, w.rows)
            && DrainAlone(w, d, deployment, batch, fails, commits) ==
               World(if commits then Mark(w.rows, out) else w.rows, w.next, w.open, w.drains,
                     w.bus + Messages(w.rows, out), if commits then w.given else w.given + out)
  {
    var it := Drain(deployment, batch, 0, false);
    assert batch[..|batch|] == batch;
    PublishesAll(Do(w, Claim(d, deployment)), d, it, fails, |batch|);
    FinishesAll(w, d, it, GetOut(batch, fails), commits);
  }

  /**
   A publish the bus took without saying so puts the message there, stops the drain and
   leaves the row owed: no further publish of that drain does anything, and its marks,
   if they commit, are those of the rows before it.
   */
  lemma UnacknowledgedStaysOwed(w: World, d: nat, how: Publication)
    requires d in w.drains && !w.drains[d].stopped && w.drains[d].published < |w.drains[d].claimed|
    requires w.drains[d].claimed[w.drains[d].published] in w.rows
    ensures var it := w.drains[d]; var id := it.claimed[it.published]; var row := w.rows[id];
            var after := Do(w, Publish(d, TakenUnacknowledged));
            && after.bus == w.bus + [Message(id, row.deployment, row.subject, row.payload)]
            && after.given == w.given + [id] && after.rows == w.rows
            && Do(after, Publish(d, how)) == after
            && Do(after, Finish(d, true)).rows == Mark(w.rows, it.claimed[..it.published])
            && d !in Do(after, Finish(d, true)).drains
  {
  }
}
