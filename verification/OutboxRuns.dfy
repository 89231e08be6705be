/**
 Every interleaving of writers' transactions and concurrent drains, with publishes that
 fail and drains that abort.
 */
module OutboxRuns {
  import opened Prelude
  import opened Orders
  import opened Outbox

  /** A claim holds its rows until the drain's transaction ends; `published` of them are on the bus. */
  datatype Drain = Drain(deployment: string, claimed: seq<nat>, published: nat, stopped: bool)

  /** A message on a deployment's bus: the row it was published from, as it was. */
  datatype Message = Message(id: nat, deployment: string, subject: string, payload: string)

  /** `given` are the rows that reached the bus in drains that could not mark them. */
  datatype World = World(
    rows: map<nat, Row>, next: nat, open: map<nat, map<nat, Row>>, drains: map<nat, Drain>,
    bus: seq<Message>, given: seq<nat>)

  datatype Publication = Taken | Refused | TakenUnacknowledged

  datatype Action =
    | Begin(tx: nat)
    | Enqueue(tx: nat, tenant: string, deployment: string, subject: string, payload: string)
    | Commit(tx: nat)
    | Rollback(tx: nat)
    | Claim(drain: nat, deployment: string)
    | Publish(drain: nat, how: Publication)
    | Finish(drain: nat, commits: bool)

  function Locked(w: World): (r: set<nat>) {
    set d, id | d in w.drains && id in w.drains[d].claimed :: id
  }

  function MessageOf(id: nat, row: Row): (r: Message) {
    Message(id, row.deployment, row.subject, row.payload)
  }

  function Out(d: Drain): (r: seq<nat>) {
    if d.published <= |d.claimed| then d.claimed[..d.published] else d.claimed
  }

  function WithRow(rows: map<nat, Row>, id: nat, row: Row): (r: map<nat, Row>) {
    rows[id := row]
  }

  function Write(w: World, a: Action): (r: World)
    requires a.Begin? || a.Enqueue? || a.Commit? || a.Rollback?
  {
    match a
    case Begin(tx) => if tx in w.open then w else w.(open := w.open[tx := map[]])
    case Enqueue(tx, tenant, deployment, subject, payload) =>
      if tx in w.open && Check(tenant, deployment, subject).None? then
        w.(
          next := w.next + 1,
          open := w.open[tx := WithRow(w.open[tx], w.next, Row(tenant, deployment, subject, payload, false))])
      else w
    case Commit(tx) => if tx in w.open then w.(rows := w.rows + w.open[tx], open := w.open - {tx}) else w
    case Rollback(tx) => if tx in w.open then w.(open := w.open - {tx}) else w
  }

  function PublishNext(w: World, d: nat, how: Publication): (r: World)
    requires d in w.drains
  {
    var it := w.drains[d];
    if it.stopped || it.published >= |it.claimed| || it.claimed[it.published] !in w.rows then w
    else
      var id := it.claimed[it.published];
      var sent := w.bus + [MessageOf(id, w.rows[id])];
      match how
      case Taken => w.(bus := sent, drains := w.drains[d := it.(published := it.published + 1)])
      case Refused => w.(drains := w.drains[d := it.(stopped := true)])
      case TakenUnacknowledged =>
        w.(bus := sent, given := w.given + [id], drains := w.drains[d := it.(stopped := true)])
  }

  function End(w: World, d: nat, commits: bool): (r: World)
    requires d in w.drains
  {
    var it := w.drains[d];
    if commits then
      // Marks are written once the loop is over.
      if it.stopped || it.published >= |it.claimed| then w.(rows := Mark(w.rows, Out(it)), drains := w.drains - {d})
      else w
    else w.(given := w.given + Out(it), drains := w.drains - {d})
  }

  function Do(w: World, a: Action): (r: World) {
    match a
    case Claim(d, deployment) =>
      if d in w.drains || deployment == "" then w
      else w.(drains := w.drains[d := Drain(deployment, Batch(Owed(w.rows, deployment, Locked(w), w.next)), 0, false)])
    case Publish(d, how) => if d in w.drains then PublishNext(w, d, how) else w
    case Finish(d, commits) => if d in w.drains then End(w, d, commits) else w
    case _ => Write(w, a)
  }

  function Run(actions: seq<Action>): (w: World) {
    if actions == [] then World(map[], 0, map[], map[], [], [])
    else Do(Run(actions[..|actions| - 1]), actions[|actions| - 1])
  }

  // ---- what holds throughout -------------------------------------------------------------------------

  function Is(id: nat): (r: nat -> bool) { (x: nat) => x == id }
  function IsOf(id: nat): (r: Message -> bool) { (m: Message) => m.id == id }

  /** A claim is of committed, unsent rows of the drain's own deployment, in order. */
  ghost predicate DrainFits(w: World, d: Drain) {
    && Increasing(d.claimed) && d.published <= |d.claimed| && |d.claimed| <= DRAIN_BATCH
    && forall id :: id in d.claimed ==> id in w.rows && !w.rows[id].sent && w.rows[id].deployment == d.deployment
  }

  ghost predicate Disjoint(w: World) {
    forall d, e, id ::
      d in w.drains && e in w.drains && d != e && id in w.drains[d].claimed ==> id !in w.drains[e].claimed
  }

  ghost predicate InFlight(w: World, id: nat) {
    exists d :: d in w.drains && id in Out(w.drains[d])
  }

  /** A row has reached the bus once for each drain that gave it up, and once more if it is marked or about to be. */
  ghost predicate Accounted(w: World, id: nat) {
    Count(w.bus, IsOf(id)) ==
      Count(w.given, Is(id)) + (if id in w.rows && w.rows[id].sent then 1 else 0) + (if InFlight(w, id) then 1 else 0)
  }

  ghost predicate TxFits(w: World, rows: map<nat, Row>) {
    forall id :: id in rows ==>
      && id < w.next && id !in w.rows && !rows[id].sent
      && Check(rows[id].tenant, rows[id].deployment, rows[id].subject).None?
  }

  ghost predicate OpenApart(w: World) {
    forall t, u, id :: t in w.open && u in w.open && t != u && id in w.open[t] ==> id !in w.open[u]
  }

  ghost predicate DrainSide(w: World) {
    && (forall d :: d in w.drains ==> DrainFits(w, w.drains[d])) && Disjoint(w)
    && (forall m :: m in w.bus ==> m.id in w.rows && m == MessageOf(m.id, w.rows[m.id]))
    && (forall id: nat :: Accounted(w, id))
  }

  ghost predicate WriteSide(w: World) {
    && (forall id :: id in w.rows ==> id < w.next)
    && (forall t :: t in w.open ==> TxFits(w, w.open[t])) && OpenApart(w)
  }

  ghost predicate Inv(w: World) {
    WriteSide(w) && DrainSide(w)
  }

  lemma {:induction false} CountOfMember<T>(s: seq<T>, test: T -> bool)
    ensures Count(s, test) > 0 <==> exists i :: 0 <= i < |s| && test(s[i])
  {
    if s != [] {
      CountOfMember(s[..|s| - 1], test);
      assert forall i :: 0 <= i < |s| - 1 ==> s[..|s| - 1][i] == s[i];
    }
  }

  lemma {:induction false} CountAdds(a: seq<nat>, b: seq<nat>, test: nat -> bool)
    ensures Count(a + b, test) == Count(a, test) + Count(b, test)
  {
    if b == [] {
      assert a + b == a;
    } else {
      assert (a + b)[..|a + b| - 1] == a + b[..|b| - 1];
      CountAdds(a, b[..|b| - 1], test);
    }
  }

  lemma {:induction false} CountInOrder(s: seq<nat>, id: nat)
    requires Increasing(s)
    ensures Count(s, Is(id)) == if id in s then 1 else 0
  {
    if s != [] {
      var n := |s| - 1;
      CountInOrder(s[..n], id);
      assert s == s[..n] + [s[n]];
      assert s[n] !in s[..n];
    }
  }

  // ---- writers ------------------------------------------------------------------------------------------

  /** Committing unsent rows is nothing to the drains. */
  lemma NewRowsKeep(w: World, after: World)
    requires DrainSide(w) && after.drains == w.drains && after.bus == w.bus && after.given == w.given
    requires forall id :: id in w.rows ==> id in after.rows && after.rows[id] == w.rows[id]
    requires forall id :: id in after.rows && id !in w.rows ==> !after.rows[id].sent
    ensures DrainSide(after)
  {
    forall d | d in after.drains ensures DrainFits(after, after.drains[d]) { assert DrainFits(w, w.drains[d]); }
    forall id: nat ensures Accounted(after, id) {
      assert Accounted(w, id);
      assert InFlight(after, id) <==> InFlight(w, id);
    }
  }

  lemma CommitKeeps(w: World, tx: nat)
    requires WriteSide(w) && tx in w.open
    ensures WriteSide(Write(w, Commit(tx)))
  {
    var after := Write(w, Commit(tx));
    assert TxFits(w, w.open[tx]);
    forall t | t in after.open ensures TxFits(after, after.open[t]) {
      assert TxFits(w, w.open[t]);
      forall id | id in after.open[t] ensures id !in after.rows { assert id !in w.open[tx]; }
    }
  }

  lemma EnqueueKeeps(w: World, a: Action)
    requires WriteSide(w) && a.Enqueue? && a.tx in w.open
    ensures WriteSide(Write(w, a))
  {
    var after := Write(w, a);
    forall t | t in after.open ensures TxFits(after, after.open[t]) { assert TxFits(w, w.open[t]); }
  }

  lemma WriteKeeps(w: World, a: Action)
    requires Inv(w) && (a.Begin? || a.Enqueue? || a.Commit? || a.Rollback?)
    ensures Inv(Write(w, a))
  {
    var after := Write(w, a);
    if after != w {
      if a.Commit? {
        assert TxFits(w, w.open[a.tx]);
        CommitKeeps(w, a.tx);
      } else if a.Enqueue? {
        EnqueueKeeps(w, a);
      } else {
        forall t | t in after.open ensures TxFits(after, after.open[t]) {
          if t in w.open { assert TxFits(w, w.open[t]); }
        }
      }
      NewRowsKeep(w, after);
    }
  }

  // ---- drains ------------------------------------------------------------------------------------------------

  lemma ClaimFits(w: World, deployment: string)
    requires Inv(w)
    ensures var claimed := Batch(Owed(w.rows, deployment, Locked(w), w.next));
            && DrainFits(w, Drain(deployment, claimed, 0, false))
            && forall d, id :: d in w.drains && id in w.drains[d].claimed ==> id !in claimed
  {
    var owed := Owed(w.rows, deployment, Locked(w), w.next);
    OwedMeans(w.rows, deployment, Locked(w), w.next);
    assert forall id :: id in Batch(owed) ==> id in owed;
    forall d, id | d in w.drains && id in w.drains[d].claimed ensures id !in owed { assert id in Locked(w); }
  }

  lemma ClaimKeeps(w: World, d: nat, deployment: string)
    requires Inv(w) && d !in w.drains && deployment != ""
    ensures Inv(Do(w, Claim(d, deployment)))
  {
    var after := Do(w, Claim(d, deployment));
    ClaimFits(w, deployment);
    forall e | e in after.drains ensures DrainFits(after, after.drains[e]) {
      if e != d { assert DrainFits(w, w.drains[e]); }
    }
    forall id: nat ensures Accounted(after, id) {
      assert Accounted(w, id);
      FlightAfterClaim(w, after, d, id);
    }
  }

  lemma FlightAfterClaim(w: World, after: World, d: nat, id: nat)
    requires d !in w.drains && after.drains.Keys == w.drains.Keys + {d} && after.drains[d].published == 0
    requires forall e :: e in w.drains ==> after.drains[e] == w.drains[e]
    ensures InFlight(after, id) <==> InFlight(w, id)
  {
    assert Out(after.drains[d]) == [];
    if InFlight(w, id) {
      var e :| e in w.drains && id in Out(w.drains[e]);
      assert e in after.drains && id in Out(after.drains[e]);
    }
  }

  lemma PublishKeepsFit(w: World, d: nat, how: Publication)
    requires Inv(w) && d in w.drains
    ensures var after := PublishNext(w, d, how);
            && WriteSide(after)
            && (forall e :: e in after.drains ==> DrainFits(after, after.drains[e])) && Disjoint(after)
            && (forall m :: m in after.bus ==> m.id in after.rows && m == MessageOf(m.id, after.rows[m.id]))
  {
    var after := PublishNext(w, d, how);
    forall t | t in after.open ensures TxFits(after, after.open[t]) { assert TxFits(w, w.open[t]); }
    forall e | e in after.drains ensures DrainFits(after, after.drains[e]) { assert DrainFits(w, w.drains[e]); }
  }

  lemma PublishCounts(w: World, d: nat, how: Publication, id: nat)
    requires Inv(w) && d in w.drains
    ensures Accounted(PublishNext(w, d, how), id)
  {
    assert Accounted(w, id);
    if PublishNext(w, d, how) != w {
      var it := w.drains[d];
      var next := it.claimed[it.published];
      assert DrainFits(w, it) && next in it.claimed;
      CountAppend(w.bus, MessageOf(next, w.rows[next]), IsOf(id));
      CountAppend(w.given, next, Is(id));
      FlightAfterPublish(w, d, how, id);
    }
  }

  lemma PublishKeeps(w: World, d: nat, how: Publication)
    requires Inv(w) && d in w.drains
    ensures Inv(PublishNext(w, d, how))
  {
    PublishKeepsFit(w, d, how);
    forall id: nat ensures Accounted(PublishNext(w, d, how), id) { PublishCounts(w, d, how, id); }
  }

  lemma FlightAfterPublish(w: World, d: nat, how: Publication, id: nat)
    requires Inv(w) && d in w.drains && PublishNext(w, d, how) != w
    ensures var it := w.drains[d]; var next := it.claimed[it.published];
            && !InFlight(w, next)
            && (InFlight(PublishNext(w, d, how), id) <==> InFlight(w, id) || (how.Taken? && id == next))
  {
    var it, after := w.drains[d], PublishNext(w, d, how);
    var next := it.claimed[it.published];
    assert DrainFits(w, it) && next in it.claimed;
    forall e | e in w.drains ensures next !in Out(w.drains[e]) {
      if e != d { assert forall x :: x in Out(w.drains[e]) ==> x in w.drains[e].claimed; }
    }
    if how.Taken? {
      assert Out(after.drains[d]) == Out(it) + [next];
      assert id in Out(after.drains[d]) <==> id in Out(it) || id == next;
    } else {
      assert Out(after.drains[d]) == Out(it);
    }
    forall e | e in w.drains && e != d ensures after.drains[e] == w.drains[e] {}
    if InFlight(w, id) {
      var e :| e in w.drains && id in Out(w.drains[e]);
      assert e in after.drains && id in Out(after.drains[e]);
    }
  }

  lemma FlightAfterEnd(w: World, d: nat, commits: bool, id: nat)
    requires Inv(w) && d in w.drains && d !in End(w, d, commits).drains
    ensures InFlight(w, id) <==> InFlight(End(w, d, commits), id) || id in Out(w.drains[d])
    ensures id in Out(w.drains[d]) ==> !InFlight(End(w, d, commits), id) && id in w.rows && !w.rows[id].sent
    ensures Count(Out(w.drains[d]), Is(id)) == if id in Out(w.drains[d]) then 1 else 0
  {
    var it, after := w.drains[d], End(w, d, commits);
    assert DrainFits(w, it);
    CountInOrder(Out(it), id);
    forall e | e in after.drains ensures e in w.drains && after.drains[e] == w.drains[e] {}
    if InFlight(w, id) && id !in Out(it) {
      var e :| e in w.drains && id in Out(w.drains[e]);
      assert e in after.drains;
    }
    if id in Out(it) {
      assert id in it.claimed;
      forall e | e in after.drains ensures id !in Out(after.drains[e]) {
        assert forall x :: x in Out(w.drains[e]) ==> x in w.drains[e].claimed;
      }
    }
  }

  lemma EndKeeps(w: World, d: nat, commits: bool)
    requires Inv(w) && d in w.drains
    ensures Inv(End(w, d, commits))
  {
    var it, after := w.drains[d], End(w, d, commits);
    if after != w {
      assert DrainFits(w, it);
      assert d !in after.drains;
      forall e | e in after.drains ensures DrainFits(after, after.drains[e]) {
        assert DrainFits(w, w.drains[e]);
        assert forall x :: x in Out(it) ==> x in it.claimed;
      }
      forall t | t in after.open ensures TxFits(after, after.open[t]) { assert TxFits(w, w.open[t]); }
      forall id: nat ensures Accounted(after, id) {
        assert Accounted(w, id);
        FlightAfterEnd(w, d, commits, id);
        CountAdds(w.given, Out(it), Is(id));
      }
    }
  }

  lemma {:induction false} RunKeeps(actions: seq<Action>)
    ensures Inv(Run(actions))
  {
    if actions != [] {
      var w, a := Run(actions[..|actions| - 1]), actions[|actions| - 1];
      RunKeeps(actions[..|actions| - 1]);
      match a
      case Claim(d, deployment) => if d !in w.drains && deployment != "" { ClaimKeeps(w, d, deployment); }
      case Publish(d, how) => if d in w.drains { PublishKeeps(w, d, how); }
      case Finish(d, commits) => if d in w.drains { EndKeeps(w, d, commits); }
      case _ => WriteKeeps(w, a);
    }
  }

  // ---- the theorems ----------------------------------------------------------------------------------------------

  /** A committed row is owed or the bus has it; one marked sent, the bus has. */
  lemma OwedOrAccepted(actions: seq<Action>, id: nat)
    requires id in Run(actions).rows && Run(actions).rows[id].sent
    ensures exists m :: m in Run(actions).bus && m.id == id
  {
    var w := Run(actions);
    RunKeeps(actions);
    assert Accounted(w, id);
    CountOfMember(w.bus, IsOf(id));
    var i :| 0 <= i < |w.bus| && IsOf(id)(w.bus[i]);
    assert w.bus[i] in w.bus;
  }

  /** A row in the table stays in it: the same message, and once sent, sent. */
  predicate Remains(before: map<nat, Row>, after: map<nat, Row>, id: nat) {
    id in before ==>
      && id in after && after[id] == before[id].(sent := after[id].sent)
      && (before[id].sent ==> after[id].sent)
  }

  lemma StepRemains(w: World, a: Action, id: nat)
    requires Inv(w)
    ensures Remains(w.rows, Do(w, a).rows, id)
  {
    if a.Commit? && a.tx in w.open { assert TxFits(w, w.open[a.tx]); }
  }

  /** No committed row is ever lost: whatever happens next, it is still owed or the bus has it. */
  lemma {:induction false} CommittedRowsRemain(actions: seq<Action>, more: seq<Action>, id: nat)
    ensures Remains(Run(actions).rows, Run(actions + more).rows, id)
  {
    if more == [] {
      assert actions + more == actions;
    } else {
      var n := |more| - 1;
      assert (actions + more)[..|actions| + n] == actions + more[..n];
      CommittedRowsRemain(actions, more[..n], id);
      RunKeeps(actions + more[..n]);
      StepRemains(Run(actions + more[..n]), more[n], id);
    }
  }

  /** Everything on a bus is a committed row, byte for byte, of the deployment whose bus it is. */
  lemma PublishedAreCommitted(actions: seq<Action>, m: Message)
    requires m in Run(actions).bus
    ensures m.id in Run(actions).rows
    ensures var row := Run(actions).rows[m.id];
            m.deployment == row.deployment && m.subject == row.subject && m.payload == row.payload
    ensures forall t :: t in Run(actions).open ==> m.id !in Run(actions).open[t]
  {
    var w := Run(actions);
    RunKeeps(actions);
    forall t | t in w.open ensures m.id !in w.open[t] { assert TxFits(w, w.open[t]); }
  }

  /** A plane publishes only rows of its own deployment. */
  lemma OwnRowsOnly(actions: seq<Action>, d: nat, how: Publication)
    requires d in Run(actions).drains
    ensures var w := Run(actions); var after := PublishNext(w, d, how);
            && w.bus <= after.bus
            && forall i :: |w.bus| <= i < |after.bus| ==> after.bus[i].deployment == w.drains[d].deployment
  {
    var w := Run(actions);
    RunKeeps(actions);
    assert DrainFits(w, w.drains[d]);
    if !w.drains[d].stopped && w.drains[d].published < |w.drains[d].claimed| {
      assert w.drains[d].claimed[w.drains[d].published] in w.drains[d].claimed;
    }
  }

  /** Two drains never hold the same row. */
  lemma ClaimsAreDisjoint(actions: seq<Action>, d: nat, e: nat, id: nat)
    requires d in Run(actions).drains && e in Run(actions).drains && d != e && id in Run(actions).drains[d].claimed
    ensures id !in Run(actions).drains[e].claimed
  {
    RunKeeps(actions);
  }

  /**
   A row is on the bus exactly once more than drains gave it up, if it is marked or
   about to be; else exactly as often.
   */
  lemma EveryCopyIsAccountedFor(actions: seq<Action>, id: nat)
    ensures Accounted(Run(actions), id)
    ensures Count(Run(actions).given, Is(id)) == 0 ==> Count(Run(actions).bus, IsOf(id)) <= 1
  {
    var w := Run(actions);
    RunKeeps(actions);
    assert Accounted(w, id);
    if InFlight(w, id) {
      var d :| d in w.drains && id in Out(w.drains[d]);
      assert DrainFits(w, w.drains[d]) && id in w.drains[d].claimed;
    }
  }
}
