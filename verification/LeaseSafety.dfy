/**
 What every interleaving of single bucket calls keeps, for any number of planes.
 Each theorem is about the log of an arbitrary run.
 */
module LeaseSafety {
  import opened Prelude
  import opened LeaseKeys
  import opened Lease

  // ---- fences and their ends ---------------------------------------------

  /** A fence stops being current: superseded by a take, swept or withdrawn. */
  predicate Consumes(e: Event, key: string, fence: nat) {
    || (e.Took? && e.key == key && e.over == Some(fence))
    || (e.Ended? && e.key == key && e.fence == fence)
  }

  /** Fences strictly increase along every run, for one key and across keys. */
  lemma FencesIncrease(actions: seq<Action>, i: nat, j: nat)
    requires var log := Run(actions).log; i < j < |log| && log[i].Took? && log[j].Took?
    ensures var log := Run(actions).log; log[i].fence < log[j].fence
  {
    RunKeeps(actions);
    LaterTakeIsHigher(Run(actions).log, i, j);
  }

  /** The lease a key carries is its latest take. */
  lemma CurrentIsATake(log: seq<Event>, key: string)
    requires Current(log, key).Some?
    ensures var i := LastTouch(log, key);
            && 0 <= i && log[i].Took? && log[i].key == key
            && log[i].fence == Current(log, key).value.fence && log[i].record == Current(log, key).value.record
  {
  }

  lemma PrefixTouch(log: seq<Event>, key: string, k: nat, j: nat)
    requires k < j <= |log| && Touches(log[k], key)
    ensures k <= LastTouch(log[..j], key)
  {
    assert log[..j][k] == log[k];
  }

  /** What is consumed is the key's latest take. */
  lemma ConsumedWasTaken(log: seq<Event>, key: string, fence: nat, k: nat) returns (i: nat)
    requires Legal(log) && k < |log| && Consumes(log[k], key, fence)
    ensures i < k && log[i].Took? && log[i].key == key && log[i].fence == fence
  {
    assert Permitted(log[..k], log[k]);
    CurrentIsATake(log[..k], key);
    i := LastTouch(log[..k], key);
    assert log[..k][i] == log[i];
  }

  lemma LaterTakeIsHigher(log: seq<Event>, i: nat, j: nat)
    requires Legal(log) && i < j < |log| && log[i].Took? && log[j].Took?
    ensures log[i].fence < log[j].fence
  {
    assert Permitted(log[..j], log[j]);
    assert log[..j][i] == log[i];
  }

  /** Once a fence has been consumed the key never carries it again. */
  lemma ConsumedIsGone(log: seq<Event>, key: string, fence: nat, k: nat, j: nat)
    requires Legal(log) && k < j <= |log| && Consumes(log[k], key, fence)
    ensures Current(log[..j], key).Some? ==> Current(log[..j], key).value.fence > fence
  {
    var i := ConsumedWasTaken(log, key, fence, k);
    if Current(log[..j], key).Some? {
      CurrentIsATake(log[..j], key);
      PrefixTouch(log, key, k, j);
      var m := LastTouch(log[..j], key);
      assert log[..j][m] == log[m];
      LaterTakeIsHigher(log, i, m);
    }
  }

  lemma DeadOnLog(log: seq<Event>, key: string, fence: nat, k: nat, j: nat)
    requires Legal(log) && k < j < |log| && Consumes(log[k], key, fence)
    ensures log[j] != Confirmed(key, fence) && !Consumes(log[j], key, fence)
    ensures log[j].Took? && log[j].key == key ==> log[j].fence > fence
  {
    ConsumedIsGone(log, key, fence, k, j);
    var i := ConsumedWasTaken(log, key, fence, k);
    if log[j].Took? {
      LaterTakeIsHigher(log, i, j);
    }
    assert Permitted(log[..j], log[j]);
  }

  /**
   A token that has stopped being current is never accepted again by Validate,
   Renew's check or Withdraw's check, and nothing consumes its fence twice: a dead
   attempt is handed to at most one plane.
   */
  lemma DeadFenceStaysDead(actions: seq<Action>, key: string, fence: nat, k: nat, j: nat)
    requires var log := Run(actions).log; k < j < |log| && Consumes(log[k], key, fence)
    ensures var log := Run(actions).log;
            && log[j] != Confirmed(key, fence)
            && !Consumes(log[j], key, fence)
            && (log[j].Took? && log[j].key == key ==> log[j].fence > fence)
  {
    RunKeeps(actions);
    DeadOnLog(Run(actions).log, key, fence, k, j);
  }

  /** The key has a lease, and its attempt is no earlier than this. */
  ghost predicate Reached(log: seq<Event>, key: string, attempt: nat) {
    Current(log, key).Some? && Current(log, key).value.record.attempt >= attempt
  }

  /** Nothing ended the key's lease strictly between two positions. */
  ghost predicate Unended(log: seq<Event>, key: string, i: nat, j: nat)
    requires j <= |log|
  {
    forall k :: i < k < j ==> !(log[k].Ended? && log[k].key == key)
  }

  /** One event does not take the key below an attempt it has reached. */
  ghost predicate ClimbsAt(log: seq<Event>, key: string, attempt: nat, n: nat)
    requires n < |log|
  {
    Reached(log[..n], key, attempt) ==> Reached(log[..n + 1], key, attempt)
  }

  lemma AttemptClimbs(log: seq<Event>, key: string, n: nat, attempt: nat)
    requires Legal(log) && n < |log| && !(log[n].Ended? && log[n].key == key)
    ensures ClimbsAt(log, key, attempt, n)
  {
    assert Permitted(log[..n], log[n]);
    assert log[..n + 1] == log[..n] + [log[n]];
    CurrentAppend(log[..n], log[n], key);
  }

  lemma {:induction false} StaysReached(log: seq<Event>, key: string, attempt: nat, i: nat, j: nat)
    requires i < j <= |log| && Reached(log[..i + 1], key, attempt)
    requires forall n: nat :: i < n < j ==> ClimbsAt(log, key, attempt, n)
    ensures Reached(log[..j], key, attempt)
  {
    if i < j - 1 {
      StaysReached(log, key, attempt, i, j - 1);
      assert ClimbsAt(log, key, attempt, j - 1);
    }
  }

  lemma TakeReaches(log: seq<Event>, n: nat)
    requires n < |log| && log[n].Took?
    ensures Reached(log[..n + 1], log[n].key, log[n].record.attempt)
  {
    assert log[..n + 1] == log[..n] + [log[n]];
    CurrentAppend(log[..n], log[n], log[n].key);
  }

  /** While nothing ends the key's lease, its attempt only climbs. */
  lemma AttemptsClimb(log: seq<Event>, key: string, i: nat, j: nat)
    requires Legal(log) && i < j <= |log| && log[i].Took? && log[i].key == key && Unended(log, key, i, j)
    ensures Reached(log[..j], key, log[i].record.attempt)
  {
    TakeReaches(log, i);
    forall n: nat | i < n < j ensures ClimbsAt(log, key, log[i].record.attempt, n) {
      AttemptClimbs(log, key, n, log[i].record.attempt);
    }
    StaysReached(log, key, log[i].record.attempt, i, j);
  }

  /**
   Two takes of the same attempt of one step, or of a later attempt and then an
   earlier one, have a sweep or a withdrawal of that step's lease between them.
   */
  lemma RetakeNeedsAnEnd(actions: seq<Action>, i: nat, j: nat)
    requires var log := Run(actions).log;
             && i < j < |log| && log[i].Took? && log[j].Took? && log[i].key == log[j].key
             && log[j].record.attempt <= log[i].record.attempt
    ensures var log := Run(actions).log;
            exists k :: i < k < j && log[k].Ended? && log[k].key == log[i].key
  {
    RunKeeps(actions);
    var log := Run(actions).log;
    assert Permitted(log[..j], log[j]);
    if forall k :: i < k < j ==> !(log[k].Ended? && log[k].key == log[i].key) {
      AttemptsClimb(log, log[i].key, i, j);
    }
  }

  // ---- orphans and renewals ----------------------------------------------

  /** The renewal a log leaves was written by a Renew under the fence it names. */
  lemma {:induction false} RenewalWasWritten(log: seq<Event>, key: string)
    requires RenewalIn(log, key).Some?
    ensures var last := RenewalIn(log, key).value;
            exists m :: 0 <= m < |log| && log[m] == Renewed(key, last.fence, last.expiresAt)
  {
    var n := |log| - 1;
    if WritesRenewal(log[n], key) {
      assert log[n] == Renewed(key, RenewalIn(log, key).value.fence, RenewalIn(log, key).value.expiresAt);
    } else {
      RenewalWasWritten(log[..n], key);
      var last := RenewalIn(log, key).value;
      var m :| 0 <= m < n && log[..n][m] == Renewed(key, last.fence, last.expiresAt);
      assert log[m] == log[..n][m];
    }
  }

  /**
   An orphan is the record that was taken under its fence; if it was an offer,
   some Renew under that very fence was written before; and it was overdue by
   the renewal the sweep read.
   */
  lemma OrphanWasHeld(actions: seq<Action>, j: nat)
    requires var log := Run(actions).log; j < |log| && log[j].Ended? && log[j].how.Sweep?
    ensures var log := Run(actions).log; var e := log[j];
            && (exists i ::
                  && 0 <= i < j && log[i].Took? && log[i].key == e.key
                  && log[i].fence == e.fence && log[i].record == e.record)
            && (e.record.offered ==> exists m, at :: 0 <= m < j && log[m] == Renewed(e.key, e.fence, at))
            && e.decidedAt <= j
            && e.judgedAt > Deadline(e.record, e.fence, RenewalIn(log[..e.decidedAt], e.key)).0
  {
    RunKeeps(actions);
    var log := Run(actions).log;
    var e := log[j];
    assert Permitted(log[..j], e);
    CurrentIsATake(log[..j], e.key);
    var i := LastTouch(log[..j], e.key);
    assert log[i] == log[..j][i];
    if e.record.offered {
      var seen := log[..j][..e.decidedAt];
      RenewalWasWritten(seen, e.key);
      var last := RenewalIn(seen, e.key).value;
      var m :| 0 <= m < |seen| && seen[m] == Renewed(e.key, last.fence, last.expiresAt);
      assert log[m] == seen[m];
    }
    assert log[..j][..e.decidedAt] == log[..e.decidedAt];
  }

  /** A Renew is written only under a fence that was taken for that key. */
  lemma RenewalWasTaken(actions: seq<Action>, j: nat)
    requires var log := Run(actions).log; j < |log| && log[j].Renewed?
    ensures var log := Run(actions).log;
            exists i :: 0 <= i < j && log[i].Took? && log[i].key == log[j].key && log[i].fence == log[j].fence
  {
    RunKeeps(actions);
    var log := Run(actions).log;
    assert Permitted(log[..j], log[j]);
    var c :| 0 <= c < j && log[..j][c] == Confirmed(log[j].key, log[j].fence);
    assert Permitted(log[..c], log[c]);
    CurrentIsATake(log[..c], log[j].key);
    var i := LastTouch(log[..c], log[j].key);
    assert log[i] == log[..c][i];
  }

  /** The deadline a sweeper would read for a key's current lease, and whether anybody holds it. */
  function Standing(b: Bucket, key: string): (r: (int, bool))
    requires Stored(b, key).Some?
  {
    Deadline(Stored(b, key).value.record, Stored(b, key).value.fence, RenewalOf(b, key))
  }

  /**
   A renewal written late, after another offer took the key, never gives
   its lease a later deadline: what it may do is take the lease's own renewal away.
   */
  lemma StaleRenewalNeverExtends(actions: seq<Action>, pid: nat, now: int, told: bool)
    requires var w := Run(actions);
             && PcOf(w, pid).RenewPut? && Stored(w.bucket, PcOf(w, pid).token.value).Some?
             && Stored(w.bucket, PcOf(w, pid).token.value).value.fence != PcOf(w, pid).token.fence
    ensures var w := Run(actions); var key := PcOf(w, pid).token.value;
            var w' := StepOf(w, pid, now, told);
            && Stored(w'.bucket, key) == Stored(w.bucket, key)
            && (Standing(w'.bucket, key).1 ==>
                  Standing(w.bucket, key).1 && Standing(w'.bucket, key).0 <= Standing(w.bucket, key).0)
            // The lease loses its holder exactly when it is an offer its engine had accepted.
            && (Standing(w.bucket, key).1 && !Standing(w'.bucket, key).1 <==>
                && Stored(w.bucket, key).value.record.offered
                && RenewalOf(w.bucket, key).Some?
                && RenewalOf(w.bucket, key).value.fence == Stored(w.bucket, key).value.fence)
  {
  }

  /**
   A sweep's late cleanup, which erases whatever renewal the key has by then, never
   gives the key's lease a later deadline either, and takes its holder away in the
   same case: an offer its engine had accepted.
   */
  lemma LateForgetNeverExtends(actions: seq<Action>, pid: nat, now: int, told: bool)
    requires var w := Run(actions); PcOf(w, pid).SweepForget? && Stored(w.bucket, PcOf(w, pid).key).Some?
    ensures var w := Run(actions); var key := PcOf(w, pid).key;
            var w' := StepOf(w, pid, now, told);
            && Stored(w'.bucket, key) == Stored(w.bucket, key)
            && (Standing(w'.bucket, key).1 ==>
                  Standing(w.bucket, key).1 && Standing(w'.bucket, key).0 <= Standing(w.bucket, key).0)
            && (Standing(w.bucket, key).1 && !Standing(w'.bucket, key).1 <==>
                && Stored(w.bucket, key).value.record.offered
                && RenewalOf(w.bucket, key).Some?
                && RenewalOf(w.bucket, key).value.fence == Stored(w.bucket, key).value.fence)
  {
  }

  // ---- a withdrawal racing an acceptance ----------------------------------

  function LastRenewalWrite(log: seq<Event>, key: string, from: nat): (r: int)
    requires from <= |log|
    ensures r == -1 || (from <= r < |log| && WritesRenewal(log[r], key))
    ensures forall i :: (if r == -1 then from - 1 else r) < i < |log| ==> !WritesRenewal(log[i], key)
    decreases |log|
  {
    if |log| == from then -1
    else if WritesRenewal(log[|log| - 1], key) then |log| - 1
    else LastRenewalWrite(log[..|log| - 1], key, from)
  }

  lemma {:induction false} RenewalSince(log: seq<Event>, key: string, from: nat)
    requires from <= |log|
    ensures var r := LastRenewalWrite(log, key, from);
            RenewalIn(log, key) ==
              if r == -1 then RenewalIn(log[..from], key)
              else if log[r].Renewed? then Some(RenewRecord(log[r].fence, log[r].expiresAt)) else None
    decreases |log|
  {
    if |log| == from {
      assert log[..from] == log;
    } else if !WritesRenewal(log[|log| - 1], key) {
      RenewalSince(log[..|log| - 1], key, from);
      assert log[..|log| - 1][..from] == log[..from];
    }
  }

  /**
   A withdrawal removes offers only, and it removes one that has a holder exactly
   when the last renewal written after it looked, and before its delete, is a Renew
   under the offer's own fence.
   */
  lemma WithdrawalRace(actions: seq<Action>, j: nat)
    requires var log := Run(actions).log; j < |log| && log[j].Ended? && log[j].how.Withdrawal?
    ensures var log := Run(actions).log; var e := log[j];
            && e.record.offered && e.decidedAt <= j
            && var r := LastRenewalWrite(log[..j], e.key, e.decidedAt);
               e.accepted <==> r >= 0 && log[r].Renewed? && log[r].fence == e.fence
  {
    RunKeeps(actions);
    var log := Run(actions).log;
    var e := log[j];
    assert Permitted(log[..j], e);
    RenewalSince(log[..j], e.key, e.decidedAt);
  }

  /**
   A sweep deletes a lease that is still overdue at the moment of the delete,
   unless a renewal written after it looked says otherwise: with no renewal in
   between, a renewed lease is never swept.
   */
  lemma SweepRace(actions: seq<Action>, j: nat)
    requires var log := Run(actions).log; j < |log| && log[j].Ended? && log[j].how.Sweep?
    ensures var log := Run(actions).log; var e := log[j];
            && e.decidedAt <= j
            && var r := LastRenewalWrite(log[..j], e.key, e.decidedAt);
               var (deadline, held) := Deadline(e.record, e.fence, RenewalIn(log[..j], e.key));
               held && e.judgedAt > deadline <==>
                 || r == -1
                 || (if log[r].Forgot? || log[r].fence != e.fence
                     then !e.record.offered && e.judgedAt > e.record.expiresAt
                     else e.judgedAt > log[r].expiresAt && (e.record.offered || e.judgedAt > e.record.expiresAt))
  {
    RunKeeps(actions);
    var log := Run(actions).log;
    var e := log[j];
    assert Permitted(log[..j], e);
    RenewalSince(log[..j], e.key, e.decidedAt);
  }

  /** A renewal under this very fence: an engine's acceptance of an offer. */
  predicate Accepts(e: Event, key: string, fence: nat) {
    e.Renewed? && e.key == key && e.fence == fence
  }

  /** The last acceptance of an offer. */
  function LastAcceptance(log: seq<Event>, key: string, fence: nat): (r: int)
    ensures -1 <= r < |log|
    ensures r >= 0 ==> Accepts(log[r], key, fence)
    ensures forall i :: r < i < |log| ==> !Accepts(log[i], key, fence)
  {
    if log == [] then -1
    else if Accepts(log[|log| - 1], key, fence) then |log| - 1
    else LastAcceptance(log[..|log| - 1], key, fence)
  }

  /** Something wrote the key's renewal after position o and before position n. */
  ghost predicate Overwritten(log: seq<Event>, key: string, o: int, n: nat)
    requires n <= |log|
  {
    exists k :: o < k < n && 0 <= k && WritesRenewal(log[k], key)
  }

  /** An acceptance is in force exactly until the renewal is written again. */
  lemma InForce(log: seq<Event>, key: string, fence: nat, n: nat)
    requires n <= |log|
    ensures var o := LastAcceptance(log[..n], key, fence);
            RenewalIn(log[..n], key).Some? && RenewalIn(log[..n], key).value.fence == fence <==>
            o >= 0 && !Overwritten(log, key, o, n)
  {
    var o := LastAcceptance(log[..n], key, fence);
    RenewalSince(log[..n], key, 0);
    var r := LastRenewalWrite(log[..n], key, 0);
    assert log[..n][..0] == [];
    assert forall i :: 0 <= i < n ==> log[..n][i] == log[i];
    if r >= 0 { assert WritesRenewal(log[r], key); }
    if o >= 0 { assert Accepts(log[o], key, fence); }
  }

  /**
   A withdrawal that looks refuses a claim, and an offer exactly while its last
   acceptance has not been written over.
   */
  lemma WithdrawRefuses(actions: seq<Action>, pid: nat, now: int, told: bool)
    requires PcOf(Run(actions), pid).WithdrawJudge?
    ensures var w := Run(actions); var pc := PcOf(w, pid);
            var o := LastAcceptance(w.log, pc.token.value, pc.token.fence);
            PcOf(StepOf(w, pid, now, told), pid).Idle? <==>
            !pc.seen.offered || (o >= 0 && !Overwritten(w.log, pc.token.value, o, |w.log|))
  {
    RunKeeps(actions);
    var w := Run(actions);
    var t := PcOf(w, pid).token;
    assert RenewalIn(w.log, t.value) == RenewalOf(w.bucket, t.value);
    InForce(w.log, t.value, t.fence, |w.log|);
    assert w.log[..|w.log|] == w.log;
  }

  /**
   Where a withdrawn offer had been accepted, its last acceptance was written after the
   withdrawal looked, or was written before and then written over, by a sweep's late
   cleanup or a renewal under another fence, before it looked.
   */
  lemma WithdrawnAfterAcceptance(actions: seq<Action>, j: nat)
    requires var log := Run(actions).log; j < |log| && log[j].Ended? && log[j].how.Withdrawal?
    ensures var log := Run(actions).log; var e := log[j];
            var o := LastAcceptance(log[..j], e.key, e.fence);
            && e.record.offered && e.decidedAt <= j
            && (o >= 0 ==> e.decidedAt <= o || Overwritten(log, e.key, o, e.decidedAt))
  {
    RunKeeps(actions);
    var log := Run(actions).log;
    var e := log[j];
    assert Permitted(log[..j], e);
    assert log[..j][..e.decidedAt] == log[..e.decidedAt];
    var o := LastAcceptance(log[..j], e.key, e.fence);
    InForce(log, e.key, e.fence, e.decidedAt);
    assert forall i :: 0 <= i < j ==> log[..j][i] == log[i];
    if 0 <= o < e.decidedAt { SameLast(log, e.key, e.fence, e.decidedAt, j); }
  }

  lemma {:induction false} SameLast(log: seq<Event>, key: string, fence: nat, n: nat, j: nat)
    requires n <= j <= |log| && LastAcceptance(log[..j], key, fence) < n
    ensures LastAcceptance(log[..n], key, fence) == LastAcceptance(log[..j], key, fence)
  {
    var o, q := LastAcceptance(log[..j], key, fence), LastAcceptance(log[..n], key, fence);
    assert forall i :: 0 <= i < j ==> log[..j][i] == log[i];
    assert forall i :: 0 <= i < n ==> log[..n][i] == log[i];
    if o >= 0 { assert Accepts(log[..n][o], key, fence); }
    if q >= 0 { assert Accepts(log[..j][q], key, fence); }
  }

  /** Planes 0, 1: one offers and withdraws, the engine's acceptance lands in between. */
  function WithdrawRaceRun(offer: Call, token: Token): (r: seq<Action>) {
    [Begin(0, offer, 0), Step(0, 0, true), Step(0, 0, true)]
    + [Begin(0, CallWithdraw(token), 5), Step(0, 5, true), Step(0, 5, true)]
    + [Begin(1, CallRenew(token), 5), Step(1, 5, true), Step(1, 5, true)]
    + [Step(0, 5, true)]
  }

  lemma RunSnoc(actions: seq<Action>, a: Action)
    ensures Run(actions + [a]) == Do(Run(actions), a)
  {
    assert (actions + [a])[..|actions|] == actions;
  }

  lemma RunThree(actions: seq<Action>, a: Action, b: Action, c: Action)
    ensures Run(actions + [a, b, c]) == Do(Do(Do(Run(actions), a), b), c)
  {
    RunSnoc(actions, a);
    RunSnoc(actions + [a], b);
    RunSnoc(actions + [a] + [b], c);
    assert actions + [a, b, c] == actions + [a] + [b] + [c];
  }

  function Offered(key: string, record: ClaimRecord): (w: World) {
    World(WriteClaim(EMPTY_BUCKET, key, Some(record)), map[0 := Idle], [Took(key, 1, record, None, true)])
  }

  function Looked(key: string, record: ClaimRecord): (w: World) {
    var w := Offered(key, record);
    w.(procs := map[0 := WithdrawDelete(Token(key, 1), record, 2)], log := w.log + [Confirmed(key, 1)])
  }

  function Accepted(key: string, record: ClaimRecord): (w: World) {
    var w := Looked(key, record);
    World(WriteRenewal(w.bucket, key, Some(RenewRecord(1, 15))), w.procs[1 := Idle],
          w.log + [Confirmed(key, 1)] + [Renewed(key, 1, 15)])
  }

  lemma WithdrawDeletes(key: string, record: ClaimRecord)
    requires record.offered
    ensures Do(Accepted(key, record), Step(0, 5, true)).log
            == Accepted(key, record).log + [Ended(key, 1, record, Withdrawal, 2, 5, true, true)]
  {
    assert PcOf(Accepted(key, record), 0) == WithdrawDelete(Token(key, 1), record, 2);
  }

  lemma OfferRuns(call: Call, key: string, record: ClaimRecord)
    requires BeginCall(call, 0) == TakeRead(key, record, 0)
    ensures Do(Do(Do(START, Begin(0, call, 0)), Step(0, 0, true)), Step(0, 0, true)) == Offered(key, record)
  {
    var w1 := Do(START, Begin(0, call, 0));
    assert PcOf(w1, 0) == TakeRead(key, record, 0);
    var w2 := Do(w1, Step(0, 0, true));
    assert PcOf(w2, 0) == TakeCreate(key, record, 0);
    assert Do(w2, Step(0, 0, true)).procs == map[0 := Idle];
  }

  lemma WithdrawLooks(key: string, record: ClaimRecord)
    requires key != "" && record.offered
    ensures var w := Do(Offered(key, record), Begin(0, CallWithdraw(Token(key, 1)), 5));
            Do(Do(w, Step(0, 5, true)), Step(0, 5, true)) == Looked(key, record)
  {
    var w1 := Do(Offered(key, record), Begin(0, CallWithdraw(Token(key, 1)), 5));
    assert PcOf(w1, 0) == WithdrawRead(Token(key, 1));
    var w2 := Do(w1, Step(0, 5, true));
    assert PcOf(w2, 0) == WithdrawJudge(Token(key, 1), record);
    assert Do(w2, Step(0, 5, true)).procs == Looked(key, record).procs;
  }

  lemma EngineAccepts(key: string, record: ClaimRecord)
    requires key != "" && record.ttl == 10
    ensures var w := Looked(key, record);
            Do(Do(Do(w, Begin(1, CallRenew(Token(key, 1)), 5)), Step(1, 5, true)), Step(1, 5, true)) ==
              Accepted(key, record)
  {
    var w := Looked(key, record);
    var w1 := Do(w, Begin(1, CallRenew(Token(key, 1)), 5));
    assert PcOf(w1, 1) == RenewRead(Token(key, 1));
    var w2 := Do(w1, Step(1, 5, true));
    assert PcOf(w2, 1) == RenewPut(Token(key, 1), record);
    assert Do(w2, Step(1, 5, true)).procs == w.procs[1 := Idle];
  }

  lemma RunThreeFrom(actions: seq<Action>, w: World, a: Action, b: Action, c: Action, after: World)
    requires Run(actions) == w && Do(Do(Do(w, a), b), c) == after
    ensures Run(actions + [a, b, c]) == after
  {
    RunThree(actions, a, b, c);
  }

  lemma WithdrawRaceRuns(offer: Call, key: string, record: ClaimRecord)
    requires BeginCall(offer, 0) == TakeRead(key, record, 0) && key != "" && record.offered && record.ttl == 10
    ensures var log := Run(WithdrawRaceRun(offer, Token(key, 1))).log;
            && |log| == 5
            && log[3] == Renewed(key, 1, 15)
            && log[4] == Ended(key, 1, record, Withdrawal, 2, 5, true, true)
  {
    var t := Token(key, 1);
    var a := [Begin(0, offer, 0), Step(0, 0, true), Step(0, 0, true)];
    var b := [Begin(0, CallWithdraw(t), 5), Step(0, 5, true), Step(0, 5, true)];
    var c := [Begin(1, CallRenew(t), 5), Step(1, 5, true), Step(1, 5, true)];
    assert [] + a == a;
    OfferRuns(offer, key, record);
    RunThreeFrom([], START, a[0], a[1], a[2], Offered(key, record));
    WithdrawLooks(key, record);
    RunThreeFrom(a, Offered(key, record), b[0], b[1], b[2], Looked(key, record));
    EngineAccepts(key, record);
    RunThreeFrom(a + b, Looked(key, record), c[0], c[1], c[2], Accepted(key, record));
    RunSnoc(a + b + c, Step(0, 5, true));
    WithdrawDeletes(key, record);
    assert WithdrawRaceRun(offer, t) == a + b + c + [Step(0, 5, true)];
  }

  /**
   For every step there is a run in which an engine accepts an offer that a withdrawal
   has already looked at, and the withdrawal takes it.
   */
  lemma AcceptedOfferCanBeWithdrawn(tenant: seq<byte>, run: seq<byte>, step: seq<byte>)
    requires tenant != [] && run != [] && step != []
    ensures var key := ClaimKey(tenant, run, step).value;
            var log := Run(WithdrawRaceRun(CallTake(tenant, run, step, 1, 10, true), Token(key, 1))).log;
            && |log| == 5
            && log[3] == Renewed(key, 1, 15)
            && log[4].Ended? && log[4].how.Withdrawal? && log[4].key == key && log[4].fence == 1 && log[4].accepted
  {
    var key := ClaimKey(tenant, run, step).value;
    assert key[0] == 'l';
    WithdrawRaceRuns(CallTake(tenant, run, step, 1, 10, true), key, ClaimRecord(tenant, run, step, 1, 10, 10, true));
  }

  // ---- a renewal a sweep does not see --------------------------------------------

  /** Plane 0 claims and later sweeps its overdue claim; the engine's renewal lands before the delete. */
  function SweepRaceRun(claim: Call, key: string): (r: seq<Action>) {
    [Begin(0, claim, 0), Step(0, 0, true), Step(0, 0, true)]
    + [Begin(0, CallSweep(key), 20), Step(0, 20, true), Step(0, 20, true)]
    + [Begin(1, CallRenew(Token(key, 1)), 20), Step(1, 20, true), Step(1, 20, true)]
    + [Step(0, 20, true)]
  }

  function Judged(key: string, a: ClaimRecord): (w: World) {
    Offered(key, a).(procs := map[0 := SweepDelete(key, 1, a, 1, 20)])
  }

  function RenewedInTime(key: string, a: ClaimRecord): (w: World) {
    var w := Judged(key, a);
    World(WriteRenewal(w.bucket, key, Some(RenewRecord(1, 30))), w.procs[1 := Idle],
          w.log + [Confirmed(key, 1)] + [Renewed(key, 1, 30)])
  }

  lemma EngineRenews(key: string, a: ClaimRecord)
    requires key != "" && a.ttl == 10
    ensures Do(Do(Do(Judged(key, a), Begin(1, CallRenew(Token(key, 1)), 20)), Step(1, 20, true)), Step(1, 20, true)) ==
            RenewedInTime(key, a)
  {
    var w := Judged(key, a);
    var w1 := Do(w, Begin(1, CallRenew(Token(key, 1)), 20));
    assert PcOf(w1, 1) == RenewRead(Token(key, 1));
    var w2 := Do(w1, Step(1, 20, true));
    assert PcOf(w2, 1) == RenewPut(Token(key, 1), a);
    assert Do(w2, Step(1, 20, true)).procs == w.procs[1 := Idle];
  }

  lemma SweepDeletes(key: string, a: ClaimRecord)
    ensures Do(RenewedInTime(key, a), Step(0, 20, true)).log ==
            RenewedInTime(key, a).log + [Ended(key, 1, a, Sweep, 1, 20, true, true)]
  {
    assert PcOf(RenewedInTime(key, a), 0) == SweepDelete(key, 1, a, 1, 20);
  }

  lemma SweepRaceRuns(claim: Call, key: string, a: ClaimRecord)
    requires BeginCall(claim, 0) == TakeRead(key, a, 0) && key != ""
    requires !a.offered && a.expiresAt == 10 && a.ttl == 10
    ensures Run(SweepRaceRun(claim, key)).log ==
            RenewedInTime(key, a).log + [Ended(key, 1, a, Sweep, 1, 20, true, true)]
  {
    var p1 := [Begin(0, claim, 0), Step(0, 0, true), Step(0, 0, true)];
    var p2 := p1 + [Begin(0, CallSweep(key), 20), Step(0, 20, true), Step(0, 20, true)];
    var p3 := p2 + [Begin(1, CallRenew(Token(key, 1)), 20), Step(1, 20, true), Step(1, 20, true)];
    assert [] + p1 == p1;
    OfferRuns(claim, key, a);
    RunThreeFrom([], START, Begin(0, claim, 0), Step(0, 0, true), Step(0, 0, true), Offered(key, a));
    SweepJudges(key, a);
    RunThreeFrom(p1, Offered(key, a), Begin(0, CallSweep(key), 20), Step(0, 20, true), Step(0, 20, true),
                 Judged(key, a));
    EngineRenews(key, a);
    RunThreeFrom(p2, Judged(key, a), Begin(1, CallRenew(Token(key, 1)), 20), Step(1, 20, true), Step(1, 20, true),
                 RenewedInTime(key, a));
    SweepDeletes(key, a);
    RunSnoc(p3, Step(0, 20, true));
  }

  /**
   For every step there is a run in which a lease is swept after its holder renewed it:
   by the renewal that is there at the delete it is not overdue.
   */
  lemma RenewedLeaseCanBeSwept(tenant: seq<byte>, run: seq<byte>, step: seq<byte>)
    requires tenant != [] && run != [] && step != []
    ensures var key := ClaimKey(tenant, run, step).value;
            var log := Run(SweepRaceRun(CallTake(tenant, run, step, 1, 10, false), key)).log;
            && |log| == 4 && log[2] == Renewed(key, 1, 30)
            && log[3].Ended? && log[3].how.Sweep? && log[3].key == key && log[3].fence == 1 && log[3].judgedAt == 20
            && Deadline(log[3].record, 1, RenewalIn(log[..3], key)) == (30, true)
  {
    var key := ClaimKey(tenant, run, step).value;
    assert key[0] == 'l';
    var a := ClaimRecord(tenant, run, step, 1, 10, 10, false);
    SweepRaceRuns(CallTake(tenant, run, step, 1, 10, false), key, a);
    var log := Run(SweepRaceRun(CallTake(tenant, run, step, 1, 10, false), key)).log;
    assert log[..3] == RenewedInTime(key, a).log;
  }

  // ---- an acceptance that is erased ------------------------------------------

  /**
   Plane 0 claims, and sweeps its own overdue claim but is slow to clean up after it;
   plane 1 offers the step, its engine accepts, the cleanup lands, and then plane 1
   withdraws with nothing overlapping it.
   */
  function ErasedRun(claim: Call, offer: Call, key: string): (r: seq<Action>) {
    [Begin(0, claim, 0), Step(0, 0, true), Step(0, 0, true)]
    + [Begin(0, CallSweep(key), 20), Step(0, 20, true), Step(0, 20, true)]
    + [Step(0, 20, true), Begin(1, offer, 20), Step(1, 20, true)]
    + [Step(1, 20, true), Begin(1, CallRenew(Token(key, 3)), 25), Step(1, 25, true)]
    + [Step(1, 25, true), Step(0, 25, true), Begin(1, CallWithdraw(Token(key, 3)), 30)]
    + [Step(1, 30, true), Step(1, 30, true), Step(1, 30, true)]
  }

  function Swept(key: string, a: ClaimRecord): (b: Bucket) {
    WriteClaim(WriteClaim(EMPTY_BUCKET, key, Some(a)), key, None)
  }

  function Reoffered(key: string, a: ClaimRecord, b: ClaimRecord): (r: Bucket) {
    WriteClaim(Swept(key, a), key, Some(b))
  }

  function SweptOnce(key: string, a: ClaimRecord): (r: seq<Event>) {
    [Took(key, 1, a, None, true)] + [Ended(key, 1, a, Sweep, 1, 20, true, true)]
  }

  /** The log up to the offer, and then to the cleanup. */
  function TakenTwice(key: string, a: ClaimRecord, b: ClaimRecord): (r: seq<Event>) {
    SweptOnce(key, a) + [Took(key, 3, b, None, true)]
  }

  function Erased(key: string, b: ClaimRecord): (r: seq<Event>) {
    [Confirmed(key, 3), Renewed(key, 3, 25 + b.ttl), Forgot(key)]
  }

  predicate Rerun(key: string, a: ClaimRecord, b: ClaimRecord) {
    key != "" && !a.offered && a.expiresAt == 10 && b.offered
  }

  lemma SweepJudges(key: string, a: ClaimRecord)
    requires key != "" && !a.offered && a.expiresAt == 10
    ensures var w := Offered(key, a);
            Do(Do(Do(w, Begin(0, CallSweep(key), 20)), Step(0, 20, true)), Step(0, 20, true)) ==
            w.(procs := map[0 := SweepDelete(key, 1, a, 1, 20)])
  {
    var w := Offered(key, a);
    var w1 := Do(w, Begin(0, CallSweep(key), 20));
    assert PcOf(w1, 0) == SweepRead(key);
    var w2 := Do(w1, Step(0, 20, true));
    assert PcOf(w2, 0) == SweepJudge(key, 1, a);
    assert Do(w2, Step(0, 20, true)).procs == map[0 := SweepDelete(key, 1, a, 1, 20)];
  }

  lemma SweepEnds(key: string, a: ClaimRecord)
    requires key != "" && !a.offered && a.expiresAt == 10
    ensures Do(Offered(key, a).(procs := map[0 := SweepDelete(key, 1, a, 1, 20)]), Step(0, 20, true)) ==
            World(Swept(key, a), map[0 := SweepForget(key)], SweptOnce(key, a))
  {
    var w := Offered(key, a).(procs := map[0 := SweepDelete(key, 1, a, 1, 20)]);
    assert PcOf(w, 0) == SweepDelete(key, 1, a, 1, 20);
    assert Do(w, Step(0, 20, true)).procs == map[0 := SweepForget(key)];
  }

  lemma SweepThenOffer(offer: Call, key: string, a: ClaimRecord, b: ClaimRecord)
    requires Rerun(key, a, b) && BeginCall(offer, 20) == TakeRead(key, b, 0)
    ensures var w := World(Swept(key, a), map[0 := SweepForget(key)], SweptOnce(key, a));
            Do(Do(w, Begin(1, offer, 20)), Step(1, 20, true)) ==
            World(Swept(key, a), map[0 := SweepForget(key), 1 := TakeCreate(key, b, 0)], SweptOnce(key, a))
  {
    var w := World(Swept(key, a), map[0 := SweepForget(key)], SweptOnce(key, a));
    var w2 := Do(w, Begin(1, offer, 20));
    assert PcOf(w2, 1) == TakeRead(key, b, 0);
    assert Do(w2, Step(1, 20, true)).procs == map[0 := SweepForget(key), 1 := TakeCreate(key, b, 0)];
  }

  lemma OfferThenCheck(key: string, a: ClaimRecord, b: ClaimRecord)
    requires Rerun(key, a, b)
    ensures var w := World(Swept(key, a), map[0 := SweepForget(key), 1 := TakeCreate(key, b, 0)], SweptOnce(key, a));
            Do(Do(Do(w, Step(1, 20, true)), Begin(1, CallRenew(Token(key, 3)), 25)), Step(1, 25, true)) ==
            World(Reoffered(key, a, b), map[0 := SweepForget(key), 1 := RenewPut(Token(key, 3), b)],
                  TakenTwice(key, a, b) + Erased(key, b)[..1])
  {
    var w := World(Swept(key, a), map[0 := SweepForget(key), 1 := TakeCreate(key, b, 0)], SweptOnce(key, a));
    var w1 := Do(w, Step(1, 20, true));
    assert w1 == World(Reoffered(key, a, b), map[0 := SweepForget(key), 1 := Idle], TakenTwice(key, a, b));
    var w2 := Do(w1, Begin(1, CallRenew(Token(key, 3)), 25));
    assert PcOf(w2, 1) == RenewRead(Token(key, 3));
    var w3 := Do(w2, Step(1, 25, true));
    assert w3.procs == map[0 := SweepForget(key), 1 := RenewPut(Token(key, 3), b)];
    assert w3.log == TakenTwice(key, a, b) + Erased(key, b)[..1];
  }

  function AfterCleanup(key: string, a: ClaimRecord, b: ClaimRecord): (r: Bucket) {
    WriteRenewal(WriteRenewal(Reoffered(key, a, b), key, Some(RenewRecord(3, 25 + b.ttl))), key, None)
  }

  lemma AcceptThenErase(key: string, a: ClaimRecord, b: ClaimRecord)
    requires Rerun(key, a, b)
    ensures var w := World(Reoffered(key, a, b), map[0 := SweepForget(key), 1 := RenewPut(Token(key, 3), b)],
                           TakenTwice(key, a, b) + Erased(key, b)[..1]);
            Do(Do(Do(w, Step(1, 25, true)), Step(0, 25, true)), Begin(1, CallWithdraw(Token(key, 3)), 30)) ==
            World(AfterCleanup(key, a, b), map[0 := Idle, 1 := WithdrawRead(Token(key, 3))],
                  TakenTwice(key, a, b) + Erased(key, b))
  {
    var w := World(Reoffered(key, a, b), map[0 := SweepForget(key), 1 := RenewPut(Token(key, 3), b)],
                   TakenTwice(key, a, b) + Erased(key, b)[..1]);
    var w1 := Do(w, Step(1, 25, true));
    assert PcOf(w1, 0) == SweepForget(key);
    var w2 := Do(w1, Step(0, 25, true));
    assert w2.log == TakenTwice(key, a, b) + Erased(key, b);
    assert Do(w2, Begin(1, CallWithdraw(Token(key, 3)), 30)).procs == map[0 := Idle, 1 := WithdrawRead(Token(key, 3))];
  }

  lemma WithdrawWhole(key: string, a: ClaimRecord, b: ClaimRecord)
    requires Rerun(key, a, b)
    ensures var log := TakenTwice(key, a, b) + Erased(key, b);
            var w := World(AfterCleanup(key, a, b), map[0 := Idle, 1 := WithdrawRead(Token(key, 3))], log);
            Do(Do(Do(w, Step(1, 30, true)), Step(1, 30, true)), Step(1, 30, true)).log ==
            log + [Confirmed(key, 3), Ended(key, 3, b, Withdrawal, 7, 30, false, true)]
  {
    var log := TakenTwice(key, a, b) + Erased(key, b);
    var w := World(AfterCleanup(key, a, b), map[0 := Idle, 1 := WithdrawRead(Token(key, 3))], log);
    var w1 := Do(w, Step(1, 30, true));
    assert PcOf(w1, 1) == WithdrawJudge(Token(key, 3), b) && w1.log == log + [Confirmed(key, 3)];
    var w2 := Do(w1, Step(1, 30, true));
    assert PcOf(w2, 1) == WithdrawDelete(Token(key, 3), b, 7);
    assert Do(w2, Step(1, 30, true)).log == w1.log + [Ended(key, 3, b, Withdrawal, 7, 30, false, true)];
  }

  lemma ErasedRuns(claim: Call, offer: Call, key: string, a: ClaimRecord, b: ClaimRecord)
    requires Rerun(key, a, b) && BeginCall(claim, 0) == TakeRead(key, a, 0)
    requires BeginCall(offer, 20) == TakeRead(key, b, 0)
    ensures Run(ErasedRun(claim, offer, key)).log ==
            TakenTwice(key, a, b) + Erased(key, b) +
            [Confirmed(key, 3), Ended(key, 3, b, Withdrawal, 7, 30, false, true)]
  {
    var p1 := [Begin(0, claim, 0), Step(0, 0, true), Step(0, 0, true)];
    var p2 := p1 + [Begin(0, CallSweep(key), 20), Step(0, 20, true), Step(0, 20, true)];
    var p3 := p2 + [Step(0, 20, true), Begin(1, offer, 20), Step(1, 20, true)];
    var p4 := p3 + [Step(1, 20, true), Begin(1, CallRenew(Token(key, 3)), 25), Step(1, 25, true)];
    var p5 := p4 + [Step(1, 25, true), Step(0, 25, true), Begin(1, CallWithdraw(Token(key, 3)), 30)];
    assert [] + p1 == p1;
    OfferRuns(claim, key, a);
    RunThreeFrom([], START, Begin(0, claim, 0), Step(0, 0, true), Step(0, 0, true), Offered(key, a));
    SweepJudges(key, a);
    RunThree(p1, Begin(0, CallSweep(key), 20), Step(0, 20, true), Step(0, 20, true));
    SweepEnds(key, a);
    SweepThenOffer(offer, key, a, b);
    RunThree(p2, Step(0, 20, true), Begin(1, offer, 20), Step(1, 20, true));
    OfferThenCheck(key, a, b);
    RunThree(p3, Step(1, 20, true), Begin(1, CallRenew(Token(key, 3)), 25), Step(1, 25, true));
    AcceptThenErase(key, a, b);
    RunThree(p4, Step(1, 25, true), Step(0, 25, true), Begin(1, CallWithdraw(Token(key, 3)), 30));
    WithdrawWhole(key, a, b);
    RunThree(p5, Step(1, 30, true), Step(1, 30, true), Step(1, 30, true));
  }

  /**
   For every step there is a run in which an offer is accepted, the acceptance is
   erased by the cleanup of an earlier sweep, and a withdrawal nothing overlaps takes
   the offer away.
   */
  lemma ErasedAcceptanceCanBeWithdrawn(tenant: seq<byte>, run: seq<byte>, step: seq<byte>)
    requires tenant != [] && run != [] && step != []
    ensures var key := ClaimKey(tenant, run, step).value;
            var claim, offer := CallTake(tenant, run, step, 1, 10, false), CallTake(tenant, run, step, 1, 10, true);
            var log := Run(ErasedRun(claim, offer, key)).log;
            && |log| == 8 && log[4] == Renewed(key, 3, 35) && log[5] == Forgot(key)
            && log[7].Ended? && log[7].how.Withdrawal? && log[7].key == key
            && log[7].fence == 3 && log[7].decidedAt == 7
  {
    var key := ClaimKey(tenant, run, step).value;
    assert key[0] == 'l';
    ErasedRuns(CallTake(tenant, run, step, 1, 10, false), CallTake(tenant, run, step, 1, 10, true), key,
               ClaimRecord(tenant, run, step, 1, 10, 10, false), ClaimRecord(tenant, run, step, 1, 10, 30, true));
  }

  // ---- whose lease it is ---------------------------------------------------

  predicate Named(record: ClaimRecord, key: string) {
    ClaimKey(record.tenant, record.run, record.step) == Ok(key)
  }

  predicate Taking(pc: Pc) {
    pc.TakeRead? || pc.TakeCreate? || pc.TakeUpdate?
  }

  ghost predicate AllTakes(w: World, p: (ClaimRecord, string) -> bool) {
    && (forall i :: 0 <= i < |w.log| && w.log[i].Took? ==> p(w.log[i].record, w.log[i].key))
    && (forall pid <- w.procs :: Taking(w.procs[pid]) ==> p(w.procs[pid].record, w.procs[pid].key))
  }

  ghost predicate Shaped(w: World, pid: nat, w': World) {
    var pc := PcOf(w, pid);
    && w'.procs == w.procs[pid := PcOf(w', pid)]
    && (Taking(PcOf(w', pid)) ==> Taking(pc) && PcOf(w', pid).record == pc.record && PcOf(w', pid).key == pc.key)
    && (|| w'.log == w.log
        || exists e :: w'.log == w.log + [e] && (e.Took? ==> Taking(pc) && e.record == pc.record && e.key == pc.key))
  }

  lemma TakingShape(w: World, pid: nat, now: int, told: bool)
    requires Taking(PcOf(w, pid))
    ensures Shaped(w, pid, StepOf(w, pid, now, told))
  {
    var w' := StepOf(w, pid, now, told);
    if w'.log != w.log {
      assert w'.log == w.log + [w'.log[|w.log|]];
    }
  }

  lemma CheckShape(w: World, pid: nat, now: int, told: bool)
    requires var pc := PcOf(w, pid); pc.RenewRead? || pc.RenewPut? || pc.ValidateRead? || pc.WithdrawRead?
    ensures Shaped(w, pid, StepOf(w, pid, now, told))
  {
    var w' := StepOf(w, pid, now, told);
    if w'.log != w.log {
      assert w'.log == w.log + [w'.log[|w.log|]];
    }
  }

  lemma EndingShape(w: World, pid: nat, now: int, told: bool)
    requires var pc := PcOf(w, pid);
             || pc.SweepRead? || pc.SweepJudge? || pc.SweepDelete?
             || pc.SweepForget? || pc.WithdrawJudge? || pc.WithdrawDelete?
    ensures Shaped(w, pid, StepOf(w, pid, now, told))
  {
    var w' := StepOf(w, pid, now, told);
    if w'.log != w.log {
      assert w'.log == w.log + [w'.log[|w.log|]];
    }
  }

  lemma StepShape(w: World, pid: nat, now: int, told: bool)
    requires !PcOf(w, pid).Idle?
    ensures Shaped(w, pid, StepOf(w, pid, now, told))
  {
    var pc := PcOf(w, pid);
    if Taking(pc) {
      TakingShape(w, pid, now, told);
    } else if pc.RenewRead? || pc.RenewPut? || pc.ValidateRead? || pc.WithdrawRead? {
      CheckShape(w, pid, now, told);
    } else {
      EndingShape(w, pid, now, told);
    }
  }

  lemma StepTakes(w: World, pid: nat, now: int, told: bool, p: (ClaimRecord, string) -> bool)
    requires AllTakes(w, p)
    ensures AllTakes(StepOf(w, pid, now, told), p)
  {
    if !PcOf(w, pid).Idle? {
      StepShape(w, pid, now, told);
    }
  }

  /** What holds of every record a call begins with holds of every lease taken. */
  lemma {:induction false} RunTakes(actions: seq<Action>, p: (ClaimRecord, string) -> bool)
    requires forall call, now: int :: BeginCall(call, now).TakeRead? ==>
             p(BeginCall(call, now).record, BeginCall(call, now).key)
    ensures AllTakes(Run(actions), p)
  {
    if actions != [] {
      RunTakes(actions[..|actions| - 1], p);
      var w, a := Run(actions[..|actions| - 1]), actions[|actions| - 1];
      match a {
        case Begin(pid, call, now) =>
          assert Taking(BeginCall(call, now)) ==> BeginCall(call, now).TakeRead?;
        case Step(pid, now, told) => StepTakes(w, pid, now, told, p);
        case Crash(pid) =>
      }
    }
  }

  lemma RunNames(actions: seq<Action>)
    ensures AllTakes(Run(actions), Named)
  {
    forall call, now: int | BeginCall(call, now).TakeRead?
      ensures Named(BeginCall(call, now).record, BeginCall(call, now).key)
    {
      assert call.CallTake?;
    }
    RunTakes(actions, Named);
  }

  /** Two takes share a key exactly when they are for the same tenant, run and step. */
  lemma KeysAreSteps(actions: seq<Action>, i: nat, j: nat)
    requires var log := Run(actions).log; i < |log| && j < |log| && log[i].Took? && log[j].Took?
    ensures var log := Run(actions).log; var a, b := log[i].record, log[j].record;
            log[i].key == log[j].key <==> a.tenant == b.tenant && a.run == b.run && a.step == b.step
  {
    RunNames(actions);
    var log := Run(actions).log;
    var a, b := log[i].record, log[j].record;
    assert Named(a, log[i].key) && Named(b, log[j].key);
    if log[i].key == log[j].key {
      ClaimKeyIsInjective(a.tenant, a.run, a.step, b.tenant, b.run, b.step);
    }
  }
}
