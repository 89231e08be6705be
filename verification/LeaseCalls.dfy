/**
 What a plane's call comes to. LeaseSafety says what no interleaving can do;
 here each call does what it is for. Run with nobody else between its bucket
 calls, from the world any run left, it adds to the history exactly what the
 leases there call for. A Claim or an Offer is followed through interference as
 well: whatever other planes do between its read and its write, the write lands
 unless they moved the key, and only the eighth loss ends the call.
 */
module LeaseCalls {
  import opened Prelude
  import opened LeaseKeys
  import opened Lease
  import opened LeaseSafety

  // ---- a call run alone ---------------------------------------------------

  function Steps(w: World, pid: nat, now: int, told: bool, n: nat): (r: World)
    decreases n
  {
    if n == 0 then w else Steps(Do(w, Step(pid, now, told)), pid, now, told, n - 1)
  }

  /** A call begun at one reading of the clock and carried out at another: none makes more than four bucket calls. */
  function Alone(w: World, pid: nat, call: Call, asked: int, now: int, told: bool): (r: World) {
    Steps(Do(w, Begin(pid, call, asked)), pid, now, told, 4)
  }

  lemma {:induction false} IdleStays(w: World, pid: nat, now: int, told: bool, n: nat)
    requires PcOf(w, pid).Idle?
    ensures Steps(w, pid, now, told, n) == w
    decreases n
  {
    if n > 0 { IdleStays(w, pid, now, told, n - 1); }
  }

  /** The lease a token stands for, if it still stands. */
  ghost predicate Stands(log: seq<Event>, t: Token, h: Holding) {
    t.value != "" && Current(log, t.value) == Some(h) && h.fence == t.fence
  }

  /** Somebody holds the lease: a claim from the start, an offer from the first renewal under its own fence. */
  ghost predicate HasHolder(log: seq<Event>, key: string, h: Holding) {
    !h.record.offered || Extended(log, key, h)
  }

  ghost predicate Extended(log: seq<Event>, key: string, h: Holding) {
    RenewalIn(log, key).Some? && RenewalIn(log, key).value.fence == h.fence
  }

  /** Past the deadline it was taken with, if that counts, and past the one its renewal gave it, if it has one. */
  ghost predicate Late(log: seq<Event>, key: string, h: Holding, now: int) {
    && (Extended(log, key, h) ==> RenewalIn(log, key).value.expiresAt < now)
    && ((h.record.offered && Extended(log, key, h)) || h.record.expiresAt < now)
  }

  /** What the bucket holds under a key is what the history says. */
  ghost predicate Shows(w: World, key: string) {
    && Current(w.log, key) == Stored(w.bucket, key) && RenewalIn(w.log, key) == RenewalOf(w.bucket, key)
    && (Current(w.log, key).Some? ==> Current(w.log, key).value.fence > 0)
  }

  lemma DeadlineMeans(log: seq<Event>, key: string, h: Holding, now: int)
    ensures var (deadline, held) := Deadline(h.record, h.fence, RenewalIn(log, key));
            && (held <==> HasHolder(log, key, h))
            && (held ==> (now > deadline <==> Late(log, key, h, now)))
  {
  }

  predicate Named(call: Call)
    requires call.CallTake?
  {
    call.tenant != [] && call.run != [] && call.step != []
  }

  function RecordOf(call: Call, asked: int): (r: ClaimRecord)
    requires call.CallTake?
  {
    ClaimRecord(call.tenant, call.run, call.step, call.attempt, call.ttl, asked + call.ttl, call.offered)
  }

  /** Nothing is leased here, or only an earlier attempt. */
  ghost predicate Open(log: seq<Event>, key: string, attempt: uint32) {
    Current(log, key).Some? ==> Current(log, key).value.record.attempt < attempt
  }

  ghost function Over(log: seq<Event>, key: string): (r: Option<nat>) {
    if Current(log, key).None? then None else Some(Current(log, key).value.fence)
  }

  /** One take is added: this record, over the lease that was there. */
  ghost predicate Adds(log: seq<Event>, log': seq<Event>, key: string, record: ClaimRecord, told: bool) {
    && |log'| == |log| + 1 && log'[|log|].Took?
    && log' == log + [Took(key, log'[|log|].fence, record, Over(log, key), told)]
  }

  ghost predicate TakeAdds(log: seq<Event>, call: Call, asked: int, told: bool, log': seq<Event>)
    requires call.CallTake?
  {
    if !Named(call) || call.ttl <= 0 then log' == log
    else
      var key := ClaimKey(call.tenant, call.run, call.step);
      && key.Ok?
      && if Open(log, key.value, call.attempt) then Adds(log, log', key.value, RecordOf(call, asked), told)
         else log' == log
  }

  ghost predicate SweepAdds(log: seq<Event>, key: string, now: int, told: bool, log': seq<Event>) {
    match Current(log, key)
    case None => log' == log
    case Some(h) =>
      if HasHolder(log, key, h) && Late(log, key, h, now) then
        log' == log + [Ended(key, h.fence, h.record, Sweep, |log|, now, true, told)]
                + (if told then [Forgot(key)] else [])
      else log' == log
  }

  /** What a call run alone adds to the history. */
  ghost predicate Comes(log: seq<Event>, call: Call, asked: int, now: int, told: bool, log': seq<Event>) {
    match call
    case CallTake(_, _, _, _, _, _) => TakeAdds(log, call, asked, told, log')
    case CallRenew(t) =>
      (forall h :: Stands(log, t, h) ==>
         log' == log + [Confirmed(t.value, t.fence), Renewed(t.value, t.fence, now + h.record.ttl)])
      && ((forall h :: !Stands(log, t, h)) ==> log' == log)
    case CallValidate(t) =>
      (forall h :: Stands(log, t, h) ==> log' == log + [Confirmed(t.value, t.fence)])
      && ((forall h :: !Stands(log, t, h)) ==> log' == log)
    case CallSweep(key) => SweepAdds(log, key, now, told, log')
    case CallWithdraw(t) =>
      (forall h :: Stands(log, t, h) ==>
         log' == log + [Confirmed(t.value, t.fence)]
                 + (if HasHolder(log, t.value, h) then []
                    else [Ended(t.value, t.fence, h.record, Withdrawal, |log| + 1, now, false, told)]))
      && ((forall h :: !Stands(log, t, h)) ==> log' == log)
  }

  lemma TakeOpen(w: World, w2: World, pid: nat, key: string, record: ClaimRecord, now: int, told: bool)
    requires Shows(w, key) && w2.bucket == w.bucket && w2.log == w.log
    requires PcOf(w2, pid) == if Current(w.log, key).None? then TakeCreate(key, record, 0)
                              else TakeUpdate(key, record, 0, Current(w.log, key).value.fence,
                                              Current(w.log, key).value.record)
    ensures var w' := Steps(w2, pid, now, told, 3);
            Adds(w.log, w'.log, key, record, told) && PcOf(w', pid).Idle?
  {
    var w3 := Do(w2, Step(pid, now, told));
    assert w3.log == w.log + [Took(key, w.bucket.revision + 1, record, Over(w.log, key), told)];
    IdleStays(w3, pid, now, told, 2);
    assert Steps(w2, pid, now, told, 3) == w3;
  }

  lemma TakeAlone(w: World, pid: nat, call: Call, asked: int, now: int, told: bool)
    requires PcOf(w, pid).Idle? && call.CallTake?
    requires Named(call) ==> Shows(w, ClaimKey(call.tenant, call.run, call.step).value)
    ensures var w' := Alone(w, pid, call, asked, now, told);
            TakeAdds(w.log, call, asked, told, w'.log) && PcOf(w', pid).Idle?
  {
    var w1 := Do(w, Begin(pid, call, asked));
    if !Named(call) || call.ttl <= 0 {
      IdleStays(w1, pid, now, told, 4);
    } else {
      var key := ClaimKey(call.tenant, call.run, call.step).value;
      var w2 := Do(w1, Step(pid, now, told));
      assert PcOf(w1, pid) == TakeRead(key, RecordOf(call, asked), 0);
      if Open(w.log, key, call.attempt) {
        TakeOpen(w, w2, pid, key, RecordOf(call, asked), now, told);
      } else {
        IdleStays(w2, pid, now, told, 3);
      }
    }
  }

  lemma RenewAlone(w: World, pid: nat, t: Token, asked: int, now: int, told: bool)
    requires Shows(w, t.value) && PcOf(w, pid).Idle?
    ensures var w' := Alone(w, pid, CallRenew(t), asked, now, told);
            Comes(w.log, CallRenew(t), asked, now, told, w'.log) && PcOf(w', pid).Idle?
  {
    var a := Step(pid, now, told);
    var w1 := Do(w, Begin(pid, CallRenew(t), asked));
    if t.value == "" || t.fence == 0 {
      IdleStays(w1, pid, now, told, 4);
    } else if CurrentOf(w.bucket, t).None? {
      IdleStays(Do(w1, a), pid, now, told, 3);
    } else {
      var h := Current(w.log, t.value).value;
      assert Stands(w.log, t, h);
      var w2 := Do(w1, a);
      assert w2 == Goto(Log(w1, Confirmed(t.value, t.fence)), pid, RenewPut(t, h.record));
      var w3 := Do(w2, a);
      assert w3.log == w2.log + [Renewed(t.value, t.fence, now + h.record.ttl)];
      IdleStays(w3, pid, now, told, 2);
      assert Steps(w2, pid, now, told, 3) == w3;
    }
  }

  lemma ValidateAlone(w: World, pid: nat, t: Token, asked: int, now: int, told: bool)
    requires Shows(w, t.value) && PcOf(w, pid).Idle?
    ensures var w' := Alone(w, pid, CallValidate(t), asked, now, told);
            Comes(w.log, CallValidate(t), asked, now, told, w'.log) && PcOf(w', pid).Idle?
  {
    var w1 := Do(w, Begin(pid, CallValidate(t), asked));
    if t.value == "" || t.fence == 0 {
      IdleStays(w1, pid, now, told, 4);
    } else {
      IdleStays(Do(w1, Step(pid, now, told)), pid, now, told, 3);
      if CurrentOf(w.bucket, t).Some? { assert Stands(w.log, t, Current(w.log, t.value).value); }
    }
  }

  lemma SweepAlone(w: World, pid: nat, key: string, asked: int, now: int, told: bool)
    requires Shows(w, key) && PcOf(w, pid).Idle?
    ensures var w' := Alone(w, pid, CallSweep(key), asked, now, told);
            SweepAdds(w.log, key, now, told, w'.log) && PcOf(w', pid).Idle?
  {
    var a := Step(pid, now, told);
    var w1 := Do(w, Begin(pid, CallSweep(key), asked));
    var w2 := Do(w1, a);
    if Current(w.log, key).None? {
      IdleStays(w2, pid, now, told, 3);
    } else {
      var h := Current(w.log, key).value;
      assert w2 == Goto(w1, pid, SweepJudge(key, h.fence, h.record));
      SweepFound(w, w2, pid, key, h, now, told);
    }
  }

  lemma SweepFound(w: World, w2: World, pid: nat, key: string, h: Holding, now: int, told: bool)
    requires Shows(w, key) && Current(w.log, key) == Some(h)
    requires w2.bucket == w.bucket && w2.log == w.log && PcOf(w2, pid) == SweepJudge(key, h.fence, h.record)
    ensures var w' := Steps(w2, pid, now, told, 3);
            SweepAdds(w.log, key, now, told, w'.log) && PcOf(w', pid).Idle?
  {
    var a := Step(pid, now, told);
    DeadlineMeans(w.log, key, h, now);
    var w3 := Do(w2, a);
    if HasHolder(w.log, key, h) && Late(w.log, key, h, now) {
      assert w3 == Goto(w2, pid, SweepDelete(key, h.fence, h.record, |w.log|, now));
      var w4 := Do(w3, a);
      assert w4.log == w.log + [Ended(key, h.fence, h.record, Sweep, |w.log|, now, true, told)];
      assert Steps(w2, pid, now, told, 3) == Steps(w3, pid, now, told, 2) == Steps(w4, pid, now, told, 1);
      if !told { IdleStays(w4, pid, now, told, 1); }
    } else {
      IdleStays(w3, pid, now, told, 2);
    }
  }

  lemma WithdrawAlone(w: World, pid: nat, t: Token, asked: int, now: int, told: bool)
    requires Shows(w, t.value) && PcOf(w, pid).Idle?
    ensures var w' := Alone(w, pid, CallWithdraw(t), asked, now, told);
            Comes(w.log, CallWithdraw(t), asked, now, told, w'.log) && PcOf(w', pid).Idle?
  {
    var a := Step(pid, now, told);
    var w1 := Do(w, Begin(pid, CallWithdraw(t), asked));
    if t.value == "" || t.fence == 0 {
      IdleStays(w1, pid, now, told, 4);
    } else if CurrentOf(w.bucket, t).None? {
      IdleStays(Do(w1, a), pid, now, told, 3);
    } else {
      var h := Current(w.log, t.value).value;
      assert Stands(w.log, t, h);
      assert Do(w1, a) == Goto(Log(w1, Confirmed(t.value, t.fence)), pid, WithdrawJudge(t, h.record));
      WithdrawFound(w, Do(w1, a), pid, t, h, now, told);
    }
  }

  lemma WithdrawFound(w: World, w2: World, pid: nat, t: Token, h: Holding, now: int, told: bool)
    requires Shows(w, t.value) && Stands(w.log, t, h) && w2.bucket == w.bucket
    requires w2.log == w.log + [Confirmed(t.value, t.fence)] && PcOf(w2, pid) == WithdrawJudge(t, h.record)
    ensures var w' := Steps(w2, pid, now, told, 3);
            && PcOf(w', pid).Idle?
            && w'.log == w2.log + (if HasHolder(w.log, t.value, h) then []
                    else [Ended(t.value, t.fence, h.record, Withdrawal, |w.log| + 1, now, false, told)])
  {
    var a := Step(pid, now, told);
    DeadlineMeans(w.log, t.value, h, now);
    var w3 := Do(w2, a);
    if HasHolder(w.log, t.value, h) {
      IdleStays(w3, pid, now, told, 2);
    } else {
      assert w3 == Goto(w2, pid, WithdrawDelete(t, h.record, |w.log| + 1));
      var w4 := Do(w3, a);
      IdleStays(w4, pid, now, told, 1);
      assert Steps(w2, pid, now, told, 3) == Steps(w3, pid, now, told, 2) == w4;
    }
  }

  lemma {:induction false} StepsKeep(w: World, pid: nat, now: int, told: bool, n: nat)
    requires Inv(w)
    ensures Inv(Steps(w, pid, now, told, n))
    decreases n
  {
    if n > 0 {
      DoKeeps(w, Step(pid, now, told));
      StepsKeep(Do(w, Step(pid, now, told)), pid, now, told, n - 1);
    }
  }

  lemma AloneComes(w: World, pid: nat, call: Call, asked: int, now: int, told: bool)
    requires Inv(w) && PcOf(w, pid).Idle?
    ensures var w' := Alone(w, pid, call, asked, now, told);
            Comes(w.log, call, asked, now, told, w'.log) && PcOf(w', pid).Idle?
  {
    match call {
      case CallTake(_, _, _, _, _, _) => TakeAlone(w, pid, call, asked, now, told);
      case CallRenew(t) => RenewAlone(w, pid, t, asked, now, told);
      case CallValidate(t) => ValidateAlone(w, pid, t, asked, now, told);
      case CallSweep(key) => SweepAlone(w, pid, key, asked, now, told);
      case CallWithdraw(t) => WithdrawAlone(w, pid, t, asked, now, told);
    }
  }

  /** From every reachable world an idle plane's call, run alone, ends having done exactly what it is for. */
  lemma CallsAreServed(actions: seq<Action>, pid: nat, call: Call, asked: int, now: int, told: bool)
    requires PcOf(Run(actions), pid).Idle?
    ensures var w' := Alone(Run(actions), pid, call, asked, now, told);
            && Comes(Run(actions).log, call, asked, now, told, w'.log)
            && PcOf(w', pid).Idle? && Inv(w')
  {
    RunKeeps(actions);
    AloneComes(Run(actions), pid, call, asked, now, told);
    DoKeeps(Run(actions), Begin(pid, call, asked));
    StepsKeep(Do(Run(actions), Begin(pid, call, asked)), pid, now, told, 4);
  }

  // ---- a take among other planes' calls ------------------------------------

  /** Anything at all, by any plane but this one. */
  ghost predicate Others(actions: seq<Action>, pid: nat) {
    forall a <- actions :: a.pid != pid
  }

  function RunFrom(w: World, actions: seq<Action>): (r: World)
    decreases |actions|
  {
    if actions == [] then w else RunFrom(Do(w, actions[0]), actions[1..])
  }

  lemma OtherStep(w: World, a: Action, pid: nat)
    requires a.pid != pid
    ensures PcOf(Do(w, a), pid) == PcOf(w, pid)
  {
  }

  lemma LogGrows(w: World, a: Action)
    ensures w.log <= Do(w, a).log
  {
  }

  lemma {:induction false} OthersKeep(w: World, actions: seq<Action>, pid: nat)
    requires Inv(w) && Others(actions, pid)
    ensures var w' := RunFrom(w, actions);
            Inv(w') && PcOf(w', pid) == PcOf(w, pid) && w.log <= w'.log
    decreases |actions|
  {
    if actions != [] {
      OtherStep(w, actions[0], pid);
      LogGrows(w, actions[0]);
      DoKeeps(w, actions[0]);
      OthersKeep(Do(w, actions[0]), actions[1..], pid);
    }
  }

  /** The key was taken or ended among the events after the first `n`. */
  ghost predicate Moved(log: seq<Event>, n: nat, key: string) {
    exists i :: n <= i < |log| && Touches(log[i], key)
  }

  /**
   The others got in first: they moved the lease this take read, or, where it
   read none, left one there.
   */
  ghost predicate Beaten(read: seq<Event>, now: seq<Event>, key: string) {
    if Current(read, key).Some? then Moved(now, |read|, key) else Current(now, key).Some?
  }

  lemma {:induction false} UnmovedIsCurrent(log: seq<Event>, log': seq<Event>, key: string)
    requires log <= log' && !Moved(log', |log|, key)
    ensures Current(log', key) == Current(log, key)
    decreases |log'|
  {
    if |log'| > |log| {
      var rest := log'[..|log'| - 1];
      assert forall i :: |log| <= i < |rest| ==> rest[i] == log'[i];
      UnmovedIsCurrent(log, rest, key);
      CurrentAppend(rest, log'[|log'| - 1], key);
      assert log' == rest + [log'[|log'| - 1]];
    } else {
      assert log' == log;
    }
  }

  /** A lease that was moved is never back at its fence. */
  lemma MovedIsElsewhere(log: seq<Event>, log': seq<Event>, key: string)
    requires Legal(log') && log <= log' && Current(log, key).Some? && Moved(log', |log|, key)
    ensures Current(log', key).Some? ==> Current(log', key).value.fence != Current(log, key).value.fence
  {
    if Current(log', key).Some? {
      CurrentIsATake(log, key);
      CurrentIsATake(log', key);
      var i, j := LastTouch(log, key), LastTouch(log', key);
      assert log'[i] == log[i];
      LaterTakeIsHigher(log', i, j);
    }
  }

  /** The compare-and-set goes through exactly when nobody got in first. */
  lemma UpdateMeans(w: World, w': World, pid: nat, key: string)
    requires Inv(w') && w.log <= w'.log && Current(w.log, key).Some? && PcOf(w', pid).TakeUpdate?
    requires PcOf(w', pid).key == key && PcOf(w', pid).at == Current(w.log, key).value.fence
    ensures MayWriteAt(w'.bucket, key, PcOf(w', pid).at) <==> !Moved(w'.log, |w.log|, key)
    ensures !Moved(w'.log, |w.log|, key) ==> Current(w'.log, key) == Current(w.log, key)
  {
    var pc := PcOf(w', pid);
    assert Current(w'.log, key) == Stored(w'.bucket, key);
    assert PcOk(w'.bucket, w'.log, pc);
    if Moved(w'.log, |w.log|, key) {
      MovedIsElsewhere(w.log, w'.log, key);
    } else {
      UnmovedIsCurrent(w.log, w'.log, key);
    }
  }

  /** One round of a take: its read, whatever the others do, its write. */
  datatype Round = Round(others: seq<Action>, read: int, write: int)

  function AtWrite(w: World, pid: nat, round: Round): (r: World) {
    RunFrom(Do(w, Step(pid, round.read, true)), round.others)
  }

  function AfterRound(w: World, pid: nat, round: Round, told: bool): (r: World) {
    Do(AtWrite(w, pid, round), Step(pid, round.write, told))
  }

  lemma ReadStep(w: World, pid: nat, key: string, record: ClaimRecord, tries: nat, now: int)
    requires Shows(w, key) && PcOf(w, pid) == TakeRead(key, record, tries) && Open(w.log, key, record.attempt)
    ensures var w' := Do(w, Step(pid, now, true));
            && w'.log == w.log
            && PcOf(w', pid) ==
               if Current(w.log, key).None? then TakeCreate(key, record, tries)
               else TakeUpdate(key, record, tries, Current(w.log, key).value.fence, Current(w.log, key).value.record)
  {
  }

  lemma WriteStep(w: World, w': World, pid: nat, key: string, record: ClaimRecord, tries: nat, now: int, told: bool)
    requires Inv(w') && w.log <= w'.log
    requires PcOf(w', pid) ==
             if Current(w.log, key).None? then TakeCreate(key, record, tries)
             else TakeUpdate(key, record, tries, Current(w.log, key).value.fence, Current(w.log, key).value.record)
    ensures var w'' := Do(w', Step(pid, now, told));
            if Beaten(w.log, w'.log, key) then w''.log == w'.log && PcOf(w'', pid) == Retry(key, record, tries)
            else Adds(w'.log, w''.log, key, record, told) && PcOf(w'', pid).Idle?
  {
    assert Current(w'.log, key) == Stored(w'.bucket, key);
    if Current(w.log, key).Some? { UpdateMeans(w, w', pid, key); }
  }

  /**
   Whatever the other planes do in between, the write lands unless they got in
   first, and a take that was beaten writes nothing.
   */
  lemma RoundIsDecided(w: World, pid: nat, key: string, record: ClaimRecord, tries: nat, round: Round, told: bool)
    requires Inv(w) && PcOf(w, pid) == TakeRead(key, record, tries) && Open(w.log, key, record.attempt)
    requires Others(round.others, pid)
    ensures var mid, w' := AtWrite(w, pid, round), AfterRound(w, pid, round, told);
            && Inv(w')
            && if Beaten(w.log, mid.log, key) then w'.log == mid.log && PcOf(w', pid) == Retry(key, record, tries)
               else Adds(mid.log, w'.log, key, record, told) && PcOf(w', pid).Idle?
  {
    var w1 := Do(w, Step(pid, round.read, true));
    assert Shows(w, key);
    ReadStep(w, pid, key, record, tries, round.read);
    DoKeeps(w, Step(pid, round.read, true));
    OthersKeep(w1, round.others, pid);
    var mid := AtWrite(w, pid, round);
    WriteStep(w, mid, pid, key, record, tries, round.write, told);
    DoKeeps(mid, Step(pid, round.write, told));
  }

  function AfterRounds(w: World, pid: nat, rounds: seq<Round>): (r: World)
    decreases |rounds|
  {
    if rounds == [] then w else AfterRounds(AfterRound(w, pid, rounds[0], true), pid, rounds[1..])
  }

  /** Round after round the key is there for the taking, and round after round the others get in first. */
  ghost predicate KeepsLosing(w: World, pid: nat, key: string, attempt: uint32, rounds: seq<Round>)
    decreases |rounds|
  {
    rounds == [] ||
    (&& Others(rounds[0].others, pid) && Open(w.log, key, attempt)
     && Beaten(w.log, AtWrite(w, pid, rounds[0]).log, key)
     && KeepsLosing(AfterRound(w, pid, rounds[0], true), pid, key, attempt, rounds[1..]))
  }

  lemma {:induction false} StillTrying(w: World, pid: nat, key: string, record: ClaimRecord, tries: nat,
                                       rounds: seq<Round>)
    requires Inv(w) && tries + |rounds| <= 8
    requires PcOf(w, pid) == if tries < 8 then TakeRead(key, record, tries) else Idle
    requires KeepsLosing(w, pid, key, record.attempt, rounds)
    ensures var w' := AfterRounds(w, pid, rounds);
            && Inv(w')
            && PcOf(w', pid) == if tries + |rounds| < 8 then TakeRead(key, record, tries + |rounds|) else Idle
    decreases |rounds|
  {
    if rounds != [] {
      RoundIsDecided(w, pid, key, record, tries, rounds[0], true);
      StillTrying(AfterRound(w, pid, rounds[0], true), pid, key, record, tries + 1, rounds[1..]);
    }
  }

  /**
   From every reachable world, a take that loses fewer than eight rounds is still
   trying; its next round, if nobody gets in first, takes the step. After eight
   losses it has given up.
   */
  lemma OnlyEightLossesEnd(actions: seq<Action>, pid: nat, call: Call, asked: int, rounds: seq<Round>,
                           last: Round, told: bool)
    requires PcOf(Run(actions), pid).Idle? && call.CallTake? && Named(call) && call.ttl > 0 && |rounds| <= 8
    requires var key := ClaimKey(call.tenant, call.run, call.step).value;
             KeepsLosing(Do(Run(actions), Begin(pid, call, asked)), pid, key, call.attempt, rounds)
    requires Others(last.others, pid)
    ensures var key := ClaimKey(call.tenant, call.run, call.step).value;
            var w := AfterRounds(Do(Run(actions), Begin(pid, call, asked)), pid, rounds);
            var mid, w' := AtWrite(w, pid, last), AfterRound(w, pid, last, told);
            if |rounds| == 8 then PcOf(w, pid).Idle?
            else Open(w.log, key, call.attempt) && !Beaten(w.log, mid.log, key) ==>
              Adds(mid.log, w'.log, key, RecordOf(call, asked), told)
  {
    var key := ClaimKey(call.tenant, call.run, call.step).value;
    RunKeeps(actions);
    var w0 := Do(Run(actions), Begin(pid, call, asked));
    DoKeeps(Run(actions), Begin(pid, call, asked));
    StillTrying(w0, pid, key, RecordOf(call, asked), 0, rounds);
    var w := AfterRounds(w0, pid, rounds);
    if |rounds| < 8 && Open(w.log, key, call.attempt) {
      RoundIsDecided(w, pid, key, RecordOf(call, asked), |rounds|, last, told);
    }
  }
}
