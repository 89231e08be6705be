/**
 Step leases over a revisioned key-value bucket.

 The bucket is one monotone revision counter and, per leased step, a claim and a
 renewal. Any number of planes run Claim, Offer, Renew, Validate, Expire and
 Withdraw at once; each is a small program whose steps are single bucket calls,
 and the calls of different planes interleave freely. A claim key's revision is
 the fence.

 Renewals are stored under the claim key they belong to: LeaseKeys shows that
 renewal keys and claim keys never meet and that no two claims share a renewal.
 */
module Lease {
  import opened Prelude
  import opened LeaseKeys

  type uint32 = n: int | 0 <= n < 0x1_0000_0000

  const MAX_OFFER_RACES: nat := 8

  datatype ClaimRecord = ClaimRecord(tenant: seq<byte>, run: seq<byte>, step: seq<byte>, attempt: uint32,
                                     ttl: int, expiresAt: int, offered: bool)
  datatype RenewRecord = RenewRecord(fence: nat, expiresAt: int)
  datatype Token = Token(value: string, fence: nat)

  // ---- the bucket --------------------------------------------------------

  /** The last write to a key: its revision, and a value or a delete marker. */
  datatype Slot<+T> = Slot(revision: nat, value: Option<T>)
  datatype Entry<+T> = Entry(revision: nat, value: T)
  datatype Bucket = Bucket(revision: nat, claims: map<string, Slot<ClaimRecord>>,
                           renewals: map<string, Slot<RenewRecord>>)

  const EMPTY_BUCKET := Bucket(0, map[], map[])

  /** Get: a delete marker reads as absent. */
  function Get<T>(slots: map<string, Slot<T>>, key: string): (r: Option<Entry<T>>) {
    if key in slots && slots[key].value.Some? then Some(Entry(slots[key].revision, slots[key].value.value)) else None
  }

  function LastRevision<T>(slots: map<string, Slot<T>>, key: string): (r: nat) {
    if key in slots then slots[key].revision else 0
  }

  function WriteClaim(b: Bucket, key: string, value: Option<ClaimRecord>): (r: Bucket) {
    Bucket(b.revision + 1, b.claims[key := Slot(b.revision + 1, value)], b.renewals)
  }

  function WriteRenewal(b: Bucket, key: string, value: Option<RenewRecord>): (r: Bucket) {
    Bucket(b.revision + 1, b.claims, b.renewals[key := Slot(b.revision + 1, value)])
  }

  /** Create is refused exactly while the key holds a value: one that was deleted may be created again. */
  predicate MayCreate(b: Bucket, key: string) {
    Get(b.claims, key).None?
  }

  /** Update, and Delete with LastRevision: refused unless the key is at that revision. */
  predicate MayWriteAt(b: Bucket, key: string, revision: nat) {
    LastRevision(b.claims, key) == revision
  }

  /** A claim's deadline and whether it has a holder, given the stored renewal. */
  function Deadline(record: ClaimRecord, fence: nat, renewal: Option<RenewRecord>): (r: (int, bool)) {
    if renewal.None? || renewal.value.fence != fence then (record.expiresAt, !record.offered)
    else if record.offered || renewal.value.expiresAt >= record.expiresAt then (renewal.value.expiresAt, true)
    else (record.expiresAt, true)
  }

  function RenewalOf(b: Bucket, key: string): (r: Option<RenewRecord>) {
    var e := Get(b.renewals, key);
    if e.Some? then Some(e.value.value) else None
  }

  // ---- the planes' programs ---------------------------------------------

  datatype Call =
    | CallTake(tenant: seq<byte>, run: seq<byte>, step: seq<byte>, attempt: uint32, ttl: int, offered: bool)
    | CallRenew(token: Token)
    | CallValidate(token: Token)
    | CallSweep(key: string)
    | CallWithdraw(token: Token)

  /** Where a plane's call is: each constructor names the bucket call it makes next. */
  datatype Pc =
    | Idle
    | TakeRead(key: string, record: ClaimRecord, tries: nat)
    | TakeCreate(key: string, record: ClaimRecord, tries: nat)
    | TakeUpdate(key: string, record: ClaimRecord, tries: nat, at: nat, seen: ClaimRecord)
    | RenewRead(token: Token)
    | RenewPut(token: Token, seen: ClaimRecord)
    | ValidateRead(token: Token)
    | SweepRead(key: string)
    | SweepJudge(key: string, at: nat, seen: ClaimRecord)
    | SweepDelete(key: string, at: nat, seen: ClaimRecord, decidedAt: nat, judgedAt: int)
    | SweepForget(key: string)
    | WithdrawRead(token: Token)
    | WithdrawJudge(token: Token, seen: ClaimRecord)
    | WithdrawDelete(token: Token, seen: ClaimRecord, decidedAt: nat)

  datatype Ending = Sweep | Withdrawal

  /**
   What happened, in the order the bucket saw it. `told` is false when the write
   landed and its answer never reached the plane that made it. `decidedAt` is how
   long the log was when the plane read the renewal it decided by, `judgedAt` its
   clock then, and `accepted` whether the bucket showed a holder at the moment of
   the delete.
   */
  datatype Event =
    | Took(key: string, fence: nat, record: ClaimRecord, over: Option<nat>, told: bool)
    | Ended(key: string, fence: nat, record: ClaimRecord, how: Ending,
            decidedAt: nat, judgedAt: int, accepted: bool, told: bool)
    | Renewed(key: string, fence: nat, expiresAt: int)
    | Forgot(key: string)
    | Confirmed(key: string, fence: nat)

  datatype World = World(bucket: Bucket, procs: map<nat, Pc>, log: seq<Event>)

  const START := World(EMPTY_BUCKET, map[], [])

  /** A plane begins a call, makes its next bucket call, or dies. */
  datatype Action =
    | Begin(pid: nat, call: Call, now: int)
    | Step(pid: nat, now: int, told: bool)
    | Crash(pid: nat)

  function PcOf(w: World, pid: nat): (r: Pc) {
    if pid in w.procs then w.procs[pid] else Idle
  }

  function Goto(w: World, pid: nat, pc: Pc): (r: World) {
    w.(procs := w.procs[pid := pc])
  }

  function Log(w: World, e: Event): (r: World) {
    w.(log := w.log + [e])
  }

  /** The arguments are checked and the record built before anything is read. */
  function BeginCall(call: Call, now: int): (r: Pc) {
    match call
    case CallTake(tenant, run, step, attempt, ttl, offered) =>
      var key := ClaimKey(tenant, run, step);
      if key.Err? || ttl <= 0 then Idle
      else TakeRead(key.value, ClaimRecord(tenant, run, step, attempt, ttl, now + ttl, offered), 0)
    case CallRenew(token) => if token.value == "" || token.fence == 0 then Idle else RenewRead(token)
    case CallValidate(token) => if token.value == "" || token.fence == 0 then Idle else ValidateRead(token)
    case CallSweep(key) => SweepRead(key)
    case CallWithdraw(token) => if token.value == "" || token.fence == 0 then Idle else WithdrawRead(token)
  }

  /** A lost compare-and-set re-reads, a bounded number of times. */
  function Retry(key: string, record: ClaimRecord, tries: nat): (r: Pc) {
    if tries + 1 < MAX_OFFER_RACES then TakeRead(key, record, tries + 1) else Idle
  }

  function Take(w: World, key: string, record: ClaimRecord, over: Option<nat>, told: bool): (r: World) {
    Log(w.(bucket := WriteClaim(w.bucket, key, Some(record))),
        Took(key, w.bucket.revision + 1, record, over, told))
  }

  function End(w: World, key: string, fence: nat, seen: ClaimRecord, how: Ending,
               decidedAt: nat, judgedAt: int, told: bool): (r: World)
  {
    var accepted := Deadline(seen, fence, RenewalOf(w.bucket, key)).1;
    Log(w.(bucket := WriteClaim(w.bucket, key, None)),
        Ended(key, fence, seen, how, decidedAt, judgedAt, accepted, told))
  }

  /** The claim a token names, if it is the current one. */
  function CurrentOf(b: Bucket, t: Token): (r: Option<ClaimRecord>) {
    var e := Get(b.claims, t.value);
    if e.Some? && e.value.revision == t.fence then Some(e.value.value) else None
  }

  /** One bucket call of one plane. */
  function StepOf(w: World, pid: nat, now: int, told: bool): (r: World) {
    match PcOf(w, pid)
    case Idle => w
    case TakeRead(key, record, tries) =>
      (match Get(w.bucket.claims, key)
       case None => Goto(w, pid, TakeCreate(key, record, tries))
       case Some(e) => if e.value.attempt >= record.attempt then Goto(w, pid, Idle)
                       else Goto(w, pid, TakeUpdate(key, record, tries, e.revision, e.value)))
    case TakeCreate(key, record, tries) =>
      if MayCreate(w.bucket, key) then Goto(Take(w, key, record, None, told), pid, Idle)
      else Goto(w, pid, Retry(key, record, tries))
    case TakeUpdate(key, record, tries, at, seen) =>
      if MayWriteAt(w.bucket, key, at) then Goto(Take(w, key, record, Some(at), told), pid, Idle)
      else Goto(w, pid, Retry(key, record, tries))
    case RenewRead(t) =>
      (match CurrentOf(w.bucket, t)
       case None => Goto(w, pid, Idle)
       case Some(record) => Goto(Log(w, Confirmed(t.value, t.fence)), pid, RenewPut(t, record)))
    case RenewPut(t, seen) =>
      var renewal := RenewRecord(t.fence, now + seen.ttl);
      Goto(Log(w.(bucket := WriteRenewal(w.bucket, t.value, Some(renewal))),
               Renewed(t.value, t.fence, renewal.expiresAt)), pid, Idle)
    case ValidateRead(t) =>
      (match CurrentOf(w.bucket, t)
       case None => Goto(w, pid, Idle)
       case Some(_) => Goto(Log(w, Confirmed(t.value, t.fence)), pid, Idle))
    case SweepRead(key) =>
      (match Get(w.bucket.claims, key)
       case None => Goto(w, pid, Idle)
       case Some(e) => Goto(w, pid, SweepJudge(key, e.revision, e.value)))
    case SweepJudge(key, at, seen) =>
      var (deadline, accepted) := Deadline(seen, at, RenewalOf(w.bucket, key));
      if accepted && now > deadline then Goto(w, pid, SweepDelete(key, at, seen, |w.log|, now)) else Goto(w, pid, Idle)
    case SweepDelete(key, at, seen, decidedAt, judgedAt) =>
      if MayWriteAt(w.bucket, key, at) then
        Goto(End(w, key, at, seen, Sweep, decidedAt, judgedAt, told), pid, if told then SweepForget(key) else Idle)
      else Goto(w, pid, Idle)
    case SweepForget(key) =>
      Goto(Log(w.(bucket := WriteRenewal(w.bucket, key, None)), Forgot(key)), pid, Idle)
    case WithdrawRead(t) =>
      (match CurrentOf(w.bucket, t)
       case None => Goto(w, pid, Idle)
       case Some(record) => Goto(Log(w, Confirmed(t.value, t.fence)), pid, WithdrawJudge(t, record)))
    case WithdrawJudge(t, seen) =>
      if Deadline(seen, t.fence, RenewalOf(w.bucket, t.value)).1 then Goto(w, pid, Idle)
      else Goto(w, pid, WithdrawDelete(t, seen, |w.log|))
    case WithdrawDelete(t, seen, decidedAt) =>
      if MayWriteAt(w.bucket, t.value, t.fence) then
        Goto(End(w, t.value, t.fence, seen, Withdrawal, decidedAt, now, told), pid, Idle)
      else Goto(w, pid, Idle)
  }

  function Do(w: World, a: Action): (r: World) {
    match a
    case Begin(pid, call, now) => if PcOf(w, pid).Idle? then Goto(w, pid, BeginCall(call, now)) else w
    case Step(pid, now, told) => StepOf(w, pid, now, told)
    case Crash(pid) => Goto(w, pid, Idle)
  }

  function Run(actions: seq<Action>): (r: World) {
    if actions == [] then START else Do(Run(actions[..|actions| - 1]), actions[|actions| - 1])
  }

  // ---- what a log says about a key ---------------------------------------

  /** A write to the claim key: a take, or the end of a lease. */
  predicate Touches(e: Event, key: string) {
    (e.Took? || e.Ended?) && e.key == key
  }

  function LastTouch(log: seq<Event>, key: string): (r: int)
    ensures -1 <= r < |log|
    ensures r >= 0 ==> Touches(log[r], key)
    ensures forall i :: r < i < |log| ==> !Touches(log[i], key)
  {
    if log == [] then -1
    else if Touches(log[|log| - 1], key) then |log| - 1
    else LastTouch(log[..|log| - 1], key)
  }

  datatype Holding = Holding(fence: nat, record: ClaimRecord)

  /** The lease a key carries after these events. */
  function Current(log: seq<Event>, key: string): (r: Option<Holding>) {
    var i := LastTouch(log, key);
    if i < 0 || log[i].Ended? then None else Some(Holding(log[i].fence, log[i].record))
  }

  /** A write to the renewal of a claim key. */
  predicate WritesRenewal(e: Event, key: string) {
    (e.Renewed? || e.Forgot?) && e.key == key
  }

  /** The renewal a key carries after these events. */
  function RenewalIn(log: seq<Event>, key: string): (r: Option<RenewRecord>) {
    if log == [] then None
    else
      var e := log[|log| - 1];
      if !WritesRenewal(e, key) then RenewalIn(log[..|log| - 1], key)
      else if e.Renewed? then Some(RenewRecord(e.fence, e.expiresAt)) else None
  }

  /** What may be appended to a log. */
  ghost predicate Permitted(log: seq<Event>, e: Event) {
    match e
    case Took(key, fence, record, over, _) =>
      && (forall i :: 0 <= i < |log| && log[i].Took? ==> log[i].fence < fence)
      && (match Current(log, key)
          case None => over.None?
          case Some(h) => over == Some(h.fence) && h.record.attempt < record.attempt)
    case Ended(key, fence, record, how, decidedAt, judgedAt, accepted, _) =>
      && Current(log, key) == Some(Holding(fence, record))
      && accepted == Deadline(record, fence, RenewalIn(log, key)).1
      && decidedAt <= |log|
      && var (deadline, held) := Deadline(record, fence, RenewalIn(log[..decidedAt], key));
         if how.Sweep? then held && judgedAt > deadline else !held
    case Renewed(key, fence, _) => Confirmed(key, fence) in log
    case Forgot(_) => true
    case Confirmed(key, fence) => Current(log, key).Some? && Current(log, key).value.fence == fence
  }

  ghost predicate Legal(log: seq<Event>) {
    forall j :: 0 <= j < |log| ==> Permitted(log[..j], log[j])
  }

  lemma LegalAppend(log: seq<Event>, e: Event)
    requires Legal(log) && Permitted(log, e)
    ensures Legal(log + [e])
  {
    var log' := log + [e];
    forall j | 0 <= j < |log'| ensures Permitted(log'[..j], log'[j]) {
      assert log'[..j] == log[..j];
      if j == |log| { assert log[..j] == log; }
    }
  }

  lemma CurrentAppend(log: seq<Event>, e: Event, key: string)
    ensures Current(log + [e], key) ==
            if !Touches(e, key) then Current(log, key)
            else if e.Took? then Some(Holding(e.fence, e.record)) else None
    ensures RenewalIn(log + [e], key) ==
            if !WritesRenewal(e, key) then RenewalIn(log, key)
            else if e.Renewed? then Some(RenewRecord(e.fence, e.expiresAt)) else None
  {
    assert (log + [e])[..|log|] == log;
  }

  // ---- the invariant ------------------------------------------------------

  ghost predicate BucketOk(b: Bucket) {
    forall key <- b.claims :: 1 <= b.claims[key].revision <= b.revision
  }

  function Stored(b: Bucket, key: string): (r: Option<Holding>) {
    match Get(b.claims, key)
    case None => None
    case Some(e) => Some(Holding(e.revision, e.value))
  }

  ghost predicate Agrees(b: Bucket, log: seq<Event>) {
    && (forall key :: Current(log, key) == Stored(b, key))
    && (forall key :: RenewalIn(log, key) == RenewalOf(b, key))
    && (forall i :: 0 <= i < |log| && log[i].Took? ==> log[i].fence <= b.revision)
  }

  /** While a key is still at this revision it still holds this record. */
  predicate Pinned(b: Bucket, key: string, at: nat, seen: ClaimRecord) {
    && 1 <= at <= b.revision
    && (MayWriteAt(b, key, at) ==> key in b.claims && b.claims[key].value == Some(seen))
  }

  ghost predicate PcOk(b: Bucket, log: seq<Event>, pc: Pc) {
    match pc
    case Idle => true
    case TakeRead(_, _, _) => true
    case TakeCreate(_, _, _) => true
    case TakeUpdate(key, record, _, at, seen) => Pinned(b, key, at, seen) && seen.attempt < record.attempt
    case RenewRead(_) => true
    case RenewPut(t, _) => Confirmed(t.value, t.fence) in log
    case ValidateRead(_) => true
    case SweepRead(_) => true
    case SweepJudge(key, at, seen) => Pinned(b, key, at, seen)
    case SweepDelete(key, at, seen, decidedAt, judgedAt) =>
      && Pinned(b, key, at, seen) && decidedAt <= |log|
      && Deadline(seen, at, RenewalIn(log[..decidedAt], key)).1
      && judgedAt > Deadline(seen, at, RenewalIn(log[..decidedAt], key)).0
    case SweepForget(_) => true
    case WithdrawRead(_) => true
    case WithdrawJudge(t, seen) => Pinned(b, t.value, t.fence, seen)
    case WithdrawDelete(t, seen, decidedAt) =>
      && Pinned(b, t.value, t.fence, seen) && decidedAt <= |log|
      && !Deadline(seen, t.fence, RenewalIn(log[..decidedAt], t.value)).1
  }

  ghost predicate Sound(b: Bucket, log: seq<Event>) {
    BucketOk(b) && Agrees(b, log) && Legal(log)
  }

  ghost predicate Inv(w: World) {
    && Sound(w.bucket, w.log)
    && (forall pid <- w.procs :: PcOk(w.bucket, w.log, w.procs[pid]))
  }

  /** How a bucket and its log grow: no key ever returns to a revision it left. */
  ghost predicate Grows(b: Bucket, log: seq<Event>, b': Bucket, log': seq<Event>) {
    && log <= log'
    && b.revision <= b'.revision
    && (forall key :: LastRevision(b'.claims, key) <= b.revision ==>
          LastRevision(b'.claims, key) == LastRevision(b.claims, key)
          && (key in b'.claims ==> key in b.claims && b'.claims[key] == b.claims[key]))
  }

  lemma PcOkGrows(b: Bucket, log: seq<Event>, b': Bucket, log': seq<Event>, pc: Pc)
    requires Grows(b, log, b', log') && PcOk(b, log, pc)
    ensures PcOk(b', log', pc)
  {
    if pc.SweepDelete? || pc.WithdrawDelete? { assert log'[..pc.decidedAt] == log[..pc.decidedAt]; }
  }

  lemma KeepsProcs(w: World, w': World, pid: nat, pc: Pc)
    requires Inv(w) && Grows(w.bucket, w.log, w'.bucket, w'.log)
    requires w'.procs == w.procs[pid := pc] && PcOk(w'.bucket, w'.log, pc)
    ensures forall p <- w'.procs :: PcOk(w'.bucket, w'.log, w'.procs[p])
  {
    forall p <- w'.procs ensures PcOk(w'.bucket, w'.log, w'.procs[p]) {
      if p != pid { PcOkGrows(w.bucket, w.log, w'.bucket, w'.log, w.procs[p]); }
    }
  }

  lemma WriteClaimGrows(b: Bucket, log: seq<Event>, key: string, value: Option<ClaimRecord>, e: Event)
    requires BucketOk(b)
    ensures BucketOk(WriteClaim(b, key, value))
    ensures Grows(b, log, WriteClaim(b, key, value), log + [e])
  {
  }

  lemma WriteClaimAgrees(b: Bucket, log: seq<Event>, key: string, value: Option<ClaimRecord>, e: Event)
    requires Agrees(b, log) && Touches(e, key)
    requires e.Took? <==> value.Some?
    requires e.Took? ==> e.fence == b.revision + 1 && e.record == value.value
    ensures Agrees(WriteClaim(b, key, value), log + [e])
  {
    var b', log' := WriteClaim(b, key, value), log + [e];
    forall k ensures Current(log', k) == Stored(b', k) && RenewalIn(log', k) == RenewalOf(b', k) {
      CurrentAppend(log, e, k);
      assert Current(log, k) == Stored(b, k);
      assert RenewalIn(log, k) == RenewalOf(b, k);
    }
  }

  lemma TakePermitted(b: Bucket, log: seq<Event>, e: Event)
    requires Agrees(b, log) && e.Took? && e.fence == b.revision + 1
    requires match Stored(b, e.key)
             case None => e.over.None?
             case Some(h) => e.over == Some(h.fence) && h.record.attempt < e.record.attempt
    ensures Permitted(log, e)
  {
    assert Current(log, e.key) == Stored(b, e.key);
  }

  lemma TakeKeeps(w: World, e: Event)
    requires Sound(w.bucket, w.log) && e.Took? && e.fence == w.bucket.revision + 1
    requires match Stored(w.bucket, e.key)
             case None => e.over.None?
             case Some(h) => e.over == Some(h.fence) && h.record.attempt < e.record.attempt
    ensures Sound(WriteClaim(w.bucket, e.key, Some(e.record)), w.log + [e])
    ensures Grows(w.bucket, w.log, WriteClaim(w.bucket, e.key, Some(e.record)), w.log + [e])
  {
    WriteClaimGrows(w.bucket, w.log, e.key, Some(e.record), e);
    WriteClaimAgrees(w.bucket, w.log, e.key, Some(e.record), e);
    TakePermitted(w.bucket, w.log, e);
    LegalAppend(w.log, e);
  }

  lemma EndKeeps(w: World, e: Event)
    requires Sound(w.bucket, w.log) && e.Ended? && MayWriteAt(w.bucket, e.key, e.fence)
    requires Pinned(w.bucket, e.key, e.fence, e.record)
    requires e.decidedAt <= |w.log| && e.accepted == Deadline(e.record, e.fence, RenewalOf(w.bucket, e.key)).1
    requires var (deadline, held) := Deadline(e.record, e.fence, RenewalIn(w.log[..e.decidedAt], e.key));
             if e.how.Sweep? then held && e.judgedAt > deadline else !held
    ensures var w' := End(w, e.key, e.fence, e.record, e.how, e.decidedAt, e.judgedAt, e.told);
            Sound(w'.bucket, w'.log) && Grows(w.bucket, w.log, w'.bucket, w'.log)
  {
    WriteClaimGrows(w.bucket, w.log, e.key, None, e);
    WriteClaimAgrees(w.bucket, w.log, e.key, None, e);
    assert Current(w.log, e.key) == Stored(w.bucket, e.key);
    assert RenewalIn(w.log, e.key) == RenewalOf(w.bucket, e.key);
    LegalAppend(w.log, e);
  }

  /** An event that touches no claim, with the claims left alone. */
  lemma QuietKeeps(w: World, b': Bucket, e: Event)
    requires Sound(w.bucket, w.log) && Permitted(w.log, e) && !e.Took? && !e.Ended?
    requires b'.claims == w.bucket.claims && w.bucket.revision <= b'.revision
    requires e.Confirmed? ==> b'.renewals == w.bucket.renewals
    requires !e.Confirmed? ==> b' == WriteRenewal(w.bucket, e.key,
               if e.Renewed? then Some(RenewRecord(e.fence, e.expiresAt)) else None)
    ensures Sound(b', w.log + [e])
    ensures Grows(w.bucket, w.log, b', w.log + [e])
  {
    LegalAppend(w.log, e);
    forall k ensures Current(w.log + [e], k) == Stored(b', k) && RenewalIn(w.log + [e], k) == RenewalOf(b', k) {
      CurrentAppend(w.log, e, k);
      assert RenewalIn(w.log, k) == RenewalOf(w.bucket, k);
    }
  }

  lemma TakeStepKeeps(w: World, pid: nat, now: int, told: bool)
    requires Inv(w)
    requires PcOf(w, pid).TakeCreate? || PcOf(w, pid).TakeUpdate?
    ensures Inv(StepOf(w, pid, now, told))
  {
    var w', pc := StepOf(w, pid, now, told), PcOf(w, pid);
    if w'.log != w.log {
      TakeKeeps(w, w'.log[|w.log|]);
    }
    KeepsProcs(w, w', pid, w'.procs[pid]);
  }

  lemma EndStepKeeps(w: World, pid: nat, now: int, told: bool)
    requires Inv(w)
    requires PcOf(w, pid).SweepDelete? || PcOf(w, pid).WithdrawDelete?
    ensures Inv(StepOf(w, pid, now, told))
  {
    var w', pc := StepOf(w, pid, now, told), PcOf(w, pid);
    if w'.log != w.log {
      EndKeeps(w, w'.log[|w.log|]);
    }
    KeepsProcs(w, w', pid, w'.procs[pid]);
  }

  lemma RenewalStepKeeps(w: World, pid: nat, now: int, told: bool)
    requires Inv(w)
    requires PcOf(w, pid).RenewPut? || PcOf(w, pid).SweepForget?
    ensures Inv(StepOf(w, pid, now, told))
  {
    var w' := StepOf(w, pid, now, told);
    QuietKeeps(w, w'.bucket, w'.log[|w.log|]);
    KeepsProcs(w, w', pid, w'.procs[pid]);
  }

  lemma StepKeeps(w: World, pid: nat, now: int, told: bool)
    requires Inv(w)
    ensures Inv(StepOf(w, pid, now, told))
  {
    match PcOf(w, pid) {
      case Idle =>
      case TakeCreate(_, _, _) => TakeStepKeeps(w, pid, now, told);
      case TakeUpdate(_, _, _, _, _) => TakeStepKeeps(w, pid, now, told);
      case SweepDelete(_, _, _, _, _) => EndStepKeeps(w, pid, now, told);
      case WithdrawDelete(_, _, _) => EndStepKeeps(w, pid, now, told);
      case RenewPut(_, _) => RenewalStepKeeps(w, pid, now, told);
      case SweepForget(_) => RenewalStepKeeps(w, pid, now, told);
      case RenewRead(_) => CheckKeeps(w, pid, now, told);
      case ValidateRead(_) => CheckKeeps(w, pid, now, told);
      case WithdrawRead(_) => CheckKeeps(w, pid, now, told);
      case _ => ReadKeeps(w, pid, now, told);
    }
  }

  /** A step that only moves its own program counter. */
  lemma MoveKeeps(w: World, pid: nat, pc: Pc)
    requires Inv(w) && PcOk(w.bucket, w.log, pc)
    ensures Inv(Goto(w, pid, pc))
  {
    KeepsProcs(w, Goto(w, pid, pc), pid, pc);
  }

  /** A check that found the token current. */
  lemma ConfirmKeeps(w: World, pid: nat, t: Token, pc: Pc)
    requires Inv(w) && CurrentOf(w.bucket, t).Some?
    requires pc.Idle? || (pc.RenewPut? && pc.token == t) || pc == WithdrawJudge(t, CurrentOf(w.bucket, t).value)
    ensures Inv(Goto(Log(w, Confirmed(t.value, t.fence)), pid, pc))
  {
    var e := Confirmed(t.value, t.fence);
    assert Stored(w.bucket, t.value) == Current(w.log, t.value);
    QuietKeeps(w, w.bucket, e);
    assert e in w.log + [e];
    KeepsProcs(w, Goto(Log(w, e), pid, pc), pid, pc);
  }

  lemma CheckKeeps(w: World, pid: nat, now: int, told: bool)
    requires Inv(w)
    requires PcOf(w, pid).RenewRead? || PcOf(w, pid).ValidateRead? || PcOf(w, pid).WithdrawRead?
    ensures Inv(StepOf(w, pid, now, told))
  {
    var t := PcOf(w, pid).token;
    match CurrentOf(w.bucket, t) {
      case None => MoveKeeps(w, pid, Idle);
      case Some(record) =>
        var pc := PcOf(w, pid);
        ConfirmKeeps(w, pid, t,
                     if pc.RenewRead? then RenewPut(t, record)
                     else if pc.ValidateRead? then Idle
                     else WithdrawJudge(t, record));
    }
  }

  /** The other steps that only read the bucket. */
  lemma ReadKeeps(w: World, pid: nat, now: int, told: bool)
    requires Inv(w)
    requires var pc := PcOf(w, pid); pc.TakeRead? || pc.SweepRead? || pc.SweepJudge? || pc.WithdrawJudge?
    ensures Inv(StepOf(w, pid, now, told))
  {
    var w' := StepOf(w, pid, now, told);
    assert w.log[..|w.log|] == w.log;
    MoveKeeps(w, pid, w'.procs[pid]);
  }

  lemma DoKeeps(w: World, a: Action)
    requires Inv(w)
    ensures Inv(Do(w, a))
  {
    match a {
      case Begin(pid, call, now) =>
        if PcOf(w, pid).Idle? { KeepsProcs(w, Do(w, a), pid, BeginCall(call, now)); }
      case Step(pid, now, told) => StepKeeps(w, pid, now, told);
      case Crash(pid) => KeepsProcs(w, Do(w, a), pid, Idle);
    }
  }

  lemma {:induction false} RunKeeps(actions: seq<Action>)
    ensures Inv(Run(actions))
  {
    if actions != [] {
      RunKeeps(actions[..|actions| - 1]);
      DoKeeps(Run(actions[..|actions| - 1]), actions[|actions| - 1]);
    }
  }
}
