/**
 What becomes of a delivered dispatch, on any number of engines at once:
 what must have happened before a delivery is acknowledged or a step is started.
 */
module Settlement {
  import opened Prelude
  import opened Scalars

  datatype Phase = Accepted | Succeeded | PhaseFailed | Cancelled

  datatype Acceptance = Unspecified | Current | Fenced

  /** What the message holds; a message that will not parse holds nothing else that matters. */
  datatype Dispatch = Dispatch(
    parses: bool, run: string, step: string, attempt: nat, fence: nat, versionSpoken: bool, tenant: string,
    secrets: bool, command: bool, confirm: bool, effectClass: int)

  datatype Status = Status(run: string, step: string, attempt: nat, fence: nat, phase: Phase)

  datatype Verdict = Start | Superseded | Stopping | Unconfirmed

  function PhaseOf(d: Dispatch, p: Phase): (r: Status) {
    Status(d.run, d.step, d.attempt, d.fence, p)
  }

  /** What is refused before the plane is asked anything. */
  predicate Runnable(d: Dispatch, redeems: bool) {
    d.versionSpoken && d.tenant != "" && (d.secrets ==> redeems) && d.command
  }

  /** The answer, if one came, and whether the engine is stopping. */
  function Confirm(d: Dispatch, answer: Option<Acceptance>, stopping: bool): (r: Verdict) {
    if !d.confirm then Start
    else if answer == Some(Fenced) then Superseded
    else if answer == Some(Current) then Start
    else if stopping then Stopping
    else if d.effectClass != AT_MOST_ONCE then Start
    else Unconfirmed
  }

  datatype Pc =
    | Queued                      // fetched, and waiting for a slot
    | Delivered
    | Asking
    | Decided(verdict: Verdict)
    | Owned                       // about to say ACCEPTED
    | Executing
    | Ended(status: Status)       // the terminal status is still to go out
    | Reported(status: Status)
    | Settled                     // acknowledged, or given back
    | Left                        // crashed, or the status would not go out: the server redelivers

  datatype Job = Job(dispatch: Dispatch, redeems: bool, pc: Pc)

  datatype Event =
    | Answered(job: nat, answer: Acceptance)
    | Published(job: nat, status: Status)
    | Started(job: nat)
    | Executed(job: nat, success: bool, cancelled: bool, stopping: bool)
    | Acked(job: nat)
    | Nacked(job: nat)

  datatype World = World(jobs: seq<Job>, log: seq<Event>)

  /** How a publish ends; one that times out may have reached the bus all the same. */
  datatype Publication = Taken | Refused | TakenUnacknowledged

  /** Whatever the surroundings decide at one step: an answer, a shutdown, a publish, how the step went, a cancel. */
  datatype Env = Env(
    answer: Option<Acceptance>, stopping: bool, publication: Publication, success: bool, cancelled: bool)

  datatype Action = Deliver(dispatch: Dispatch, redeems: bool) | Step(job: nat, env: Env) | Crash(job: nat)

  /** execute ends in success or failure; a job cancelled while the engine runs on is reported as cancelled. */
  function Terminal(env: Env): (r: Phase) {
    if env.cancelled && !env.stopping then Cancelled else if env.success then Succeeded else PhaseFailed
  }

  /** What a publish leaves on the bus. */
  function Sent(j: nat, status: Status, how: Publication): (r: seq<Event>) {
    if how.Refused? then [] else [Published(j, status)]
  }

  /** The next thing a delivery does, and what it leaves in the log. */
  function Next(j: nat, job: Job, env: Env): (r: (Pc, seq<Event>)) {
    var d := job.dispatch;
    match job.pc
    case Queued => if env.stopping then (Settled, [Nacked(j)]) else (Delivered, [])
    case Delivered =>
      if !d.parses then (Settled, [Acked(j)])
      else if !Runnable(d, job.redeems) then (Ended(PhaseOf(d, PhaseFailed)), [])
      else if d.confirm then (Asking, [])
      else (Decided(Start), [])
    case Asking =>
      (Decided(Confirm(d, env.answer, env.stopping)), if env.answer.Some? then [Answered(j, env.answer.value)] else [])
    case Decided(v) =>
      (match v
       case Superseded => (Settled, [Acked(j)])
       case Stopping => (Settled, [Nacked(j)])
       case Unconfirmed => (Settled, [Nacked(j)])
       case Start => (Owned, []))
    case Owned =>
      var sent := Sent(j, PhaseOf(d, Accepted), env.publication);
      if env.publication.Taken? then (Executing, sent + [Started(j)]) else (Ended(PhaseOf(d, PhaseFailed)), sent)
    case Executing =>
      (Ended(PhaseOf(d, Terminal(env))), [Executed(j, env.success, env.cancelled, env.stopping)])
    case Ended(status) =>
      (if env.publication.Taken? then Reported(status) else Left, Sent(j, status, env.publication))
    case Reported(_) => (Settled, [Acked(j)])
    case Settled => (Settled, [])
    case Left => (Left, [])
  }

  function Do(w: World, a: Action): (r: World) {
    match a
    case Deliver(d, redeems) => w.(jobs := w.jobs + [Job(d, redeems, Queued)])
    case Step(j, env) =>
      if j < |w.jobs| then
        var (pc, events) := Next(j, w.jobs[j], env);
        World(w.jobs[j := w.jobs[j].(pc := pc)], w.log + events)
      else w
    case Crash(j) =>
      if j < |w.jobs| && !w.jobs[j].pc.Settled? then w.(jobs := w.jobs[j := w.jobs[j].(pc := Left)]) else w
  }

  function Run(actions: seq<Action>): (w: World) {
    if actions == [] then World([], []) else Do(Run(actions[..|actions| - 1]), actions[|actions| - 1])
  }

  // ---- what must have come before ---------------------------------------------------------------

  /** This delivery's terminal status went out, with the dispatch's own identity and fence. */
  ghost predicate Told(log: seq<Event>, j: nat, d: Dispatch) {
    exists p: Phase :: !p.Accepted? && Published(j, PhaseOf(d, p)) in log
  }

  /** The phase that says how an execution ended: cancelled only while the engine ran on, else success or failure. */
  predicate Tells(e: Event, p: Phase)
    requires e.Executed?
  {
    if e.cancelled && !e.stopping then p == Cancelled else p == if e.success then Succeeded else PhaseFailed
  }

  predicate IsExecution(e: Event, j: nat) {
    e.Executed? && e.job == j
  }

  /** A terminal phase is true: it tells how the step ended, or it is a failure of a step that never started. */
  ghost predicate IsTrue(log: seq<Event>, j: nat, p: Phase) {
    if Started(j) in log then
      && (exists e :: e in log && IsExecution(e, j))
      && (forall e :: e in log && IsExecution(e, j) ==> Tells(e, p))
    else p == PhaseFailed
  }

  ghost predicate NotExecuted(log: seq<Event>, j: nat) {
    forall e :: e in log ==> !IsExecution(e, j)
  }

  predicate NeedsCurrent(d: Dispatch) {
    d.confirm && d.effectClass == AT_MOST_ONCE
  }

  ghost predicate Justified(before: seq<Event>, e: Event, d: Dispatch) {
    match e
    case Acked(j) => Unsettled(before, j) && (!d.parses || Answered(j, Fenced) in before || Told(before, j, d))
    case Started(j) =>
      && Published(j, PhaseOf(d, Accepted)) in before && Started(j) !in before
      && d.parses && (NeedsCurrent(d) ==> Answered(j, Current) in before) && Answered(j, Fenced) !in before
    case Executed(j, _, _, _) => Started(j) in before && NotExecuted(before, j) && Answered(j, Fenced) !in before
    case Published(j, s) =>
      && d.parses && s == PhaseOf(d, s.phase) && Answered(j, Fenced) !in before
      && (if s.phase.Accepted? then Started(j) !in before else IsTrue(before, j, s.phase))
    case Nacked(j) => Unsettled(before, j) && Started(j) !in before && Answered(j, Fenced) !in before
    case Answered(j, _) => d.confirm && Untouched(before, j)
  }

  predicate Unsettled(log: seq<Event>, j: nat) {
    Acked(j) !in log && Nacked(j) !in log
  }

  ghost predicate Untouched(log: seq<Event>, j: nat) {
    forall e :: e in log ==> e.job != j
  }

  ghost predicate JustifiedAt(w: World, i: nat)
    requires i < |w.log|
  {
    w.log[i].job < |w.jobs| && Justified(w.log[..i], w.log[i], w.jobs[w.log[i].job].dispatch)
  }

  /** What a delivery's stage says has and has not happened. */
  ghost predicate Fits(log: seq<Event>, j: nat, job: Job) {
    (job.pc.Settled? || Unsettled(log, j)) && StageFits(log, j, job)
  }

  ghost predicate StageFits(log: seq<Event>, j: nat, job: Job) {
    var d := job.dispatch;
    match job.pc
    case Queued => Untouched(log, j)
    case Delivered => Untouched(log, j)
    case Asking => d.parses && d.confirm && Untouched(log, j)
    case Decided(v) =>
      && d.parses && Started(j) !in log
      && (v.Superseded? <==> Answered(j, Fenced) in log)
      && (v.Start? ==> Clear(log, j, d))
    case Owned => Clear(log, j, d) && Started(j) !in log
    case Executing => d.parses && Answered(j, Fenced) !in log && Started(j) in log && NotExecuted(log, j)
    case Ended(s) =>
      && d.parses && !s.phase.Accepted? && s == PhaseOf(d, s.phase) && Answered(j, Fenced) !in log
      && IsTrue(log, j, s.phase)
    case Reported(s) => !s.phase.Accepted? && s == PhaseOf(d, s.phase) && Published(j, s) in log
    case Settled => true
    case Left => true
  }

  /** Nothing stands in the way of starting. */
  ghost predicate Clear(log: seq<Event>, j: nat, d: Dispatch) {
    NotExecuted(log, j) && d.parses && Answered(j, Fenced) !in log && (NeedsCurrent(d) ==> Answered(j, Current) in log)
  }

  ghost predicate Inv(w: World) {
    && (forall e :: e in w.log ==> e.job < |w.jobs|)
    && (forall j :: 0 <= j < |w.jobs| ==> Fits(w.log, j, w.jobs[j]))
    && (forall i :: 0 <= i < |w.log| ==> JustifiedAt(w, i))
  }

  // ---- every step keeps it -------------------------------------------------------------------------

  /** Events of one delivery do not touch what another's stage says. */
  lemma OthersFit(log: seq<Event>, events: seq<Event>, j: nat, k: nat, job: Job)
    requires Fits(log, k, job) && k != j && forall e :: e in events ==> e.job == j
    ensures Fits(log + events, k, job)
  {
    assert forall e :: e in log + events <==> e in log || e in events;
    assert forall e :: e in events ==> e.job != k;
  }

  /** The events of a step, each justified by what came before it. */
  ghost predicate AllJustified(log: seq<Event>, events: seq<Event>, j: nat, d: Dispatch) {
    && |events| <= 2
    && (forall e :: e in events ==> e.job == j)
    && (|events| > 0 ==> Justified(log, events[0], d))
    && (|events| > 1 ==> Justified(log + [events[0]], events[1], d))
  }

  /** A step's events are justified and the stage it moves to fits the log that has them. */
  ghost predicate NextIsFit(log: seq<Event>, j: nat, job: Job, env: Env) {
    var (pc, events) := Next(j, job, env);
    AllJustified(log, events, j, job.dispatch) && Fits(log + events, j, job.(pc := pc))
  }

  lemma Appended(log: seq<Event>, events: seq<Event>)
    ensures forall e :: e in log + events <==> e in log || e in events
  {
  }

  lemma OwnedFits(log: seq<Event>, j: nat, job: Job, env: Env)
    requires Fits(log, j, job) && job.pc.Owned?
    ensures NextIsFit(log, j, job, env)
  {
    var (_, events) := Next(j, job, env);
    Appended(log, events);
    if env.publication.Taken? {
      assert events == [Published(j, PhaseOf(job.dispatch, Accepted)), Started(j)];
      Appended(log, [events[0]]);
    }
  }

  lemma ExecutingFits(log: seq<Event>, j: nat, job: Job, env: Env)
    requires Fits(log, j, job) && job.pc.Executing?
    ensures NextIsFit(log, j, job, env)
  {
    var (_, events) := Next(j, job, env);
    Appended(log, events);
    var e := Executed(j, env.success, env.cancelled, env.stopping);
    assert events == [e];
    assert e in log + events && IsExecution(e, j) && Tells(e, Terminal(env));
  }

  lemma EndedFits(log: seq<Event>, j: nat, job: Job, env: Env)
    requires Fits(log, j, job) && (job.pc.Ended? || job.pc.Reported?)
    ensures NextIsFit(log, j, job, env)
  {
    var (_, events) := Next(j, job, env);
    Appended(log, events);
    if job.pc.Reported? { assert Published(j, PhaseOf(job.dispatch, job.pc.status.phase)) in log; }
  }

  lemma EarlyFits(log: seq<Event>, j: nat, job: Job, env: Env)
    requires Fits(log, j, job) && (job.pc.Queued? || job.pc.Delivered? || job.pc.Asking?)
    ensures NextIsFit(log, j, job, env)
  {
    var (_, events) := Next(j, job, env);
    Appended(log, events);
  }

  lemma LateFits(log: seq<Event>, j: nat, job: Job, env: Env)
    requires Fits(log, j, job) && (job.pc.Decided? || job.pc.Settled? || job.pc.Left?)
    ensures NextIsFit(log, j, job, env)
  {
    var (_, events) := Next(j, job, env);
    Appended(log, events);
  }

  lemma NextFits(log: seq<Event>, j: nat, job: Job, env: Env)
    requires Fits(log, j, job)
    ensures NextIsFit(log, j, job, env)
  {
    match job.pc
    case Owned => OwnedFits(log, j, job, env);
    case Executing => ExecutingFits(log, j, job, env);
    case Ended(_) => EndedFits(log, j, job, env);
    case Reported(_) => EndedFits(log, j, job, env);
    case Decided(_) => LateFits(log, j, job, env);
    case Settled => LateFits(log, j, job, env);
    case Left => LateFits(log, j, job, env);
    case _ => EarlyFits(log, j, job, env);
  }

  lemma JobStepKeeps(w: World, j: nat, env: Env)
    requires Inv(w) && j < |w.jobs|
    ensures Inv(Do(w, Step(j, env)))
  {
    var after := Do(w, Step(j, env));
    var (pc, events) := Next(j, w.jobs[j], env);
    assert Fits(w.log, j, w.jobs[j]);
    NextFits(w.log, j, w.jobs[j], env);
    forall e | e in after.log ensures e.job < |after.jobs| { assert e in w.log || e in events; }
    forall k | 0 <= k < |after.jobs| ensures Fits(after.log, k, after.jobs[k]) {
      if k != j { OthersFit(w.log, events, j, k, w.jobs[k]); }
    }
    LogKeeps(w, after, j, events);
  }

  lemma LogKeeps(w: World, after: World, j: nat, events: seq<Event>)
    requires (forall i :: 0 <= i < |w.log| ==> JustifiedAt(w, i)) && j < |w.jobs|
    requires AllJustified(w.log, events, j, w.jobs[j].dispatch)
    requires |after.jobs| == |w.jobs| && after.log == w.log + events
    requires forall k :: 0 <= k < |w.jobs| ==> after.jobs[k].dispatch == w.jobs[k].dispatch
    ensures forall i :: 0 <= i < |after.log| ==> JustifiedAt(after, i)
  {
    var n := |w.log|;
    forall i | 0 <= i < |after.log| ensures JustifiedAt(after, i) {
      if i < n {
        assert JustifiedAt(w, i) && after.log[..i] == w.log[..i];
      } else if i == n {
        assert after.log[..n] == w.log && events[0] in events;
      } else {
        assert after.log[..n + 1] == w.log + [events[0]] && events[1] in events;
      }
    }
  }

  lemma DeliverKeeps(w: World, d: Dispatch, redeems: bool)
    requires Inv(w)
    ensures Inv(Do(w, Deliver(d, redeems)))
  {
    var after := Do(w, Deliver(d, redeems));
    forall i | 0 <= i < |after.log| ensures JustifiedAt(after, i) { assert JustifiedAt(w, i); }
    forall k | 0 <= k < |after.jobs| ensures Fits(after.log, k, after.jobs[k]) {
      if k < |w.jobs| { assert Fits(w.log, k, w.jobs[k]); }
    }
  }

  lemma CrashKeeps(w: World, j: nat)
    requires Inv(w)
    ensures Inv(Do(w, Crash(j)))
  {
    var after := Do(w, Crash(j));
    forall i | 0 <= i < |after.log| ensures JustifiedAt(after, i) { assert JustifiedAt(w, i); }
  }

  lemma {:induction false} RunKeeps(actions: seq<Action>)
    ensures Inv(Run(actions))
  {
    if actions != [] {
      var w := Run(actions[..|actions| - 1]);
      RunKeeps(actions[..|actions| - 1]);
      match actions[|actions| - 1]
      case Deliver(d, redeems) => DeliverKeeps(w, d, redeems);
      case Step(j, env) => if j < |w.jobs| { JobStepKeeps(w, j, env); }
      case Crash(j) => CrashKeeps(w, j);
    }
  }

  // ---- the theorems ----------------------------------------------------------------------------------

  /**
   A delivery is acknowledged only if it would not parse, was answered FENCED, or had
   its terminal status published first, the dispatch's fence unchanged.
   */
  lemma AckIsEarned(actions: seq<Action>, i: nat)
    requires i < |Run(actions).log| && Run(actions).log[i].Acked?
    ensures var w := Run(actions); var j := w.log[i].job;
            && j < |w.jobs|
            && (|| !w.jobs[j].dispatch.parses || Answered(j, Fenced) in w.log[..i]
                || Told(w.log[..i], j, w.jobs[j].dispatch))
  {
    RunKeeps(actions);
    assert JustifiedAt(Run(actions), i);
  }

  /** Where a step runs at most once and must be confirmed, a start follows a CURRENT answer to its own delivery. */
  lemma StartIsConfirmed(actions: seq<Action>, i: nat)
    requires i < |Run(actions).log| && Run(actions).log[i].Started?
    ensures var w := Run(actions); var j := w.log[i].job;
            && j < |w.jobs| && (NeedsCurrent(w.jobs[j].dispatch) ==> Answered(j, Current) in w.log[..i])
            && Answered(j, Fenced) !in w.log[..i]
  {
    RunKeeps(actions);
    assert JustifiedAt(Run(actions), i);
  }

  lemma AfterFenced(before: seq<Event>, e: Event, d: Dispatch)
    requires Justified(before, e, d) && Answered(e.job, Fenced) in before
    ensures e.Acked?
  {
  }

  /** A delivery answered FENCED leaves no trace but its acknowledgement: it starts nothing and reports nothing. */
  lemma FencedLeavesNoTrace(actions: seq<Action>, k: nat, i: nat)
    requires k < |Run(actions).log| && i < |Run(actions).log|
    requires Run(actions).log[k] == Answered(Run(actions).log[i].job, Fenced)
    ensures i == k || Run(actions).log[i].Acked?
  {
    var w := Run(actions);
    if i < k { assert w.log[i] in w.log[..k]; }
    if k < i { assert w.log[k] in w.log[..i]; }
    RunKeeps(actions);
    assert JustifiedAt(w, i) && JustifiedAt(w, k);
    if k < i { AfterFenced(w.log[..i], w.log[i], w.jobs[w.log[i].job].dispatch); }
  }

  /**
   A terminal status is true of its delivery: where the step started, it is Cancelled
   exactly when the step was cancelled with the engine running on, and otherwise
   Succeeded exactly when it succeeded; where nothing started, it is a failure. It
   carries the dispatch's own run, step, attempt and fence.
   */
  lemma StatusIsTrue(actions: seq<Action>, i: nat)
    requires i < |Run(actions).log| && Run(actions).log[i].Published? && !Run(actions).log[i].status.phase.Accepted?
    ensures var w := Run(actions); var j, s := w.log[i].job, w.log[i].status;
            && j < |w.jobs| && IsOf(s, w.jobs[j].dispatch)
            && (Started(j) !in w.log[..i] ==> s.phase == PhaseFailed)
            && (Started(j) in w.log[..i] ==>
                  exists k: nat :: k < i && HowItEnded(w.log[k], j, s.phase))
            && (forall k: nat :: k < i && IsExecution(w.log[k], j) ==> HowItEnded(w.log[k], j, s.phase))
  {
    var w := Run(actions);
    RunKeeps(actions);
    assert JustifiedAt(w, i);
    var j, s, before := w.log[i].job, w.log[i].status, w.log[..i];
    assert IsTrue(before, j, s.phase);
    assert forall k: nat :: k < i && IsExecution(w.log[k], j) ==> before[k] in before && Started(j) in before by {
      forall k: nat | k < i && IsExecution(w.log[k], j) ensures before[k] in before && Started(j) in before {
        assert JustifiedAt(w, k) && before[k] == w.log[k];
        assert forall x :: x in w.log[..k] ==> x in before;
      }
    }
    if Started(j) in before {
      var e :| e in before && IsExecution(e, j);
      var k: nat :| k < i && before[k] == e;
      assert HowItEnded(w.log[k], j, s.phase);
    }
  }

  predicate IsOf(s: Status, d: Dispatch) {
    s.run == d.run && s.step == d.step && s.attempt == d.attempt && s.fence == d.fence
  }

  /** This is how the delivery's execution ended, and this is the phase for it. */
  predicate HowItEnded(e: Event, j: nat, p: Phase) {
    && e.Executed? && e.job == j
    && (p == Cancelled <==> e.cancelled && !e.stopping)
    && (p != Cancelled ==> p == (if e.success then Succeeded else PhaseFailed))
  }

  predicate Settles(e: Event, j: nat) { e == Acked(j) || e == Nacked(j) }

  /** A delivery is acknowledged or given back at most once. */
  lemma SettledOnce(actions: seq<Action>, i: nat, k: nat, j: nat)
    requires i < |Run(actions).log| && k < |Run(actions).log| && Settles(Run(actions).log[i], j)
    requires Settles(Run(actions).log[k], j)
    ensures i == k
  {
    var w := Run(actions);
    if i < k { assert w.log[i] in w.log[..k]; }
    if k < i { assert w.log[k] in w.log[..i]; }
    RunKeeps(actions);
    assert JustifiedAt(w, i) && JustifiedAt(w, k);
  }

  /** Nothing more comes of a delivery that has crashed or been left, or is settled. */
  lemma {:induction false} OverIsOver(actions: seq<Action>, more: seq<Action>, j: nat)
    requires j < |Run(actions).jobs| && (Run(actions).jobs[j].pc.Left? || Run(actions).jobs[j].pc.Settled?)
    ensures var w, after := Run(actions), Run(actions + more);
            && w.log <= after.log && j < |after.jobs| && after.jobs[j] == w.jobs[j]
            && forall i :: |w.log| <= i < |after.log| ==> after.log[i].job != j
  {
    if more == [] {
      assert actions + more == actions;
    } else {
      var n := |more| - 1;
      assert (actions + more)[..|actions| + n] == actions + more[..n];
      OverIsOver(actions, more[..n], j);
      StepIsOwn(Run(actions + more[..n]), more[n], j);
    }
  }

  lemma StepIsOwn(w: World, a: Action, j: nat)
    requires j < |w.jobs| && (w.jobs[j].pc.Left? || w.jobs[j].pc.Settled?)
    ensures w.log <= Do(w, a).log && j < |Do(w, a).jobs| && Do(w, a).jobs[j] == w.jobs[j]
    ensures forall i :: |w.log| <= i < |Do(w, a).log| ==> Do(w, a).log[i].job != j
  {
    if a.Step? && a.job < |w.jobs| {
      var (_, events) := Next(a.job, w.jobs[a.job], a.env);
      assert forall e :: e in events ==> e.job == a.job;
    }
  }

  /** A crash ends a delivery wherever it is, unless it is settled. */
  lemma CrashEnds(w: World, j: nat)
    requires j < |w.jobs|
    ensures Do(w, Crash(j)).log == w.log
    ensures Do(w, Crash(j)).jobs[j].pc.Left? || (w.jobs[j].pc.Settled? && Do(w, Crash(j)) == w)
  {
  }

  // ---- one delivery, from end to end -----------------------------------------------------------

  /** A new delivery stepped to its end, its surroundings the same throughout. */
  function Handled(w: World, d: Dispatch, redeems: bool, env: Env): (r: World) {
    Stepped(Do(w, Deliver(d, redeems)), |w.jobs|, env, 8)
  }

  function Stepped(w: World, j: nat, env: Env, n: nat): (r: World)
    decreases n
  {
    if n == 0 then w else Stepped(Do(w, Step(j, env)), j, env, n - 1)
  }

  /** The status that goes out last, and the acknowledgement where the bus took it. */
  function Ending(j: nat, status: Status, how: Publication): (r: seq<Event>) {
    match how
    case Taken => [Published(j, status), Acked(j)]
    case TakenUnacknowledged => [Published(j, status)]
    case Refused => []
  }

  /** What becomes of a step that is free to start. */
  function Running(j: nat, d: Dispatch, env: Env): (r: seq<Event>) {
    match env.publication
    case Taken =>
      var phase := if env.cancelled && !env.stopping then Cancelled else if env.success then Succeeded else PhaseFailed;
      [Published(j, Status(d.run, d.step, d.attempt, d.fence, Accepted)), Started(j),
       Executed(j, env.success, env.cancelled, env.stopping)]
      + Ending(j, Status(d.run, d.step, d.attempt, d.fence, phase), Taken)
    case TakenUnacknowledged =>
      [Published(j, Status(d.run, d.step, d.attempt, d.fence, Accepted))]
      + Ending(j, Status(d.run, d.step, d.attempt, d.fence, PhaseFailed), TakenUnacknowledged)
    case Refused => []
  }

  /** What a delivery leaves in the log, all told. */
  function Trace(j: nat, d: Dispatch, redeems: bool, env: Env): (r: seq<Event>) {
    if env.stopping then [Nacked(j)]
    else if !d.parses then [Acked(j)]
    else if !d.versionSpoken || d.tenant == "" || (d.secrets && !redeems) || !d.command then
      Ending(j, Status(d.run, d.step, d.attempt, d.fence, PhaseFailed), env.publication)
    else if !d.confirm then Running(j, d, env)
    else
      match env.answer
      case Some(Fenced) => [Answered(j, Fenced), Acked(j)]
      case Some(Current) => [Answered(j, Current)] + Running(j, d, env)
      case other =>
        (if other.Some? then [Answered(j, Unspecified)] else [])
        + if d.effectClass == AT_MOST_ONCE then [Nacked(j)] else Running(j, d, env)
  }

  /** One step of the last delivery. */
  lemma StepsLast(w: World, j: nat, job: Job, env: Env)
    requires j + 1 == |w.jobs| && w.jobs[j] == job
    ensures Do(w, Step(j, env)) == World(w.jobs[..j] + [job.(pc := Next(j, job, env).0)], w.log + Next(j, job, env).1)
  {
  }

  /** What is left of a delivery from a given stage on. */
  function From(j: nat, job: Job, env: Env, n: nat): (r: (Pc, seq<Event>))
    decreases n
  {
    if n == 0 then (job.pc, [])
    else
      var (pc, events) := Next(j, job, env);
      var (last, more) := From(j, job.(pc := pc), env, n - 1);
      (last, events + more)
  }

  lemma {:induction false} SteppedIsFrom(w: World, j: nat, job: Job, env: Env, n: nat)
    requires j + 1 == |w.jobs| && w.jobs[j] == job
    ensures Stepped(w, j, env, n) ==
            World(w.jobs[..j] + [job.(pc := From(j, job, env, n).0)], w.log + From(j, job, env, n).1)
    decreases n
  {
    if n == 0 {
      assert w.jobs == w.jobs[..j] + [job] && w.log + [] == w.log;
    } else {
      var (pc, events) := Next(j, job, env);
      var next := World(w.jobs[..j] + [job.(pc := pc)], w.log + events);
      StepsLast(w, j, job, env);
      assert next.jobs[..j] == w.jobs[..j];
      SteppedIsFrom(next, j, job.(pc := pc), env, n - 1);
      var more := From(j, job.(pc := pc), env, n - 1).1;
      assert w.log + events + more == w.log + (events + more);
    }
  }

  lemma {:induction false} SettledStays(j: nat, job: Job, env: Env, n: nat)
    requires job.pc.Settled? || job.pc.Left?
    ensures From(j, job, env, n).0 == job.pc && From(j, job, env, n).1 == []
  {
    if n > 0 {
      assert Next(j, job, env) == (job.pc, []) && job.(pc := job.pc) == job;
      SettledStays(j, job, env, n - 1);
    }
  }

  lemma FromEnded(j: nat, d: Dispatch, redeems: bool, status: Status, env: Env, n: nat)
    ensures From(j, Job(d, redeems, Ended(status)), env, n + 2).1 == Ending(j, status, env.publication)
  {
    var job := Job(d, redeems, Ended(status));
    if env.publication.Taken? {
      SettledStays(j, job.(pc := Settled), env, n);
      assert From(j, job.(pc := Reported(status)), env, n + 1).1 == [Acked(j)] + [];
      assert From(j, job, env, n + 2).1 == [Published(j, status)] + [Acked(j)];
    } else {
      SettledStays(j, job.(pc := Left), env, n + 1);
    }
  }

  lemma FromOwned(j: nat, d: Dispatch, redeems: bool, env: Env)
    ensures From(j, Job(d, redeems, Owned), env, 4).1 == Running(j, d, env)
  {
    var job := Job(d, redeems, Owned);
    var status := PhaseOf(d, if env.publication.Taken? then Terminal(env) else PhaseFailed);
    FromEnded(j, d, redeems, status, env, 0);
    FromEnded(j, d, redeems, status, env, 1);
    if env.publication.Taken? {
      var executed := Executed(j, env.success, env.cancelled, env.stopping);
      assert From(j, job.(pc := Executing), env, 3).1 == [executed] + Ending(j, status, Taken);
    }
  }

  lemma FromDecided(j: nat, d: Dispatch, redeems: bool, v: Verdict, env: Env)
    ensures From(j, Job(d, redeems, Decided(v)), env, 5).1 ==
            match v
            case Start => Running(j, d, env)
            case Superseded => [Acked(j)]
            case _ => [Nacked(j)]
  {
    if v.Start? {
      FromOwned(j, d, redeems, env);
      assert From(j, Job(d, redeems, Decided(v)), env, 5).1 == [] + Running(j, d, env);
    } else {
      SettledStays(j, Job(d, redeems, Settled), env, 4);
      assert From(j, Job(d, redeems, Decided(v)), env, 5).1 == [if v.Superseded? then Acked(j) else Nacked(j)] + [];
    }
  }

  lemma AskingThen(j: nat, d: Dispatch, redeems: bool, env: Env)
    ensures From(j, Job(d, redeems, Asking), env, 6).1 ==
            (if env.answer.Some? then [Answered(j, env.answer.value)] else [])
            + From(j, Job(d, redeems, Decided(Confirm(d, env.answer, env.stopping))), env, 5).1
  {
  }

  lemma FromAsking(j: nat, d: Dispatch, redeems: bool, env: Env)
    requires d.confirm && !env.stopping && d.parses && Runnable(d, redeems)
    ensures From(j, Job(d, redeems, Asking), env, 6).1 == Trace(j, d, redeems, env)
  {
    AskingThen(j, d, redeems, env);
    FromDecided(j, d, redeems, Confirm(d, env.answer, env.stopping), env);
  }

  lemma FromDelivered(j: nat, d: Dispatch, redeems: bool, env: Env)
    requires !env.stopping
    ensures From(j, Job(d, redeems, Delivered), env, 7).1 == Trace(j, d, redeems, env)
  {
    var job := Job(d, redeems, Delivered);
    if !d.parses {
      SettledStays(j, job.(pc := Settled), env, 6);
    } else if !Runnable(d, redeems) {
      FromEnded(j, d, redeems, PhaseOf(d, PhaseFailed), env, 4);
    } else if d.confirm {
      FromAsking(j, d, redeems, env);
    } else {
      FromOwned(j, d, redeems, env);
      OwnedIsDone(j, d, redeems, env);
    }
  }

  /** A start takes four steps from here, and a fifth changes nothing. */
  lemma OwnedIsDone(j: nat, d: Dispatch, redeems: bool, env: Env)
    ensures From(j, Job(d, redeems, Decided(Start)), env, 6).1 == Running(j, d, env)
  {
    var job := Job(d, redeems, Owned);
    var status := PhaseOf(d, if env.publication.Taken? then Terminal(env) else PhaseFailed);
    FromEnded(j, d, redeems, status, env, 1);
    FromEnded(j, d, redeems, status, env, 2);
    if env.publication.Taken? {
      var executed := Executed(j, env.success, env.cancelled, env.stopping);
      assert From(j, job.(pc := Executing), env, 4).1 == [executed] + Ending(j, status, Taken);
    }
    assert From(j, job, env, 5).1 == Running(j, d, env);
    assert From(j, job.(pc := Decided(Start)), env, 6).1 == [] + Running(j, d, env);
  }

  lemma FromQueued(j: nat, d: Dispatch, redeems: bool, env: Env)
    ensures From(j, Job(d, redeems, Queued), env, 8).1 == Trace(j, d, redeems, env)
  {
    if env.stopping {
      SettledStays(j, Job(d, redeems, Settled), env, 7);
      assert From(j, Job(d, redeems, Queued), env, 8).1 == [Nacked(j)] + [];
    } else {
      FromDelivered(j, d, redeems, env);
      assert From(j, Job(d, redeems, Queued), env, 8).1 == [] + From(j, Job(d, redeems, Delivered), env, 7).1;
    }
  }

  /**
   A delivery handled with nothing else going on leaves exactly this: in particular a
   runnable dispatch that needs no confirmation or is answered CURRENT is accepted,
   started, reported and acknowledged where the bus takes what it publishes.
   */
  lemma HandledLeaves(w: World, d: Dispatch, redeems: bool, env: Env)
    ensures Handled(w, d, redeems, env).log == w.log + Trace(|w.jobs|, d, redeems, env)
  {
    SteppedIsFrom(Do(w, Deliver(d, redeems)), |w.jobs|, Job(d, redeems, Queued), env, 8);
    FromQueued(|w.jobs|, d, redeems, env);
  }
}
