/**
 How many dispatches an engine holds and runs: the room its pumps share, and every
 interleaving of those pumps with the handlers they start.
 */
module Room {
  import opened Prelude

  /** Every reopening begins a round; the room is open or closed within it. */
  datatype RoomState = RoomState(held: int, open: bool, round: nat)

  function Held(r: RoomState, limit: int): (s: RoomState) {
    RoomState(r.held + 1, r.open && r.held + 1 != limit, r.round)
  }

  function Released(r: RoomState, limit: int): (s: RoomState) {
    if r.held - 1 == limit - 1 then RoomState(r.held - 1, true, r.round + 1) else r.(held := r.held - 1)
  }

  class Room {
    const limit: int
    var held: int
    var open: bool
    var round: nat

    ghost predicate Valid()
      reads this
    {
      limit >= 1 && held >= 0 && (open <==> held < limit)
    }

    ghost function State(): (r: RoomState)
      reads this
    {
      RoomState(held, open, round)
    }

    constructor (n: int)
      requires n >= 1
      ensures Valid() && limit == n && State() == RoomState(0, true, 0)
    {
      limit, held, open, round := n, 0, true, 0;
    }

    /** One pass of wait: the round to fetch in, or the round whose end to wait for. */
    method Look() returns (room: bool, seen: nat)
      requires Valid()
      ensures room <==> open
      ensures seen == round
    {
      room, seen := held < limit, round;
    }

    method Hold()
      requires Valid()
      modifies this
      ensures Valid() && State() == Held(old(State()), limit)
    {
      held := held + 1;
      if held == limit { open := false; }
    }

    method Release()
      requires Valid() && held > 0
      modifies this
      ensures Valid() && State() == Released(old(State()), limit)
    {
      held := held - 1;
      if held == limit - 1 { open, round := true, round + 1; }
    }
  }

  // ---- pumps and handlers -----------------------------------------------------------------------

  /** One pump per queue. A pump in Looking is inside wait; Blocked has a round to see end. */
  datatype Pump = Looking | Blocked(round: nat) | Fetching(round: nat) | Fetched(job: nat) | Queued(job: nat) | Stopped

  datatype Stage = InHand | Waiting | Running | Leaving | Finished | GivenBack

  /** A fetched dispatch, with a ledger of what it took and gave back. */
  datatype Job = Job(stage: Stage, holds: nat, takes: nat, gives: nat, releases: nat)

  datatype World = World(limit: int, room: RoomState, slots: int, pumps: seq<Pump>, jobs: seq<Job>)

  datatype Action =
    | Look(pump: nat)      // wait, once
    | Wake(pump: nat)      // the awaited round ended
    | Arrive(pump: nat)    // the fetch returns a message, even one that lost the race with the closing room
    | Abandon(pump: nat)   // the fetch ends with its round or with the room
    | Hold(pump: nat)
    | TakeSlot(pump: nat)
    | Stop(pump: nat)      // the engine stops, or the fetch fails
    | FreeSlot(job: nat)   // the handler returned, whichever way
    | Release(job: nat)

  function Init(limit: int, pumps: nat): (w: World) {
    World(limit, RoomState(0, true, 0), 0, seq(pumps, _ => Looking), [])
  }

  function WithPump(w: World, p: nat, pc: Pump): (r: World)
    requires p < |w.pumps|
  {
    w.(pumps := w.pumps[p := pc])
  }

  function WithJob(w: World, j: nat, job: Job): (r: World)
    requires j < |w.jobs|
  {
    w.(jobs := w.jobs[j := job])
  }

  /** The fetch's context has ended. */
  predicate Ended(w: World, round: nat) {
    round != w.room.round || !w.room.open
  }

  function DoPump(w: World, a: Action): (r: World)
    requires !a.FreeSlot? && !a.Release? && a.pump < |w.pumps|
  {
    var pc := w.pumps[a.pump];
    match a
    case Look(p) =>
      if !pc.Looking? then w
      else WithPump(w, p, if w.room.held < w.limit then Fetching(w.room.round) else Blocked(w.room.round))
    case Wake(p) => if pc.Blocked? && pc.round < w.room.round then WithPump(w, p, Looking) else w
    case Arrive(p) =>
      if pc.Fetching? then WithPump(w, p, Fetched(|w.jobs|)).(jobs := w.jobs + [Job(InHand, 0, 0, 0, 0)]) else w
    case Abandon(p) => if pc.Fetching? && Ended(w, pc.round) then WithPump(w, p, Looking) else w
    case Hold(p) =>
      if pc.Fetched? && pc.job < |w.jobs| then
        var job := w.jobs[pc.job];
        WithJob(WithPump(w, p, Queued(pc.job)), pc.job, job.(stage := Waiting, holds := job.holds + 1))
          .(room := Held(w.room, w.limit))
      else w
    case TakeSlot(p) =>
      if pc.Queued? && pc.job < |w.jobs| && w.slots < w.limit then
        var job := w.jobs[pc.job];
        WithJob(WithPump(w, p, Looking), pc.job, job.(stage := Running, takes := job.takes + 1)).(slots := w.slots + 1)
      else w
    case Stop(p) =>
      if pc.Queued? && pc.job < |w.jobs| then
        var job := w.jobs[pc.job];
        WithJob(WithPump(w, p, Stopped), pc.job, job.(stage := GivenBack, releases := job.releases + 1))
          .(room := Released(w.room, w.limit))
      else if pc.Fetched? then w
      else WithPump(w, p, Stopped)
  }

  function DoJob(w: World, a: Action): (r: World)
    requires (a.FreeSlot? || a.Release?) && a.job < |w.jobs|
  {
    var job := w.jobs[a.job];
    if a.FreeSlot? && job.stage.Running? then
      WithJob(w, a.job, job.(stage := Leaving, gives := job.gives + 1)).(slots := w.slots - 1)
    else if a.Release? && job.stage.Leaving? then
      WithJob(w, a.job, job.(stage := Finished, releases := job.releases + 1)).(room := Released(w.room, w.limit))
    else w
  }

  function Do(w: World, a: Action): (r: World) {
    if a.FreeSlot? || a.Release? then if a.job < |w.jobs| then DoJob(w, a) else w
    else if a.pump < |w.pumps| then DoPump(w, a) else w
  }

  function Run(limit: int, pumps: nat, actions: seq<Action>): (w: World) {
    if actions == [] then Init(limit, pumps)
    else Do(Run(limit, pumps, actions[..|actions| - 1]), actions[|actions| - 1])
  }

  // ---- what holds throughout ----------------------------------------------------------------------

  function IsFetching(): (r: Pump -> bool) { (p: Pump) => p.Fetching? || p.Fetched? }
  function IsRunning(): (r: Job -> bool) { (j: Job) => j.stage.Running? }
  function IsHeld(): (r: Job -> bool) { (j: Job) => j.stage.Waiting? || j.stage.Running? || j.stage.Leaving? }

  /** The ledger a stage implies. */
  predicate Balanced(j: Job) {
    match j.stage
    case InHand => j == Job(InHand, 0, 0, 0, 0)
    case Waiting => j == Job(Waiting, 1, 0, 0, 0)
    case Running => j == Job(Running, 1, 1, 0, 0)
    case Leaving => j == Job(Leaving, 1, 1, 1, 0)
    case Finished => j == Job(Finished, 1, 1, 1, 1)
    case GivenBack => j == Job(GivenBack, 1, 0, 0, 1)
  }

  /** A pump's job is in the stage the pump left it in, and no pump waits for a round that has ended unseen. */
  predicate PumpFits(w: World, pc: Pump) {
    match pc
    case Blocked(r) => r <= w.room.round && (r == w.room.round ==> w.room.held >= w.limit)
    case Fetching(r) => r <= w.room.round
    case Fetched(j) => j < |w.jobs| && w.jobs[j].stage.InHand?
    case Queued(j) => j < |w.jobs| && w.jobs[j].stage.Waiting?
    case _ => true
  }

  predicate Has(pc: Pump) { pc.Fetched? || pc.Queued? }

  /** No two pumps have one job. */
  ghost predicate Apart(pumps: seq<Pump>) {
    forall p, q :: 0 <= p < q < |pumps| && Has(pumps[p]) && Has(pumps[q]) ==> pumps[p].job != pumps[q].job
  }

  predicate RoomFits(w: World) {
    && (w.room.open <==> w.room.held < w.limit)
    && w.room.held == Count(w.jobs, IsHeld())
    && w.slots == Count(w.jobs, IsRunning()) && w.slots <= w.limit
    && w.room.held + Count(w.pumps, IsFetching()) <= w.limit - 1 + |w.pumps|
  }

  ghost predicate Inv(w: World) {
    && w.limit >= 1
    && RoomFits(w)
    && (forall j :: 0 <= j < |w.jobs| ==> Balanced(w.jobs[j]))
    && (forall p :: 0 <= p < |w.pumps| ==> PumpFits(w, w.pumps[p]))
    && Apart(w.pumps)
  }

  lemma InitFits(limit: int, pumps: nat)
    requires limit >= 1
    ensures Inv(Init(limit, pumps))
  {
    CountNone(Init(limit, pumps).pumps, IsFetching());
  }

  /** A job changes stage: the counts follow, and no other pump has it. */
  lemma JobMoves(w: World, j: nat, job: Job)
    requires j < |w.jobs|
    ensures var jobs := w.jobs[j := job];
            && Count(jobs, IsHeld()) ==
                 Count(w.jobs, IsHeld()) - (if IsHeld()(w.jobs[j]) then 1 else 0) + (if IsHeld()(job) then 1 else 0)
            && Count(jobs, IsRunning()) ==
                 Count(w.jobs, IsRunning()) - (if w.jobs[j].stage.Running? then 1 else 0)
                 + (if job.stage.Running? then 1 else 0)
  {
    CountUpdate(w.jobs, j, job, IsHeld());
    CountUpdate(w.jobs, j, job, IsRunning());
  }

  lemma PumpMoves(w: World, p: nat, pc: Pump)
    requires p < |w.pumps|
    ensures Count(w.pumps[p := pc], IsFetching()) ==
            Count(w.pumps, IsFetching()) - (if IsFetching()(w.pumps[p]) then 1 else 0)
            + (if IsFetching()(pc) then 1 else 0)
    ensures Apart(w.pumps) && (Has(pc) ==> Has(w.pumps[p]) && pc.job == w.pumps[p].job) ==> Apart(w.pumps[p := pc])
  {
    CountUpdate(w.pumps, p, pc, IsFetching());
  }

  lemma OthersStillFit(w: World, after: World, p: nat, j: nat)
    requires Inv(w) && |after.pumps| == |w.pumps| && |after.jobs| >= |w.jobs| && after.limit == w.limit
    requires forall q :: 0 <= q < |w.pumps| && q != p ==> after.pumps[q] == w.pumps[q]
    requires forall i :: 0 <= i < |w.jobs| && i != j ==> after.jobs[i] == w.jobs[i]
    requires forall q :: 0 <= q < |w.pumps| && q != p && Has(w.pumps[q]) ==> w.pumps[q].job != j
    requires after.room == w.room || after.room == Held(w.room, w.limit) || after.room == Released(w.room, w.limit)
    ensures forall q :: 0 <= q < |w.pumps| && q != p ==> PumpFits(after, after.pumps[q])
  {
    forall q | 0 <= q < |w.pumps| && q != p ensures PumpFits(after, after.pumps[q]) {
      assert PumpFits(w, w.pumps[q]);
    }
  }

  /** The pump's own job is in no other pump's hands. */
  lemma MineAlone(w: World, p: nat)
    requires Inv(w) && p < |w.pumps| && Has(w.pumps[p])
    ensures forall q :: 0 <= q < |w.pumps| && q != p && Has(w.pumps[q]) ==> w.pumps[q].job != w.pumps[p].job
  {
    forall q | 0 <= q < |w.pumps| && q != p && Has(w.pumps[q]) ensures w.pumps[q].job != w.pumps[p].job {
      if q < p { assert Has(w.pumps[q]) && Has(w.pumps[p]); }
    }
  }

  lemma IdleMoves(w: World, a: Action)
    requires Inv(w) && (a.Look? || a.Wake? || a.Abandon?) && a.pump < |w.pumps|
    ensures Inv(DoPump(w, a))
  {
    var after := DoPump(w, a);
    if after != w {
      PumpMoves(w, a.pump, after.pumps[a.pump]);
      OthersStillFit(w, after, a.pump, |w.jobs|);
      assert forall q :: 0 <= q < |w.pumps| && Has(w.pumps[q]) ==> PumpFits(w, w.pumps[q]);
      if a.Look? { FetchersAreFew(w, a.pump); }
    }
  }

  /** A pump that is not fetching leaves room for one that is. */
  lemma FetchersAreFew(w: World, p: nat)
    requires p < |w.pumps| && !IsFetching()(w.pumps[p])
    ensures Count(w.pumps, IsFetching()) < |w.pumps|
  {
    CountUpdate(w.pumps, p, Fetching(0), IsFetching());
  }

  lemma ArriveKeeps(w: World, p: nat)
    requires Inv(w) && p < |w.pumps| && w.pumps[p].Fetching?
    ensures Inv(DoPump(w, Arrive(p)))
  {
    var after := DoPump(w, Arrive(p));
    var job := Job(InHand, 0, 0, 0, 0);
    NewJobCounts(w.jobs, job);
    PumpMoves(w, p, Fetched(|w.jobs|));
    JobsAreKnown(w);
    OthersStillFit(w, after, p, |w.jobs|);
    NewJobApart(w.pumps, p, |w.jobs|);
  }

  lemma NewJobCounts(jobs: seq<Job>, job: Job)
    requires job.stage.InHand?
    ensures Count(jobs + [job], IsHeld()) == Count(jobs, IsHeld())
    ensures Count(jobs + [job], IsRunning()) == Count(jobs, IsRunning())
  {
    CountAppend(jobs, job, IsHeld());
    CountAppend(jobs, job, IsRunning());
  }

  lemma JobsAreKnown(w: World)
    requires Inv(w)
    ensures forall q :: 0 <= q < |w.pumps| && Has(w.pumps[q]) ==> w.pumps[q].job < |w.jobs|
  {
    forall q | 0 <= q < |w.pumps| && Has(w.pumps[q]) ensures w.pumps[q].job < |w.jobs| {
      assert PumpFits(w, w.pumps[q]);
    }
  }

  lemma NewJobApart(pumps: seq<Pump>, p: nat, j: nat)
    requires Apart(pumps) && p < |pumps| && forall q :: 0 <= q < |pumps| && q != p && Has(pumps[q]) ==> pumps[q].job < j
    ensures Apart(pumps[p := Fetched(j)])
  {
  }

  lemma HoldKeeps(w: World, p: nat)
    requires Inv(w) && p < |w.pumps| && w.pumps[p].Fetched?
    ensures Inv(DoPump(w, Hold(p)))
  {
    var after := DoPump(w, Hold(p));
    var j := w.pumps[p].job;
    assert PumpFits(w, w.pumps[p]) && Balanced(w.jobs[j]);
    JobMoves(w, j, after.jobs[j]);
    PumpMoves(w, p, Queued(j));
    MineAlone(w, p);
    OthersStillFit(w, after, p, j);
  }

  lemma TakeSlotKeeps(w: World, p: nat)
    requires Inv(w) && p < |w.pumps| && w.pumps[p].Queued? && w.slots < w.limit
    ensures Inv(DoPump(w, TakeSlot(p)))
  {
    var after := DoPump(w, TakeSlot(p));
    var j := w.pumps[p].job;
    assert PumpFits(w, w.pumps[p]) && Balanced(w.jobs[j]);
    JobMoves(w, j, after.jobs[j]);
    PumpMoves(w, p, Looking);
    MineAlone(w, p);
    OthersStillFit(w, after, p, j);
  }

  lemma GiveBackKeeps(w: World, p: nat)
    requires Inv(w) && p < |w.pumps| && w.pumps[p].Queued?
    ensures Inv(DoPump(w, Stop(p)))
  {
    var after := DoPump(w, Stop(p));
    var j := w.pumps[p].job;
    assert PumpFits(w, w.pumps[p]) && Balanced(w.jobs[j]);
    JobMoves(w, j, after.jobs[j]);
    PumpMoves(w, p, Stopped);
    MineAlone(w, p);
    OthersStillFit(w, after, p, j);
  }

  lemma StopKeeps(w: World, p: nat)
    requires Inv(w) && p < |w.pumps| && !Has(w.pumps[p])
    ensures Inv(DoPump(w, Stop(p)))
  {
    PumpMoves(w, p, Stopped);
    JobsAreKnown(w);
    OthersStillFit(w, DoPump(w, Stop(p)), p, |w.jobs|);
  }

  lemma JobKeeps(w: World, a: Action)
    requires Inv(w) && (a.FreeSlot? || a.Release?) && a.job < |w.jobs|
    ensures Inv(DoJob(w, a))
  {
    var after := DoJob(w, a);
    if after != w {
      assert Balanced(w.jobs[a.job]);
      JobMoves(w, a.job, after.jobs[a.job]);
      forall q | 0 <= q < |w.pumps| && Has(w.pumps[q]) ensures w.pumps[q].job != a.job {
        assert PumpFits(w, w.pumps[q]);
      }
      OthersStillFit(w, after, |w.pumps|, a.job);
    }
  }

  lemma StepKeeps(w: World, a: Action)
    requires Inv(w)
    ensures Inv(Do(w, a))
  {
    if a.FreeSlot? || a.Release? {
      if a.job < |w.jobs| { JobKeeps(w, a); }
    } else if a.pump < |w.pumps| {
      var pc := w.pumps[a.pump];
      match a
      case Arrive(p) => if pc.Fetching? { ArriveKeeps(w, p); }
      case Hold(p) => if pc.Fetched? { HoldKeeps(w, p); }
      case TakeSlot(p) => if pc.Queued? && w.slots < w.limit { TakeSlotKeeps(w, p); }
      case Stop(p) =>
        if pc.Queued? { GiveBackKeeps(w, p); } else if !pc.Fetched? { StopKeeps(w, p); }
      case _ => IdleMoves(w, a);
    }
  }

  lemma DoKeepsShape(w: World, a: Action)
    ensures Do(w, a).limit == w.limit && |Do(w, a).pumps| == |w.pumps|
  {
  }

  lemma {:induction false} RunKeeps(limit: int, pumps: nat, actions: seq<Action>)
    requires limit >= 1
    ensures Inv(Run(limit, pumps, actions)) && Run(limit, pumps, actions).limit == limit
    ensures |Run(limit, pumps, actions).pumps| == pumps
  {
    if actions == [] {
      InitFits(limit, pumps);
    } else {
      var w := Run(limit, pumps, actions[..|actions| - 1]);
      RunKeeps(limit, pumps, actions[..|actions| - 1]);
      StepKeeps(w, actions[|actions| - 1]);
      DoKeepsShape(w, actions[|actions| - 1]);
    }
  }

  // ---- the theorems ------------------------------------------------------------------------------

  /**
   With P queues and a limit of L: fetching is open exactly while fewer than L are
   held, at most L - 1 + P are ever held, and at most L run.
   */
  lemma EngineIsBounded(limit: int, pumps: nat, actions: seq<Action>)
    requires limit >= 1
    ensures var w := Run(limit, pumps, actions);
            && (w.room.open <==> w.room.held < limit)
            && 0 <= w.room.held <= limit - 1 + pumps
            && 0 <= w.slots <= limit
            && w.room.held == Count(w.jobs, IsHeld()) && w.slots == Count(w.jobs, IsRunning())
  {
    RunKeeps(limit, pumps, actions);
  }

  /** Every dispatch gives back its room exactly once, and its slot exactly if it took one. */
  lemma RoomComesBack(limit: int, pumps: nat, actions: seq<Action>, j: nat)
    requires limit >= 1 && j < |Run(limit, pumps, actions).jobs|
    ensures var job := Run(limit, pumps, actions).jobs[j];
            && job.releases <= job.holds <= 1 && job.gives <= job.takes <= job.holds
            && (job.stage.Finished? || job.stage.GivenBack? ==>
                  job.holds == 1 && job.releases == 1 && job.gives == job.takes)
            && (job.releases == 1 ==> job.stage.Finished? || job.stage.GivenBack?)
  {
    RunKeeps(limit, pumps, actions);
    assert Balanced(Run(limit, pumps, actions).jobs[j]);
  }

  /** When every dispatch is done, the engine is empty and open. */
  lemma EverythingComesBack(limit: int, pumps: nat, actions: seq<Action>)
    requires limit >= 1
    requires forall j :: 0 <= j < |Run(limit, pumps, actions).jobs| ==> Run(limit, pumps, actions).jobs[j].releases == 1
    ensures var w := Run(limit, pumps, actions); w.room.held == 0 && w.slots == 0 && w.room.open
  {
    var w := Run(limit, pumps, actions);
    RunKeeps(limit, pumps, actions);
    forall j | 0 <= j < |w.jobs| ensures !IsHeld()(w.jobs[j]) && !IsRunning()(w.jobs[j]) {
      assert Balanced(w.jobs[j]);
    }
    CountNone(w.jobs, IsHeld());
    CountNone(w.jobs, IsRunning());
  }

  /**
   No pump sleeps while there is room, and none fetches on while there is not: a pump
   is woken exactly once room has come back since it looked, and a fetch is ended
   exactly when its round is over or the room is full.
   */
  lemma NoLostWakeup(limit: int, pumps: nat, actions: seq<Action>, p: nat)
    requires limit >= 1 && p < |Run(limit, pumps, actions).pumps|
    ensures var w := Run(limit, pumps, actions);
            && (w.pumps[p].Blocked? && w.room.held < limit ==> Do(w, Wake(p)).pumps[p].Looking?)
            && (w.pumps[p].Blocked? ==> (Do(w, Wake(p)).pumps[p].Looking? <==> w.pumps[p].round != w.room.round))
            && (w.pumps[p].Fetching? ==>
                  (Do(w, Abandon(p)).pumps[p].Looking? <==> w.pumps[p].round != w.room.round || w.room.held >= limit))
  {
    RunKeeps(limit, pumps, actions);
    assert PumpFits(Run(limit, pumps, actions), Run(limit, pumps, actions).pumps[p]);
  }
}
