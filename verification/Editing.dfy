/**
 Control planes editing pipelines at once. Each request runs as a program of single
 store calls; any interleaving, failed call or lost reply is a run. A revision id is
 the hash of the definition it names, so here a revision is its definition.
 */
module Editing {
  import opened Prelude
  import opened Definition
  import opened Edits
  import opened History
  import opened Rebase
  import opened Merge
  import opened Heads

  datatype Key = Key(tenant: string, pipeline: string)

  datatype Request =
    | Create(key: Key, definition: Pipeline)
    | Change(key: Key, base: Pipeline, op: Operation)

  /** Failed: the caller was told the call failed, which says nothing about the head. */
  datatype Reply = Accepted(revision: Pipeline) | Rejected | Failed

  datatype Pc =
    | Start(req: Request)
    | Looked(req: Request, head: Option<Pipeline>)
    | Ready(req: Request, from: Option<Pipeline>, next: Pipeline)
    | Stored(req: Request, from: Option<Pipeline>, next: Pipeline)
    | Answered(req: Request, reply: Reply)

  datatype Luck = Fine | Fails | LosesReply

  datatype Action = Begin(id: nat, req: Request) | Step(id: nat, luck: Luck)

  datatype Move = Move(id: nat, req: Request, from: Option<Pipeline>, to: Pipeline)

  datatype World = World(
    heads: map<Key, Pipeline>, saved: set<(string, Pipeline)>, requests: map<nat, Pc>, log: seq<Move>)

  /** A definition in the store under a tenant and a pipeline id, by its revision. */
  predicate Has(saved: set<(string, Pipeline)>, key: Key, revision: Pipeline) {
    (key.tenant, revision) in saved && revision.id == key.pipeline
  }

  function Named(key: Key, definition: Pipeline): (r: Pipeline) {
    definition.(id := key.pipeline, tenant := key.tenant)
  }

  /** What a request has to store next, once it has read the head. */
  function Prepare(w: World, req: Request, head: Option<Pipeline>): (r: Pc)
    requires req.Change?
  {
    if head.Some? && head.value != req.base then
      if !Has(w.saved, req.key, req.base) || !Has(w.saved, req.key, head.value) then Answered(req, Rejected)
      else if TouchedBy(req.op) * Changed(req.base, head.value) != {} then Answered(req, Rejected)
      else if Apply(head.value, req.op).Err? then Answered(req, Rejected)
      else Ready(req, head, Apply(head.value, req.op).value.pipeline)
    else if !Has(w.saved, req.key, req.base) then Answered(req, Rejected)
    else if Apply(req.base, req.op).Err? then Answered(req, Rejected)
    else Ready(req, if head.Some? then Some(req.base) else None, Apply(req.base, req.op).value.pipeline)
  }

  function Open(w: World, req: Request): (r: Pc) {
    if req.key.tenant == "" || req.key.pipeline == "" then Answered(req, Rejected)
    else if req.Change? then Looked(req, Row(w.heads, req.key))
    else if exists p :: p in w.saved && p.0 == req.key.tenant && p.1.id == req.key.pipeline then Answered(req, Rejected)
    else Ready(req, None, Named(req.key, req.definition))
  }

  function At(w: World, id: nat, pc: Pc): (r: World) {
    w.(requests := w.requests[id := pc])
  }

  function StepOf(w: World, id: nat, pc: Pc, luck: Luck): (r: World) {
    if pc.Answered? then w
    else if luck.Fails? then At(w, id, Answered(pc.req, Failed))
    else
      match pc
      case Start(req) => At(w, id, Open(w, req))
      case Looked(req, head) => if req.Change? then At(w, id, Prepare(w, req, head)) else w
      case Ready(req, from, next) =>
        At(w, id, if luck.Fine? then Stored(req, from, next) else Answered(req, Failed))
          .(saved := w.saved + {(req.key.tenant, next)})
      case Stored(req, from, next) =>
        if Row(w.heads, req.key) == from then
          At(w, id, Answered(req, if luck.Fine? then Accepted(next) else Failed))
            .(heads := w.heads[req.key := next], log := w.log + [Move(id, req, from, next)])
        else At(w, id, Answered(req, if luck.Fine? then Rejected else Failed))
  }

  function Do(w: World, a: Action): (r: World) {
    match a
    case Begin(id, req) => if id in w.requests then w else At(w, id, Start(req))
    case Step(id, luck) => if id in w.requests then StepOf(w, id, w.requests[id], luck) else w
  }

  /** Definitions may be in the store with no head: nobody has edited them yet. */
  function Run(imported: set<(string, Pipeline)>, actions: seq<Action>): (r: World) {
    if actions == [] then World(map[], imported, map[], [])
    else Do(Run(imported, actions[..|actions| - 1]), actions[|actions| - 1])
  }

  // ---- what the log means -------------------------------------------------------------

  /** The revision a request moves to, from the head it moves. */
  predicate Lands(req: Request, from: Option<Pipeline>, to: Pipeline) {
    match req
    case Create(key, d) => from.None? && to == Named(key, d)
    case Change(_, base, op) => Merge.Submit(base, if from.Some? then from.value else base, op) == Landed(to)
  }

  function HeadAfter(log: seq<Move>, key: Key): (r: Option<Pipeline>) {
    if log == [] then None
    else
      var m := log[|log| - 1];
      if m.req.key == key then Some(m.to) else HeadAfter(log[..|log| - 1], key)
  }

  /** The head as the accepted requests alone say it: each operation applied to what the last one left. */
  function Replay(log: seq<Move>, key: Key): (r: Option<Pipeline>) {
    if log == [] then None
    else
      var before, req := Replay(log[..|log| - 1], key), log[|log| - 1].req;
      if req.key != key then before
      else
        match req
        case Create(_, d) => Some(Named(key, d))
        case Change(_, base, op) =>
          var p := if before.Some? then before.value else base;
          if Apply(p, op).Ok? then Some(Apply(p, op).value.pipeline) else None
  }

  ghost predicate MoveFits(log: seq<Move>, i: nat)
    requires i < |log|
  {
    && log[i].from == HeadAfter(log[..i], log[i].req.key)
    && Lands(log[i].req, log[i].from, log[i].to)
  }

  ghost predicate Chained(log: seq<Move>) {
    forall i: nat :: i < |log| ==> MoveFits(log, i)
  }

  function MovesBy(log: seq<Move>, id: nat): (r: nat) {
    if log == [] then 0 else MovesBy(log[..|log| - 1], id) + (if log[|log| - 1].id == id then 1 else 0)
  }

  predicate PcFits(saved: set<(string, Pipeline)>, pc: Pc) {
    match pc
    case Ready(req, from, next) => next.id == req.key.pipeline && Lands(req, from, next)
    case Stored(req, from, next) => Has(saved, req.key, next) && Lands(req, from, next)
    case _ => true
  }

  predicate ReplyFits(log: seq<Move>, id: nat, pc: Pc) {
    if pc.Answered? then
      && MovesBy(log, id) <= 1
      && (pc.reply.Accepted? ==> MovesBy(log, id) == 1)
      && (pc.reply.Rejected? ==> MovesBy(log, id) == 0)
    else MovesBy(log, id) == 0
  }

  ghost predicate Inv(w: World) {
    && (forall key :: Row(w.heads, key) == HeadAfter(w.log, key))
    && (forall key :: key in w.heads ==> Has(w.saved, key, w.heads[key]))
    && (forall id :: id in w.requests ==> PcFits(w.saved, w.requests[id]))
    && Chained(w.log)
  }

  lemma PreparedFits(w: World, req: Request, head: Option<Pipeline>)
    requires req.Change?
    ensures PcFits(w.saved, Prepare(w, req, head))
  {
    if Prepare(w, req, head).Ready? {
      var p := if head.Some? then head.value else req.base;
      RestFrame(p, req.op);
    }
  }

  lemma MoveKeepsChain(log: seq<Move>, m: Move)
    requires Chained(log) && m.from == HeadAfter(log, m.req.key) && Lands(m.req, m.from, m.to)
    ensures Chained(log + [m])
  {
    var after := log + [m];
    forall i: nat | i < |after| ensures MoveFits(after, i) {
      assert after[..i] == log[..i];
      if i < |log| { assert MoveFits(log, i); } else { assert log[..i] == log; }
    }
  }

  lemma SaveKeeps(w: World, id: nat, pc: Pc, luck: Luck)
    requires Inv(w) && pc.Ready? && PcFits(w.saved, pc) && !luck.Fails?
    ensures Inv(StepOf(w, id, pc, luck))
  {
    var after := StepOf(w, id, pc, luck);
    forall i | i in after.requests ensures PcFits(after.saved, after.requests[i]) {
      if i != id { assert PcFits(w.saved, w.requests[i]); }
    }
  }

  lemma HeadMoves(w: World, m: Move)
    requires Inv(w) && Row(w.heads, m.req.key) == m.from && Lands(m.req, m.from, m.to) && Has(w.saved, m.req.key, m.to)
    ensures Inv(w.(heads := w.heads[m.req.key := m.to], log := w.log + [m]))
  {
    MoveKeepsChain(w.log, m);
    assert (w.log + [m])[..|w.log|] == w.log;
    forall key ensures Row(w.heads[m.req.key := m.to], key) == HeadAfter(w.log + [m], key) {
      assert Row(w.heads, key) == HeadAfter(w.log, key);
    }
  }

  lemma AnswerKeeps(w: World, id: nat, req: Request, reply: Reply)
    requires Inv(w)
    ensures Inv(At(w, id, Answered(req, reply)))
  {
    var after := At(w, id, Answered(req, reply));
    forall i | i in after.requests ensures PcFits(after.saved, after.requests[i]) {
      if i != id { assert PcFits(w.saved, w.requests[i]); }
    }
  }

  lemma SetHeadKeeps(w: World, id: nat, pc: Pc, luck: Luck)
    requires Inv(w) && pc.Stored? && PcFits(w.saved, pc) && !luck.Fails?
    ensures Inv(StepOf(w, id, pc, luck))
  {
    var m := Move(id, pc.req, pc.from, pc.next);
    if Row(w.heads, pc.req.key) == pc.from {
      HeadMoves(w, m);
      var moved := w.(heads := w.heads[m.req.key := m.to], log := w.log + [m]);
      AnswerKeeps(moved, id, pc.req, if luck.Fine? then Accepted(pc.next) else Failed);
    } else {
      AnswerKeeps(w, id, pc.req, if luck.Fine? then Rejected else Failed);
    }
  }

  lemma StepKeeps(w: World, id: nat, luck: Luck)
    requires Inv(w) && id in w.requests
    ensures Inv(StepOf(w, id, w.requests[id], luck))
  {
    var pc := w.requests[id];
    assert PcFits(w.saved, pc);
    if !luck.Fails? {
      match pc
      case Looked(req, head) => if req.Change? { PreparedFits(w, req, head); }
      case Ready(_, _, _) => SaveKeeps(w, id, pc, luck);
      case Stored(_, _, _) => SetHeadKeeps(w, id, pc, luck);
      case _ =>
    }
  }

  lemma {:induction false} RunKeeps(imported: set<(string, Pipeline)>, actions: seq<Action>)
    ensures Inv(Run(imported, actions))
  {
    if actions != [] {
      var n := |actions| - 1;
      RunKeeps(imported, actions[..n]);
      match actions[n]
      case Begin(_, _) =>
      case Step(id, luck) =>
        var w := Run(imported, actions[..n]);
        if id in w.requests { StepKeeps(w, id, luck); }
    }
  }

  // ---- the theorems -----------------------------------------------------------------------

  lemma {:induction false} ChainReplays(log: seq<Move>, key: Key)
    requires Chained(log)
    ensures HeadAfter(log, key) == Replay(log, key)
  {
    if log != [] {
      var n := |log| - 1;
      assert MoveFits(log, n);
      forall i: nat | i < n ensures MoveFits(log[..n], i) {
        assert MoveFits(log, i) && log[..n][..i] == log[..i];
      }
      ChainReplays(log[..n], key);
      var m := log[n];
      if m.req.key == key && m.req.Change? {
        LandedIsApplied(m.req.base, if m.from.Some? then m.from.value else m.req.base, m.req.op);
      }
    }
  }

  /** No accepted edit is lost: the head is every accepted request, applied in turn. */
  lemma NoEditIsLost(imported: set<(string, Pipeline)>, actions: seq<Action>, key: Key)
    ensures var w := Run(imported, actions); Row(w.heads, key) == Replay(w.log, key)
  {
    var w := Run(imported, actions);
    RunKeeps(imported, actions);
    ChainReplays(w.log, key);
    assert Row(w.heads, key) == HeadAfter(w.log, key);
  }

  /** Every head can be read back, under its own tenant and pipeline. */
  lemma HeadsAreStored(imported: set<(string, Pipeline)>, actions: seq<Action>, key: Key)
    requires key in Run(imported, actions).heads
    ensures Has(Run(imported, actions).saved, key, Run(imported, actions).heads[key])
  {
    RunKeeps(imported, actions);
  }

  lemma {:induction false} SeededStays(log: seq<Move>, i: nat, n: nat)
    requires i < n <= |log|
    ensures HeadAfter(log[..n], log[i].req.key).Some?
  {
    assert log[..n][n - 1] == log[n - 1] && log[..n][..n - 1] == log[..n - 1];
    if i < n - 1 { SeededStays(log, i, n - 1); }
  }

  /** A pipeline's first head is set once: of any two moves, the later has a head to move from. */
  lemma OneSeed(imported: set<(string, Pipeline)>, actions: seq<Action>, i: nat, j: nat)
    requires i < j < |Run(imported, actions).log|
    requires Run(imported, actions).log[i].req.key == Run(imported, actions).log[j].req.key
    ensures Run(imported, actions).log[j].from.Some? && Run(imported, actions).log[j].req.Change?
  {
    var log := Run(imported, actions).log;
    RunKeeps(imported, actions);
    assert MoveFits(log, j);
    SeededStays(log, i, j);
  }

  // ---- what a caller was told ---------------------------------------------------------------

  ghost predicate RepliesFit(w: World) {
    && (forall id :: id in w.requests ==> ReplyFits(w.log, id, w.requests[id]))
    && (forall id :: id !in w.requests ==> MovesBy(w.log, id) == 0)
  }

  lemma OneMoreMove(log: seq<Move>, m: Move, id: nat)
    ensures MovesBy(log + [m], id) == MovesBy(log, id) + if m.id == id then 1 else 0
  {
    assert (log + [m])[..|log|] == log;
  }

  lemma StepKeepsReplies(w: World, id: nat, luck: Luck)
    requires RepliesFit(w) && id in w.requests
    ensures RepliesFit(StepOf(w, id, w.requests[id], luck))
  {
    var pc := w.requests[id];
    var after := StepOf(w, id, pc, luck);
    assert ReplyFits(w.log, id, pc);
    if after.log != w.log {
      forall i: nat { OneMoreMove(w.log, after.log[|w.log|], i); }
    }
  }

  lemma {:induction false} RunKeepsReplies(imported: set<(string, Pipeline)>, actions: seq<Action>)
    ensures RepliesFit(Run(imported, actions))
  {
    if actions != [] {
      var n := |actions| - 1;
      RunKeepsReplies(imported, actions[..n]);
      var w := Run(imported, actions[..n]);
      match actions[n]
      case Begin(_, _) =>
      case Step(id, luck) => if id in w.requests { StepKeepsReplies(w, id, luck); }
    }
  }

  /** The move a request was told of: its own, to the revision in the reply. */
  ghost predicate ToldOf(log: seq<Move>, id: nat, pc: Pc) {
    pc.Answered? && pc.reply.Accepted? ==>
      exists m :: m in log && m.id == id && m.req == pc.req && m.to == pc.reply.revision
  }

  ghost predicate AllTold(w: World) {
    forall i :: i in w.requests ==> ToldOf(w.log, i, w.requests[i])
  }

  lemma StepTells(w: World, id: nat, luck: Luck)
    requires id in w.requests && AllTold(w)
    ensures AllTold(StepOf(w, id, w.requests[id], luck))
  {
    var pc := w.requests[id];
    var after := StepOf(w, id, pc, luck);
    forall i | i in after.requests ensures ToldOf(after.log, i, after.requests[i]) {
      if i != id || pc.Answered? {
        assert ToldOf(w.log, i, w.requests[i]);
      } else if pc.Stored? && after.log != w.log {
        assert Move(id, pc.req, pc.from, pc.next) in after.log;
      }
    }
  }

  lemma {:induction false} RunTells(imported: set<(string, Pipeline)>, actions: seq<Action>)
    ensures AllTold(Run(imported, actions))
  {
    if actions != [] {
      var n := |actions| - 1;
      RunTells(imported, actions[..n]);
      var w := Run(imported, actions[..n]);
      match actions[n]
      case Begin(_, _) =>
      case Step(id, luck) => if id in w.requests { StepTells(w, id, luck); }
    }
  }

  /**
   A request moves a head at most once: exactly once when accepted, to the revision it
   is told of, and never when rejected.
   */
  lemma RepliesAreTrue(imported: set<(string, Pipeline)>, actions: seq<Action>, id: nat)
    requires id in Run(imported, actions).requests && Run(imported, actions).requests[id].Answered?
    ensures var w := Run(imported, actions);
            && MovesBy(w.log, id) <= 1
            && (w.requests[id].reply.Accepted? ==> MovesBy(w.log, id) == 1)
            && (w.requests[id].reply.Rejected? ==> MovesBy(w.log, id) == 0)
            && ToldOf(w.log, id, w.requests[id])
  {
    RunTells(imported, actions);
    RunKeepsReplies(imported, actions);
    assert ReplyFits(Run(imported, actions).log, id, Run(imported, actions).requests[id]);
  }

  // ---- every accepted edit is a merge -----------------------------------------------------------

  ghost predicate AllDistinct(saved: set<(string, Pipeline)>) {
    forall s :: s in saved ==> DistinctIds(s.1.steps)
  }

  predicate CreatesDistinct(actions: seq<Action>) {
    forall a :: a in actions && a.Begin? && a.req.Create? ==> DistinctIds(a.req.definition.steps)
  }

  predicate PcDistinct(pc: Pc) {
    && (pc.req.Create? ==> DistinctIds(pc.req.definition.steps))
    && (pc.Ready? || pc.Stored? ==> DistinctIds(pc.next.steps) && (pc.from.Some? ==> DistinctIds(pc.from.value.steps)))
    && ((pc.Ready? || pc.Stored?) && pc.req.Change? ==> DistinctIds(pc.req.base.steps))
  }

  predicate MoveDistinct(m: Move) {
    (m.from.Some? ==> DistinctIds(m.from.value.steps)) && (m.req.Change? ==> DistinctIds(m.req.base.steps))
  }

  ghost predicate StepsDistinct(w: World) {
    && AllDistinct(w.saved)
    && (forall id :: id in w.requests ==> PcDistinct(w.requests[id]))
    && (forall m :: m in w.log ==> MoveDistinct(m))
  }

  lemma PreparedDistinct(w: World, req: Request, head: Option<Pipeline>)
    requires req.Change? && AllDistinct(w.saved)
    ensures PcDistinct(Prepare(w, req, head))
  {
    if Prepare(w, req, head).Ready? {
      var p := if head.Some? then head.value else req.base;
      assert Has(w.saved, req.key, req.base) && Has(w.saved, req.key, p);
      StepFrame(p, req.op, "");
    }
  }

  lemma StepKeepsDistinct(w: World, id: nat, luck: Luck)
    requires StepsDistinct(w) && id in w.requests
    ensures StepsDistinct(StepOf(w, id, w.requests[id], luck))
  {
    var pc := w.requests[id];
    assert PcDistinct(pc);
    if !luck.Fails? && pc.Looked? && pc.req.Change? { PreparedDistinct(w, pc.req, pc.head); }
  }

  lemma {:induction false} RunKeepsDistinct(imported: set<(string, Pipeline)>, actions: seq<Action>)
    requires AllDistinct(imported) && CreatesDistinct(actions)
    ensures StepsDistinct(Run(imported, actions))
  {
    if actions != [] {
      var n := |actions| - 1;
      assert forall a :: a in actions[..n] ==> a in actions;
      RunKeepsDistinct(imported, actions[..n]);
      assert actions[n] in actions;
      var w := Run(imported, actions[..n]);
      match actions[n]
      case Begin(_, _) =>
      case Step(id, luck) => if id in w.requests { StepKeepsDistinct(w, id, luck); }
    }
  }

  /** Across every run, an accepted edit keeps its author's change and everyone else's. */
  lemma EveryEditMerges(imported: set<(string, Pipeline)>, actions: seq<Action>, i: nat)
    requires AllDistinct(imported) && CreatesDistinct(actions) && i < |Run(imported, actions).log|
    ensures var m := Run(imported, actions).log[i];
            m.req.Change? ==> Merged(m.req.base, if m.from.Some? then m.from.value else m.req.base, m.req.op, m.to)
  {
    var log := Run(imported, actions).log;
    RunKeeps(imported, actions);
    RunKeepsDistinct(imported, actions);
    var m := log[i];
    assert m in log && MoveDistinct(m) && MoveFits(log, i);
    if m.req.Change? {
      ThreeWayMerge(m.req.base, if m.from.Some? then m.from.value else m.req.base, m.req.op);
    }
  }
}
