/**
 Generator steps: a fragment is asked for once, recorded in the run's log, and
 rebuilt from the log ever after, within a ceiling on how many a run may realise.
 */
module Generator {
  import opened Prelude
  import opened Definition
  import opened Dag
  import opened TypeCheck
  import opened Splice

  datatype Event =
    | Realised(step: string, fragment: Pipeline)
    | CeilingReached(step: string)
    | GeneratorFailed(step: string)
    | Other

  datatype Emission = Emitted(fragment: Option<Pipeline>) | Errored

  datatype RealiseError = StepRequired | Ceiling | EmitFailed | NotSpliced(why: SpliceError)

  // ---- reading the log -------------------------------------------------------------------

  function Expansions(log: seq<Event>): (r: nat) {
    if log == [] then 0 else Expansions(log[..|log| - 1]) + (if log[|log| - 1].Realised? then 1 else 0)
  }

  predicate Records(e: Event, step: string) {
    e.Realised? && e.step == step
  }

  function RecordsOf(log: seq<Event>, step: string): (r: nat) {
    if log == [] then 0 else RecordsOf(log[..|log| - 1], step) + (if Records(log[|log| - 1], step) then 1 else 0)
  }

  /** The fragment on record for a step; of two, the later. */
  function Recorded(log: seq<Event>, step: string): (r: Option<Pipeline>) {
    if log == [] then None
    else if Records(log[|log| - 1], step) then Some(log[|log| - 1].fragment)
    else Recorded(log[..|log| - 1], step)
  }

  lemma {:induction false} RecordedIsCounted(log: seq<Event>, step: string)
    ensures Recorded(log, step).Some? <==> RecordsOf(log, step) > 0
  {
    if log != [] { RecordedIsCounted(log[..|log| - 1], step); }
  }

  lemma LogGrows(log: seq<Event>, e: Event, step: string)
    ensures Expansions(log + [e]) == Expansions(log) + if e.Realised? then 1 else 0
    ensures RecordsOf(log + [e], step) == RecordsOf(log, step) + if Records(e, step) then 1 else 0
    ensures Recorded(log + [e], step) == if Records(e, step) then Some(e.fragment) else Recorded(log, step)
  {
    assert (log + [e])[..|log|] == log;
  }

  // ---- one call -----------------------------------------------------------------------------

  ghost function Graph(parent: Pipeline, step: string, fragment: Option<Pipeline>): (r: Option<Pipeline>) {
    if Spliceable(parent, step, fragment) then Some(Grafted(parent, step, fragment.value)) else None
  }

  /** What one call leaves in the log and returns, when no other call runs beside it. */
  ghost function Realising(log: seq<Event>, step: string, parent: Pipeline, max: nat, emission: Emission)
    : (r: (seq<Event>, Option<Pipeline>))
  {
    if step == "" then (log, None)
    else if Recorded(log, step).Some? then (log, Graph(parent, step, Recorded(log, step)))
    else if Expansions(log) >= max then (log + [CeilingReached(step)], None)
    else if emission.Errored? || Graph(parent, step, emission.fragment).None? then (log + [GeneratorFailed(step)], None)
    else (log + [Realised(step, emission.fragment.value)], Graph(parent, step, emission.fragment))
  }

  /** One run's log, and the generator step type that reads and appends to it. */
  class RunLog {
    var events: seq<Event>

    constructor ()
      ensures events == []
    {
      events := [];
    }

    method Scan(step: string) returns (expansions: nat, recorded: Option<Pipeline>)
      ensures expansions == Expansions(events) && recorded == Recorded(events, step)
    {
      expansions, recorded := 0, None;
      var i := 0;
      while i < |events|
        invariant 0 <= i <= |events|
        invariant expansions == Expansions(events[..i]) && recorded == Recorded(events[..i], step)
      {
        var e := events[i];
        assert events[..i + 1][..i] == events[..i];
        if e.Realised? {
          expansions := expansions + 1;
          if e.step == step { recorded := Some(e.fragment); }
        }
        i := i + 1;
      }
      assert events[..i] == events;
    }

    /** The emission is what the injected callback answers, if it is asked. */
    method Realise(step: string, parent: Pipeline, max: nat, emission: Emission)
      returns (r: Result<Pipeline, RealiseError>)
      modifies this
      ensures (events, if r.Ok? then Some(r.value) else None) == Realising(old(events), step, parent, max, emission)
      ensures r == Err(Ceiling) <==> step != "" && Recorded(old(events), step).None? && Expansions(old(events)) >= max
    {
      if step == "" { return Err(StepRequired); }
      var expansions, recorded := Scan(step);
      if recorded.Some? {
        var spliced := Splice.Splice(parent, step, recorded);
        return match spliced case Ok(g) => Ok(g) case Err(e) => Err(NotSpliced(e));
      }
      if expansions >= max {
        events := events + [CeilingReached(step)];
        return Err(Ceiling);
      }
      if emission.Errored? {
        events := events + [GeneratorFailed(step)];
        return Err(EmitFailed);
      }
      var spliced := Splice.Splice(parent, step, emission.fragment);
      if spliced.Err? {
        events := events + [GeneratorFailed(step)];
        return Err(NotSpliced(spliced.error));
      }
      events := events + [Realised(step, emission.fragment.value)];
      r := Ok(spliced.value);
    }
  }

  // ---- calls side by side ---------------------------------------------------------------------

  datatype Call = Call(step: string, parent: Pipeline)

  datatype Return = Return(step: string, parent: Pipeline, graph: Pipeline)

  datatype World = World(log: seq<Event>, asking: map<nat, Call>, returned: seq<Return>)

  /** A call reads the log, and later appends what the generator emitted; anything may append in between. */
  datatype Action =
    | Ask(call: nat, step: string, parent: Pipeline, max: nat)
    | Answer(call: nat, emission: Emission, stored: bool)
    | Append

  ghost function Returning(w: World, call: Call, graph: Option<Pipeline>): (r: World) {
    if graph.Some? then w.(returned := w.returned + [Return(call.step, call.parent, graph.value)]) else w
  }

  ghost function Asked(w: World, a: Action): (r: World)
    requires a.Ask?
  {
    if a.call in w.asking || a.step == "" then w
    else if Recorded(w.log, a.step).Some? then
      Returning(w, Call(a.step, a.parent), Graph(a.parent, a.step, Recorded(w.log, a.step)))
    else if Expansions(w.log) >= a.max then w.(log := w.log + [CeilingReached(a.step)])
    else w.(asking := w.asking[a.call := Call(a.step, a.parent)])
  }

  ghost function Answered(w: World, a: Action): (r: World)
    requires a.Answer? && a.call in w.asking
  {
    var c := w.asking[a.call];
    var done := w.(asking := w.asking - {a.call});
    if a.emission.Errored? || Graph(c.parent, c.step, a.emission.fragment).None? then
      if a.stored then done.(log := w.log + [GeneratorFailed(c.step)]) else done
    else if !a.stored then done
    else
      var logged := done.(log := w.log + [Realised(c.step, a.emission.fragment.value)]);
      Returning(logged, c, Graph(c.parent, c.step, a.emission.fragment))
  }

  ghost function Do(w: World, a: Action): (r: World) {
    match a
    case Ask(_, _, _, _) => Asked(w, a)
    case Answer(call, _, _) => if call in w.asking then Answered(w, a) else w
    case Append => w.(log := w.log + [Other])
  }

  ghost function Run(actions: seq<Action>): (r: World) {
    if actions == [] then World([], map[], []) else Do(Run(actions[..|actions| - 1]), actions[|actions| - 1])
  }

  /** A call nothing interleaves with is Realise. */
  lemma CallAlone(w: World, call: nat, step: string, parent: Pipeline, max: nat, emission: Emission)
    requires call !in w.asking
    ensures var after := Do(Do(w, Ask(call, step, parent, max)), Answer(call, emission, true));
            var (log, graph) := Realising(w.log, step, parent, max, emission);
            && after.log == log && after.asking == w.asking
            && after.returned == if graph.Some? then w.returned + [Return(step, parent, graph.value)] else w.returned
  {
    assert w.asking[call := Call(step, parent)] - {call} == w.asking;
  }

  // ---- what every returned graph is --------------------------------------------------------------

  /** The parent with a recorded fragment of this step spliced in, acyclic and well typed. */
  ghost predicate Sound(log: seq<Event>, r: Return) {
    && (exists fragment :: Realised(r.step, fragment) in log && IsSplice(r.parent, r.step, fragment, r.graph))
    && Builds(r.graph) && WellTyped(r.graph)
  }

  lemma {:induction false} RecordedIsLogged(log: seq<Event>, step: string)
    ensures Recorded(log, step).Some? ==> Realised(step, Recorded(log, step).value) in log
  {
    if log != [] { RecordedIsLogged(log[..|log| - 1], step); }
  }

  lemma LogOnlyGrows(w: World, a: Action, e: Event)
    requires e in w.log
    ensures e in Do(w, a).log
  {
  }

  /** A graph made of what the log has for its step is sound. */
  lemma RebuiltIsSound(log: seq<Event>, r: Return)
    requires Graph(r.parent, r.step, Recorded(log, r.step)) == Some(r.graph)
    ensures Sound(log, r)
  {
    var fragment := Recorded(log, r.step).value;
    RecordedIsLogged(log, r.step);
    GraftedIs(r.parent, r.step, fragment);
    assert Realised(r.step, fragment) in log && IsSplice(r.parent, r.step, fragment, r.graph);
  }

  /**
   Every graph a run returns is its parent with every step and edge of a fragment on
   record for its step added, and the grafts due; it is acyclic and well typed.
   */
  lemma {:induction false} ReturnedGraphsAreSound(actions: seq<Action>, r: Return)
    requires r in Run(actions).returned
    ensures Sound(Run(actions).log, r)
  {
    var n := |actions| - 1;
    var w := Run(actions[..n]);
    if r in w.returned {
      ReturnedGraphsAreSound(actions[..n], r);
      var fragment :| Realised(r.step, fragment) in w.log && IsSplice(r.parent, r.step, fragment, r.graph);
      LogOnlyGrows(w, actions[n], Realised(r.step, fragment));
    } else {
      assert Graph(r.parent, r.step, Recorded(Run(actions).log, r.step)) == Some(r.graph) by {
        if actions[n].Answer? {
          var c := w.asking[actions[n].call];
          LogGrows(w.log, Realised(c.step, actions[n].emission.fragment.value), c.step);
        }
      }
      RebuiltIsSound(Run(actions).log, r);
    }
  }

  // ---- the ceiling ---------------------------------------------------------------------------------

  ghost predicate AtMostAsking(actions: seq<Action>, limit: nat) {
    forall n: nat :: n <= |actions| ==> |Run(actions[..n]).asking| <= limit
  }

  predicate Budgets(actions: seq<Action>, max: nat) {
    forall a :: a in actions && a.Ask? ==> a.max <= max
  }

  lemma OneFewer(m: map<nat, Call>, call: nat)
    requires call in m
    ensures |m - {call}| == |m| - 1
  {
    assert (m - {call}).Keys == m.Keys - {call};
  }

  lemma AnswerCounts(w: World, a: Action)
    requires a.Answer? && a.call in w.asking
    ensures Expansions(Answered(w, a).log) + |Answered(w, a).asking| <= Expansions(w.log) + |w.asking|
  {
    OneFewer(w.asking, a.call);
    var c := w.asking[a.call];
    LogGrows(w.log, GeneratorFailed(c.step), "");
    if a.emission.Emitted? && a.emission.fragment.Some? {
      LogGrows(w.log, Realised(c.step, a.emission.fragment.value), "");
    }
  }

  lemma AskCounts(w: World, a: Action)
    requires a.Ask?
    ensures Expansions(Asked(w, a).log) == Expansions(w.log)
    ensures Asked(w, a).asking != w.asking ==> Expansions(w.log) < a.max
  {
    LogGrows(w.log, CeilingReached(a.step), "");
  }

  lemma {:induction false} AskingIsCounted(actions: seq<Action>, max: nat, limit: nat)
    requires max > 0 && Budgets(actions, max) && AtMostAsking(actions, limit)
    ensures Expansions(Run(actions).log) + |Run(actions).asking| <= max - 1 + limit
  {
    assert actions[..|actions|] == actions;
    if actions != [] {
      var n := |actions| - 1;
      assert forall m: nat :: m <= n ==> actions[..n][..m] == actions[..m];
      AskingIsCounted(actions[..n], max, limit);
      var w := Run(actions[..n]);
      var a := actions[n];
      assert a in actions;
      match a
      case Ask(_, _, _, _) => AskCounts(w, a);
      case Answer(_, _, _) => if a.call in w.asking { AnswerCounts(w, a); }
      case Append => LogGrows(w.log, Other, "");
    }
  }

  /**
   A run never records more fragments than its ceiling by more than the calls that
   ran side by side, less one: alone, never more than its ceiling.
   */
  lemma WithinCeiling(actions: seq<Action>, max: nat, limit: nat)
    requires max > 0 && Budgets(actions, max) && AtMostAsking(actions, limit)
    ensures Expansions(Run(actions).log) <= max - 1 + limit
  {
    AskingIsCounted(actions, max, limit);
  }

  // ---- replay --------------------------------------------------------------------------------------

  ghost predicate AloneOn(w: World, step: string) {
    forall c, d :: c in w.asking && d in w.asking && w.asking[c].step == step && w.asking[d].step == step ==> c == d
  }

  /** No two calls for this step were ever between reading the log and appending to it. */
  ghost predicate NeverBesides(actions: seq<Action>, step: string) {
    forall n: nat :: n <= |actions| ==> AloneOn(Run(actions[..n]), step)
  }

  ghost predicate Rebuilds(w: World, r: Return) {
    Graph(r.parent, r.step, Recorded(w.log, r.step)) == Some(r.graph)
  }

  ghost predicate OneRecord(w: World, step: string) {
    && RecordsOf(w.log, step) <= 1
    && (RecordsOf(w.log, step) == 1 ==> forall c :: c in w.asking ==> w.asking[c].step != step)
    && (forall r :: r in w.returned && r.step == step ==> Rebuilds(w, r))
  }

  lemma AskKeepsOne(w: World, a: Action, step: string)
    requires a.Ask? && OneRecord(w, step)
    ensures OneRecord(Asked(w, a), step)
  {
    RecordedIsCounted(w.log, step);
    LogGrows(w.log, CeilingReached(a.step), step);
    var after := Asked(w, a);
    forall r | r in after.returned && r.step == step ensures Rebuilds(after, r) {
      if r in w.returned { assert Rebuilds(w, r); }
    }
  }

  lemma RecordKeepsOne(w: World, call: nat, fragment: Pipeline, g: Pipeline, step: string)
    requires call in w.asking && OneRecord(w, step) && AloneOn(w, step)
    requires Graph(w.asking[call].parent, w.asking[call].step, Some(fragment)) == Some(g)
    ensures var c := w.asking[call];
            var returned := w.returned + [Return(c.step, c.parent, g)];
            OneRecord(World(w.log + [Realised(c.step, fragment)], w.asking - {call}, returned), step)
  {
    var c := w.asking[call];
    var returned := w.returned + [Return(c.step, c.parent, g)];
    var after := World(w.log + [Realised(c.step, fragment)], w.asking - {call}, returned);
    RecordedIsCounted(w.log, step);
    LogGrows(w.log, Realised(c.step, fragment), step);
    forall r | r in after.returned && r.step == step ensures Rebuilds(after, r) {
      if r in w.returned { assert Rebuilds(w, r); }
    }
  }

  lemma FailureKeepsOne(w: World, call: nat, logged: bool, step: string)
    requires call in w.asking && OneRecord(w, step)
    ensures var log := if logged then w.log + [GeneratorFailed(w.asking[call].step)] else w.log;
            OneRecord(World(log, w.asking - {call}, w.returned), step)
  {
    LogGrows(w.log, GeneratorFailed(w.asking[call].step), step);
    var log := if logged then w.log + [GeneratorFailed(w.asking[call].step)] else w.log;
    var after := World(log, w.asking - {call}, w.returned);
    SameRecord(w, after, step);
  }

  lemma SameRecord(w: World, after: World, step: string)
    requires OneRecord(w, step) && after.returned == w.returned
    requires Recorded(after.log, step) == Recorded(w.log, step) && RecordsOf(after.log, step) == RecordsOf(w.log, step)
    requires forall c :: c in after.asking ==> c in w.asking && after.asking[c] == w.asking[c]
    ensures OneRecord(after, step)
  {
    forall r | r in after.returned && r.step == step ensures Rebuilds(after, r) { assert Rebuilds(w, r); }
  }

  lemma AnswerKeepsOne(w: World, a: Action, step: string)
    requires a.Answer? && a.call in w.asking && OneRecord(w, step) && AloneOn(w, step)
    ensures OneRecord(Answered(w, a), step)
  {
    var c := w.asking[a.call];
    if a.emission.Emitted? && a.stored && Graph(c.parent, c.step, a.emission.fragment).Some? {
      RecordKeepsOne(w, a.call, a.emission.fragment.value, Graph(c.parent, c.step, a.emission.fragment).value, step);
    } else if a.emission.Emitted? && Graph(c.parent, c.step, a.emission.fragment).Some? {
      FailureKeepsOne(w, a.call, false, step);
    } else {
      FailureKeepsOne(w, a.call, a.stored, step);
    }
  }

  lemma {:induction false} RunKeepsOne(actions: seq<Action>, step: string)
    requires NeverBesides(actions, step)
    ensures OneRecord(Run(actions), step)
  {
    if actions != [] {
      var n := |actions| - 1;
      assert forall m: nat :: m <= n ==> actions[..n][..m] == actions[..m];
      RunKeepsOne(actions[..n], step);
      var w := Run(actions[..n]);
      var a := actions[n];
      if a.Ask? {
        AskKeepsOne(w, a, step);
      } else if a.Answer? {
        if a.call in w.asking { AnswerKeepsOne(w, a, step); }
      } else {
        LogGrows(w.log, Other, step);
        forall r | r in w.returned && r.step == step ensures Rebuilds(Do(w, a), r) { assert Rebuilds(w, r); }
      }
    }
  }

  /**
   A step is recorded at most once, and a graph it returned is returned again for the
   same parent, whatever the budget says by then and without asking the generator.
   */
  lemma ReplayIsTheRun(actions: seq<Action>, r: Return, call: nat, max: nat)
    requires NeverBesides(actions, r.step) && r in Run(actions).returned
    ensures RecordsOf(Run(actions).log, r.step) == 1
    ensures call !in Run(actions).asking ==>
              Do(Run(actions), Ask(call, r.step, r.parent, max)) ==
                Run(actions).(returned := Run(actions).returned + [r])
  {
    var w := Run(actions);
    RunKeepsOne(actions, r.step);
    assert Rebuilds(w, r);
    RecordedIsCounted(w.log, r.step);
  }

  // ---- two calls for one step -----------------------------------------------------------------------

  function BothAsk(parent: Pipeline, step: string): (r: seq<Action>) {
    [Ask(0, step, parent, 1), Ask(1, step, parent, 1)]
  }

  /** Two calls for one step, both past the log before either appends. */
  function SideBySide(parent: Pipeline, step: string, a: Pipeline, b: Pipeline): (r: seq<Action>) {
    BothAsk(parent, step) + [Answer(0, Emitted(Some(a)), true)] + [Answer(1, Emitted(Some(b)), true)]
  }

  lemma RunOneMore(actions: seq<Action>, a: Action)
    ensures Run(actions + [a]) == Do(Run(actions), a)
  {
    assert (actions + [a])[..|actions|] == actions;
  }

  lemma BothAsked(parent: Pipeline, step: string)
    requires step != ""
    ensures Run(BothAsk(parent, step)) == World([], map[0 := Call(step, parent), 1 := Call(step, parent)], [])
  {
    RunOneMore([], Ask(0, step, parent, 1));
    RunOneMore([Ask(0, step, parent, 1)], Ask(1, step, parent, 1));
    assert [] + [Ask(0, step, parent, 1)] == [Ask(0, step, parent, 1)];
    assert BothAsk(parent, step) == [Ask(0, step, parent, 1)] + [Ask(1, step, parent, 1)];
  }

  lemma AnswersWith(w: World, call: nat, fragment: Pipeline, g: Pipeline)
    requires call in w.asking && Graph(w.asking[call].parent, w.asking[call].step, Some(fragment)) == Some(g)
    ensures var c := w.asking[call];
            Do(w, Answer(call, Emitted(Some(fragment)), true)) ==
            World(w.log + [Realised(c.step, fragment)], w.asking - {call}, w.returned + [Return(c.step, c.parent, g)])
  {
  }

  lemma RunAnswer(actions: seq<Action>, w: World, call: nat, fragment: Pipeline, g: Pipeline)
    requires Run(actions) == w && call in w.asking
    requires Graph(w.asking[call].parent, w.asking[call].step, Some(fragment)) == Some(g)
    ensures var c := w.asking[call];
            Run(actions + [Answer(call, Emitted(Some(fragment)), true)]) ==
            World(w.log + [Realised(c.step, fragment)], w.asking - {call}, w.returned + [Return(c.step, c.parent, g)])
  {
    RunOneMore(actions, Answer(call, Emitted(Some(fragment)), true));
    AnswersWith(w, call, fragment, g);
  }

  lemma TwoAnswers(asked: seq<Action>, c: Call, a: Pipeline, b: Pipeline, ga: Pipeline, gb: Pipeline)
    requires Run(asked) == World([], map[0 := c, 1 := c], [])
    requires Graph(c.parent, c.step, Some(a)) == Some(ga) && Graph(c.parent, c.step, Some(b)) == Some(gb)
    ensures Run(asked + [Answer(0, Emitted(Some(a)), true)] + [Answer(1, Emitted(Some(b)), true)]) ==
            World([Realised(c.step, a), Realised(c.step, b)], map[],
                  [Return(c.step, c.parent, ga), Return(c.step, c.parent, gb)])
  {
    RunAnswer(asked, Run(asked), 0, a, ga);
    var first := asked + [Answer(0, Emitted(Some(a)), true)];
    TwoCalls(c);
    RunAnswer(first, Run(first), 1, b, gb);
    OneThenOne(Realised(c.step, a), Realised(c.step, b));
    OneThenOne(Return(c.step, c.parent, ga), Return(c.step, c.parent, gb));
  }

  lemma TwoCalls(c: Call)
    ensures map[0 := c, 1 := c] - {0} == map[1 := c] && map[1 := c] - {1} == map[]
  {
  }

  lemma OneThenOne<T>(x: T, y: T)
    ensures [] + [x] + [y] == [x, y]
  {
  }

  lemma BothAnswered(parent: Pipeline, step: string, a: Pipeline, b: Pipeline, ga: Pipeline, gb: Pipeline)
    requires step != "" && Graph(parent, step, Some(a)) == Some(ga) && Graph(parent, step, Some(b)) == Some(gb)
    ensures Run(SideBySide(parent, step, a, b)) ==
            World([Realised(step, a), Realised(step, b)], map[], [Return(step, parent, ga), Return(step, parent, gb)])
  {
    BothAsked(parent, step);
    TwoAnswers(BothAsk(parent, step), Call(step, parent), a, b, ga, gb);
  }

  lemma LaterIsRecorded(step: string, a: Pipeline, b: Pipeline)
    ensures var log := [Realised(step, a), Realised(step, b)];
            Expansions(log) == 2 && Recorded(log, step) == Some(b)
  {
    LogGrows([], Realised(step, a), step);
    LogGrows([Realised(step, a)], Realised(step, b), step);
    assert [] + [Realised(step, a)] == [Realised(step, a)];
    assert [Realised(step, a)] + [Realised(step, b)] == [Realised(step, a), Realised(step, b)];
  }

  /**
   Two calls for one step that overlap record two fragments under a ceiling of one,
   and wherever the two make different graphs, the log no longer rebuilds the first.
   */
  lemma SideBySideDiverges(parent: Pipeline, step: string, a: Pipeline, b: Pipeline, ga: Pipeline, gb: Pipeline)
    requires step != "" && Graph(parent, step, Some(a)) == Some(ga) && Graph(parent, step, Some(b)) == Some(gb)
    ensures var w := Run(SideBySide(parent, step, a, b));
            Expansions(w.log) == 2 && |w.returned| == 2 && (Rebuilds(w, w.returned[0]) <==> ga == gb)
  {
    BothAnswered(parent, step, a, b, ga, gb);
    LaterIsRecorded(step, a, b);
  }

  /**
   From any world in which two calls for one step are both past the log: both are
   recorded, and the log rebuilds what the first returned exactly when the second's
   fragment makes the same graph of the first's parent.
   */
  lemma OverlapDiverges(w: World, c: nat, d: nat, a: Pipeline, b: Pipeline, ga: Pipeline, gb: Pipeline)
    requires c in w.asking && d in w.asking && c != d && w.asking[c].step == w.asking[d].step
    requires Graph(w.asking[c].parent, w.asking[c].step, Some(a)) == Some(ga)
    requires Graph(w.asking[d].parent, w.asking[d].step, Some(b)) == Some(gb)
    ensures var first, second := w.asking[c], w.asking[d];
            var returned := Return(first.step, first.parent, ga);
            var after := Do(Do(w, Answer(c, Emitted(Some(a)), true)), Answer(d, Emitted(Some(b)), true));
            && Expansions(after.log) == Expansions(w.log) + 2
            && RecordsOf(after.log, first.step) == RecordsOf(w.log, first.step) + 2
            && after.returned == w.returned + [returned] + [Return(second.step, second.parent, gb)]
            && (Rebuilds(after, returned) <==> Graph(first.parent, first.step, Some(b)) == Some(ga))
  {
    var step := w.asking[c].step;
    AnswersWith(w, c, a, ga);
    AnswersWith(Do(w, Answer(c, Emitted(Some(a)), true)), d, b, gb);
    LogGrows(w.log, Realised(step, a), step);
    LogGrows(w.log + [Realised(step, a)], Realised(step, b), step);
  }

  function Bare(id: string): (r: Step) {
    Step(id, "", "", 0, [], [], [], 0, map[], "", "", 0, [], [])
  }

  function Alone(id: string): (r: Pipeline) {
    Pipeline("", "", [Bare(id)], [], [])
  }

  lemma AloneGrafts(at: string, id: string)
    ensures Grafted(Alone(at), at, Alone(id)) == Pipeline("", "", [Bare(at), Bare(id)], [], [])
    ensures Misses(OutputsAt(Alone(at), at), Alone(id)) == []
  {
    var fragment := Alone(id);
    assert StepIndex(Alone(at).steps, at) == 0;
    CollectNothing(StepGrafts(at, [], fragment), fragment.steps);
    CollectNothing(StepMisses([], fragment), fragment.steps);
  }

  lemma PairBuilds(at: string, id: string)
    requires id != "" && at != "" && id != at
    ensures Builds(Pipeline("", "", [Bare(at), Bare(id)], [], []))
  {
    var g := Pipeline("", "", [Bare(at), Bare(id)], [], []);
    assert StepIds(g) == [at, id];
    forall path ensures !CycleOf(g, path) {
      assert |path| >= 2 ==> !Dep(g, path[0], path[1]);
    }
  }

  /** There are such fragments: any two different steps, each alone. */
  lemma AloneSplices(at: string, id: string)
    requires id != "" && at != "" && id != at
    ensures Spliceable(Alone(at), at, Some(Alone(id)))
  {
    var parent, fragment := Alone(at), Alone(id);
    assert parent.steps[0].id == at && StepIds(fragment) == [id];
    AloneGrafts(at, id);
    PairBuilds(at, id);
  }
}
