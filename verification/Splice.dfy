/** Grafting a generated fragment into a pipeline, below the step that generated it. */
module Splice {
  import opened Prelude
  import opened Definition
  import opened Dag
  import opened TypeCheck

  datatype SpliceError = NoSuchStep | EmptyFragment | ReusedStepId | NotADag | DoesNotFit(diags: seq<Diagnostic>)

  // ---- the graft ---------------------------------------------------------------------

  /** Nothing inside the fragment feeds this step. */
  predicate Entry(fragment: Pipeline, id: string) {
    forall i :: 0 <= i < |fragment.edges| ==> fragment.edges[i].toStep != id
  }

  /** The edge into one input of an entry step, where the generator produces a port of that name. */
  function InputGraft(at: string, outputs: seq<Port>, id: string): (r: Port -> seq<Edge>) {
    (input: Port) => if HasPort(outputs, input.name) then [Edge(at, input.name, id, input.name)] else []
  }

  function InputMiss(outputs: seq<Port>, id: string): (r: Port -> seq<Diagnostic>) {
    (input: Port) => if HasPort(outputs, input.name) then [] else [Diagnostic(id, input.name)]
  }

  function StepGrafts(at: string, outputs: seq<Port>, fragment: Pipeline): (r: Step -> seq<Edge>) {
    (s: Step) => if Entry(fragment, s.id) then Collect(InputGraft(at, outputs, s.id), s.inputs) else []
  }

  function StepMisses(outputs: seq<Port>, fragment: Pipeline): (r: Step -> seq<Diagnostic>) {
    (s: Step) => if Entry(fragment, s.id) then Collect(InputMiss(outputs, s.id), s.inputs) else []
  }

  function Grafts(at: string, outputs: seq<Port>, fragment: Pipeline): (r: seq<Edge>) {
    Collect(StepGrafts(at, outputs, fragment), fragment.steps)
  }

  function Misses(outputs: seq<Port>, fragment: Pipeline): (r: seq<Diagnostic>) {
    Collect(StepMisses(outputs, fragment), fragment.steps)
  }

  /** Every fragment id is present, and new to the parent and to the rest of the fragment. */
  predicate FreshIds(parent: Pipeline, fragment: Pipeline) {
    && (forall i :: 0 <= i < |fragment.steps| ==> fragment.steps[i].id != "" && !HasStep(parent, fragment.steps[i].id))
    && NoDup(StepIds(fragment))
  }

  function OutputsAt(parent: Pipeline, at: string): (r: seq<Port>) {
    if StepIndex(parent.steps, at) >= 0 then parent.steps[StepIndex(parent.steps, at)].outputs else []
  }

  function Grafted(parent: Pipeline, at: string, fragment: Pipeline): (r: Pipeline)
    ensures parent.steps <= r.steps && parent.edges <= r.edges && r.files == parent.files && r.id == parent.id
  {
    parent.(
      steps := parent.steps + fragment.steps,
      edges := parent.edges + fragment.edges + Grafts(at, OutputsAt(parent, at), fragment))
  }

  ghost predicate Builds(p: Pipeline) {
    StepsNamed(p) && EdgesKnown(p) && AcyclicPipeline(p)
  }

  ghost predicate Spliceable(parent: Pipeline, at: string, fragment: Option<Pipeline>) {
    && at != "" && HasStep(parent, at)
    && fragment.Some? && fragment.value.steps != []
    && FreshIds(parent, fragment.value)
    && Builds(Grafted(parent, at, fragment.value))
    && Misses(OutputsAt(parent, at), fragment.value) == []
    && WellTyped(Grafted(parent, at, fragment.value))
  }

  // ---- as the loops do it --------------------------------------------------------------

  method CheckIds(parent: Pipeline, fragment: Pipeline) returns (ok: bool)
    ensures ok <==> FreshIds(parent, fragment)
  {
    var known := Set(StepIds(parent));
    KnownAreSteps(parent);
    var ids := StepIds(fragment);
    var i := 0;
    while i < |fragment.steps|
      invariant 0 <= i <= |fragment.steps|
      invariant forall id :: id in known <==> HasStep(parent, id) || id in ids[..i]
      invariant forall k :: 0 <= k < i ==> ids[k] != "" && !HasStep(parent, ids[k])
      invariant NoDup(ids[..i])
    {
      var id := fragment.steps[i].id;
      assert ids[i] == id;
      if id == "" || id in known {
        assert id in ids[..i] ==> !NoDup(ids);
        return false;
      }
      assert ids[..i + 1] == ids[..i] + [id];
      known := known + {id};
      i := i + 1;
    }
    assert ids[..i] == ids;
    assert forall k :: 0 <= k < |fragment.steps| ==> fragment.steps[k].id == ids[k];
    ok := true;
  }

  /** One entry step's inputs, wired from the generator's outputs of the same name. */
  method GraftStep(at: string, outputs: seq<Port>, s: Step) returns (edges: seq<Edge>, diags: seq<Diagnostic>)
    ensures edges == Collect(InputGraft(at, outputs, s.id), s.inputs)
    ensures diags == Collect(InputMiss(outputs, s.id), s.inputs)
  {
    edges, diags := [], [];
    var j := 0;
    while j < |s.inputs|
      invariant 0 <= j <= |s.inputs|
      invariant edges == Collect(InputGraft(at, outputs, s.id), s.inputs[..j])
      invariant diags == Collect(InputMiss(outputs, s.id), s.inputs[..j])
    {
      var name := s.inputs[j].name;
      CollectOneMore(InputGraft(at, outputs, s.id), s.inputs, j);
      CollectOneMore(InputMiss(outputs, s.id), s.inputs, j);
      if FindPort(outputs, name).None? {
        diags := diags + [Diagnostic(s.id, name)];
      } else {
        edges := edges + [Edge(at, name, s.id, name)];
      }
      j := j + 1;
    }
    assert s.inputs[..j] == s.inputs;
  }

  method Graft(at: string, outputs: seq<Port>, fragment: Pipeline) returns (edges: seq<Edge>, diags: seq<Diagnostic>)
    ensures edges == Grafts(at, outputs, fragment)
    ensures diags == Misses(outputs, fragment)
  {
    edges, diags := [], [];
    var i := 0;
    while i < |fragment.steps|
      invariant 0 <= i <= |fragment.steps|
      invariant edges == Collect(StepGrafts(at, outputs, fragment), fragment.steps[..i])
      invariant diags == Collect(StepMisses(outputs, fragment), fragment.steps[..i])
    {
      var s := fragment.steps[i];
      CollectOneMore(StepGrafts(at, outputs, fragment), fragment.steps, i);
      CollectOneMore(StepMisses(outputs, fragment), fragment.steps, i);
      if Entry(fragment, s.id) {
        var more, faults := GraftStep(at, outputs, s);
        edges, diags := edges + more, diags + faults;
      }
      i := i + 1;
    }
    assert fragment.steps[..i] == fragment.steps;
  }

  /** Nothing inside the fragment feeds this step of it. */
  ghost predicate IsEntry(fragment: Pipeline, s: Step) {
    s in fragment.steps && forall f :: f in fragment.edges ==> f.toStep != s.id
  }

  /** The generator produces a port of this name. */
  ghost predicate Produces(parent: Pipeline, at: string, name: string) {
    exists k: nat, o ::
      && k < |parent.steps| && parent.steps[k].id == at && (forall j :: 0 <= j < k ==> parent.steps[j].id != at)
      && o in parent.steps[k].outputs && o.name == name
  }

  /** A graft that is due: from the generator's port to the port of that name of an entry step. */
  ghost predicate Due(parent: Pipeline, at: string, fragment: Pipeline, e: Edge) {
    && e.fromStep == at && e.fromPort == e.toPort && Produces(parent, at, e.fromPort)
    && exists s, x :: IsEntry(fragment, s) && s.id == e.toStep && x in s.inputs && x.name == e.toPort
  }

  /**
   What a splice is: the parent with every step and edge of the fragment added as they
   are, and the grafts that are due; everything else is the parent's.
   */
  ghost predicate IsSplice(parent: Pipeline, at: string, fragment: Pipeline, r: Pipeline) {
    && parent.steps <= r.steps && |r.steps| == |parent.steps| + |fragment.steps|
    && (forall s :: s in r.steps <==> s in parent.steps || s in fragment.steps)
    && parent.edges <= r.edges
    && (forall e :: e in r.edges <==> e in parent.edges || e in fragment.edges || Due(parent, at, fragment, e))
    && r.files == parent.files && r.id == parent.id && r.tenant == parent.tenant
  }

  lemma PortIsThere(ports: seq<Port>, name: string)
    ensures HasPort(ports, name) <==> exists x :: x in ports && x.name == name
  {
    if HasPort(ports, name) {
      var i :| 0 <= i < |ports| && ports[i].name == name;
      assert ports[i] in ports;
    }
  }

  lemma ProducesMeans(parent: Pipeline, at: string, name: string)
    ensures Produces(parent, at, name) <==> HasPort(OutputsAt(parent, at), name)
  {
    var i := StepIndex(parent.steps, at);
    PortIsThere(OutputsAt(parent, at), name);
    if HasPort(OutputsAt(parent, at), name) {
      var o :| o in OutputsAt(parent, at) && o.name == name;
      assert i < |parent.steps| && parent.steps[i].id == at && o in parent.steps[i].outputs;
    }
  }

  lemma EntryMeans(fragment: Pipeline, s: Step)
    ensures IsEntry(fragment, s) <==> s in fragment.steps && Entry(fragment, s.id)
  {
    if Entry(fragment, s.id) {
      forall f | f in fragment.edges ensures f.toStep != s.id {
        var i :| 0 <= i < |fragment.edges| && fragment.edges[i] == f;
      }
    } else {
      var i :| 0 <= i < |fragment.edges| && fragment.edges[i].toStep == s.id;
      assert fragment.edges[i] in fragment.edges;
    }
  }

  lemma DueIsGrafted(parent: Pipeline, at: string, fragment: Pipeline, e: Edge)
    ensures e in Grafts(at, OutputsAt(parent, at), fragment) <==> Due(parent, at, fragment, e)
  {
    var outputs := OutputsAt(parent, at);
    GraftsAre(at, outputs, fragment, e);
    ProducesMeans(parent, at, e.fromPort);
    if i :| 0 <= i < |fragment.steps| && IsGraft(at, outputs, fragment, fragment.steps[i], e) {
      EntryMeans(fragment, fragment.steps[i]);
      PortIsThere(fragment.steps[i].inputs, e.toPort);
    }
    if Due(parent, at, fragment, e) {
      var s, x :| IsEntry(fragment, s) && s.id == e.toStep && x in s.inputs && x.name == e.toPort;
      var i :| 0 <= i < |fragment.steps| && fragment.steps[i] == s;
      EntryMeans(fragment, s);
      PortIsThere(s.inputs, e.toPort);
      assert IsGraft(at, outputs, fragment, fragment.steps[i], e);
    }
  }

  lemma GraftedIs(parent: Pipeline, at: string, fragment: Pipeline)
    ensures IsSplice(parent, at, fragment, Grafted(parent, at, fragment))
  {
    var r := Grafted(parent, at, fragment);
    forall e ensures e in r.edges <==> e in parent.edges || e in fragment.edges || Due(parent, at, fragment, e) {
      DueIsGrafted(parent, at, fragment, e);
    }
  }

  /** An input of an entry step the generator produces no port for. */
  ghost predicate Missed(parent: Pipeline, at: string, fragment: Pipeline, d: Diagnostic) {
    && !Produces(parent, at, d.portName)
    && exists s, x :: IsEntry(fragment, s) && s.id == d.stepId && x in s.inputs && x.name == d.portName
  }

  lemma MissesAre(parent: Pipeline, at: string, fragment: Pipeline, d: Diagnostic)
    ensures d in Misses(OutputsAt(parent, at), fragment) <==> Missed(parent, at, fragment, d)
  {
    var outputs := OutputsAt(parent, at);
    CollectMember(StepMisses(outputs, fragment), fragment.steps, d);
    ProducesMeans(parent, at, d.portName);
    forall s ensures d in StepMisses(outputs, fragment)(s) <==>
                       Entry(fragment, s.id) && !HasPort(outputs, d.portName) && s.id == d.stepId
                       && exists x :: x in s.inputs && x.name == d.portName
    {
      CollectMember(InputMiss(outputs, s.id), s.inputs, d);
    }
    forall s { EntryMeans(fragment, s); }
  }

  /** Some id of the fragment is empty, the parent's, or used twice. */
  ghost predicate IdsClash(parent: Pipeline, fragment: Pipeline) {
    || (exists s :: s in fragment.steps && (s.id == "" || exists t :: t in parent.steps && t.id == s.id))
    || (exists i, j :: 0 <= i < j < |fragment.steps| && fragment.steps[i].id == fragment.steps[j].id)
  }

  lemma FreshMeans(parent: Pipeline, fragment: Pipeline)
    ensures FreshIds(parent, fragment) <==> !IdsClash(parent, fragment)
  {
    var ids := StepIds(fragment);
    assert forall i :: 0 <= i < |fragment.steps| ==> ids[i] == fragment.steps[i].id;
    if FreshIds(parent, fragment) {
      forall s, t | s in fragment.steps && t in parent.steps ensures s.id != "" && t.id != s.id {
        var i :| 0 <= i < |fragment.steps| && fragment.steps[i] == s;
        var k :| 0 <= k < |parent.steps| && parent.steps[k] == t;
      }
      assert forall i, j :: 0 <= i < j < |ids| ==> ids[i] != ids[j];
    }
    if !IdsClash(parent, fragment) {
      forall i | 0 <= i < |fragment.steps|
        ensures fragment.steps[i].id != "" && !HasStep(parent, fragment.steps[i].id)
      {
        assert fragment.steps[i] in fragment.steps;
        forall k | 0 <= k < |parent.steps| ensures parent.steps[k].id != fragment.steps[i].id {
          assert parent.steps[k] in parent.steps;
        }
      }
    }
  }

  /** The grafted pipeline, exactly when everything about it is in order. */
  method Splice(parent: Pipeline, at: string, fragment: Option<Pipeline>) returns (r: Result<Pipeline, SpliceError>)
    ensures r.Ok? <==> Spliceable(parent, at, fragment)
    ensures r.Ok? ==> r.value == Grafted(parent, at, fragment.value) && IsSplice(parent, at, fragment.value, r.value)
    ensures r == Err(NoSuchStep) <==> at == "" || !HasStep(parent, at)
    ensures r == Err(EmptyFragment) <==>
            at != "" && HasStep(parent, at) && (fragment.None? || fragment.value.steps == [])
    ensures r == Err(ReusedStepId) <==>
            && at != "" && HasStep(parent, at) && fragment.Some? && fragment.value.steps != []
            && IdsClash(parent, fragment.value)
    ensures r == Err(NotADag) <==>
            && at != "" && HasStep(parent, at) && fragment.Some? && fragment.value.steps != []
            && !IdsClash(parent, fragment.value) && !Builds(Grafted(parent, at, fragment.value))
    ensures r.Err? && r.error.DoesNotFit? ==>
              r.error.diags ==
              Misses(OutputsAt(parent, at), fragment.value) + Faults(Grafted(parent, at, fragment.value))
  {
    var i := StepIndex(parent.steps, at);
    if at == "" || i < 0 { return Err(NoSuchStep); }
    if fragment.None? || fragment.value.steps == [] { return Err(EmptyFragment); }
    var unused := CheckIds(parent, fragment.value);
    FreshMeans(parent, fragment.value);
    if !unused { return Err(ReusedStepId); }
    var grafts, diags := Graft(at, parent.steps[i].outputs, fragment.value);
    var spliced := parent.(
      steps := parent.steps + fragment.value.steps,
      edges := parent.edges + fragment.value.edges + grafts);
    assert spliced == Grafted(parent, at, fragment.value) && HasStep(parent, at);
    var built := Build(spliced);
    if built.Err? { return Err(NotADag); }
    var faults := Check(spliced);
    diags := diags + faults;
    if diags != [] { return Err(DoesNotFit(diags)); }
    GraftedIs(parent, at, fragment.value);
    r := Ok(spliced);
  }

  // ---- what a splice guarantees --------------------------------------------------------

  /** A graft feeds an input of an entry step from the generator's output of that name. */
  lemma GraftsAre(at: string, outputs: seq<Port>, fragment: Pipeline, e: Edge)
    ensures e in Grafts(at, outputs, fragment) <==>
      exists i :: 0 <= i < |fragment.steps| && IsGraft(at, outputs, fragment, fragment.steps[i], e)
  {
    CollectMember(StepGrafts(at, outputs, fragment), fragment.steps, e);
    forall i | 0 <= i < |fragment.steps|
      ensures e in StepGrafts(at, outputs, fragment)(fragment.steps[i]) <==>
              IsGraft(at, outputs, fragment, fragment.steps[i], e)
    {
      var s := fragment.steps[i];
      CollectMember(InputGraft(at, outputs, s.id), s.inputs, e);
    }
  }

  predicate IsGraft(at: string, outputs: seq<Port>, fragment: Pipeline, s: Step, e: Edge) {
    && Entry(fragment, s.id) && HasPort(s.inputs, e.toPort) && HasPort(outputs, e.toPort)
    && e == Edge(at, e.toPort, s.id, e.toPort)
  }

  predicate AllOffered(outputs: seq<Port>, s: Step) {
    forall j :: 0 <= j < |s.inputs| ==> HasPort(outputs, s.inputs[j].name)
  }

  lemma NoMisses(outputs: seq<Port>, fragment: Pipeline)
    ensures Misses(outputs, fragment) == [] <==>
            forall i :: 0 <= i < |fragment.steps| && Entry(fragment, fragment.steps[i].id) ==>
              AllOffered(outputs, fragment.steps[i])
  {
    CollectNothing(StepMisses(outputs, fragment), fragment.steps);
    forall i | 0 <= i < |fragment.steps|
      ensures StepMisses(outputs, fragment)(fragment.steps[i]) == [] <==>
              (Entry(fragment, fragment.steps[i].id) ==> AllOffered(outputs, fragment.steps[i]))
    {
      CollectNothing(InputMiss(outputs, fragment.steps[i].id), fragment.steps[i].inputs);
    }
  }

  /** In a spliced pipeline no entry step is left with an input nothing feeds. */
  lemma EntriesAreFed(parent: Pipeline, at: string, fragment: Pipeline, i: nat, j: nat)
    requires Spliceable(parent, at, Some(fragment))
    requires i < |fragment.steps| && Entry(fragment, fragment.steps[i].id) && j < |fragment.steps[i].inputs|
    ensures var name := fragment.steps[i].inputs[j].name;
            Edge(at, name, fragment.steps[i].id, name) in Grafted(parent, at, fragment).edges
  {
    var s := fragment.steps[i];
    var outputs := OutputsAt(parent, at);
    NoMisses(outputs, fragment);
    assert AllOffered(outputs, s) && HasPort(s.inputs, s.inputs[j].name);
    var e := Edge(at, s.inputs[j].name, s.id, s.inputs[j].name);
    assert IsGraft(at, outputs, fragment, s, e);
    GraftsAre(at, outputs, fragment, e);
  }

  // ---- when a splice can be cyclic -----------------------------------------------------

  /** A dependency one of the two already has. */
  predicate Own(parent: Pipeline, fragment: Pipeline, a: string, b: string) {
    Dep(parent, a, b) || Dep(fragment, a, b)
  }

  /** A fragment step the generator feeds: an entry with an input of one of the generator's output names. */
  predicate Fed(parent: Pipeline, at: string, fragment: Pipeline, id: string) {
    exists i, j ::
      && 0 <= i < |fragment.steps| && 0 <= j < |fragment.steps[i].inputs|
      && fragment.steps[i].id == id && Entry(fragment, id)
      && HasPort(OutputsAt(parent, at), fragment.steps[i].inputs[j].name)
  }

  /** A dependency of the grafted pipeline is the parent's, the fragment's, or from the generator to a step it feeds. */
  lemma GraftedDeps(parent: Pipeline, at: string, fragment: Pipeline, a: string, b: string)
    requires Dep(Grafted(parent, at, fragment), a, b)
    ensures Own(parent, fragment, a, b) || (a == at && Fed(parent, at, fragment, b))
  {
    var grafts := Grafts(at, OutputsAt(parent, at), fragment);
    var edges := parent.edges + fragment.edges + grafts;
    var i :| 0 <= i < |edges| && edges[i].fromStep == a && edges[i].toStep == b;
    if i < |parent.edges| {
      assert parent.edges[i] == edges[i];
    } else if i < |parent.edges| + |fragment.edges| {
      assert fragment.edges[i - |parent.edges|] == edges[i];
    } else {
      assert edges[i] in grafts;
      GraftsAre(at, OutputsAt(parent, at), fragment, edges[i]);
      var k :| 0 <= k < |fragment.steps| && IsGraft(at, OutputsAt(parent, at), fragment, fragment.steps[k], edges[i]);
      var j :| 0 <= j < |fragment.steps[k].inputs| && fragment.steps[k].inputs[j].name == edges[i].toPort;
      assert fragment.steps[k].id == b && HasPort(OutputsAt(parent, at), fragment.steps[k].inputs[j].name);
    }
  }

  lemma FedIsDep(parent: Pipeline, at: string, fragment: Pipeline, id: string)
    requires Fed(parent, at, fragment, id)
    ensures Dep(Grafted(parent, at, fragment), at, id)
  {
    var outputs, edges := OutputsAt(parent, at), Grafted(parent, at, fragment).edges;
    var i, j :|
      && 0 <= i < |fragment.steps| && 0 <= j < |fragment.steps[i].inputs|
      && fragment.steps[i].id == id && Entry(fragment, id) && HasPort(outputs, fragment.steps[i].inputs[j].name);
    var e := Edge(at, fragment.steps[i].inputs[j].name, id, fragment.steps[i].inputs[j].name);
    assert IsGraft(at, outputs, fragment, fragment.steps[i], e);
    GraftsAre(at, outputs, fragment, e);
    assert e in edges;
    var k :| 0 <= k < |edges| && edges[k] == e;
  }

  lemma DepsStay(parent: Pipeline, at: string, fragment: Pipeline, a: string, b: string)
    requires Own(parent, fragment, a, b)
    ensures Dep(Grafted(parent, at, fragment), a, b)
  {
    var edges := Grafted(parent, at, fragment).edges;
    if Dep(parent, a, b) {
      var i :| 0 <= i < |parent.edges| && parent.edges[i].fromStep == a && parent.edges[i].toStep == b;
      assert edges[i] == parent.edges[i];
    } else {
      var i :| 0 <= i < |fragment.edges| && fragment.edges[i].fromStep == a && fragment.edges[i].toStep == b;
      assert edges[|parent.edges| + i] == fragment.edges[i];
    }
  }

  lemma DepJoinsSteps(p: Pipeline, a: string, b: string)
    requires EdgesKnown(p) && Dep(p, a, b)
    ensures HasStep(p, a) && HasStep(p, b)
  {
  }

  /** Steps each of which depends on the one before it, by the parent's edges and the fragment's alone. */
  ghost predicate Walk(parent: Pipeline, fragment: Pipeline, path: seq<string>) {
    |path| >= 1 && forall i :: 0 <= i < |path| - 1 ==> Own(parent, fragment, path[i], path[i + 1])
  }

  ghost predicate OwnCycle(parent: Pipeline, fragment: Pipeline, path: seq<string>) {
    |path| >= 2 && path[0] == path[|path| - 1] && Walk(parent, fragment, path)
  }

  /** A walk from a step the generator feeds back to the generator. */
  ghost predicate LeadsBack(parent: Pipeline, at: string, fragment: Pipeline, path: seq<string>) {
    Walk(parent, fragment, path) && Fed(parent, at, fragment, path[0]) && path[|path| - 1] == at
  }

  /** What makes a graft cyclic: the two have a cycle between them, or a fed step leads back to the generator. */
  ghost predicate Loops(parent: Pipeline, at: string, fragment: Pipeline) {
    || (exists path :: OwnCycle(parent, fragment, path))
    || (exists path :: LeadsBack(parent, at, fragment, path))
  }

  /** Up to where it first meets the generator, a walk of the grafted pipeline takes no graft. */
  lemma FirstReturn(parent: Pipeline, at: string, fragment: Pipeline, path: seq<string>)
    requires |path| >= 1 && Fed(parent, at, fragment, path[0]) && path[|path| - 1] == at
    requires forall i :: 0 <= i < |path| - 1 ==> Dep(Grafted(parent, at, fragment), path[i], path[i + 1])
    ensures exists walk :: LeadsBack(parent, at, fragment, walk)
  {
    var k := 0;
    while path[k] != at
      invariant 0 <= k < |path| && forall i :: 0 <= i < k ==> path[i] != at
      decreases |path| - k
    {
      k := k + 1;
    }
    var walk := path[..k + 1];
    forall i | 0 <= i < |walk| - 1 ensures Own(parent, fragment, walk[i], walk[i + 1]) {
      GraftedDeps(parent, at, fragment, path[i], path[i + 1]);
    }
    assert LeadsBack(parent, at, fragment, walk);
  }

  lemma CycleLoops(parent: Pipeline, at: string, fragment: Pipeline, path: seq<string>)
    requires CycleOf(Grafted(parent, at, fragment), path)
    ensures Loops(parent, at, fragment)
  {
    var n := |path| - 1;
    if i :| 0 <= i < n && !Own(parent, fragment, path[i], path[i + 1]) {
      GraftedDeps(parent, at, fragment, path[i], path[i + 1]);
      var around := path[i + 1..] + path[1..i + 1];
      forall k | 0 <= k < |around| - 1 ensures Dep(Grafted(parent, at, fragment), around[k], around[k + 1]) {
        var m := if k < n - i - 1 then i + 1 + k else k - (n - i - 1);
        assert around[k] == path[m] && around[k + 1] == path[m + 1];
      }
      assert around[|around| - 1] == path[i];
      FirstReturn(parent, at, fragment, around);
    } else {
      assert OwnCycle(parent, fragment, path);
    }
  }

  lemma WalkStays(parent: Pipeline, at: string, fragment: Pipeline, path: seq<string>, i: nat)
    requires Walk(parent, fragment, path) && i < |path| - 1
    ensures Dep(Grafted(parent, at, fragment), path[i], path[i + 1])
  {
    DepsStay(parent, at, fragment, path[i], path[i + 1]);
  }

  lemma LoopCycles(parent: Pipeline, at: string, fragment: Pipeline)
    requires Loops(parent, at, fragment)
    ensures exists path :: CycleOf(Grafted(parent, at, fragment), path)
  {
    var g := Grafted(parent, at, fragment);
    if path :| OwnCycle(parent, fragment, path) {
      forall i: nat | i < |path| - 1 ensures Dep(g, path[i], path[i + 1]) { WalkStays(parent, at, fragment, path, i); }
      assert CycleOf(g, path);
    } else {
      var walk :| LeadsBack(parent, at, fragment, walk);
      var path := [at] + walk;
      FedIsDep(parent, at, fragment, walk[0]);
      forall i: nat | i < |path| - 1 ensures Dep(g, path[i], path[i + 1]) {
        if i > 0 { WalkStays(parent, at, fragment, walk, i - 1); }
      }
      assert CycleOf(g, path);
    }
  }

  /** The parent's edges join its own steps, the fragment's lead to its own, and no step is in both. */
  ghost predicate Apart(parent: Pipeline, at: string, fragment: Pipeline) {
    && EdgesKnown(parent) && HasStep(parent, at)
    && (forall i :: 0 <= i < |fragment.edges| ==> HasStep(fragment, fragment.edges[i].toStep))
    && forall id :: !(HasStep(parent, id) && HasStep(fragment, id))
  }

  /** Whatever follows a fragment step is a fragment step. */
  lemma StaysInside(parent: Pipeline, at: string, fragment: Pipeline, a: string, b: string)
    requires Apart(parent, at, fragment) && Dep(Grafted(parent, at, fragment), a, b)
    ensures HasStep(fragment, a) ==> HasStep(fragment, b) && Dep(fragment, a, b)
    ensures HasStep(parent, b) ==> HasStep(parent, a) && Dep(parent, a, b)
    ensures HasStep(fragment, b) || HasStep(parent, b)
  {
    GraftedDeps(parent, at, fragment, a, b);
    if Dep(parent, a, b) { DepJoinsSteps(parent, a, b); }
  }

  lemma {:induction false} PathStaysInside(parent: Pipeline, at: string, fragment: Pipeline, path: seq<string>, n: nat)
    requires Apart(parent, at, fragment) && CycleOf(Grafted(parent, at, fragment), path)
    requires n < |path| && HasStep(fragment, path[0])
    ensures HasStep(fragment, path[n])
  {
    if n > 0 {
      PathStaysInside(parent, at, fragment, path, n - 1);
      StaysInside(parent, at, fragment, path[n - 1], path[n]);
    }
  }

  lemma {:induction false} PathStaysOutside(parent: Pipeline, at: string, fragment: Pipeline, path: seq<string>, n: nat)
    requires Apart(parent, at, fragment) && CycleOf(Grafted(parent, at, fragment), path)
    requires n < |path| && HasStep(parent, path[|path| - 1])
    ensures HasStep(parent, path[n])
    decreases |path| - n
  {
    if n < |path| - 1 {
      PathStaysOutside(parent, at, fragment, path, n + 1);
      StaysInside(parent, at, fragment, path[n], path[n + 1]);
    }
  }

  lemma CycleIsLocal(parent: Pipeline, at: string, fragment: Pipeline, path: seq<string>)
    requires Apart(parent, at, fragment) && CycleOf(Grafted(parent, at, fragment), path)
    ensures CycleOf(parent, path) || CycleOf(fragment, path)
  {
    var n := |path| - 1;
    StaysInside(parent, at, fragment, path[n - 1], path[n]);
    forall i | 0 <= i < n
      ensures if HasStep(fragment, path[n]) then Dep(fragment, path[i], path[i + 1])
              else Dep(parent, path[i], path[i + 1])
    {
      StaysInside(parent, at, fragment, path[i], path[i + 1]);
      if HasStep(fragment, path[n]) {
        PathStaysInside(parent, at, fragment, path, i);
      } else {
        PathStaysOutside(parent, at, fragment, path, i + 1);
      }
    }
  }

  /**
   For every fragment, the grafted pipeline is acyclic exactly when parent and fragment
   have no cycle between them and no step the generator feeds leads back to it. Where
   none of the fragment's edges leads into the parent, wherever they start, that is
   exactly when each of the two is acyclic.
   */
  lemma SpliceIsAcyclic(parent: Pipeline, at: string, fragment: Pipeline)
    ensures AcyclicPipeline(Grafted(parent, at, fragment)) <==> !Loops(parent, at, fragment)
    ensures Apart(parent, at, fragment) ==>
              (Loops(parent, at, fragment) <==> !(AcyclicPipeline(parent) && AcyclicPipeline(fragment)))
  {
    var g := Grafted(parent, at, fragment);
    if Loops(parent, at, fragment) { LoopCycles(parent, at, fragment); }
    forall path | CycleOf(g, path) ensures Loops(parent, at, fragment) { CycleLoops(parent, at, fragment, path); }
    if Apart(parent, at, fragment) { ApartIsAcyclic(parent, at, fragment); }
  }

  lemma ApartIsAcyclic(parent: Pipeline, at: string, fragment: Pipeline)
    requires Apart(parent, at, fragment)
    ensures AcyclicPipeline(Grafted(parent, at, fragment)) <==> AcyclicPipeline(parent) && AcyclicPipeline(fragment)
  {
    var g := Grafted(parent, at, fragment);
    if AcyclicPipeline(parent) && AcyclicPipeline(fragment) {
      forall path ensures !CycleOf(g, path) {
        if CycleOf(g, path) { CycleIsLocal(parent, at, fragment, path); }
      }
    }
    if AcyclicPipeline(g) {
      forall path ensures !CycleOf(parent, path) && !CycleOf(fragment, path) {
        CycleStays(parent, at, fragment, path);
      }
    }
  }

  lemma CycleStays(parent: Pipeline, at: string, fragment: Pipeline, path: seq<string>)
    ensures CycleOf(parent, path) || CycleOf(fragment, path) ==> CycleOf(Grafted(parent, at, fragment), path)
  {
    if CycleOf(parent, path) || CycleOf(fragment, path) {
      forall i | 0 <= i < |path| - 1 ensures Dep(Grafted(parent, at, fragment), path[i], path[i + 1]) {
        DepsStay(parent, at, fragment, path[i], path[i + 1]);
      }
    }
  }
}
