/** Which edges can carry data, and which steps read files the definition carries. */
module TypeCheck {
  import opened Prelude
  import opened Definition

  /** A fault, at the port it is about; the wording of its message is not modelled. */
  datatype Diagnostic = Diagnostic(stepId: string, portName: string)

  function FindPort(ports: seq<Port>, name: string): (r: Option<Port>)
    ensures r.Some? <==> HasPort(ports, name)
    ensures r.Some? ==> r.value in ports && r.value.name == name
  {
    if ports == [] then None
    else if ports[0].name == name then Some(ports[0])
    else
      var r := FindPort(ports[1..], name);
      assert HasPort(ports[1..], name) <==> HasPort(ports, name) by {
        if HasPort(ports, name) {
          var i :| 0 <= i < |ports| && ports[i].name == name;
          assert ports[1..][i - 1].name == name;
        }
      }
      r
  }

  /** Blobs are opaque, structured values agree by schema id, and an untyped port agrees with nothing. */
  predicate Compatible(from: PortType, to: PortType) {
    (from.Blob? && to.Blob?) || (from.Structured? && to.Structured? && from.schemaId == to.schemaId)
  }

  /** Both ends exist and their types agree. */
  predicate Carries(steps: map<string, Step>, e: Edge) {
    && e.fromStep in steps && e.toStep in steps
    && var output, input := FindPort(steps[e.fromStep].outputs, e.fromPort), FindPort(steps[e.toStep].inputs, e.toPort);
       output.Some? && input.Some? && Compatible(output.value.portType, input.value.portType)
  }

  function EdgeFault(steps: map<string, Step>, e: Edge): (r: seq<Diagnostic>)
    ensures r == [] <==> Carries(steps, e)
    ensures |r| <= 1
  {
    if e.fromStep !in steps then [Diagnostic(e.fromStep, e.fromPort)]
    else if e.toStep !in steps then [Diagnostic(e.toStep, e.toPort)]
    else
      var from, to := steps[e.fromStep], steps[e.toStep];
      var output, input := FindPort(from.outputs, e.fromPort), FindPort(to.inputs, e.toPort);
      if output.None? then [Diagnostic(from.id, e.fromPort)]
      else if input.None? then [Diagnostic(to.id, e.toPort)]
      else if !Compatible(output.value.portType, input.value.portType) then [Diagnostic(to.id, input.value.name)]
      else []
  }

  function FaultOn(steps: map<string, Step>): (r: Edge -> seq<Diagnostic>) {
    (e: Edge) => EdgeFault(steps, e)
  }

  function Carried(files: seq<File>): (r: set<string>) {
    set f | f in files :: f.path
  }

  predicate Bound(carried: set<string>, s: Step, f: FileInput) {
    f.path in carried && HasPort(s.inputs, f.port)
  }

  function BindingFault(carried: set<string>, s: Step): (r: FileInput -> seq<Diagnostic>) {
    (f: FileInput) => if Bound(carried, s, f) then [] else [Diagnostic(s.id, f.port)]
  }

  function BindingFaults(carried: set<string>): (r: Step -> seq<Diagnostic>) {
    (s: Step) => Collect(BindingFault(carried, s), s.fileInputs)
  }

  function Faults(p: Pipeline): (r: seq<Diagnostic>) {
    Collect(FaultOn(ById(p.steps)), p.edges) + Collect(BindingFaults(Carried(p.files)), p.steps)
  }

  /** Every edge carries data and every file input has its file and its port. */
  predicate WellTyped(p: Pipeline) {
    && (forall i :: 0 <= i < |p.edges| ==> Carries(ById(p.steps), p.edges[i]))
    && (forall i :: 0 <= i < |p.steps| ==> AllBound(Carried(p.files), p.steps[i]))
  }

  predicate AllBound(carried: set<string>, s: Step) {
    forall j :: 0 <= j < |s.fileInputs| ==> Bound(carried, s, s.fileInputs[j])
  }

  /** There is nothing to report exactly when the definition is well typed. */
  lemma NoFaults(p: Pipeline)
    ensures Faults(p) == [] <==> WellTyped(p)
  {
    var steps, carried := ById(p.steps), Carried(p.files);
    CollectNothing(FaultOn(steps), p.edges);
    CollectNothing(BindingFaults(carried), p.steps);
    forall i | 0 <= i < |p.edges| ensures FaultOn(steps)(p.edges[i]) == [] <==> Carries(steps, p.edges[i]) {}
    forall i | 0 <= i < |p.steps| ensures BindingFaults(carried)(p.steps[i]) == [] <==> AllBound(carried, p.steps[i]) {
      CollectNothing(BindingFault(carried, p.steps[i]), p.steps[i].fileInputs);
    }
  }

  method CheckStepFiles(carried: set<string>, s: Step) returns (diags: seq<Diagnostic>)
    ensures diags == Collect(BindingFault(carried, s), s.fileInputs)
  {
    diags := [];
    var j := 0;
    while j < |s.fileInputs|
      invariant 0 <= j <= |s.fileInputs| && diags == Collect(BindingFault(carried, s), s.fileInputs[..j])
    {
      CollectOneMore(BindingFault(carried, s), s.fileInputs, j);
      if !Bound(carried, s, s.fileInputs[j]) { diags := diags + [Diagnostic(s.id, s.fileInputs[j].port)]; }
      j := j + 1;
    }
    assert s.fileInputs[..j] == s.fileInputs;
  }

  method CheckFileBindings(p: Pipeline) returns (diags: seq<Diagnostic>)
    ensures diags == Collect(BindingFaults(Carried(p.files)), p.steps)
  {
    var carried := Carried(p.files);
    diags := [];
    var i := 0;
    while i < |p.steps|
      invariant 0 <= i <= |p.steps| && diags == Collect(BindingFaults(carried), p.steps[..i])
    {
      CollectOneMore(BindingFaults(carried), p.steps, i);
      var more := CheckStepFiles(carried, p.steps[i]);
      diags := diags + more;
      i := i + 1;
    }
    assert p.steps[..i] == p.steps;
  }

  /** Every fault, in the order of the edges and then of the steps. */
  method Check(p: Pipeline) returns (diags: seq<Diagnostic>)
    ensures diags == Faults(p)
    ensures diags == [] <==> WellTyped(p)
  {
    NoFaults(p);
    var steps := ById(p.steps);
    diags := [];
    var k := 0;
    while k < |p.edges|
      invariant 0 <= k <= |p.edges| && diags == Collect(FaultOn(steps), p.edges[..k])
    {
      CollectOneMore(FaultOn(steps), p.edges, k);
      diags := diags + EdgeFault(steps, p.edges[k]);
      k := k + 1;
    }
    assert p.edges[..k] == p.edges;
    var bindings := CheckFileBindings(p);
    diags := diags + bindings;
  }

  // ---- what a fault is --------------------------------------------------------------------------

  /**
   An untyped port agrees with nothing, not even another; all blobs agree, whatever
   their media type; structured values agree exactly by schema id, whatever their
   schema; and the two kinds never agree.
   */
  lemma CompatibleMeans(a: PortType, x: string, y: string, m: string, n: string)
    ensures !Compatible(Untyped, a) && !Compatible(a, Untyped)
    ensures Compatible(Blob(m), Blob(n))
    ensures Compatible(Structured(x, m), Structured(y, n)) <==> x == y
    ensures !Compatible(Blob(m), Structured(x, n)) && !Compatible(Structured(x, n), Blob(m))
  {
  }

  /** The step an edge means by an id: the last that has it. */
  predicate IsLast(p: Pipeline, id: string, k: nat) {
    k < |p.steps| && p.steps[k].id == id && forall j :: k < j < |p.steps| ==> p.steps[j].id != id
  }

  /** The port meant by a name: the first that has it. */
  predicate IsFirst(ports: seq<Port>, name: string, k: nat) {
    k < |ports| && ports[k].name == name && forall j :: 0 <= j < k ==> ports[j].name != name
  }

  lemma {:induction false} ByIdIsLast(steps: seq<Step>, p: Pipeline, id: string)
    requires steps == p.steps
    ensures id in ById(steps) <==> exists k: nat :: IsLast(p, id, k)
    ensures forall k: nat :: IsLast(p, id, k) ==> id in ById(steps) && ById(steps)[id] == steps[k]
  {
    if steps != [] {
      var n := |steps| - 1;
      var q := p.(steps := steps[..n]);
      ByIdIsLast(steps[..n], q, id);
      if steps[n].id == id {
        assert IsLast(p, id, n);
      } else {
        forall k: nat ensures IsLast(p, id, k) <==> IsLast(q, id, k) {}
      }
    }
  }

  lemma {:induction false} FindPortIsFirst(ports: seq<Port>, name: string)
    ensures FindPort(ports, name).Some? <==> exists k: nat :: IsFirst(ports, name, k)
    ensures forall k: nat :: IsFirst(ports, name, k) ==> FindPort(ports, name) == Some(ports[k])
  {
    if ports != [] {
      if ports[0].name == name {
        assert IsFirst(ports, name, 0);
      } else {
        FindPortIsFirst(ports[1..], name);
        forall k: nat | IsFirst(ports, name, k)
          ensures IsFirst(ports[1..], name, k - 1) && ports[1..][k - 1] == ports[k]
        {
        }
        if k: nat :| IsFirst(ports[1..], name, k) { assert IsFirst(ports, name, k + 1); }
      }
    }
  }

  ghost predicate Sends(p: Pipeline, e: Edge, t: PortType) {
    exists k: nat, i: nat ::
      IsLast(p, e.fromStep, k) && IsFirst(p.steps[k].outputs, e.fromPort, i) && p.steps[k].outputs[i].portType == t
  }

  ghost predicate Receives(p: Pipeline, e: Edge, t: PortType) {
    exists k: nat, i: nat ::
      IsLast(p, e.toStep, k) && IsFirst(p.steps[k].inputs, e.toPort, i) && p.steps[k].inputs[i].portType == t
  }

  ghost predicate Defined(p: Pipeline, id: string) {
    exists k: nat :: IsLast(p, id, k)
  }

  /** Where an edge's fault is reported: at the source end when that is what is missing, else at the target. */
  ghost predicate EdgeFaultAt(p: Pipeline, e: Edge, d: Diagnostic) {
    if !Defined(p, e.fromStep) then d == Diagnostic(e.fromStep, e.fromPort)
    else if !Defined(p, e.toStep) then d == Diagnostic(e.toStep, e.toPort)
    else if !(exists t :: Sends(p, e, t)) then d == Diagnostic(e.fromStep, e.fromPort)
    else
      && d == Diagnostic(e.toStep, e.toPort)
      && forall t, u :: Sends(p, e, t) && Receives(p, e, u) ==> !Compatible(t, u)
  }

  ghost predicate BindingFaultAt(p: Pipeline, s: Step, f: FileInput, d: Diagnostic) {
    && d == Diagnostic(s.id, f.port)
    && ((forall x :: x in p.files ==> x.path != f.path) || (forall x :: x in s.inputs ==> x.name != f.port))
  }

  lemma SendsMeans(p: Pipeline, e: Edge, t: PortType)
    ensures Sends(p, e, t) <==>
            && e.fromStep in ById(p.steps)
            && var port := FindPort(ById(p.steps)[e.fromStep].outputs, e.fromPort);
               port.Some? && port.value.portType == t
  {
    ByIdIsLast(p.steps, p, e.fromStep);
    if k: nat :| IsLast(p, e.fromStep, k) {
      FindPortIsFirst(p.steps[k].outputs, e.fromPort);
      if i: nat :| IsFirst(p.steps[k].outputs, e.fromPort, i) {
        assert p.steps[k].outputs[i].portType == t ==> Sends(p, e, t);
      }
    }
  }

  lemma ReceivesMeans(p: Pipeline, e: Edge, t: PortType)
    ensures Receives(p, e, t) <==>
            && e.toStep in ById(p.steps)
            && var port := FindPort(ById(p.steps)[e.toStep].inputs, e.toPort); port.Some? && port.value.portType == t
  {
    ByIdIsLast(p.steps, p, e.toStep);
    if k: nat :| IsLast(p, e.toStep, k) {
      FindPortIsFirst(p.steps[k].inputs, e.toPort);
      if i: nat :| IsFirst(p.steps[k].inputs, e.toPort, i) {
        assert p.steps[k].inputs[i].portType == t ==> Receives(p, e, t);
      }
    }
  }

  lemma EdgeFaultMeans(p: Pipeline, e: Edge, d: Diagnostic)
    ensures d in EdgeFault(ById(p.steps), e) <==> EdgeFaultAt(p, e, d)
  {
    ByIdIsLast(p.steps, p, e.fromStep);
    ByIdIsLast(p.steps, p, e.toStep);
    forall t ensures Sends(p, e, t) <==> && e.fromStep in ById(p.steps)
                                         && var port := FindPort(ById(p.steps)[e.fromStep].outputs, e.fromPort);
                                            port.Some? && port.value.portType == t
    {
      SendsMeans(p, e, t);
    }
    forall t ensures Receives(p, e, t) <==> && e.toStep in ById(p.steps)
                                            && var port := FindPort(ById(p.steps)[e.toStep].inputs, e.toPort);
                                               port.Some? && port.value.portType == t
    {
      ReceivesMeans(p, e, t);
    }
    if Defined(p, e.fromStep) && Defined(p, e.toStep) {
      var from, to := ById(p.steps)[e.fromStep], ById(p.steps)[e.toStep];
      assert from.id == e.fromStep && to.id == e.toStep;
      var output, input := FindPort(from.outputs, e.fromPort), FindPort(to.inputs, e.toPort);
      assert output.Some? ==> Sends(p, e, output.value.portType);
      assert input.Some? ==> Receives(p, e, input.value.portType);
    }
  }

  lemma BindingFaultMeans(p: Pipeline, s: Step, f: FileInput, d: Diagnostic)
    ensures d in BindingFault(Carried(p.files), s)(f) <==> BindingFaultAt(p, s, f, d)
  {
    assert HasPort(s.inputs, f.port) <==> exists x :: x in s.inputs && x.name == f.port by {
      if HasPort(s.inputs, f.port) {
        var i :| 0 <= i < |s.inputs| && s.inputs[i].name == f.port;
        assert s.inputs[i] in s.inputs;
      }
    }
  }

  /** Exactly the faults there are: of an edge, or of a file some step reads. */
  lemma FaultsAre(p: Pipeline, d: Diagnostic)
    ensures d in Faults(p) <==>
            || (exists e :: e in p.edges && EdgeFaultAt(p, e, d))
            || (exists s, f :: s in p.steps && f in s.fileInputs && BindingFaultAt(p, s, f, d))
  {
    var steps, carried := ById(p.steps), Carried(p.files);
    CollectMember(FaultOn(steps), p.edges, d);
    CollectMember(BindingFaults(carried), p.steps, d);
    forall e ensures d in FaultOn(steps)(e) <==> EdgeFaultAt(p, e, d) { EdgeFaultMeans(p, e, d); }
    forall s ensures d in BindingFaults(carried)(s) <==> exists f :: f in s.fileInputs && BindingFaultAt(p, s, f, d) {
      CollectMember(BindingFault(carried, s), s.fileInputs, d);
      forall f ensures d in BindingFault(carried, s)(f) <==> BindingFaultAt(p, s, f, d) {
        BindingFaultMeans(p, s, f, d);
      }
    }
    assert (exists i :: 0 <= i < |p.edges| && d in FaultOn(steps)(p.edges[i])) <==>
           exists e :: e in p.edges && EdgeFaultAt(p, e, d);
    assert (exists i :: 0 <= i < |p.steps| && d in BindingFaults(carried)(p.steps[i])) <==>
           exists s :: s in p.steps && d in BindingFaults(carried)(s);
  }
}
