/**
 The edits as the code makes them: on a copy of the definition, field by field and
 list by list, each proved to leave what its operation says and nothing else.
 */
module Draft {
  import opened Prelude
  import opened Definition
  import opened Scalars
  import opened Edits

  /** An accepted edit leaves the operation's definition and returns its inverse; a refused one changes nothing. */
  ghost predicate Did(before: Pipeline, after: Pipeline, r: Result<Operation, Refusal>, outcome: Outcome) {
    match outcome
    case Ok(edit) => after == edit.pipeline && r == Ok(edit.inverse)
    case Err(why) => after == before && r == Err(why)
  }

  method FindStepAt(steps: seq<Step>, id: string) returns (at: int)
    ensures at == StepIndex(steps, id)
  {
    var i := 0;
    while i < |steps|
      invariant 0 <= i <= |steps| && forall k :: 0 <= k < i ==> steps[k].id != id
    {
      if steps[i].id == id { return i; }
      i := i + 1;
    }
    at := -1;
  }

  method FindFileAt(files: seq<File>, path: string) returns (at: int)
    ensures at == FileIndex(files, path)
  {
    var i := 0;
    while i < |files|
      invariant 0 <= i <= |files| && forall k :: 0 <= k < i ==> files[k].path != path
    {
      if files[i].path == path { return i; }
      i := i + 1;
    }
    at := -1;
  }

  method FindPort(ports: seq<Port>, name: string) returns (found: bool)
    ensures found <==> HasPort(ports, name)
  {
    var i := 0;
    while i < |ports|
      invariant 0 <= i <= |ports| && forall k :: 0 <= k < i ==> ports[k].name != name
    {
      if ports[i].name == name { return true; }
      i := i + 1;
    }
    found := false;
  }

  method IsConnected(p: Pipeline, id: string) returns (found: bool)
    ensures found <==> Connected(p, id)
  {
    var i := 0;
    while i < |p.edges|
      invariant 0 <= i <= |p.edges| && forall k :: 0 <= k < i ==> p.edges[k].fromStep != id && p.edges[k].toStep != id
    {
      if p.edges[i].fromStep == id || p.edges[i].toStep == id { return true; }
      i := i + 1;
    }
    found := false;
  }

  predicate ReadsFile(s: Step, path: string) {
    exists j :: 0 <= j < |s.fileInputs| && s.fileInputs[j].path == path
  }

  method Reads(s: Step, path: string) returns (found: bool)
    ensures found <==> ReadsFile(s, path)
  {
    var j := 0;
    while j < |s.fileInputs|
      invariant 0 <= j <= |s.fileInputs| && forall k :: 0 <= k < j ==> s.fileInputs[k].path != path
    {
      if s.fileInputs[j].path == path { return true; }
      j := j + 1;
    }
    found := false;
  }

  method IsRead(p: Pipeline, path: string) returns (found: bool)
    ensures found <==> Binds(p, path)
  {
    var i := 0;
    while i < |p.steps|
      invariant 0 <= i <= |p.steps| && forall k :: 0 <= k < i ==> !ReadsFile(p.steps[k], path)
    {
      found := Reads(p.steps[i], path);
      if found { return; }
      i := i + 1;
    }
    found := false;
  }

  /** slices.DeleteFunc keeps what does not match, in order. */
  method DeleteSteps(steps: seq<Step>, id: string) returns (r: seq<Step>)
    ensures r == WithoutStep(steps, id)
  {
    r := [];
    var i := 0;
    while i < |steps|
      invariant 0 <= i <= |steps| && r + WithoutStep(steps[i..], id) == WithoutStep(steps, id)
    {
      assert steps[i..][0] == steps[i] && steps[i..][1..] == steps[i + 1..];
      if steps[i].id != id { r := r + [steps[i]]; }
      i := i + 1;
    }
  }

  method DeleteEdges(edges: seq<Edge>, e: Edge) returns (r: seq<Edge>)
    ensures r == WithoutEdge(edges, e)
  {
    r := [];
    var i := 0;
    while i < |edges|
      invariant 0 <= i <= |edges| && r + WithoutEdge(edges[i..], e) == WithoutEdge(edges, e)
    {
      assert edges[i..][0] == edges[i] && edges[i..][1..] == edges[i + 1..];
      if edges[i] != e { r := r + [edges[i]]; }
      i := i + 1;
    }
  }

  /** The copy an operation edits. */
  class Draft {
    var next: Pipeline

    constructor (p: Pipeline)
      ensures next == p
    {
      next := p;
    }

    method AddStep(step: Step) returns (r: Result<Operation, Refusal>)
      modifies this
      ensures Did(old(next), next, r, ApplyAddStep(old(next), step))
    {
      if step.id == "" { return Err(StepIdRequired); }
      var at := FindStepAt(next.steps, step.id);
      if at >= 0 { return Err(StepExists); }
      next := next.(steps := next.steps + [step]);
      r := Ok(Operation.RemoveStep(step.id));
    }

    method RemoveStep(id: string) returns (r: Result<Operation, Refusal>)
      modifies this
      ensures Did(old(next), next, r, ApplyRemoveStep(old(next), id))
    {
      var at := FindStepAt(next.steps, id);
      if at < 0 { return Err(NoStep); }
      var connected := IsConnected(next, id);
      if connected { return Err(StillConnected); }
      var removed := next.steps[at];
      var steps := DeleteSteps(next.steps, id);
      next := next.(steps := steps);
      r := Ok(Operation.AddStep(removed));
    }

    method CheckEdge(e: Edge) returns (refused: Option<Refusal>)
      ensures refused == CheckEndpoints(next, e)
    {
      var i := FindStepAt(next.steps, e.fromStep);
      if i < 0 { return Some(NoStep); }
      var out := FindPort(next.steps[i].outputs, e.fromPort);
      if !out { return Some(NoPort); }
      var j := FindStepAt(next.steps, e.toStep);
      if j < 0 { return Some(NoStep); }
      var inn := FindPort(next.steps[j].inputs, e.toPort);
      if !inn { return Some(NoPort); }
      refused := None;
    }

    method Connect(edge: Option<Edge>) returns (r: Result<Operation, Refusal>)
      modifies this
      ensures Did(old(next), next, r, ApplyConnect(old(next), edge))
    {
      if edge.None? { return Err(EdgeRequired); }
      var refused := CheckEdge(edge.value);
      if refused.Some? { return Err(refused.value); }
      if edge.value in next.edges { return Err(EdgeExists); }
      next := next.(edges := next.edges + [edge.value]);
      r := Ok(Operation.RemoveEdge(edge));
    }

    method RemoveEdge(edge: Option<Edge>) returns (r: Result<Operation, Refusal>)
      modifies this
      ensures Did(old(next), next, r, ApplyRemoveEdge(old(next), edge))
    {
      if edge.None? { return Err(EdgeRequired); }
      if edge.value !in next.edges { return Err(NoEdge); }
      var edges := DeleteEdges(next.edges, edge.value);
      next := next.(edges := edges);
      r := Ok(Operation.Connect(edge));
    }

    /** A secret's binding: the scan, then a removal, a rebinding in place, or an insertion. */
    method EditSecret(s: Step, id: string, env: string, secret: string, remove: bool, index: Option<nat>)
      returns (r: StepOutcome)
      ensures r == Edits.EditSecret(s, id, env, secret, remove, index)
    {
      if !IsEnvName(env) { return Err(NotEnvName); }
      var at, count := Scan(s.secrets, BoundTo(env));
      if count > 1 { return Err(Ambiguous); }
      if remove {
        if at < 0 { return Err(NoSecret); }
        return Ok(StepEdit(s.(secrets := Delete(s.secrets, at)),
                           SetStepSecret(id, env, s.secrets[at].name, false, Some(at))));
      }
      if at >= 0 {
        if index.Some? { return Err(IndexOnRebind); }
        return Ok(StepEdit(s.(secrets := s.secrets[at := StepSecret(secret, env)]),
                           SetStepSecret(id, env, s.secrets[at].name, false, None)));
      }
      var position := |s.secrets|;
      if index.Some? {
        if index.value > position { return Err(IndexPastEnd); }
        position := index.value;
      }
      r := Ok(StepEdit(s.(secrets := InsertAt(s.secrets, position, StepSecret(secret, env))),
                       SetStepSecret(id, env, "", true, None)));
    }

    method EditCapability(s: Step, id: string, capability: int, remove: bool, index: Option<nat>)
      returns (r: StepOutcome)
      ensures r == Edits.EditCapability(s, id, capability, remove, index)
    {
      if !Declared(CAPABILITIES, capability) || capability == 0 { return Err(NotACapability); }
      var at, count := Scan(s.capabilities, EqualTo(capability));
      if count > 1 { return Err(Ambiguous); }
      if remove {
        if at < 0 { return Err(NoCapability); }
        return Ok(StepEdit(s.(capabilities := Delete(s.capabilities, at)),
                           SetStepCapability(id, capability, false, Some(at))));
      }
      if at >= 0 { return Err(CapabilityDeclared); }
      var position := |s.capabilities|;
      if index.Some? {
        if index.value > position { return Err(IndexPastEnd); }
        position := index.value;
      }
      r := Ok(StepEdit(s.(capabilities := InsertAt(s.capabilities, position, capability)),
                       SetStepCapability(id, capability, true, None)));
    }

    /** The kinds that edit one step: found, edited, put back in its place. */
    method EditOneStep(op: Operation) returns (r: Result<Operation, Refusal>)
      requires OnStep(op)
      modifies this
      ensures Did(old(next), next, r, ApplyOnStep(old(next), op))
    {
      var at := FindStepAt(next.steps, op.stepId);
      if at < 0 { return Err(NoStep); }
      var s := next.steps[at];
      var edit: StepOutcome;
      if op.SetStepSecret? {
        edit := EditSecret(s, op.stepId, op.env, op.secret, op.remove, op.index);
      } else if op.SetStepCapability? {
        edit := EditCapability(s, op.stepId, op.capability, op.remove, op.index);
      } else {
        edit := EditStep(s, op);
      }
      if edit.Err? { return Err(edit.error); }
      next := next.(steps := next.steps[at := edit.value.step]);
      r := Ok(edit.value.inverse);
    }

    method SetFile(path: string, file: Option<File>) returns (r: Result<Operation, Refusal>)
      modifies this
      ensures Did(old(next), next, r, ApplySetFile(old(next), path, file))
    {
      if path == "" { return Err(PathRequired); }
      var at := FindFileAt(next.files, path);
      var inverse := Operation.SetFile(path, if at >= 0 then Some(next.files[at]) else None);
      if file.None? {
        if at < 0 { return Err(NoFile); }
        var read := IsRead(next, path);
        if read { return Err(StillRead); }
        next := next.(files := Delete(next.files, at));
      } else {
        var attached := file.value.(path := path);
        if at >= 0 {
          next := next.(files := next.files[at := attached]);
        } else {
          next := next.(files := next.files + [attached]);
        }
      }
      r := Ok(inverse);
    }

    method Apply(op: Operation) returns (r: Result<Operation, Refusal>)
      modifies this
      ensures Did(old(next), next, r, Edits.Apply(old(next), op))
    {
      match op {
        case AddStep(step) => r := AddStep(step);
        case RemoveStep(id) => r := RemoveStep(id);
        case Connect(edge) => r := Connect(edge);
        case RemoveEdge(edge) => r := RemoveEdge(edge);
        case SetFile(path, file) => r := SetFile(path, file);
        case _ => r := EditOneStep(op);
      }
    }
  }
}
