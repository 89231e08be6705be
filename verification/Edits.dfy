/**
 The edit algebra: ten kinds of operation on a definition, each returning the
 definition it leaves and its inverse. Apply works on a copy, so the in-place edits of
 that copy are functions here.
 */
module Edits {
  import opened Prelude
  import opened Definition
  import opened Scalars

  datatype Operation =
    | AddStep(step: Step)
    | RemoveStep(stepId: string)
    | Connect(edge: Option<Edge>)
    | RemoveEdge(edge: Option<Edge>)
    | SetProperty(stepId: string, property: string, value: string)
    | SetStepConfig(stepId: string, key: string, text: string, remove: bool)
    | SetStepSecret(stepId: string, env: string, secret: string, remove: bool, index: Option<nat>)
    | SetStepCapability(stepId: string, capability: int, remove: bool, index: Option<nat>)
    | SetFile(path: string, file: Option<File>)
    | Rename(stepId: string, name: string)

  datatype Refusal =
    | StepIdRequired | StepExists | NoStep | StillConnected
    | EdgeRequired | NoPort | EdgeExists | NoEdge
    | BadValue | UnknownProperty
    | KeyRequired | NoConfig
    | NotEnvName | Ambiguous | NoSecret | IndexOnRebind | IndexPastEnd
    | NotACapability | NoCapability | CapabilityDeclared
    | PathRequired | NoFile | StillRead

  datatype Edit = Edit(pipeline: Pipeline, inverse: Operation)
  type Outcome = Result<Edit, Refusal>

  // ---- lists ----------------------------------------------------------------

  function Delete<T>(s: seq<T>, at: nat): (r: seq<T>)
    requires at < |s|
  {
    s[..at] + s[at + 1..]
  }

  function InsertAt<T>(s: seq<T>, at: nat, x: T): (r: seq<T>)
    requires at <= |s|
  {
    s[..at] + [x] + s[at..]
  }

  /** slices.DeleteFunc by id: every step with this id goes. */
  function WithoutStep(steps: seq<Step>, id: string): (r: seq<Step>) {
    if steps == [] then []
    else if steps[0].id == id then WithoutStep(steps[1..], id)
    else [steps[0]] + WithoutStep(steps[1..], id)
  }

  function WithoutEdge(edges: seq<Edge>, e: Edge): (r: seq<Edge>) {
    if edges == [] then []
    else if edges[0] == e then WithoutEdge(edges[1..], e)
    else [edges[0]] + WithoutEdge(edges[1..], e)
  }

  /** The first element satisfying a test, and how many do. */
  function FirstAt<T>(s: seq<T>, test: T -> bool): (r: int)
    ensures -1 <= r < |s|
    ensures r >= 0 ==> test(s[r])
    ensures forall i :: 0 <= i < (if r < 0 then |s| else r) ==> !test(s[i])
  {
    if s == [] then -1
    else if test(s[0]) then 0
    else var r := FirstAt(s[1..], test); if r < 0 then -1 else r + 1
  }

  function CountOf<T>(s: seq<T>, test: T -> bool): (r: nat) {
    if s == [] then 0 else (if test(s[0]) then 1 else 0) + CountOf(s[1..], test)
  }

  lemma {:induction false} NoMatch<T>(s: seq<T>, test: T -> bool)
    ensures CountOf(s, test) == 0 <==> FirstAt(s, test) < 0
  {
    if s != [] { NoMatch(s[1..], test); }
  }

  /** The scan of a step's list: the first match and the number of matches. */
  method Scan<T>(s: seq<T>, test: T -> bool) returns (at: int, count: nat)
    ensures at == FirstAt(s, test) && count == CountOf(s, test)
  {
    at, count := -1, 0;
    var n := 0;
    while n < |s|
      invariant 0 <= n <= |s|
      invariant at == (if FirstAt(s[..n], test) < 0 then -1 else FirstAt(s[..n], test))
      invariant count == CountOf(s[..n], test)
    {
      ScanOne(s, test, n);
      if test(s[n]) {
        if at < 0 { at := n; }
        count := count + 1;
      }
      n := n + 1;
    }
    assert s[..n] == s;
  }

  lemma {:induction false} ScanOne<T>(s: seq<T>, test: T -> bool, n: nat)
    requires n < |s|
    ensures CountOf(s[..n + 1], test) == CountOf(s[..n], test) + (if test(s[n]) then 1 else 0)
    ensures FirstAt(s[..n + 1], test) ==
            if FirstAt(s[..n], test) >= 0 then FirstAt(s[..n], test) else if test(s[n]) then n else -1
  {
    if n > 0 {
      ScanOne(s[1..], test, n - 1);
      assert s[..n + 1][1..] == s[1..][..n] && s[..n][1..] == s[1..][..n - 1];
    } else {
      assert s[..1][1..] == [] && s[..0] == [];
    }
  }

  function BoundTo(env: string): (r: StepSecret -> bool) {
    (x: StepSecret) => x.env == env
  }

  function EqualTo(capability: int): (r: int -> bool) {
    (c: int) => c == capability
  }

  // ---- the operations ---------------------------------------------------------

  function PutStep(p: Pipeline, i: nat, s: Step): (r: Pipeline)
    requires i < |p.steps|
  {
    p.(steps := p.steps[i := s])
  }

  function ApplyAddStep(p: Pipeline, step: Step): (r: Outcome) {
    if step.id == "" then Err(StepIdRequired)
    else if StepIndex(p.steps, step.id) >= 0 then Err(StepExists)
    else Ok(Edit(p.(steps := p.steps + [step]), RemoveStep(step.id)))
  }

  function ApplyRemoveStep(p: Pipeline, id: string): (r: Outcome) {
    var i := StepIndex(p.steps, id);
    if i < 0 then Err(NoStep)
    else if Connected(p, id) then Err(StillConnected)
    else Ok(Edit(p.(steps := WithoutStep(p.steps, id)), AddStep(p.steps[i])))
  }

  /** Both ends of an edge name a step and one of its ports. */
  function CheckEndpoints(p: Pipeline, e: Edge): (r: Option<Refusal>) {
    var i, j := StepIndex(p.steps, e.fromStep), StepIndex(p.steps, e.toStep);
    if i < 0 then Some(NoStep)
    else if !HasPort(p.steps[i].outputs, e.fromPort) then Some(NoPort)
    else if j < 0 then Some(NoStep)
    else if !HasPort(p.steps[j].inputs, e.toPort) then Some(NoPort)
    else None
  }

  function ApplyConnect(p: Pipeline, edge: Option<Edge>): (r: Outcome) {
    if edge.None? then Err(EdgeRequired)
    else if CheckEndpoints(p, edge.value).Some? then Err(CheckEndpoints(p, edge.value).value)
    else if edge.value in p.edges then Err(EdgeExists)
    else Ok(Edit(p.(edges := p.edges + [edge.value]), RemoveEdge(edge)))
  }

  function ApplyRemoveEdge(p: Pipeline, edge: Option<Edge>): (r: Outcome) {
    if edge.None? then Err(EdgeRequired)
    else if edge.value !in p.edges then Err(NoEdge)
    else Ok(Edit(p.(edges := WithoutEdge(p.edges, edge.value)), Connect(edge)))
  }

  /** One scalar property of a step: the step with the new value, and the text of the old one. */
  function WithProperty(s: Step, property: string, value: string): (r: Result<(Step, string), Refusal>) {
    if property == "plugin_ref" then Ok((s.(pluginRef := value), s.pluginRef))
    else if property == "effect_class" then
      (match ValueOf(EFFECT_CLASSES, value)
       case None => Err(BadValue)
       case Some(n) => Ok((s.(effectClass := n), NameOf(EFFECT_CLASSES, s.effectClass))))
    else if property == "lease_scope" then
      (match ValueOf(LEASE_SCOPES, value)
       case None => Err(BadValue)
       case Some(n) => Ok((s.(leaseScope := n), NameOf(LEASE_SCOPES, s.leaseScope))))
    else if property == "image" then Ok((s.(image := value), s.image))
    else if property == "engine_type" then Ok((s.(engineType := value), s.engineType))
    else if property == "timeout_seconds" then
      (match ParseUint32(value)
       case None => Err(BadValue)
       case Some(n) => Ok((s.(timeoutSeconds := n), FormatUint(s.timeoutSeconds))))
    else Err(UnknownProperty)
  }

  /** What an edit of one step's own fields leaves, and its inverse. */
  datatype StepEdit = StepEdit(step: Step, inverse: Operation)
  type StepOutcome = Result<StepEdit, Refusal>

  function EditProperty(s: Step, id: string, property: string, value: string): (r: StepOutcome) {
    match WithProperty(s, property, value)
    case Err(e) => Err(e)
    case Ok((s', before)) => Ok(StepEdit(s', SetProperty(id, property, before)))
  }

  function EditConfig(s: Step, id: string, key: string, text: string, remove: bool): (r: StepOutcome) {
    if key == "" then Err(KeyRequired)
    else
      var had := key in s.config;
      var inverse := SetStepConfig(id, key, if had then s.config[key] else "", !had);
      if remove then
        if !had then Err(NoConfig) else Ok(StepEdit(s.(config := s.config - {key}), inverse))
      else Ok(StepEdit(s.(config := s.config[key := text]), inverse))
  }

  function EditSecret(
    s: Step, id: string, env: string, secret: string, remove: bool, index: Option<nat>): (r: StepOutcome)
  {
    if !IsEnvName(env) then Err(NotEnvName)
    else
      var at := FirstAt(s.secrets, BoundTo(env));
      if CountOf(s.secrets, BoundTo(env)) > 1 then Err(Ambiguous)
      else if remove then
        if at < 0 then Err(NoSecret)
        else Ok(StepEdit(s.(secrets := Delete(s.secrets, at)),
                         SetStepSecret(id, env, s.secrets[at].name, false, Some(at))))
      else if at >= 0 then
        if index.Some? then Err(IndexOnRebind)
        else Ok(StepEdit(s.(secrets := s.secrets[at := StepSecret(secret, env)]),
                         SetStepSecret(id, env, s.secrets[at].name, false, None)))
      else if index.Some? && index.value > |s.secrets| then Err(IndexPastEnd)
      else
        var position := if index.Some? then index.value else |s.secrets|;
        Ok(StepEdit(s.(secrets := InsertAt(s.secrets, position, StepSecret(secret, env))),
                    SetStepSecret(id, env, "", true, None)))
  }

  function EditCapability(s: Step, id: string, capability: int, remove: bool, index: Option<nat>): (r: StepOutcome) {
    if !Declared(CAPABILITIES, capability) || capability == 0 then Err(NotACapability)
    else
      var at := FirstAt(s.capabilities, EqualTo(capability));
      if CountOf(s.capabilities, EqualTo(capability)) > 1 then Err(Ambiguous)
      else if remove then
        if at < 0 then Err(NoCapability)
        else Ok(StepEdit(s.(capabilities := Delete(s.capabilities, at)),
                         SetStepCapability(id, capability, false, Some(at))))
      else if at >= 0 then Err(CapabilityDeclared)
      else if index.Some? && index.value > |s.capabilities| then Err(IndexPastEnd)
      else
        var position := if index.Some? then index.value else |s.capabilities|;
        Ok(StepEdit(s.(capabilities := InsertAt(s.capabilities, position, capability)),
                    SetStepCapability(id, capability, true, None)))
  }

  /** The five kinds that edit the fields of one step they name. */
  predicate OnStep(op: Operation) {
    op.SetProperty? || op.SetStepConfig? || op.SetStepSecret? || op.SetStepCapability? || op.Rename?
  }

  function EditStep(s: Step, op: Operation): (r: StepOutcome)
    requires OnStep(op)
  {
    match op
    case SetProperty(id, property, value) => EditProperty(s, id, property, value)
    case SetStepConfig(id, key, text, remove) => EditConfig(s, id, key, text, remove)
    case SetStepSecret(id, env, secret, remove, index) => EditSecret(s, id, env, secret, remove, index)
    case SetStepCapability(id, capability, remove, index) => EditCapability(s, id, capability, remove, index)
    case Rename(id, name) => Ok(StepEdit(s.(name := name), Rename(id, s.name)))
  }

  function ApplyOnStep(p: Pipeline, op: Operation): (r: Outcome)
    requires OnStep(op)
  {
    var i := StepIndex(p.steps, op.stepId);
    if i < 0 then Err(NoStep)
    else
      match EditStep(p.steps[i], op)
      case Err(e) => Err(e)
      case Ok(edit) => Ok(Edit(PutStep(p, i, edit.step), edit.inverse))
  }

  function ApplySetFile(p: Pipeline, path: string, file: Option<File>): (r: Outcome) {
    if path == "" then Err(PathRequired)
    else
      var i := FileIndex(p.files, path);
      var inverse := SetFile(path, if i >= 0 then Some(p.files[i]) else None);
      match file
      case None =>
        if i < 0 then Err(NoFile)
        else if Binds(p, path) then Err(StillRead)
        else Ok(Edit(p.(files := Delete(p.files, i)), inverse))
      case Some(f) =>
        // A file is stored under the path the operation names.
        var attached := f.(path := path);
        Ok(Edit(p.(files := if i >= 0 then p.files[i := attached] else p.files + [attached]), inverse))
  }

  function Apply(p: Pipeline, op: Operation): (r: Outcome) {
    match op
    case AddStep(step) => ApplyAddStep(p, step)
    case RemoveStep(id) => ApplyRemoveStep(p, id)
    case Connect(edge) => ApplyConnect(p, edge)
    case RemoveEdge(edge) => ApplyRemoveEdge(p, edge)
    case SetFile(path, file) => ApplySetFile(p, path, file)
    case SetProperty(_, _, _) => ApplyOnStep(p, op)
    case SetStepConfig(_, _, _, _) => ApplyOnStep(p, op)
    case SetStepSecret(_, _, _, _, _) => ApplyOnStep(p, op)
    case SetStepCapability(_, _, _, _) => ApplyOnStep(p, op)
    case Rename(_, _) => ApplyOnStep(p, op)
  }
}
