/**
 When the inverse of an edit restores the definition it came from. Apply promises
 that every inverse is exact; it is, exactly on the condition stated here.
 */
module Undo {
  import opened Prelude
  import opened Definition
  import opened Scalars
  import opened Edits

  function EdgeIndex(edges: seq<Edge>, e: Edge): (r: int)
    ensures -1 <= r < |edges|
    ensures r >= 0 ==> edges[r] == e
    ensures forall i :: 0 <= i < (if r < 0 then |edges| else r) ==> edges[i] != e
  {
    if edges == [] then -1
    else if edges[0] == e then 0
    else var r := EdgeIndex(edges[1..], e); if r < 0 then -1 else r + 1
  }

  /**
   The caller's check, before the edit. Only three kinds can move an element: a
   removal of a step, an edge or a file undoes by appending. The rest fails only on
   definitions no build would accept: an edge to a step that is not there yet, a
   bound file that is not carried, an enum value nobody declares.
   */
  predicate ExactlyUndoable(p: Pipeline, op: Operation) {
    match op
    case AddStep(step) => !Connected(p, step.id)
    case RemoveStep(id) => id != "" && StepIndex(p.steps, id) == |p.steps| - 1
    case Connect(_) => true
    case RemoveEdge(edge) =>
      edge.Some? && CheckEndpoints(p, edge.value).None? && EdgeIndex(p.edges, edge.value) == |p.edges| - 1
    case SetProperty(id, _, _) =>
      var i := StepIndex(p.steps, id); i >= 0 && DeclaredFor(p.steps[i], op)
    case SetStepConfig(_, _, _, _) => true
    case SetStepSecret(_, _, _, _, _) => true
    case SetStepCapability(_, _, _, _) => true
    case SetFile(path, file) =>
      if file.None? then FileIndex(p.files, path) == |p.files| - 1
      else FileIndex(p.files, path) >= 0 || !Binds(p, path)
    case Rename(_, _) => true
  }

  /** The returned inverse is accepted and gives back the very same definition. */
  predicate Restores(p: Pipeline, op: Operation)
    requires Apply(p, op).Ok?
  {
    var e := Apply(p, op).value;
    var back := Apply(e.pipeline, e.inverse);
    back.Ok? && back.value.pipeline == p
  }

  // ---- steps and edges -----------------------------------------------------

  lemma {:induction false} WithoutAbsentStep(steps: seq<Step>, id: string)
    requires forall i :: 0 <= i < |steps| ==> steps[i].id != id
    ensures WithoutStep(steps, id) == steps
  {
    if steps != [] { WithoutAbsentStep(steps[1..], id); }
  }

  lemma {:induction false} WithoutStepConcat(a: seq<Step>, b: seq<Step>, id: string)
    ensures WithoutStep(a + b, id) == WithoutStep(a, id) + WithoutStep(b, id)
  {
    if a == [] {
      assert a + b == b;
    } else {
      assert (a + b)[1..] == a[1..] + b;
      WithoutStepConcat(a[1..], b, id);
    }
  }

  lemma {:induction false} WithoutStepMembers(steps: seq<Step>, id: string)
    ensures |WithoutStep(steps, id)| <= |steps|
    ensures forall i :: 0 <= i < |WithoutStep(steps, id)| ==>
            WithoutStep(steps, id)[i].id != id && WithoutStep(steps, id)[i] in steps
    ensures (exists i :: 0 <= i < |steps| && steps[i].id == id) ==> |WithoutStep(steps, id)| < |steps|
  {
    if steps != [] { WithoutStepMembers(steps[1..], id); }
  }

  lemma LastStepGoes(steps: seq<Step>, id: string)
    requires steps != [] && StepIndex(steps, id) == |steps| - 1
    ensures WithoutStep(steps, id) == steps[..|steps| - 1]
  {
    var n := |steps| - 1;
    assert steps == steps[..n] + [steps[n]];
    WithoutStepConcat(steps[..n], [steps[n]], id);
    WithoutAbsentStep(steps[..n], id);
    assert WithoutStep([steps[n]], id) == [];
  }

  lemma AddStepUndo(p: Pipeline, step: Step)
    requires Apply(p, AddStep(step)).Ok?
    ensures Restores(p, AddStep(step)) <==> ExactlyUndoable(p, AddStep(step))
  {
    var q := Apply(p, AddStep(step)).value.pipeline;
    assert q.steps[|p.steps|].id == step.id;
    assert Connected(q, step.id) <==> Connected(p, step.id);
    WithoutStepConcat(p.steps, [step], step.id);
    WithoutAbsentStep(p.steps, step.id);
    assert WithoutStep([step], step.id) == [];
    assert WithoutStep(q.steps, step.id) == p.steps;
  }

  lemma RemoveStepUndo(p: Pipeline, id: string)
    requires Apply(p, RemoveStep(id)).Ok?
    ensures Restores(p, RemoveStep(id)) <==> ExactlyUndoable(p, RemoveStep(id))
  {
    var e := Apply(p, RemoveStep(id)).value;
    var i := StepIndex(p.steps, id);
    WithoutStepMembers(p.steps, id);
    if ExactlyUndoable(p, RemoveStep(id)) {
      LastStepGoes(p.steps, id);
      assert p.steps == p.steps[..i] + [p.steps[i]];
    } else {
      var q := e.pipeline.steps + [p.steps[i]];
      assert forall j :: 0 <= j < |e.pipeline.steps| ==> q[j] == e.pipeline.steps[j];
    }
  }

  lemma {:induction false} WithoutAbsentEdge(edges: seq<Edge>, e: Edge)
    requires e !in edges
    ensures WithoutEdge(edges, e) == edges
  {
    if edges != [] { WithoutAbsentEdge(edges[1..], e); }
  }

  lemma {:induction false} WithoutEdgeConcat(a: seq<Edge>, b: seq<Edge>, e: Edge)
    ensures WithoutEdge(a + b, e) == WithoutEdge(a, e) + WithoutEdge(b, e)
  {
    if a == [] {
      assert a + b == b;
    } else {
      assert (a + b)[1..] == a[1..] + b;
      WithoutEdgeConcat(a[1..], b, e);
    }
  }

  lemma {:induction false} WithoutEdgeMembers(edges: seq<Edge>, e: Edge)
    ensures |WithoutEdge(edges, e)| <= |edges|
    ensures e !in WithoutEdge(edges, e)
    ensures forall x :: x in WithoutEdge(edges, e) <==> x in edges && x != e
  {
    if edges != [] { WithoutEdgeMembers(edges[1..], e); }
  }

  lemma ConnectUndo(p: Pipeline, edge: Option<Edge>)
    requires Apply(p, Connect(edge)).Ok?
    ensures Restores(p, Connect(edge))
  {
    WithoutEdgeConcat(p.edges, [edge.value], edge.value);
    WithoutAbsentEdge(p.edges, edge.value);
    assert WithoutEdge([edge.value], edge.value) == [];
    assert edge.value in p.edges + [edge.value];
  }

  lemma OnlyLastEdgeGoes(before: seq<Edge>, e: Edge)
    requires e !in before
    ensures WithoutEdge(before + [e], e) == before
  {
    WithoutEdgeConcat(before, [e], e);
    WithoutAbsentEdge(before, e);
    assert [e][1..] == [];
  }

  lemma LastEdgeGoes(edges: seq<Edge>, e: Edge)
    requires e in edges
    ensures WithoutEdge(edges, e) + [e] == edges <==> EdgeIndex(edges, e) == |edges| - 1
  {
    var n := |edges| - 1;
    WithoutEdgeMembers(edges, e);
    if EdgeIndex(edges, e) == n {
      assert edges == edges[..n] + [e];
      OnlyLastEdgeGoes(edges[..n], e);
    } else {
      var kept := WithoutEdge(edges, e);
      assert forall j :: 0 <= j < |kept| ==> (kept + [e])[j] in kept;
    }
  }

  lemma RemoveEdgeUndo(p: Pipeline, edge: Option<Edge>)
    requires Apply(p, RemoveEdge(edge)).Ok?
    ensures Restores(p, RemoveEdge(edge)) <==> ExactlyUndoable(p, RemoveEdge(edge))
  {
    var q := Apply(p, RemoveEdge(edge)).value.pipeline;
    WithoutEdgeMembers(p.edges, edge.value);
    assert CheckEndpoints(q, edge.value) == CheckEndpoints(p, edge.value);
    LastEdgeGoes(p.edges, edge.value);
  }

  // ---- fields of one step ------------------------------------------------------

  /** Editing a step leaves it where it is found. */
  lemma {:induction false} StepIndexKept(steps: seq<Step>, id: string, s: Step)
    requires StepIndex(steps, id) >= 0 && s.id == id
    ensures StepIndex(steps[StepIndex(steps, id) := s], id) == StepIndex(steps, id)
  {
    var i := StepIndex(steps, id);
    var steps' := steps[i := s];
    assert forall j :: 0 <= j < i ==> steps'[j].id != id;
    assert steps'[i].id == id;
  }

  lemma PutBack(p: Pipeline, i: nat, s: Step)
    requires i < |p.steps|
    ensures PutStep(PutStep(p, i, s), i, p.steps[i]) == p
  {
    assert p.steps[i := s][i := p.steps[i]] == p.steps;
  }

  ghost predicate ComesBack(s: Step, property: string, value: string) {
    var r := WithProperty(s, property, value);
    r.Ok? && r.value.0.id == s.id &&
    var back := WithProperty(r.value.0, property, r.value.1);
    back.Ok? && back.value.0 == s
  }

  lemma EffectClassBack(s: Step, value: string)
    requires WithProperty(s, "effect_class", value).Ok?
    ensures ComesBack(s, "effect_class", value) <==> Declared(EFFECT_CLASSES, s.effectClass)
  {
    EnumsAreProper();
    NameRoundTrip(EFFECT_CLASSES, s.effectClass);
    assert "effect_class"[0] != "plugin_ref"[0];
  }

  lemma LeaseScopeBack(s: Step, value: string)
    requires WithProperty(s, "lease_scope", value).Ok?
    ensures ComesBack(s, "lease_scope", value) <==> Declared(LEASE_SCOPES, s.leaseScope)
  {
    EnumsAreProper();
    NameRoundTrip(LEASE_SCOPES, s.leaseScope);
    assert "lease_scope"[0] != "plugin_ref"[0] && "lease_scope"[0] != "effect_class"[0];
  }

  lemma TimeoutBack(s: Step, value: string)
    requires WithProperty(s, "timeout_seconds", value).Ok?
    ensures ComesBack(s, "timeout_seconds", value)
  {
    UintRoundTrip(s.timeoutSeconds);
    assert |"timeout_seconds"| == 15 && |"plugin_ref"| == 10 && |"effect_class"| == 12 && |"lease_scope"| == 11
           && |"image"| == 5 && |"engine_type"| == 11;
  }

  lemma PropertyBack(s: Step, property: string, value: string)
    requires WithProperty(s, property, value).Ok?
    ensures WithProperty(s, property, value).value.0.id == s.id
    ensures ComesBack(s, property, value) <==>
            && (property == "effect_class" ==> Declared(EFFECT_CLASSES, s.effectClass))
            && (property == "lease_scope" ==> Declared(LEASE_SCOPES, s.leaseScope))
  {
    if property == "effect_class" {
      EffectClassBack(s, value);
      assert |"effect_class"| != |"lease_scope"|;
    } else if property == "lease_scope" {
      LeaseScopeBack(s, value);
    } else if property == "timeout_seconds" {
      TimeoutBack(s, value);
    }
  }

  /** The undoing edit of one step is accepted and gives the same step back. */
  ghost predicate StepRestores(s: Step, op: Operation)
    requires OnStep(op) && EditStep(s, op).Ok?
  {
    var e := EditStep(s, op).value;
    && e.step.id == s.id && OnStep(e.inverse) && e.inverse.stepId == op.stepId
    && var back := EditStep(e.step, e.inverse); back.Ok? && back.value.step == s
  }

  predicate DeclaredFor(s: Step, op: Operation) {
    op.SetProperty? ==>
      && (op.property == "effect_class" ==> Declared(EFFECT_CLASSES, s.effectClass))
      && (op.property == "lease_scope" ==> Declared(LEASE_SCOPES, s.leaseScope))
  }

  lemma ConfigBack(s: Step, op: Operation)
    requires op.SetStepConfig? && EditStep(s, op).Ok?
    ensures StepRestores(s, op)
  {
    var s' := EditStep(s, op).value.step;
    if op.key in s.config {
      assert s'.config[op.key := s.config[op.key]] == s.config;
    } else {
      assert s'.config - {op.key} == s.config;
    }
  }

  // ---- a step's lists -------------------------------------------------------------

  lemma {:induction false} CountSplit<T>(a: seq<T>, b: seq<T>, test: T -> bool)
    ensures CountOf(a + b, test) == CountOf(a, test) + CountOf(b, test)
  {
    if a == [] {
      assert a + b == b;
    } else {
      assert (a + b)[1..] == a[1..] + b;
      CountSplit(a[1..], b, test);
    }
  }

  lemma CountThree<T>(a: seq<T>, x: T, b: seq<T>, test: T -> bool)
    ensures CountOf(a + [x] + b, test) == CountOf(a, test) + (if test(x) then 1 else 0) + CountOf(b, test)
  {
    CountSplit(a + [x], b, test);
    CountSplit(a, [x], test);
    assert [x][1..] == [];
  }

  lemma CountAt<T>(s: seq<T>, at: nat, test: T -> bool)
    requires at < |s|
    ensures CountOf(s, test) == CountOf(s[..at], test) + (if test(s[at]) then 1 else 0) + CountOf(s[at + 1..], test)
  {
    assert s == s[..at] + [s[at]] + s[at + 1..];
    CountThree(s[..at], s[at], s[at + 1..], test);
  }

  lemma FirstAtIs<T>(s: seq<T>, test: T -> bool, at: nat)
    requires at < |s| && test(s[at]) && forall j :: 0 <= j < at ==> !test(s[j])
    ensures FirstAt(s, test) == at
  {
  }

  lemma CountOneMore<T>(a: seq<T>, b: seq<T>, test: T -> bool, x: T)
    requires test(x)
    ensures CountOf(a + [x] + b, test) == CountOf(a + b, test) + 1
  {
    CountThree(a, x, b, test);
    CountSplit(a, b, test);
  }

  lemma Rejoined<T>(s: seq<T>, at: nat)
    requires at < |s|
    ensures s == s[..at] + [s[at]] + s[at + 1..] && InsertAt(Delete(s, at), at, s[at]) == s
  {
  }

  lemma CountDeleted<T>(s: seq<T>, test: T -> bool, at: nat)
    requires at < |s| && test(s[at])
    ensures CountOf(Delete(s, at), test) == CountOf(s, test) - 1
  {
    Rejoined(s, at);
    CountOneMore(s[..at], s[at + 1..], test, s[at]);
  }

  /** Nothing else in the list matches a single match. */
  lemma OnlyMatch<T>(s: seq<T>, test: T -> bool)
    requires CountOf(s, test) <= 1 && FirstAt(s, test) >= 0
    ensures CountOf(Delete(s, FirstAt(s, test)), test) == 0 && FirstAt(Delete(s, FirstAt(s, test)), test) < 0
    ensures InsertAt(Delete(s, FirstAt(s, test)), FirstAt(s, test), s[FirstAt(s, test)]) == s
  {
    var at := FirstAt(s, test);
    CountDeleted(s, test, at);
    NoMatch(Delete(s, at), test);
    Rejoined(s, at);
  }

  lemma DeleteInserted<T>(s: seq<T>, at: nat, x: T)
    requires at <= |s|
    ensures Delete(InsertAt(s, at, x), at) == s
  {
  }

  lemma CountInserted<T>(s: seq<T>, test: T -> bool, at: nat, x: T)
    requires at <= |s| && test(x)
    ensures CountOf(InsertAt(s, at, x), test) == CountOf(s, test) + 1
  {
    assert s == s[..at] + s[at..];
    CountOneMore(s[..at], s[at..], test, x);
  }

  lemma FirstInserted<T>(s: seq<T>, test: T -> bool, at: nat, x: T)
    requires at <= |s| && test(x) && forall j :: 0 <= j < |s| ==> !test(s[j])
    ensures FirstAt(InsertAt(s, at, x), test) == at
  {
    var t := InsertAt(s, at, x);
    assert t[at] == x;
    assert forall j :: 0 <= j < at ==> t[j] == s[j];
    FirstAtIs(t, test, at);
  }

  lemma InsertedMatch<T>(s: seq<T>, test: T -> bool, at: nat, x: T)
    requires FirstAt(s, test) < 0 && at <= |s| && test(x)
    ensures FirstAt(InsertAt(s, at, x), test) == at && CountOf(InsertAt(s, at, x), test) == 1
    ensures Delete(InsertAt(s, at, x), at) == s
  {
    NoMatch(s, test);
    DeleteInserted(s, at, x);
    CountInserted(s, test, at, x);
    FirstInserted(s, test, at, x);
  }

  lemma ReplacedMatch<T>(s: seq<T>, test: T -> bool, x: T)
    requires CountOf(s, test) <= 1 && FirstAt(s, test) >= 0 && test(x)
    ensures FirstAt(s[FirstAt(s, test) := x], test) == FirstAt(s, test) && CountOf(s[FirstAt(s, test) := x], test) == 1
    ensures s[FirstAt(s, test) := x][FirstAt(s, test) := s[FirstAt(s, test)]] == s
  {
    var at := FirstAt(s, test);
    var t := s[at := x];
    CountAt(s, at, test);
    CountAt(t, at, test);
    assert t[..at] == s[..at] && t[at + 1..] == s[at + 1..];
    FirstAtIs(t, test, at);
  }

  lemma UnboundSecretBack(s: Step, op: Operation)
    requires op.SetStepSecret? && op.remove && EditStep(s, op).Ok?
    ensures StepRestores(s, op)
  {
    var at := FirstAt(s.secrets, BoundTo(op.env));
    assert s.secrets[at] == StepSecret(s.secrets[at].name, op.env);
    OnlyMatch(s.secrets, BoundTo(op.env));
  }

  lemma ReboundSecretBack(s: Step, op: Operation)
    requires op.SetStepSecret? && !op.remove && FirstAt(s.secrets, BoundTo(op.env)) >= 0 && EditStep(s, op).Ok?
    ensures StepRestores(s, op)
  {
    var at := FirstAt(s.secrets, BoundTo(op.env));
    assert s.secrets[at] == StepSecret(s.secrets[at].name, op.env);
    ReplacedMatch(s.secrets, BoundTo(op.env), StepSecret(op.secret, op.env));
  }

  lemma BoundSecretBack(s: Step, op: Operation)
    requires op.SetStepSecret? && !op.remove && FirstAt(s.secrets, BoundTo(op.env)) < 0 && EditStep(s, op).Ok?
    ensures StepRestores(s, op)
  {
    InsertedMatch(s.secrets, BoundTo(op.env), if op.index.Some? then op.index.value else |s.secrets|,
                  StepSecret(op.secret, op.env));
  }

  lemma SecretBack(s: Step, op: Operation)
    requires op.SetStepSecret? && EditStep(s, op).Ok?
    ensures StepRestores(s, op)
  {
    if op.remove {
      UnboundSecretBack(s, op);
    } else if FirstAt(s.secrets, BoundTo(op.env)) >= 0 {
      ReboundSecretBack(s, op);
    } else {
      BoundSecretBack(s, op);
    }
  }

  lemma WithdrawnBack(s: Step, op: Operation)
    requires op.SetStepCapability? && op.remove && EditStep(s, op).Ok?
    ensures StepRestores(s, op)
  {
    OnlyMatch(s.capabilities, EqualTo(op.capability));
  }

  lemma DeclaredBack(s: Step, op: Operation)
    requires op.SetStepCapability? && !op.remove && EditStep(s, op).Ok?
    ensures StepRestores(s, op)
  {
    InsertedMatch(s.capabilities, EqualTo(op.capability),
                  if op.index.Some? then op.index.value else |s.capabilities|, op.capability);
  }

  lemma CapabilityBack(s: Step, op: Operation)
    requires op.SetStepCapability? && EditStep(s, op).Ok?
    ensures StepRestores(s, op)
  {
    if op.remove { WithdrawnBack(s, op); } else { DeclaredBack(s, op); }
  }

  lemma StepEditUndo(s: Step, op: Operation)
    requires OnStep(op) && EditStep(s, op).Ok?
    ensures StepRestores(s, op) <==> DeclaredFor(s, op)
    ensures var e := EditStep(s, op).value; e.step.id == s.id && OnStep(e.inverse) && e.inverse.stepId == op.stepId
  {
    match op
    case SetProperty(_, property, value) => PropertyBack(s, property, value);
    case SetStepConfig(_, _, _, _) => ConfigBack(s, op);
    case SetStepSecret(_, _, _, _, _) => SecretBack(s, op);
    case SetStepCapability(_, _, _, _) => CapabilityBack(s, op);
    case Rename(_, _) =>
  }

  lemma ApplyOnStepIs(p: Pipeline, op: Operation, i: nat, edit: StepOutcome)
    requires OnStep(op) && StepIndex(p.steps, op.stepId) == i && EditStep(p.steps[i], op) == edit
    ensures Apply(p, op) == match edit case Err(e) => Err(e) case Ok(x) => Ok(Edit(PutStep(p, i, x.step), x.inverse))
  {
  }

  lemma OnStepUndo(p: Pipeline, op: Operation)
    requires OnStep(op) && Apply(p, op).Ok?
    ensures Restores(p, op) <==> DeclaredFor(p.steps[StepIndex(p.steps, op.stepId)], op)
  {
    var i := StepIndex(p.steps, op.stepId);
    var s := p.steps[i];
    ApplyOnStepIs(p, op, i, EditStep(s, op));
    StepEditUndo(s, op);
    var e := EditStep(s, op).value;
    StepIndexKept(p.steps, op.stepId, e.step);
    var q := PutStep(p, i, e.step);
    ApplyOnStepIs(q, e.inverse, i, EditStep(e.step, e.inverse));
    PutTwice(p, i, e.step, EditStep(e.step, e.inverse));
  }

  lemma PutTwice(p: Pipeline, i: nat, s: Step, back: StepOutcome)
    requires i < |p.steps|
    ensures back.Ok? ==> (PutStep(PutStep(p, i, s), i, back.value.step) == p <==> back.value.step == p.steps[i])
  {
    PutBack(p, i, s);
    if back.Ok? {
      assert PutStep(PutStep(p, i, s), i, back.value.step).steps[i] == back.value.step;
    }
  }

  // ---- files ---------------------------------------------------------------------

  lemma FileIndexIs(files: seq<File>, path: string, i: nat)
    requires i < |files| && files[i].path == path && forall j :: 0 <= j < i ==> files[j].path != path
    ensures FileIndex(files, path) == i
  {
  }

  lemma ReplaceUndo(p: Pipeline, path: string, file: File)
    requires path != "" && FileIndex(p.files, path) >= 0
    ensures Restores(p, SetFile(path, Some(file)))
  {
    var i := FileIndex(p.files, path);
    var q := p.files[i := file.(path := path)];
    FileIndexIs(q, path, i);
    assert p.files[i].(path := path) == p.files[i];
    assert q[i := p.files[i]] == p.files;
  }

  lemma AttachUndo(p: Pipeline, path: string, file: File)
    requires path != "" && FileIndex(p.files, path) < 0
    ensures Restores(p, SetFile(path, Some(file))) <==> !Binds(p, path)
  {
    var n := |p.files|;
    var q := p.(files := p.files + [file.(path := path)]);
    FileIndexIs(q.files, path, n);
    assert Delete(q.files, n) == p.files;
    assert Binds(q, path) <==> Binds(p, path);
  }

  lemma DetachUndo(p: Pipeline, path: string)
    requires Apply(p, SetFile(path, None)).Ok?
    ensures Restores(p, SetFile(path, None)) <==> ExactlyUndoable(p, SetFile(path, None))
  {
    var i := FileIndex(p.files, path);
    var q := Apply(p, SetFile(path, None)).value.pipeline;
    var n := |p.files| - 1;
    var f := p.files[i];
    assert f.(path := path) == f;
    if i == n {
      assert q.files == p.files[..n];
      assert FileIndex(q.files, path) < 0;
      assert p.files == p.files[..n] + [f];
    } else {
      assert |q.files| == n;
      assert (q.files + [f])[i] == q.files[i];
    }
  }

  // ---- the theorem ------------------------------------------------------------------

  /**
   The inverse an accepted edit returns is accepted and restores precisely the
   definition that went in if and only if the edit is exactly undoable: for every
   definition, well formed or not, and every operation.
   */
  lemma InverseIsExact(p: Pipeline, op: Operation)
    requires Apply(p, op).Ok?
    ensures Restores(p, op) <==> ExactlyUndoable(p, op)
  {
    match op
    case AddStep(step) => AddStepUndo(p, step);
    case RemoveStep(id) => RemoveStepUndo(p, id);
    case Connect(edge) => ConnectUndo(p, edge);
    case RemoveEdge(edge) => RemoveEdgeUndo(p, edge);
    case SetFile(path, file) =>
      if file.None? { DetachUndo(p, path); }
      else if FileIndex(p.files, path) >= 0 { ReplaceUndo(p, path, file.value); }
      else { AttachUndo(p, path, file.value); }
    case SetProperty(_, _, _) => OnStepUndo(p, op);
    case SetStepConfig(_, _, _, _) => OnStepUndo(p, op);
    case SetStepSecret(_, _, _, _, _) => OnStepUndo(p, op);
    case SetStepCapability(_, _, _, _) => OnStepUndo(p, op);
    case Rename(_, _) => OnStepUndo(p, op);
  }

  const BARE_STEP := Step("", "", "", 0, [], [], [], 0, map[], "", "", 0, [], [])
  const TWO_STEPS := Pipeline("p", "t", [BARE_STEP.(id := "a"), BARE_STEP.(id := "b")], [], [])

  /** Removing the first of two steps and undoing it leaves the steps in the other order. */
  lemma RemoveThenUndoReorders()
    ensures Apply(TWO_STEPS, RemoveStep("a")).Ok?
    ensures var e := Apply(TWO_STEPS, RemoveStep("a")).value;
            && Apply(e.pipeline, e.inverse).Ok?
            && Apply(e.pipeline, e.inverse).value.pipeline ==
                 TWO_STEPS.(steps := [TWO_STEPS.steps[1], TWO_STEPS.steps[0]])
            && Apply(e.pipeline, e.inverse).value.pipeline != TWO_STEPS
  {
    var a, b := TWO_STEPS.steps[0], TWO_STEPS.steps[1];
    assert a.id == "a" && b.id == "b" && "a"[0] == 'a' && "b"[0] == 'b';
    assert StepIndex(TWO_STEPS.steps, "a") == 0;
    assert WithoutStep([b], "a") == [b];
    assert TWO_STEPS.steps[1..] == [b];
    var e := Apply(TWO_STEPS, RemoveStep("a")).value;
    assert e.pipeline.steps == [b];
    assert StepIndex([b], "a") == -1;
  }
}
