/**
 Undoing a whole history. The order of the steps, edges and files of a definition
 is what an undo may change; everything an operation can see is the same up to that
 order, so inverses taken from one history undo it from any reordering of its end.
 */
module History {
  import opened Prelude
  import opened Orders
  import opened Definition
  import opened Scalars
  import opened Edits
  import opened Undo

  /** The same definition, up to the order of its top-level lists. */
  ghost predicate Same(p: Pipeline, q: Pipeline) {
    && p.id == q.id && p.tenant == q.tenant
    && multiset(p.steps) == multiset(q.steps)
    && multiset(p.edges) == multiset(q.edges)
    && multiset(p.files) == multiset(q.files)
  }

  predicate DistinctIds(steps: seq<Step>) {
    forall i, j :: 0 <= i < j < |steps| ==> steps[i].id != steps[j].id
  }

  predicate DistinctPaths(files: seq<File>) {
    forall i, j :: 0 <= i < j < |files| ==> files[i].path != files[j].path
  }

  predicate Distinct<T(==)>(s: seq<T>) {
    forall i, j :: 0 <= i < j < |s| ==> s[i] != s[j]
  }

  predicate EnumsDeclared(s: Step) {
    Declared(EFFECT_CLASSES, s.effectClass) && Declared(LEASE_SCOPES, s.leaseScope)
  }

  predicate FilesCarried(files: seq<File>, s: Step) {
    forall i :: 0 <= i < |s.fileInputs| ==> FileIndex(files, s.fileInputs[i].path) >= 0
  }

  /** A definition whose parts fit together. */
  ghost predicate WellFormed(p: Pipeline) {
    && DistinctIds(p.steps) && Distinct(p.edges) && DistinctPaths(p.files)
    && (forall s :: s in p.steps ==> s.id != "" && EnumsDeclared(s) && FilesCarried(p.files, s))
    && (forall e :: e in p.edges ==> CheckEndpoints(p, e).None?)
  }

  /** What a caller checks of an operation so that the result is well formed too. */
  predicate Fits(p: Pipeline, op: Operation) {
    op.AddStep? ==> EnumsDeclared(op.step) && FilesCarried(p.files, op.step)
  }

  // ---- finding is independent of order ---------------------------------------

  lemma StepIsFound(steps: seq<Step>, s: Step)
    requires DistinctIds(steps) && s in steps
    ensures StepIndex(steps, s.id) >= 0 && steps[StepIndex(steps, s.id)] == s
  {
  }

  lemma FileIsFound(files: seq<File>, f: File)
    requires DistinctPaths(files) && f in files
    ensures FileIndex(files, f.path) >= 0 && files[FileIndex(files, f.path)] == f
  {
  }

  /** Two places hold two copies. */
  lemma TwoPlaces<T>(s: seq<T>, i: nat, j: nat)
    requires i < j < |s| && s[i] == s[j]
    ensures multiset(s)[s[i]] >= 2
  {
    assert s == s[..j] + [s[j]] + s[j + 1..];
    assert multiset(s) == multiset(s[..j]) + multiset{s[j]} + multiset(s[j + 1..]);
    assert s[..j][i] == s[i];
    assert s[i] in multiset(s[..j]);
  }

  lemma {:induction false} AtMostOnce<T>(s: seq<T>, x: T)
    requires Distinct(s)
    ensures multiset(s)[x] <= 1
  {
    if s != [] {
      var n := |s| - 1;
      assert s == s[..n] + [s[n]];
      AtMostOnce(s[..n], x);
      assert s[n] !in multiset(s[..n]);
    }
  }

  lemma DistinctAgain<T>(s: seq<T>, t: seq<T>)
    requires Distinct(s) && multiset(s) == multiset(t)
    ensures Distinct(t)
  {
    forall i, j | 0 <= i < j < |t| ensures t[i] != t[j] {
      AtMostOnce(s, t[i]);
      if t[i] == t[j] { TwoPlaces(t, i, j); }
    }
  }

  lemma DistinctIdsAgain(s: seq<Step>, t: seq<Step>)
    requires DistinctIds(s) && multiset(s) == multiset(t)
    ensures DistinctIds(t)
  {
    SameMembers(s, t);
    assert Distinct(s);
    DistinctAgain(s, t);
    forall i, j | 0 <= i < j < |t| ensures t[i].id != t[j].id {
      assert t[i] in s && t[j] in s;
      StepIsFound(s, t[i]);
      StepIsFound(s, t[j]);
    }
  }

  lemma DistinctPathsAgain(s: seq<File>, t: seq<File>)
    requires DistinctPaths(s) && multiset(s) == multiset(t)
    ensures DistinctPaths(t)
  {
    SameMembers(s, t);
    assert Distinct(s);
    DistinctAgain(s, t);
    forall i, j | 0 <= i < j < |t| ensures t[i].path != t[j].path {
      assert t[i] in s && t[j] in s;
      FileIsFound(s, t[i]);
      FileIsFound(s, t[j]);
    }
  }

  lemma SameStepFound(s: seq<Step>, t: seq<Step>, id: string)
    requires DistinctIds(s) && multiset(s) == multiset(t)
    ensures StepIndex(s, id) >= 0 <==> StepIndex(t, id) >= 0
    ensures StepIndex(s, id) >= 0 ==> s[StepIndex(s, id)] == t[StepIndex(t, id)]
  {
    SameMembers(s, t);
    DistinctIdsAgain(s, t);
    if StepIndex(s, id) >= 0 {
      var x := s[StepIndex(s, id)];
      assert x in s;
      StepIsFound(t, x);
    } else if StepIndex(t, id) >= 0 {
      var x := t[StepIndex(t, id)];
      assert x in t;
      StepIsFound(s, x);
    }
  }

  lemma SameFileFound(s: seq<File>, t: seq<File>, path: string)
    requires DistinctPaths(s) && multiset(s) == multiset(t)
    ensures FileIndex(s, path) >= 0 <==> FileIndex(t, path) >= 0
    ensures FileIndex(s, path) >= 0 ==> s[FileIndex(s, path)] == t[FileIndex(t, path)]
  {
    SameMembers(s, t);
    DistinctPathsAgain(s, t);
    if FileIndex(s, path) >= 0 {
      var x := s[FileIndex(s, path)];
      assert x in s;
      FileIsFound(t, x);
    } else if FileIndex(t, path) >= 0 {
      var x := t[FileIndex(t, path)];
      assert x in t;
      FileIsFound(s, x);
    }
  }

  lemma SameConnected(p: Pipeline, q: Pipeline, id: string)
    requires Same(p, q)
    ensures Connected(p, id) <==> Connected(q, id)
  {
    SameMembers(p.edges, q.edges);
    if Connected(p, id) {
      var i :| 0 <= i < |p.edges| && (p.edges[i].fromStep == id || p.edges[i].toStep == id);
      assert p.edges[i] in q.edges;
    }
    if Connected(q, id) {
      var i :| 0 <= i < |q.edges| && (q.edges[i].fromStep == id || q.edges[i].toStep == id);
      assert q.edges[i] in p.edges;
    }
  }

  lemma SameBinds(p: Pipeline, q: Pipeline, path: string)
    requires Same(p, q)
    ensures Binds(p, path) <==> Binds(q, path)
  {
    SameMembers(p.steps, q.steps);
    if Binds(p, path) {
      var i, j :| 0 <= i < |p.steps| && 0 <= j < |p.steps[i].fileInputs| && p.steps[i].fileInputs[j].path == path;
      assert p.steps[i] in q.steps;
    }
    if Binds(q, path) {
      var i, j :| 0 <= i < |q.steps| && 0 <= j < |q.steps[i].fileInputs| && q.steps[i].fileInputs[j].path == path;
      assert q.steps[i] in p.steps;
    }
  }

  lemma SameEndpoints(p: Pipeline, q: Pipeline, e: Edge)
    requires Same(p, q) && DistinctIds(p.steps)
    ensures CheckEndpoints(p, e) == CheckEndpoints(q, e)
  {
    SameStepFound(p.steps, q.steps, e.fromStep);
    SameStepFound(p.steps, q.steps, e.toStep);
  }

  /** Well-formedness does not depend on order. */
  lemma WellFormedAgain(p: Pipeline, q: Pipeline)
    requires Same(p, q) && WellFormed(p)
    ensures WellFormed(q)
  {
    DistinctIdsAgain(p.steps, q.steps);
    DistinctPathsAgain(p.files, q.files);
    DistinctAgain(p.edges, q.edges);
    SameMembers(p.steps, q.steps);
    SameMembers(p.edges, q.edges);
    forall s | s in q.steps ensures s.id != "" && EnumsDeclared(s) && FilesCarried(q.files, s) {
      forall i | 0 <= i < |s.fileInputs| ensures FileIndex(q.files, s.fileInputs[i].path) >= 0 {
        assert FilesCarried(p.files, s);
        SameFileFound(p.files, q.files, s.fileInputs[i].path);
      }
    }
    forall e | e in q.edges ensures CheckEndpoints(q, e).None? {
      assert CheckEndpoints(p, e).None?;
      SameEndpoints(p, q, e);
    }
  }

  // ---- what an edit does to the lists, as multisets -----------------------------

  lemma MultisetDelete<T>(s: seq<T>, i: nat)
    requires i < |s|
    ensures multiset(Delete(s, i)) == multiset(s) - multiset{s[i]}
  {
    assert s == s[..i] + [s[i]] + s[i + 1..];
  }

  lemma MultisetPut<T>(s: seq<T>, i: nat, x: T)
    requires i < |s|
    ensures multiset(s[i := x]) == multiset(s) - multiset{s[i]} + multiset{x}
  {
  }

  lemma WithoutStepThree(a: seq<Step>, s: Step, b: seq<Step>)
    requires forall x :: x in a || x in b ==> x.id != s.id
    ensures WithoutStep(a + [s] + b, s.id) == a + b
  {
    WithoutStepConcat(a + [s], b, s.id);
    WithoutStepConcat(a, [s], s.id);
    WithoutAbsentStep(a, s.id);
    WithoutAbsentStep(b, s.id);
    assert WithoutStep([s], s.id) == [];
  }

  lemma WithoutIsDelete(steps: seq<Step>, id: string)
    requires DistinctIds(steps) && StepIndex(steps, id) >= 0
    ensures WithoutStep(steps, id) == Delete(steps, StepIndex(steps, id))
  {
    var i := StepIndex(steps, id);
    assert steps == steps[..i] + [steps[i]] + steps[i + 1..];
    WithoutStepThree(steps[..i], steps[i], steps[i + 1..]);
  }

  lemma WithoutEdgeThree(a: seq<Edge>, e: Edge, b: seq<Edge>)
    requires e !in a && e !in b
    ensures WithoutEdge(a + [e] + b, e) == a + b
  {
    WithoutEdgeConcat(a + [e], b, e);
    WithoutEdgeConcat(a, [e], e);
    WithoutAbsentEdge(a, e);
    WithoutAbsentEdge(b, e);
    assert [e][1..] == [];
    assert WithoutEdge([e], e) == [];
    assert a + [] == a;
  }

  lemma WithoutEdgeIsDelete(edges: seq<Edge>, e: Edge)
    requires Distinct(edges) && e in edges
    ensures WithoutEdge(edges, e) == Delete(edges, EdgeIndex(edges, e))
  {
    var i := EdgeIndex(edges, e);
    assert edges == edges[..i] + [edges[i]] + edges[i + 1..];
    WithoutEdgeThree(edges[..i], edges[i], edges[i + 1..]);
  }

  // ---- an edit gives the same answer on every ordering ----------------------------

  ghost predicate Agree(a: Outcome, b: Outcome) {
    && (a.Ok? <==> b.Ok?)
    && (a.Ok? ==> a.value.inverse == b.value.inverse && Same(a.value.pipeline, b.value.pipeline))
  }

  lemma OnStepAgrees(p: Pipeline, q: Pipeline, op: Operation)
    requires Same(p, q) && DistinctIds(p.steps) && OnStep(op)
    ensures Agree(Apply(p, op), Apply(q, op))
  {
    var i, j := StepIndex(p.steps, op.stepId), StepIndex(q.steps, op.stepId);
    SameStepFound(p.steps, q.steps, op.stepId);
    if i >= 0 { OnOneStepAgrees(p, q, op, i, j); }
  }

  lemma OnOneStepAgrees(p: Pipeline, q: Pipeline, op: Operation, i: nat, j: nat)
    requires Same(p, q) && OnStep(op) && i < |p.steps| && j < |q.steps| && p.steps[i] == q.steps[j]
    requires StepIndex(p.steps, op.stepId) == i && StepIndex(q.steps, op.stepId) == j
    ensures Agree(Apply(p, op), Apply(q, op))
  {
    var edit := EditStep(p.steps[i], op);
    ApplyOnStepIs(p, op, i, edit);
    ApplyOnStepIs(q, op, j, edit);
    if edit.Ok? {
      MultisetPut(p.steps, i, edit.value.step);
      MultisetPut(q.steps, j, edit.value.step);
    }
  }

  lemma StepsAgree(p: Pipeline, q: Pipeline, op: Operation)
    requires Same(p, q) && DistinctIds(p.steps) && (op.AddStep? || op.RemoveStep?)
    ensures Agree(Apply(p, op), Apply(q, op))
  {
    var id := if op.AddStep? then op.step.id else op.stepId;
    SameStepFound(p.steps, q.steps, id);
    SameConnected(p, q, id);
    if op.RemoveStep? && Apply(p, op).Ok? {
      DistinctIdsAgain(p.steps, q.steps);
      WithoutIsDelete(p.steps, id);
      WithoutIsDelete(q.steps, id);
      MultisetDelete(p.steps, StepIndex(p.steps, id));
      MultisetDelete(q.steps, StepIndex(q.steps, id));
    }
  }

  lemma EdgesAgree(p: Pipeline, q: Pipeline, op: Operation)
    requires Same(p, q) && DistinctIds(p.steps) && Distinct(p.edges) && (op.Connect? || op.RemoveEdge?)
    ensures Agree(Apply(p, op), Apply(q, op))
  {
    SameMembers(p.edges, q.edges);
    if op.edge.Some? {
      var e := op.edge.value;
      SameEndpoints(p, q, e);
      if op.RemoveEdge? && e in p.edges {
        DistinctAgain(p.edges, q.edges);
        WithoutEdgeIsDelete(p.edges, e);
        WithoutEdgeIsDelete(q.edges, e);
        MultisetDelete(p.edges, EdgeIndex(p.edges, e));
        MultisetDelete(q.edges, EdgeIndex(q.edges, e));
      }
    }
  }

  lemma DetachAgrees(p: Pipeline, q: Pipeline, path: string)
    requires Same(p, q) && DistinctPaths(p.files)
    ensures Agree(Apply(p, SetFile(path, None)), Apply(q, SetFile(path, None)))
  {
    SameFileFound(p.files, q.files, path);
    SameBinds(p, q, path);
    if FileIndex(p.files, path) >= 0 {
      MultisetDelete(p.files, FileIndex(p.files, path));
      MultisetDelete(q.files, FileIndex(q.files, path));
    }
  }

  function Attached(files: seq<File>, path: string, f: File): (r: seq<File>) {
    if FileIndex(files, path) >= 0 then files[FileIndex(files, path) := f] else files + [f]
  }

  lemma AttachedSame(a: seq<File>, b: seq<File>, path: string, f: File)
    requires DistinctPaths(a) && multiset(a) == multiset(b)
    ensures multiset(Attached(a, path, f)) == multiset(Attached(b, path, f))
  {
    SameFileFound(a, b, path);
    if FileIndex(a, path) >= 0 {
      MultisetPut(a, FileIndex(a, path), f);
      MultisetPut(b, FileIndex(b, path), f);
    }
  }

  lemma AttachAgrees(p: Pipeline, q: Pipeline, path: string, file: File)
    requires Same(p, q) && DistinctPaths(p.files)
    ensures Agree(Apply(p, SetFile(path, Some(file))), Apply(q, SetFile(path, Some(file))))
  {
    if path != "" {
      SameFileFound(p.files, q.files, path);
      AttachedSame(p.files, q.files, path, file.(path := path));
      assert Apply(p, SetFile(path, Some(file))).value.pipeline ==
        p.(files := Attached(p.files, path, file.(path := path)));
      assert Apply(q, SetFile(path, Some(file))).value.pipeline ==
        q.(files := Attached(q.files, path, file.(path := path)));
    }
  }

  /** An operation is accepted on every ordering or on none, with one inverse and the same result. */
  lemma ApplyForgetsOrder(p: Pipeline, q: Pipeline, op: Operation)
    requires Same(p, q) && WellFormed(p)
    ensures Agree(Apply(p, op), Apply(q, op))
  {
    if OnStep(op) {
      OnStepAgrees(p, q, op);
    } else if op.SetFile? {
      if op.file.None? { DetachAgrees(p, q, op.path); } else { AttachAgrees(p, q, op.path, op.file.value); }
    } else if op.AddStep? || op.RemoveStep? {
      StepsAgree(p, q, op);
    } else {
      EdgesAgree(p, q, op);
    }
  }

  // ---- one edit undone ----------------------------------------------------------

  /** The inverse of an edit of a well-formed definition is accepted, and restores it up to order. */
  ghost predicate UndoesUpToOrder(p: Pipeline, op: Operation)
    requires Apply(p, op).Ok?
  {
    var e := Apply(p, op).value;
    var back := Apply(e.pipeline, e.inverse);
    back.Ok? && Same(back.value.pipeline, p)
  }

  lemma RemoveStepUndone(p: Pipeline, id: string)
    requires DistinctIds(p.steps) && id != "" && Apply(p, RemoveStep(id)).Ok?
    ensures UndoesUpToOrder(p, RemoveStep(id))
  {
    var i := StepIndex(p.steps, id);
    var s, rest := p.steps[i], Delete(p.steps, i);
    WithoutIsDelete(p.steps, id);
    MultisetDelete(p.steps, i);
    WithoutStepMembers(p.steps, id);
    assert Apply(p, RemoveStep(id)).value == Edit(p.(steps := rest), AddStep(s));
    assert Apply(p.(steps := rest), AddStep(s)).value.pipeline == p.(steps := rest + [s]);
  }

  lemma RemoveEdgeUndone(p: Pipeline, edge: Option<Edge>)
    requires WellFormed(p) && Apply(p, RemoveEdge(edge)).Ok?
    ensures UndoesUpToOrder(p, RemoveEdge(edge))
  {
    var e := edge.value;
    WithoutEdgeIsDelete(p.edges, e);
    MultisetDelete(p.edges, EdgeIndex(p.edges, e));
    WithoutEdgeMembers(p.edges, e);
    assert CheckEndpoints(Apply(p, RemoveEdge(edge)).value.pipeline, e) == CheckEndpoints(p, e);
  }

  lemma DetachedIsGone(files: seq<File>, i: nat)
    requires DistinctPaths(files) && i < |files|
    ensures FileIndex(Delete(files, i), files[i].path) < 0
  {
    var rest := Delete(files, i);
    forall j | 0 <= j < |rest| ensures rest[j].path != files[i].path {
      assert rest[j] == files[if j < i then j else j + 1];
    }
  }

  lemma MovedToEnd<T>(s: seq<T>, i: nat)
    requires i < |s|
    ensures multiset(Delete(s, i) + [s[i]]) == multiset(s)
  {
    MultisetDelete(s, i);
  }

  lemma DetachUndone(p: Pipeline, path: string)
    requires DistinctPaths(p.files) && ApplySetFile(p, path, None).Ok?
    ensures var e := ApplySetFile(p, path, None).value;
            && e.inverse.SetFile? && e.inverse.path == path
            && var back := ApplySetFile(e.pipeline, path, e.inverse.file);
               back.Ok? && Same(back.value.pipeline, p)
  {
    var i := FileIndex(p.files, path);
    DetachedIsGone(p.files, i);
    MovedToEnd(p.files, i);
    assert p.files[i].(path := path) == p.files[i];
  }

  lemma UndoOne(p: Pipeline, op: Operation)
    requires WellFormed(p) && Apply(p, op).Ok?
    ensures UndoesUpToOrder(p, op)
  {
    if op.RemoveStep? {
      assert p.steps[StepIndex(p.steps, op.stepId)] in p.steps;
      RemoveStepUndone(p, op.stepId);
    } else if op.RemoveEdge? {
      RemoveEdgeUndone(p, op.edge);
    } else if op.SetFile? && op.file.None? {
      DetachUndone(p, op.path);
    } else {
      WellFormedIsExact(p, op);
      InverseIsExact(p, op);
    }
  }

  /** Every kind but the three removals undoes exactly, list order included. */
  lemma WellFormedIsExact(p: Pipeline, op: Operation)
    requires WellFormed(p) && Apply(p, op).Ok? && !op.RemoveStep? && !op.RemoveEdge? && !(op.SetFile? && op.file.None?)
    ensures ExactlyUndoable(p, op)
  {
    match op
    case AddStep(step) =>
      forall i | 0 <= i < |p.edges| ensures p.edges[i].fromStep != step.id && p.edges[i].toStep != step.id {
        assert CheckEndpoints(p, p.edges[i]).None?;
      }
    case SetProperty(id, _, _) =>
      assert p.steps[StepIndex(p.steps, id)] in p.steps;
    case SetFile(path, _) =>
      if Binds(p, path) {
        var i, j :| 0 <= i < |p.steps| && 0 <= j < |p.steps[i].fileInputs| && p.steps[i].fileInputs[j].path == path;
        assert p.steps[i] in p.steps;
      }
    case _ =>
  }

  // ---- well-formedness is kept ------------------------------------------------------

  lemma EditStepKeeps(s: Step, op: Operation)
    requires OnStep(op) && EditStep(s, op).Ok?
    ensures var s' := EditStep(s, op).value.step;
            && s'.id == s.id && s'.inputs == s.inputs && s'.outputs == s.outputs && s'.fileInputs == s.fileInputs
            && (EnumsDeclared(s) ==> EnumsDeclared(s'))
  {
  }

  /** Steps that keep their ids and ports keep their edges' ends. */
  ghost predicate PortsKept(p: Pipeline, q: Pipeline) {
    forall id :: StepIndex(p.steps, id) >= 0 ==>
      && StepIndex(q.steps, id) >= 0
      && q.steps[StepIndex(q.steps, id)].inputs == p.steps[StepIndex(p.steps, id)].inputs
      && q.steps[StepIndex(q.steps, id)].outputs == p.steps[StepIndex(p.steps, id)].outputs
  }

  lemma EndpointsKept(p: Pipeline, q: Pipeline, e: Edge)
    requires PortsKept(p, q) && CheckEndpoints(p, e).None?
    ensures CheckEndpoints(q, e).None?
  {
  }

  lemma PutKeepsPorts(p: Pipeline, i: nat, s: Step)
    requires DistinctIds(p.steps) && i < |p.steps|
    requires s.id == p.steps[i].id && s.inputs == p.steps[i].inputs && s.outputs == p.steps[i].outputs
    ensures PortsKept(p, PutStep(p, i, s)) && DistinctIds(PutStep(p, i, s).steps)
  {
    var q := PutStep(p, i, s);
    assert DistinctIds(q.steps);
    forall id | StepIndex(p.steps, id) >= 0
      ensures StepIndex(q.steps, id) == StepIndex(p.steps, id)
    {
      var j := StepIndex(p.steps, id);
      assert q.steps[j].id == id;
      StepIsFound(q.steps, q.steps[j]);
    }
  }

  lemma OnStepKeepsForm(p: Pipeline, op: Operation)
    requires WellFormed(p) && OnStep(op) && Apply(p, op).Ok?
    ensures WellFormed(Apply(p, op).value.pipeline)
  {
    var i := StepIndex(p.steps, op.stepId);
    var s := p.steps[i];
    ApplyOnStepIs(p, op, i, EditStep(s, op));
    EditStepKeeps(s, op);
    var s', q := EditStep(s, op).value.step, Apply(p, op).value.pipeline;
    PutKeepsPorts(p, i, s');
    assert s in p.steps && FilesCarried(p.files, s) && EnumsDeclared(s);
    forall x | x in q.steps ensures x.id != "" && EnumsDeclared(x) && FilesCarried(q.files, x) {
      assert x == s' || x in p.steps;
      if x == s' { assert forall k :: 0 <= k < |s'.fileInputs| ==> s'.fileInputs[k] == s.fileInputs[k]; }
    }
    forall e | e in q.edges ensures CheckEndpoints(q, e).None? { EndpointsKept(p, q, e); }
  }

  lemma AddStepKeepsForm(p: Pipeline, step: Step)
    requires WellFormed(p) && Fits(p, AddStep(step)) && Apply(p, AddStep(step)).Ok?
    ensures WellFormed(Apply(p, AddStep(step)).value.pipeline)
  {
    var q := Apply(p, AddStep(step)).value.pipeline;
    forall id | StepIndex(p.steps, id) >= 0 ensures StepIndex(q.steps, id) == StepIndex(p.steps, id) {
      var j := StepIndex(p.steps, id);
      assert forall k :: 0 <= k <= j ==> q.steps[k] == p.steps[k];
    }
    forall e | e in q.edges ensures CheckEndpoints(q, e).None? { EndpointsKept(p, q, e); }
  }

  lemma DeleteKeepsDistinctIds(steps: seq<Step>, i: nat)
    requires DistinctIds(steps) && i < |steps|
    ensures DistinctIds(Delete(steps, i))
    ensures forall s :: s in Delete(steps, i) ==> s in steps
  {
    assert forall j :: 0 <= j < |Delete(steps, i)| ==> Delete(steps, i)[j] == steps[if j < i then j else j + 1];
  }

  lemma RemoveStepKeepsEnds(p: Pipeline, id: string, e: Edge)
    requires DistinctIds(p.steps) && StepIndex(p.steps, id) >= 0 && e.fromStep != id && e.toStep != id
    requires CheckEndpoints(p, e).None?
    ensures CheckEndpoints(p.(steps := Delete(p.steps, StepIndex(p.steps, id))), e).None?
  {
    StepStays(p.steps, id, e.fromStep);
    StepStays(p.steps, id, e.toStep);
  }

  lemma RemoveStepKeepsForm(p: Pipeline, id: string)
    requires WellFormed(p) && Apply(p, RemoveStep(id)).Ok?
    ensures WellFormed(Apply(p, RemoveStep(id)).value.pipeline)
  {
    var i, q := StepIndex(p.steps, id), Apply(p, RemoveStep(id)).value.pipeline;
    WithoutIsDelete(p.steps, id);
    DeleteKeepsDistinctIds(p.steps, i);
    forall e | e in q.edges ensures CheckEndpoints(q, e).None? {
      var k :| 0 <= k < |p.edges| && p.edges[k] == e;
      assert e.fromStep != id && e.toStep != id;
      RemoveStepKeepsEnds(p, id, e);
    }
  }

  lemma StepStays(steps: seq<Step>, id: string, other: string)
    requires DistinctIds(steps) && StepIndex(steps, id) >= 0 && StepIndex(steps, other) >= 0 && id != other
    ensures var rest := Delete(steps, StepIndex(steps, id));
            StepIndex(rest, other) >= 0 && rest[StepIndex(rest, other)] == steps[StepIndex(steps, other)]
  {
    var i, j := StepIndex(steps, id), StepIndex(steps, other);
    var rest := Delete(steps, i);
    assert rest[if j < i then j else j - 1] == steps[j];
    assert forall k :: 0 <= k < |rest| ==> rest[k] == steps[if k < i then k else k + 1];
    assert DistinctIds(rest);
    StepIsFound(rest, steps[j]);
  }

  lemma DeleteKeepsDistinct<T>(s: seq<T>, i: nat)
    requires Distinct(s) && i < |s|
    ensures Distinct(Delete(s, i))
  {
    assert forall j :: 0 <= j < |Delete(s, i)| ==> Delete(s, i)[j] == s[if j < i then j else j + 1];
  }

  lemma NewEdgesKeepForm(p: Pipeline, edges: seq<Edge>)
    requires WellFormed(p) && Distinct(edges)
    requires forall e :: e in edges ==> e in p.edges || CheckEndpoints(p, e).None?
    ensures WellFormed(p.(edges := edges))
  {
    var q := p.(edges := edges);
    forall e | e in q.edges ensures CheckEndpoints(q, e).None? { assert CheckEndpoints(q, e) == CheckEndpoints(p, e); }
  }

  lemma EdgesKeepForm(p: Pipeline, op: Operation)
    requires WellFormed(p) && (op.Connect? || op.RemoveEdge?) && Apply(p, op).Ok?
    ensures WellFormed(Apply(p, op).value.pipeline)
  {
    var edges, e := Apply(p, op).value.pipeline.edges, op.edge.value;
    if op.RemoveEdge? {
      WithoutEdgeIsDelete(p.edges, e);
      DeleteKeepsDistinct(p.edges, EdgeIndex(p.edges, e));
      WithoutEdgeMembers(p.edges, e);
    }
    NewEdgesKeepForm(p, edges);
  }

  /** A file other than the detached one stays where it can be found. */
  lemma FileStays(files: seq<File>, i: nat, path: string)
    requires i < |files| && files[i].path != path && FileIndex(files, path) >= 0
    ensures FileIndex(Delete(files, i), path) >= 0
  {
    var j := FileIndex(files, path);
    assert Delete(files, i)[if j < i then j else j - 1] == files[j];
  }

  lemma FilesKeepForm(p: Pipeline, op: Operation)
    requires WellFormed(p) && op.SetFile? && Apply(p, op).Ok?
    ensures WellFormed(Apply(p, op).value.pipeline)
  {
    var i, q := FileIndex(p.files, op.path), Apply(p, op).value.pipeline;
    assert q.steps == p.steps && q.edges == p.edges;
    if op.file.None? {
      assert forall j :: 0 <= j < |q.files| ==> q.files[j] == p.files[if j < i then j else j + 1];
    }
    assert DistinctPaths(q.files);
    forall s | s in q.steps ensures s.id != "" && EnumsDeclared(s) && FilesCarried(q.files, s) {
      forall k | 0 <= k < |s.fileInputs| ensures FileIndex(q.files, s.fileInputs[k].path) >= 0 {
        assert FilesCarried(p.files, s);
        FileKept(p, op, s, k);
      }
    }
    forall x | x in q.edges ensures CheckEndpoints(q, x).None? { assert CheckEndpoints(q, x) == CheckEndpoints(p, x); }
  }

  lemma FileKept(p: Pipeline, op: Operation, s: Step, k: nat)
    requires op.SetFile? && Apply(p, op).Ok? && s in p.steps && k < |s.fileInputs|
    requires FileIndex(p.files, s.fileInputs[k].path) >= 0
    ensures FileIndex(Apply(p, op).value.pipeline.files, s.fileInputs[k].path) >= 0
  {
    var path, q := s.fileInputs[k].path, Apply(p, op).value.pipeline;
    var i, j := FileIndex(p.files, op.path), FileIndex(p.files, path);
    if op.file.None? {
      var n :| 0 <= n < |p.steps| && p.steps[n] == s;
      assert p.steps[n].fileInputs[k].path == path;
      FileStays(p.files, i, path);
    } else {
      assert q.files[j].path == path;
    }
  }

  lemma ApplyKeepsForm(p: Pipeline, op: Operation)
    requires WellFormed(p) && Fits(p, op) && Apply(p, op).Ok?
    ensures WellFormed(Apply(p, op).value.pipeline)
  {
    if OnStep(op) {
      OnStepKeepsForm(p, op);
    } else if op.SetFile? {
      FilesKeepForm(p, op);
    } else if op.AddStep? {
      AddStepKeepsForm(p, op.step);
    } else if op.RemoveStep? {
      RemoveStepKeepsForm(p, op.stepId);
    } else {
      EdgesKeepForm(p, op);
    }
  }

  // ---- whole histories -------------------------------------------------------------

  datatype Played = Played(pipeline: Pipeline, undo: seq<Operation>)

  /** Apply operations in order; the undo list is their inverses, latest first. */
  function Play(p: Pipeline, ops: seq<Operation>): (r: Result<Played, Refusal>)
    decreases |ops|
  {
    if ops == [] then Ok(Played(p, []))
    else
      match Apply(p, ops[0])
      case Err(e) => Err(e)
      case Ok(edit) =>
        match Play(edit.pipeline, ops[1..])
        case Err(e) => Err(e)
        case Ok(rest) => Ok(Played(rest.pipeline, rest.undo + [edit.inverse]))
  }

  /** Every operation of a history fits where it is applied. */
  ghost predicate AllFit(p: Pipeline, ops: seq<Operation>)
    decreases |ops|
  {
    ops == [] || (Fits(p, ops[0]) && (Apply(p, ops[0]).Ok? ==> AllFit(Apply(p, ops[0]).value.pipeline, ops[1..])))
  }

  lemma {:induction false} PlayAppends(p: Pipeline, ops: seq<Operation>, last: Operation)
    requires Play(p, ops).Ok? && Apply(Play(p, ops).value.pipeline, last).Ok?
    ensures Play(p, ops + [last]).Ok?
    ensures Play(p, ops + [last]).value.pipeline == Apply(Play(p, ops).value.pipeline, last).value.pipeline
    decreases |ops|
  {
    if ops == [] {
      assert [last][1..] == [];
    } else {
      assert (ops + [last])[1..] == ops[1..] + [last];
      PlayAppends(Apply(p, ops[0]).value.pipeline, ops[1..], last);
    }
  }

  /** One inverse, applied to any ordering of what the edit left. */
  lemma UndoReordered(p: Pipeline, op: Operation, middle: Pipeline)
    requires WellFormed(p) && Fits(p, op) && Apply(p, op).Ok? && Same(Apply(p, op).value.pipeline, middle)
    ensures WellFormed(Apply(p, op).value.pipeline)
    ensures Apply(middle, Apply(p, op).value.inverse).Ok?
    ensures Same(Apply(middle, Apply(p, op).value.inverse).value.pipeline, p)
  {
    ApplyKeepsForm(p, op);
    UndoOne(p, op);
    ApplyForgetsOrder(Apply(p, op).value.pipeline, middle, Apply(p, op).value.inverse);
  }

  /**
   Undoing any accepted history of a well-formed definition, from its end or any
   reordering of its end, is accepted at every step and restores the definition up
   to the order of its steps, edges and files.
   */
  lemma {:induction false} UndoHistory(p: Pipeline, ops: seq<Operation>, end: Pipeline)
    requires WellFormed(p) && AllFit(p, ops) && Play(p, ops).Ok? && Same(Play(p, ops).value.pipeline, end)
    ensures Play(end, Play(p, ops).value.undo).Ok?
    ensures Same(Play(end, Play(p, ops).value.undo).value.pipeline, p)
    decreases |ops|
  {
    if ops != [] {
      var edit := Apply(p, ops[0]).value;
      var undo := Play(edit.pipeline, ops[1..]).value.undo;
      UndoReordered(p, ops[0], edit.pipeline);
      UndoHistory(edit.pipeline, ops[1..], end);
      UndoReordered(p, ops[0], Play(end, undo).value.pipeline);
      PlayAppends(end, undo, edit.inverse);
    }
  }
}
