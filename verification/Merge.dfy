/** An accepted rebase is a three-way merge, and accepted edits commute up to order. */
module Merge {
  import opened Prelude
  import opened Definition
  import opened Edits
  import opened Meaning
  import opened Undo
  import opened History
  import opened Rebase

  // ---- what an edit leaves alone ---------------------------------------------------

  /** The step an operation edits, adds or removes. */
  function TargetOf(op: Operation): (r: Option<string>) {
    if op.AddStep? then Some(op.step.id)
    else if op.RemoveStep? || OnStep(op) then Some(op.stepId)
    else None
  }

  predicate NamesEdge(op: Operation, e: Edge) {
    (op.Connect? || op.RemoveEdge?) && op.edge == Some(e)
  }

  lemma TouchesTarget(op: Operation, id: string)
    ensures About(id) in TouchedBy(op) <==> TargetOf(op) == Some(id)
    ensures op.SetFile? <==> Whole in TouchedBy(op)
  {
  }

  lemma LookupPut(steps: seq<Step>, i: nat, s: Step, id: string)
    requires DistinctIds(steps) && i < |steps| && s.id == steps[i].id
    ensures DistinctIds(steps[i := s])
    ensures Lookup(steps[i := s], id) == if id == s.id then Some(s) else Lookup(steps, id)
  {
    var t := steps[i := s];
    assert DistinctIds(t);
    if id == s.id {
      assert t[i] == s && s in t;
      StepIsFound(t, s);
    } else if StepIndex(steps, id) >= 0 {
      var j := StepIndex(steps, id);
      assert t[j] == steps[j] && t[j] in t;
      StepIsFound(t, t[j]);
    } else {
      assert forall j :: 0 <= j < |t| ==> t[j].id == steps[j].id;
    }
  }

  lemma LookupAppend(steps: seq<Step>, s: Step, id: string)
    requires DistinctIds(steps) && StepIndex(steps, s.id) < 0
    ensures DistinctIds(steps + [s])
    ensures Lookup(steps + [s], id) == if id == s.id then Some(s) else Lookup(steps, id)
  {
    LookupLast(steps + [s], id);
    assert (steps + [s])[..|steps|] == steps;
  }

  lemma LookupDelete(steps: seq<Step>, i: nat, id: string)
    requires DistinctIds(steps) && i < |steps|
    ensures DistinctIds(Delete(steps, i))
    ensures Lookup(Delete(steps, i), id) == if id == steps[i].id then None else Lookup(steps, id)
  {
    DeleteKeepsDistinctIds(steps, i);
    StepIsFound(steps, steps[i]);
    var rest := Delete(steps, i);
    if id == steps[i].id {
      assert forall j :: 0 <= j < |rest| ==> rest[j] == steps[if j < i then j else j + 1];
    } else if StepIndex(steps, id) >= 0 {
      StepStays(steps, steps[i].id, id);
    } else {
      assert forall j :: 0 <= j < |rest| ==> rest[j] in steps;
    }
  }

  /** What an accepted edit makes of a step, from that step alone. */
  function Becomes(op: Operation, before: Option<Step>): (r: Option<Step>) {
    match op
    case AddStep(step) => Some(step)
    case RemoveStep(_) => None
    case _ =>
      if OnStep(op) && before.Some? && EditStep(before.value, op).Ok? then Some(EditStep(before.value, op).value.step)
      else before
  }

  lemma EditedStep(p: Pipeline, op: Operation, id: string)
    requires DistinctIds(p.steps) && OnStep(op) && Apply(p, op).Ok?
    ensures DistinctIds(Apply(p, op).value.pipeline.steps)
    ensures Lookup(Apply(p, op).value.pipeline.steps, id) ==
            if op.stepId == id then Becomes(op, Lookup(p.steps, id)) else Lookup(p.steps, id)
    ensures Apply(p, op).value.pipeline.edges == p.edges && Apply(p, op).value.pipeline.files == p.files
  {
    var i := StepIndex(p.steps, op.stepId);
    ApplyOnStepIs(p, op, i, EditStep(p.steps[i], op));
    EditStepKeeps(p.steps[i], op);
    LookupPut(p.steps, i, EditStep(p.steps[i], op).value.step, id);
  }

  lemma AddedStep(p: Pipeline, step: Step, id: string)
    requires DistinctIds(p.steps) && ApplyAddStep(p, step).Ok?
    ensures var q := ApplyAddStep(p, step).value.pipeline;
            && DistinctIds(q.steps) && q.edges == p.edges && q.files == p.files
            && Lookup(q.steps, id) == if step.id == id then Some(step) else Lookup(p.steps, id)
  {
    LookupAppend(p.steps, step, id);
  }

  lemma RemovedStep(p: Pipeline, gone: string, id: string)
    requires DistinctIds(p.steps) && ApplyRemoveStep(p, gone).Ok?
    ensures var q := ApplyRemoveStep(p, gone).value.pipeline;
            && DistinctIds(q.steps) && q.edges == p.edges && q.files == p.files
            && Lookup(q.steps, id) == if gone == id then None else Lookup(p.steps, id)
  {
    WithoutIsDelete(p.steps, gone);
    LookupDelete(p.steps, StepIndex(p.steps, gone), id);
  }

  /** An accepted edit changes the step it targets, by that step alone, and no other. */
  lemma StepFrame(p: Pipeline, op: Operation, id: string)
    requires DistinctIds(p.steps) && Apply(p, op).Ok?
    ensures DistinctIds(Apply(p, op).value.pipeline.steps)
    ensures Lookup(Apply(p, op).value.pipeline.steps, id) ==
            if TargetOf(op) == Some(id) then Becomes(op, Lookup(p.steps, id)) else Lookup(p.steps, id)
  {
    if OnStep(op) {
      EditedStep(p, op, id);
    } else if op.AddStep? {
      AddedStep(p, op.step, id);
    } else if op.RemoveStep? {
      RemovedStep(p, op.stepId, id);
    }
  }

  /** An accepted edit changes the edge it names, to present or absent, and no other. */
  lemma EdgeFrame(p: Pipeline, op: Operation, e: Edge)
    requires Apply(p, op).Ok?
    ensures e in Apply(p, op).value.pipeline.edges <==> if NamesEdge(op, e) then op.Connect? else e in p.edges
    ensures NamesEdge(op, e) ==> (op.Connect? <==> e !in p.edges)
  {
    if op.RemoveEdge? {
      WithoutEdgeMembers(p.edges, op.edge.value);
    } else if OnStep(op) {
      ApplyOnStepIs(p, op, StepIndex(p.steps, op.stepId), EditStep(p.steps[StepIndex(p.steps, op.stepId)], op));
    }
  }

  lemma RestFrame(p: Pipeline, op: Operation)
    requires Apply(p, op).Ok?
    ensures Apply(p, op).value.pipeline.id == p.id && Apply(p, op).value.pipeline.tenant == p.tenant
    ensures !op.SetFile? ==> Apply(p, op).value.pipeline.files == p.files
  {
    if OnStep(op) {
      ApplyOnStepIs(p, op, StepIndex(p.steps, op.stepId), EditStep(p.steps[StepIndex(p.steps, op.stepId)], op));
    }
  }

  function FileAt(files: seq<File>, path: string): (r: Option<File>) {
    if FileIndex(files, path) >= 0 then Some(files[FileIndex(files, path)]) else None
  }

  lemma DeletedFile(files: seq<File>, at: nat, path: string)
    requires at < |files| && files[at].path != path
    ensures FileAt(Delete(files, at), path) == FileAt(files, path)
  {
    var fewer := Delete(files, at);
    var i, k := FileIndex(files, path), FileIndex(fewer, path);
    assert forall n :: 0 <= n < |fewer| ==> fewer[n] == files[if n < at then n else n + 1];
    if i >= 0 { assert fewer[if i < at then i else i - 1] == files[i]; }
  }

  lemma AttachedFile(files: seq<File>, f: File, path: string)
    ensures var i := FileIndex(files, f.path);
            var after := if i >= 0 then files[i := f] else files + [f];
            FileAt(after, path) == if path == f.path then Some(f) else FileAt(files, path)
  {
    var i := FileIndex(files, f.path);
    var after := if i >= 0 then files[i := f] else files + [f];
    assert after[if i >= 0 then i else |files|] == f;
    var k := FileIndex(files, path);
    if k >= 0 { assert path != f.path ==> after[k] == files[k]; }
  }

  /** What the files become, path by path: the one named is as the operation says, the others as they were. */
  ghost predicate FilesBecome(op: Operation, before: seq<File>, after: seq<File>) {
    if !op.SetFile? then after == before
    else
      && (forall path :: path != op.path ==> FileAt(after, path) == FileAt(before, path))
      && (op.file.Some? ==> FileAt(after, op.path) == Some(op.file.value.(path := op.path)))
      && (op.file.None? ==> |after| == |before| - 1 && FileAt(before, op.path).Some?)
      && (op.file.None? && DistinctPaths(before) ==> FileAt(after, op.path).None?)
  }

  lemma FileFrame(p: Pipeline, op: Operation)
    requires Apply(p, op).Ok?
    ensures FilesBecome(op, p.files, Apply(p, op).value.pipeline.files)
  {
    if op.SetFile? {
      var i := FileIndex(p.files, op.path);
      forall path | path != op.path
        ensures FileAt(Apply(p, op).value.pipeline.files, path) == FileAt(p.files, path)
      {
        if op.file.Some? {
          AttachedFile(p.files, op.file.value.(path := op.path), path);
        } else {
          DeletedFile(p.files, i, path);
        }
      }
      if op.file.Some? { AttachedFile(p.files, op.file.value.(path := op.path), op.path); }
    } else {
      RestFrame(p, op);
    }
  }

  // ---- the rebase ----------------------------------------------------------------------

  datatype Submission = Landed(pipeline: Pipeline) | Refused(why: Refusal) | Conflict

  /**
   An edit written against base and submitted when the head holds `head`. Revisions
   are content-addressed, so the head is the base exactly when the definitions are
   equal.
   */
  function Submit(base: Pipeline, head: Pipeline, op: Operation): (r: Submission) {
    if head == base then
      (match Apply(base, op) case Ok(e) => Landed(e.pipeline) case Err(w) => Refused(w))
    else if TouchedBy(op) * Changed(base, head) != {} then Conflict
    else
      (match Apply(head, op) case Ok(e) => Landed(e.pipeline) case Err(_) => Conflict)
  }

  predicate Disjoint(base: Pipeline, head: Pipeline, op: Operation) {
    head == base || TouchedBy(op) * Changed(base, head) == {}
  }

  /** A step the edit targets was the same at base and at head. */
  lemma TargetUntouched(base: Pipeline, head: Pipeline, op: Operation, id: string)
    requires DistinctIds(base.steps) && DistinctIds(head.steps) && Disjoint(base, head, op) && TargetOf(op) == Some(id)
    ensures Lookup(base.steps, id) == Lookup(head.steps, id)
  {
    if head != base {
      TouchesTarget(op, id);
      ChangedSteps(base, head, id);
      assert About(id) !in TouchedBy(op) * Changed(base, head);
    }
  }

  /**
   What a three-way merge leaves: each step the operation claims is what the operation
   makes of it as the base had it, the edge it names is there or gone as it says, so is
   the file it names (which only an edit of the head itself may name), and everything
   else is the head's.
   */
  ghost predicate Merged(base: Pipeline, head: Pipeline, op: Operation, to: Pipeline) {
    && (forall id :: Lookup(to.steps, id) ==
          if About(id) in TouchedBy(op) then Becomes(op, Lookup(base.steps, id)) else Lookup(head.steps, id))
    && (OnStep(op) ==> StepMerged(op, Lookup(base.steps, op.stepId), Lookup(to.steps, op.stepId)))
    && (forall e :: e in to.edges <==> if NamesEdge(op, e) then op.Connect? else e in head.edges)
    && (if head == base then FilesBecome(op, base.files, to.files) else to.files == head.files)
    && to.id == head.id && to.tenant == head.tenant
  }

  /** Both have the step, and it is what the operation says it makes of the base's. */
  ghost predicate StepMerged(op: Operation, before: Option<Step>, after: Option<Step>)
    requires OnStep(op)
  {
    before.Some? && after.Some? && StepBecomes(op, before.value, after.value)
  }

  lemma EditMerges(base: Pipeline, head: Pipeline, op: Operation)
    requires DistinctIds(base.steps) && DistinctIds(head.steps) && Disjoint(base, head, op)
    requires OnStep(op) && Apply(head, op).Ok?
    ensures StepMerged(op, Lookup(base.steps, op.stepId), Lookup(Apply(head, op).value.pipeline.steps, op.stepId))
  {
    var i := StepIndex(head.steps, op.stepId);
    StepFrame(head, op, op.stepId);
    TargetUntouched(base, head, op, op.stepId);
    StepIsFound(head.steps, head.steps[i]);
    EditStepMeans(head.steps[i], op);
  }

  function HasKey(key: string): (r: Edge -> bool) {
    (e: Edge) => EdgeKey(e) == key
  }

  /** The key of an edge is carried as often as it was, once or not at all. */
  ghost predicate SameKey(base: Pipeline, head: Pipeline, e: Edge) {
    if exists f :: f in base.edges && EdgeKey(f) == EdgeKey(e)
    then exists i: nat :: Only(head.edges, HasKey(EdgeKey(e)), i)
    else forall f :: f in head.edges ==> EdgeKey(f) != EdgeKey(e)
  }

  /**
   Nobody else has changed what an operation is about: the step it edits is as it was,
   the ends of its edge are there or not as they were, and so is the edge. A file edit
   is about the whole definition.
   */
  ghost predicate Undisturbed(base: Pipeline, head: Pipeline, op: Operation) {
    match op
    case AddStep(step) => Lookup(base.steps, step.id) == Lookup(head.steps, step.id)
    case Connect(edge) => EndsStay(base, head, EdgeOf(edge)) && SameKey(base, head, EdgeOf(edge))
    case RemoveEdge(edge) => EndsStay(base, head, EdgeOf(edge)) && SameKey(base, head, EdgeOf(edge))
    case SetFile(_, _) => false
    case _ => Lookup(base.steps, op.stepId) == Lookup(head.steps, op.stepId)
  }

  ghost predicate EndsStay(base: Pipeline, head: Pipeline, e: Edge) {
    && (Lookup(base.steps, e.fromStep).Some? <==> Lookup(head.steps, e.fromStep).Some?)
    && (Lookup(base.steps, e.toStep).Some? <==> Lookup(head.steps, e.toStep).Some?)
  }

  lemma {:induction false} KeysAre(edges: seq<Edge>, key: string)
    ensures key in Keys(edges) <==> exists f :: f in edges && EdgeKey(f) == key
  {
    if edges != [] {
      var n := |edges| - 1;
      KeysAre(edges[..n], key);
      assert edges == edges[..n] + [edges[n]];
    }
  }

  lemma {:induction false} KeyCountIs(edges: seq<Edge>, key: string)
    ensures KeyCount(edges, key) == CountOf(edges, HasKey(key))
  {
    if edges != [] {
      var n := |edges| - 1;
      KeyCountIs(edges[..n], key);
      ScanOne(edges, HasKey(key), n);
      assert edges[..n + 1] == edges;
    }
  }

  lemma SameKeyMeans(base: Pipeline, head: Pipeline, e: Edge)
    ensures Joins(EdgeKey(e)) !in Changed(base, head) <==> SameKey(base, head, e)
  {
    var test := HasKey(EdgeKey(e));
    ChangedEdges(base, head, EdgeKey(e));
    KeysAre(base.edges, EdgeKey(e));
    KeyCountIs(head.edges, EdgeKey(e));
    CountMeans(head.edges, test);
    assert NoneOf(head.edges, test) <==> forall f :: f in head.edges ==> EdgeKey(f) != EdgeKey(e);
  }

  lemma Separate(touched: set<Claim>, changed: set<Claim>)
    ensures touched * changed == {} <==> forall c :: c in touched ==> c !in changed
  {
    forall c | c in touched && c in changed ensures c in touched * changed {}
  }

  lemma EdgeDisjoint(base: Pipeline, head: Pipeline, op: Operation)
    requires DistinctIds(base.steps) && DistinctIds(head.steps) && (op.Connect? || op.RemoveEdge?)
    ensures TouchedBy(op) * Changed(base, head) == {} <==> Undisturbed(base, head, op)
  {
    var e := EdgeOf(op.edge);
    ChangedSteps(base, head, e.fromStep);
    ChangedSteps(base, head, e.toStep);
    SameKeyMeans(base, head, e);
    Separate(TouchedBy(op), Changed(base, head));
  }

  lemma StepDisjoint(base: Pipeline, head: Pipeline, op: Operation, id: string)
    requires DistinctIds(base.steps) && DistinctIds(head.steps) && TargetOf(op) == Some(id)
    ensures TouchedBy(op) * Changed(base, head) == {} <==> Lookup(base.steps, id) == Lookup(head.steps, id)
  {
    ChangedSteps(base, head, id);
    Separate(TouchedBy(op), Changed(base, head));
    TouchesTarget(op, id);
  }

  lemma DisjointMeans(base: Pipeline, head: Pipeline, op: Operation)
    requires DistinctIds(base.steps) && DistinctIds(head.steps)
    ensures TouchedBy(op) * Changed(base, head) == {} <==> Undisturbed(base, head, op)
  {
    if op.Connect? || op.RemoveEdge? {
      EdgeDisjoint(base, head, op);
    } else if op.SetFile? {
      ChangedSteps(base, head, "");
      Separate(TouchedBy(op), Changed(base, head));
    } else {
      StepDisjoint(base, head, op, TargetOf(op).value);
    }
  }

  /**
   An edit lands exactly when the head accepts it and, if the head is not its base,
   nobody has changed what it is about; it is refused outright only at its base.
   */
  lemma SubmitMeans(base: Pipeline, head: Pipeline, op: Operation)
    requires DistinctIds(base.steps) && DistinctIds(head.steps)
    ensures Submit(base, head, op).Landed? <==> Accepts(head, op) && (head == base || Undisturbed(base, head, op))
    ensures Submit(base, head, op).Landed? ==> Leaves(head, op, Submit(base, head, op).pipeline)
    ensures Submit(base, head, op).Refused? <==> head == base && !Accepts(head, op)
  {
    ApplyMeans(head, op);
    DisjointMeans(base, head, op);
    SubmitIs(base, head, op, Apply(head, op));
  }

  lemma SubmitIs(base: Pipeline, head: Pipeline, op: Operation, at: Outcome)
    requires at == Apply(head, op)
    ensures Submit(base, head, op) ==
            if head != base && TouchedBy(op) * Changed(base, head) != {} then Conflict
            else if at.Ok? then Landed(at.value.pipeline)
            else if head == base then Refused(at.error)
            else Conflict
  {
  }

  /** Every edit that lands is a three-way merge, whether or not its base would have taken it. */
  lemma ThreeWayMerge(base: Pipeline, head: Pipeline, op: Operation)
    requires DistinctIds(base.steps) && DistinctIds(head.steps) && Submit(base, head, op).Landed?
    ensures Merged(base, head, op, Submit(base, head, op).pipeline)
  {
    var merged := Submit(base, head, op).pipeline;
    LandedIsApplied(base, head, op);
    forall id ensures Lookup(merged.steps, id) ==
                if About(id) in TouchedBy(op) then Becomes(op, Lookup(base.steps, id)) else Lookup(head.steps, id)
    {
      StepFrame(head, op, id);
      TouchesTarget(op, id);
      if TargetOf(op) == Some(id) { TargetUntouched(base, head, op, id); }
    }
    forall e ensures e in merged.edges <==> if NamesEdge(op, e) then op.Connect? else e in head.edges {
      EdgeFrame(head, op, e);
    }
    RestFrame(head, op);
    FileFrame(head, op);
    if OnStep(op) { EditMerges(base, head, op); }
  }

  /** Where the base would have taken it too, what is claimed is what it would have made there. */
  lemma MergeKeepsMine(base: Pipeline, head: Pipeline, op: Operation, id: string, e: Edge)
    requires DistinctIds(base.steps) && DistinctIds(head.steps) && Submit(base, head, op).Landed? && Apply(base, op).Ok?
    ensures var merged, mine := Submit(base, head, op).pipeline, Apply(base, op).value.pipeline;
            && (About(id) in TouchedBy(op) ==> Lookup(merged.steps, id) == Lookup(mine.steps, id))
            && (NamesEdge(op, e) ==> (e in merged.edges <==> e in mine.edges))
            && (head == base ==> merged.files == mine.files)
  {
    ThreeWayMerge(base, head, op);
    StepFrame(base, op, id);
    TouchesTarget(op, id);
    EdgeFrame(base, op, e);
  }

  lemma LandedIsApplied(base: Pipeline, head: Pipeline, op: Operation)
    requires Submit(base, head, op).Landed?
    ensures Disjoint(base, head, op) && Apply(head, op).Ok?
    ensures Submit(base, head, op).pipeline == Apply(head, op).value.pipeline
    ensures DistinctIds(base.steps) && DistinctIds(head.steps) && head != base ==> !op.SetFile?
  {
    TouchesTarget(op, "");
    if DistinctIds(base.steps) && DistinctIds(head.steps) && head != base {
      ChangedSteps(base, head, "");
      assert Whole in TouchedBy(op) * Changed(base, head) <==> op.SetFile?;
    }
  }

  // ---- when a disjoint edit still applies ---------------------------------------------------

  /**
   What a head can have done to a disjoint edit: wired up the step it removes, or
   taken away a port the new edge needs. Nothing else.
   */
  predicate StillApplies(head: Pipeline, op: Operation) {
    match op
    case RemoveStep(id) => !Connected(head, id)
    case Connect(edge) =>
      edge.Some? && HasEnds(Lookup(head.steps, edge.value.fromStep), Lookup(head.steps, edge.value.toStep), edge.value)
    case _ => true
  }

  predicate HasEnds(source: Option<Step>, target: Option<Step>, e: Edge) {
    source.Some? && target.Some? && HasPort(source.value.outputs, e.fromPort) && HasPort(target.value.inputs, e.toPort)
  }

  predicate PlainEdge(op: Operation) {
    (op.Connect? || op.RemoveEdge?) && op.edge.Some? ==> PlainNames(op.edge.value)
  }

  lemma EdgeUntouched(base: Pipeline, head: Pipeline, op: Operation, e: Edge)
    requires Disjoint(base, head, op) && NamesEdge(op, e) && PlainNames(e)
    ensures e in base.edges <==> e in head.edges
  {
    if head != base {
      assert Joins(EdgeKey(e)) in TouchedBy(op);
      assert Joins(EdgeKey(e)) !in TouchedBy(op) * Changed(base, head);
      EdgeUnchanged(base, head, e);
    }
  }

  lemma StepEditStillApplies(base: Pipeline, head: Pipeline, op: Operation)
    requires OnStep(op) && Lookup(base.steps, op.stepId) == Lookup(head.steps, op.stepId)
    ensures ApplyOnStep(base, op).Ok? <==> ApplyOnStep(head, op).Ok?
  {
  }

  lemma StepLifeStillApplies(base: Pipeline, head: Pipeline, step: Step, id: string)
    ensures Lookup(base.steps, step.id) == Lookup(head.steps, step.id) && ApplyAddStep(base, step).Ok? ==>
            ApplyAddStep(head, step).Ok?
    ensures Lookup(base.steps, id) == Lookup(head.steps, id) && ApplyRemoveStep(base, id).Ok? ==>
              (ApplyRemoveStep(head, id).Ok? <==> !Connected(head, id))
  {
  }

  lemma EdgeEditStillApplies(head: Pipeline, e: Edge)
    ensures ApplyConnect(head, Some(e)).Ok? <==> StillApplies(head, Connect(Some(e))) && e !in head.edges
    ensures ApplyRemoveEdge(head, Some(e)).Ok? <==> e in head.edges
  {
  }

  /** The head has no edge that a new one would repeat, and still has the edge to remove. */
  predicate EdgeIsFree(head: Pipeline, op: Operation) {
    (op.Connect? || op.RemoveEdge?) && op.edge.Some? ==> (op.Connect? <==> op.edge.value !in head.edges)
  }

  /** With plain names, disjoint claims see to that. */
  lemma PlainEdgeIsFree(base: Pipeline, head: Pipeline, op: Operation)
    requires Apply(base, op).Ok? && Disjoint(base, head, op) && PlainEdge(op)
    ensures EdgeIsFree(head, op)
  {
    if op.Connect? || op.RemoveEdge? {
      EdgeUntouched(base, head, op, op.edge.value);
      EdgeFrame(base, op, op.edge.value);
    }
  }

  lemma NotWhole(base: Pipeline, head: Pipeline, op: Operation)
    requires DistinctIds(base.steps) && DistinctIds(head.steps) && TouchedBy(op) * Changed(base, head) == {}
    ensures !op.SetFile?
  {
    TouchesTarget(op, "");
    ChangedSteps(base, head, "");
    assert Whole in TouchedBy(op) * Changed(base, head) <==> op.SetFile?;
  }

  /**
   An edit the base accepted, and whose claims nothing changed, is accepted by the
   head exactly when a removed step has not been wired up, a new edge still has its
   ports, and its edge is as free there as it was.
   */
  lemma DisjointEditApplies(base: Pipeline, head: Pipeline, op: Operation)
    requires DistinctIds(base.steps) && DistinctIds(head.steps) && head != base
    requires Apply(base, op).Ok? && TouchedBy(op) * Changed(base, head) == {}
    ensures Submit(base, head, op).Landed? <==> StillApplies(head, op) && EdgeIsFree(head, op)
  {
    NotWhole(base, head, op);
    if op.Connect? || op.RemoveEdge? {
      EdgeEditStillApplies(head, op.edge.value);
    } else if OnStep(op) {
      TargetUntouched(base, head, op, op.stepId);
      StepEditStillApplies(base, head, op);
    } else if op.AddStep? {
      TargetUntouched(base, head, op, op.step.id);
      StepLifeStillApplies(base, head, op.step, op.step.id);
    } else {
      TargetUntouched(base, head, op, op.stepId);
      if |base.steps| > 0 { StepLifeStillApplies(base, head, base.steps[0], op.stepId); }
    }
  }

  /**
   An edit its head took is one its base refuses exactly when the base still wires up
   the step it removes, has not the ports its edge needs, or has that edge otherwise.
   */
  lemma BaseWouldTake(base: Pipeline, head: Pipeline, op: Operation)
    requires DistinctIds(base.steps) && DistinctIds(head.steps) && head != base && Submit(base, head, op).Landed?
    ensures Apply(base, op).Ok? <==> StillApplies(base, op) && EdgeIsFree(base, op)
  {
    LandedIsApplied(base, head, op);
    if op.Connect? || op.RemoveEdge? {
      EdgeEditStillApplies(base, op.edge.value);
    } else if OnStep(op) {
      TargetUntouched(base, head, op, op.stepId);
      StepEditStillApplies(base, head, op);
    } else if op.AddStep? {
      TargetUntouched(base, head, op, op.step.id);
      StepLifeStillApplies(head, base, op.step, op.step.id);
    } else {
      TargetUntouched(base, head, op, op.stepId);
      if |head.steps| > 0 { StepLifeStillApplies(head, base, head.steps[0], op.stepId); }
    }
  }

  /** There are such edits: every removal of a wired step, once somebody else has taken its edges away. */
  lemma HeadTakesWhatBaseRefuses(base: Pipeline, id: string)
    requires DistinctIds(base.steps) && StepIndex(base.steps, id) >= 0 && Connected(base, id)
    ensures Apply(base, RemoveStep(id)) == Err(StillConnected)
    ensures Submit(base, base.(edges := []), RemoveStep(id)).Landed?
  {
    var head := base.(edges := []);
    ChangedSteps(base, head, id);
    assert base.edges != [];
    assert TouchedBy(RemoveStep(id)) * Changed(base, head) == {};
  }

  // ---- either order ---------------------------------------------------------------------

  lemma RemoveEdgeKeepsDistinct(p: Pipeline, edge: Option<Edge>)
    requires Distinct(p.edges) && ApplyRemoveEdge(p, edge).Ok?
    ensures Distinct(ApplyRemoveEdge(p, edge).value.pipeline.edges)
  {
    WithoutEdgeIsDelete(p.edges, edge.value);
    DeleteKeepsDistinct(p.edges, EdgeIndex(p.edges, edge.value));
  }

  lemma ConnectKeepsDistinct(p: Pipeline, edge: Option<Edge>)
    requires Distinct(p.edges) && ApplyConnect(p, edge).Ok?
    ensures Distinct(ApplyConnect(p, edge).value.pipeline.edges)
  {
  }

  lemma ApplyKeepsDistinct(p: Pipeline, op: Operation)
    requires DistinctIds(p.steps) && Distinct(p.edges) && Apply(p, op).Ok?
    ensures DistinctIds(Apply(p, op).value.pipeline.steps) && Distinct(Apply(p, op).value.pipeline.edges)
  {
    StepFrame(p, op, "");
    if op.RemoveEdge? {
      RemoveEdgeKeepsDistinct(p, op.edge);
    } else if op.Connect? {
      ConnectKeepsDistinct(p, op.edge);
    } else if OnStep(op) {
      EditedStep(p, op, "");
    }
  }

  lemma SameByMembers<T>(s: seq<T>, t: seq<T>)
    requires Distinct(s) && Distinct(t) && forall x :: x in s <==> x in t
    ensures multiset(s) == multiset(t)
  {
    forall x ensures multiset(s)[x] == multiset(t)[x] {
      AtMostOnce(s, x);
      AtMostOnce(t, x);
      assert x in multiset(s) <==> x in s;
      assert x in multiset(t) <==> x in t;
    }
  }

  lemma SameByLookup(s: seq<Step>, t: seq<Step>)
    requires DistinctIds(s) && DistinctIds(t) && forall id :: Lookup(s, id) == Lookup(t, id)
    ensures multiset(s) == multiset(t)
  {
    forall x ensures x in s <==> x in t {
      if x in s { StepIsFound(s, x); assert Lookup(s, x.id) == Lookup(t, x.id); }
      if x in t { StepIsFound(t, x); assert Lookup(s, x.id) == Lookup(t, x.id); }
    }
    assert Distinct(s) && Distinct(t);
    SameByMembers(s, t);
  }

  /** One side of the square: what the second editor's landing holds of a step. */
  lemma LandingStep(base: Pipeline, a: Operation, b: Operation, id: string)
    requires DistinctIds(base.steps) && Apply(base, a).Ok? && Apply(base, b).Ok?
    requires Submit(base, Apply(base, a).value.pipeline, b).Landed?
    ensures Lookup(Submit(base, Apply(base, a).value.pipeline, b).pipeline.steps, id) ==
            if TargetOf(b) == Some(id) then Becomes(b, Lookup(base.steps, id))
            else if TargetOf(a) == Some(id) then Becomes(a, Lookup(base.steps, id))
            else Lookup(base.steps, id)
    ensures TargetOf(a) == Some(id) && TargetOf(b) == Some(id) ==>
            Becomes(a, Lookup(base.steps, id)) == Lookup(base.steps, id)
  {
    var head := Apply(base, a).value.pipeline;
    StepFrame(base, a, id);
    LandedIsApplied(base, head, b);
    StepFrame(head, b, id);
    if TargetOf(b) == Some(id) { TargetUntouched(base, head, b, id); }
  }

  lemma LandingEdge(base: Pipeline, a: Operation, b: Operation, e: Edge)
    requires Apply(base, a).Ok? && Apply(base, b).Ok? && Submit(base, Apply(base, a).value.pipeline, b).Landed?
    ensures e in Submit(base, Apply(base, a).value.pipeline, b).pipeline.edges <==>
            if NamesEdge(b, e) then b.Connect? else if NamesEdge(a, e) then a.Connect? else e in base.edges
    ensures !(NamesEdge(a, e) && NamesEdge(b, e))
  {
    var head := Apply(base, a).value.pipeline;
    EdgeFrame(base, a, e);
    EdgeFrame(base, b, e);
    LandedIsApplied(base, head, b);
    EdgeFrame(head, b, e);
  }

  lemma LandingFiles(base: Pipeline, a: Operation, b: Operation)
    requires DistinctIds(base.steps) && Apply(base, a).Ok? && Apply(base, b).Ok?
    requires Submit(base, Apply(base, a).value.pipeline, b).Landed?
    requires Submit(base, Apply(base, b).value.pipeline, a).Landed?
    ensures Submit(base, Apply(base, a).value.pipeline, b).pipeline.files ==
            Submit(base, Apply(base, b).value.pipeline, a).pipeline.files
  {
    var ha, hb := Apply(base, a).value.pipeline, Apply(base, b).value.pipeline;
    StepFrame(base, a, "");
    StepFrame(base, b, "");
    LandedIsApplied(base, ha, b);
    LandedIsApplied(base, hb, a);
    RestFrame(base, a);
    RestFrame(base, b);
    RestFrame(ha, b);
    RestFrame(hb, a);
  }

  /** When both orders of two edits are accepted, they leave the same definition up to list order. */
  lemma EditsCommute(base: Pipeline, a: Operation, b: Operation)
    requires DistinctIds(base.steps) && Distinct(base.edges) && Apply(base, a).Ok? && Apply(base, b).Ok?
    requires Submit(base, Apply(base, a).value.pipeline, b).Landed?
    requires Submit(base, Apply(base, b).value.pipeline, a).Landed?
    ensures Same(Submit(base, Apply(base, a).value.pipeline, b).pipeline,
                 Submit(base, Apply(base, b).value.pipeline, a).pipeline)
  {
    var ha, hb := Apply(base, a).value.pipeline, Apply(base, b).value.pipeline;
    var ab, ba := Submit(base, ha, b).pipeline, Submit(base, hb, a).pipeline;
    LandedIsApplied(base, ha, b);
    LandedIsApplied(base, hb, a);
    ApplyKeepsDistinct(base, a);
    ApplyKeepsDistinct(base, b);
    ApplyKeepsDistinct(ha, b);
    ApplyKeepsDistinct(hb, a);
    forall id ensures Lookup(ab.steps, id) == Lookup(ba.steps, id) {
      LandingStep(base, a, b, id);
      LandingStep(base, b, a, id);
    }
    SameByLookup(ab.steps, ba.steps);
    forall e ensures e in ab.edges <==> e in ba.edges {
      LandingEdge(base, a, b, e);
      LandingEdge(base, b, a, e);
    }
    SameByMembers(ab.edges, ba.edges);
    LandingFiles(base, a, b);
    RestFrame(base, a);
    RestFrame(base, b);
    RestFrame(ha, b);
    RestFrame(hb, a);
  }
}
