/**
 The dry run: which steps of a pipeline would be served from cache. A step can be
 asked about only when every step that feeds it was itself a hit, so the plan walks
 the levels; what it finds is the one answer there is.
 */
module Plan {
  import opened Prelude
  import opened Definition
  import opened Dag
  import opened Levels

  /** A hit's output digests, port by port. */
  type Ports = map<string, Digest>

  type Known = map<string, Ports>

  /** Whether a step with these input digests is recorded: eligibility, its key and the lookup. */
  type Oracle = (Step, seq<Digest>) -> Option<Ports>

  function At(known: Known, id: string): (r: Option<Ports>) {
    if id in known then Some(known[id]) else None
  }

  // ---- one step's inputs ---------------------------------------------------------------------------

  function ByPath(files: seq<File>): (r: map<string, File>) {
    if files == [] then map[] else ByPath(files[..|files| - 1])[files[|files| - 1].path := files[|files| - 1]]
  }

  /** The digests of the files a step reads; none of them may be missing, or have none. */
  function FileDigests(files: map<string, File>, bindings: seq<FileInput>): (r: Option<seq<Digest>>) {
    if bindings == [] then Some([])
    else
      var before, f := FileDigests(files, bindings[..|bindings| - 1]), bindings[|bindings| - 1];
      if before.None? || f.path !in files || files[f.path].digest.hex == "" then None
      else Some(before.value + [files[f.path].digest])
  }

  /** The digests on the edges into a step, all of which must be known. */
  function EdgeDigests(edges: seq<Edge>, id: string, known: Known): (r: Option<seq<Digest>>) {
    if edges == [] then Some([])
    else
      var before, e := EdgeDigests(edges[..|edges| - 1], id, known), edges[|edges| - 1];
      if e.toStep != id then before
      else if before.None? || e.fromStep !in known || e.fromPort !in known[e.fromStep] then None
      else Some(before.value + [known[e.fromStep][e.fromPort]])
  }

  function Inputs(p: Pipeline, step: Step, known: Known): (r: Option<seq<Digest>>) {
    var files := FileDigests(ByPath(p.files), step.fileInputs);
    var edges := EdgeDigests(p.edges, step.id, known);
    if files.None? || edges.None? then None else Some(files.value + edges.value)
  }

  method FileInputs(p: Pipeline, step: Step) returns (r: Option<seq<Digest>>)
    ensures r == FileDigests(ByPath(p.files), step.fileInputs)
  {
    var files, bindings := ByPath(p.files), step.fileInputs;
    var out := [];
    var i := 0;
    while i < |bindings|
      invariant 0 <= i <= |bindings| && FileDigests(files, bindings[..i]) == Some(out)
    {
      var f := bindings[i];
      assert bindings[..i + 1][..i] == bindings[..i];
      if f.path !in files || files[f.path].digest.hex == "" {
        NoFilesAfter(files, bindings, i + 1);
        return None;
      }
      out := out + [files[f.path].digest];
      i := i + 1;
    }
    assert bindings[..i] == bindings;
    r := Some(out);
  }

  lemma {:induction false} NoFilesAfter(files: map<string, File>, bindings: seq<FileInput>, i: nat)
    requires i <= |bindings| && FileDigests(files, bindings[..i]).None?
    ensures FileDigests(files, bindings).None?
    decreases |bindings| - i
  {
    if i == |bindings| {
      assert bindings[..i] == bindings;
    } else {
      assert bindings[..i + 1][..i] == bindings[..i];
      NoFilesAfter(files, bindings, i + 1);
    }
  }

  lemma {:induction false} NoEdgesAfter(edges: seq<Edge>, id: string, known: Known, i: nat)
    requires i <= |edges| && EdgeDigests(edges[..i], id, known).None?
    ensures EdgeDigests(edges, id, known).None?
    decreases |edges| - i
  {
    if i == |edges| {
      assert edges[..i] == edges;
    } else {
      assert edges[..i + 1][..i] == edges[..i];
      NoEdgesAfter(edges, id, known, i + 1);
    }
  }

  method InputDigests(p: Pipeline, step: Step, known: Known) returns (r: Option<seq<Digest>>)
    ensures r == Inputs(p, step, known)
  {
    var files := FileInputs(p, step);
    if files.None? { return None; }
    var more := [];
    var i := 0;
    while i < |p.edges|
      invariant 0 <= i <= |p.edges| && EdgeDigests(p.edges[..i], step.id, known) == Some(more)
    {
      var e := p.edges[i];
      assert p.edges[..i + 1][..i] == p.edges[..i];
      if e.toStep == step.id {
        if e.fromStep !in known || e.fromPort !in known[e.fromStep] {
          NoEdgesAfter(p.edges, step.id, known, i + 1);
          return None;
        }
        more := more + [known[e.fromStep][e.fromPort]];
      }
      i := i + 1;
    }
    assert p.edges[..i] == p.edges;
    r := Some(files.value + more);
  }

  // ---- what a step's inputs are ------------------------------------------------------------------

  /** The file meant by a path: the last that has it. */
  predicate LastFile(files: seq<File>, path: string, k: nat) {
    k < |files| && files[k].path == path && forall j :: k < j < |files| ==> files[j].path != path
  }

  /** The digest a binding reads, where its file is carried and has one. */
  ghost predicate BindingReads(p: Pipeline, b: FileInput, d: Digest) {
    exists k: nat :: LastFile(p.files, b.path, k) && p.files[k].digest == d && d.hex != ""
  }

  /** The digest an edge carries, where its source is a hit with that port. */
  predicate EdgeCarries(known: Known, e: Edge, d: Digest) {
    e.fromStep in known && e.fromPort in known[e.fromStep] && known[e.fromStep][e.fromPort] == d
  }

  ghost predicate BindingKnown(p: Pipeline, b: FileInput) {
    exists d :: BindingReads(p, b, d)
  }

  ghost predicate EdgeKnown(known: Known, e: Edge) {
    exists d :: EdgeCarries(known, e, d)
  }

  function Into(id: string): (r: Edge -> seq<Edge>) {
    (e: Edge) => if e.toStep == id then [e] else []
  }

  /** The edges into a step, in order. */
  function EdgesInto(p: Pipeline, id: string): (r: seq<Edge>) {
    Collect(Into(id), p.edges)
  }

  /** The step's inputs are these: a digest for each file it reads and then one for each edge into it, in order. */
  ghost predicate InputsAre(p: Pipeline, step: Step, known: Known, inputs: seq<Digest>) {
    var n, into := |step.fileInputs|, EdgesInto(p, step.id);
    && |inputs| == n + |into|
    && (forall i :: 0 <= i < n ==> BindingReads(p, step.fileInputs[i], inputs[i]))
    && (forall i :: 0 <= i < |into| ==> EdgeCarries(known, into[i], inputs[n + i]))
  }

  /** Everything the step reads is known. */
  ghost predicate AllKnown(p: Pipeline, step: Step, known: Known) {
    && (forall b :: b in step.fileInputs ==> BindingKnown(p, b))
    && (forall e :: e in p.edges && e.toStep == step.id ==> EdgeKnown(known, e))
  }

  lemma {:induction false} ByPathIsLast(files: seq<File>, path: string)
    ensures path in ByPath(files) <==> exists k: nat :: LastFile(files, path, k)
    ensures forall k: nat :: LastFile(files, path, k) ==> path in ByPath(files) && ByPath(files)[path] == files[k]
  {
    if files != [] {
      var n := |files| - 1;
      ByPathIsLast(files[..n], path);
      if files[n].path == path {
        assert LastFile(files, path, n);
      } else {
        forall k: nat ensures LastFile(files, path, k) <==> LastFile(files[..n], path, k) {}
      }
    }
  }

  lemma BindingMeans(p: Pipeline, b: FileInput, d: Digest)
    ensures BindingReads(p, b, d) <==>
            b.path in ByPath(p.files) && ByPath(p.files)[b.path].digest == d && d.hex != ""
  {
    ByPathIsLast(p.files, b.path);
  }

  lemma {:induction false} FilesMean(p: Pipeline, bindings: seq<FileInput>)
    ensures FileDigests(ByPath(p.files), bindings).Some? <==>
            forall i :: 0 <= i < |bindings| ==> BindingKnown(p, bindings[i])
    ensures FileDigests(ByPath(p.files), bindings).Some? ==>
              var ds := FileDigests(ByPath(p.files), bindings).value;
              |ds| == |bindings| && forall i :: 0 <= i < |ds| ==> BindingReads(p, bindings[i], ds[i])
  {
    if bindings != [] {
      var n := |bindings| - 1;
      var b := bindings[n];
      FilesMean(p, bindings[..n]);
      forall d ensures BindingReads(p, b, d) <==>
                         b.path in ByPath(p.files) && ByPath(p.files)[b.path].digest == d && d.hex != ""
      {
        BindingMeans(p, b, d);
      }
      assert BindingKnown(p, b) <==> b.path in ByPath(p.files) && ByPath(p.files)[b.path].digest.hex != "" by {
        if b.path in ByPath(p.files) && ByPath(p.files)[b.path].digest.hex != "" {
          assert BindingReads(p, b, ByPath(p.files)[b.path].digest);
        }
      }
      assert forall i :: 0 <= i < n ==> bindings[..n][i] == bindings[i];
    }
  }

  lemma {:induction false} EdgesMean(edges: seq<Edge>, id: string, known: Known)
    ensures EdgeDigests(edges, id, known).Some? <==>
            forall i :: 0 <= i < |Collect(Into(id), edges)| ==> EdgeKnown(known, Collect(Into(id), edges)[i])
    ensures EdgeDigests(edges, id, known).Some? ==>
              var ds, into := EdgeDigests(edges, id, known).value, Collect(Into(id), edges);
              |ds| == |into| && forall i :: 0 <= i < |ds| ==> EdgeCarries(known, into[i], ds[i])
  {
    if edges != [] {
      var n := |edges| - 1;
      var e, into := edges[n], Collect(Into(id), edges[..n]);
      EdgesMean(edges[..n], id, known);
      if e.toStep == id {
        assert Collect(Into(id), edges) == into + [e];
        assert EdgeKnown(known, e) <==> e.fromStep in known && e.fromPort in known[e.fromStep] by {
          if e.fromStep in known && e.fromPort in known[e.fromStep] {
            assert EdgeCarries(known, e, known[e.fromStep][e.fromPort]);
          }
        }
        assert forall i :: 0 <= i < |into| ==> (into + [e])[i] == into[i];
        assert (into + [e])[|into|] == e;
      } else {
        assert Collect(Into(id), edges) == into;
      }
    }
  }

  lemma IntoMeans(p: Pipeline, id: string, e: Edge)
    ensures e in EdgesInto(p, id) <==> e in p.edges && e.toStep == id
  {
    FilterMember(Into(id), p.edges, e);
  }

  lemma FilesAllKnown(p: Pipeline, bindings: seq<FileInput>)
    ensures FileDigests(ByPath(p.files), bindings).Some? <==> forall b :: b in bindings ==> BindingKnown(p, b)
  {
    FilesMean(p, bindings);
    assert (forall i :: 0 <= i < |bindings| ==> BindingKnown(p, bindings[i])) <==>
           forall b :: b in bindings ==> BindingKnown(p, b);
  }

  lemma EdgesAllKnown(p: Pipeline, id: string, known: Known)
    ensures EdgeDigests(p.edges, id, known).Some? <==>
            forall e :: e in p.edges && e.toStep == id ==> EdgeKnown(known, e)
  {
    var into := EdgesInto(p, id);
    EdgesMean(p.edges, id, known);
    forall e ensures e in into <==> e in p.edges && e.toStep == id { IntoMeans(p, id, e); }
    assert (forall i :: 0 <= i < |into| ==> EdgeKnown(known, into[i])) <==>
           forall e :: e in into ==> EdgeKnown(known, e);
  }

  /**
   A step's inputs can be told exactly when every file it reads is carried with a
   digest and every edge into it comes from a hit with that port; they are then those
   digests, no more and no fewer.
   */
  lemma InputsMean(p: Pipeline, step: Step, known: Known)
    ensures Inputs(p, step, known).Some? <==> AllKnown(p, step, known)
    ensures Inputs(p, step, known).Some? ==> InputsAre(p, step, known, Inputs(p, step, known).value)
  {
    FilesAllKnown(p, step.fileInputs);
    EdgesAllKnown(p, step.id, known);
    FilesMean(p, step.fileInputs);
    EdgesMean(p.edges, step.id, known);
  }

  lemma OneInputs(p: Pipeline, step: Step, known: Known, a: seq<Digest>, b: seq<Digest>)
    requires InputsAre(p, step, known, a) && InputsAre(p, step, known, b)
    ensures a == b
  {
    var n := |step.fileInputs|;
    forall i | 0 <= i < |a| ensures a[i] == b[i] {
      if i < n {
        BindingMeans(p, step.fileInputs[i], a[i]);
        BindingMeans(p, step.fileInputs[i], b[i]);
      } else {
        assert EdgeCarries(known, EdgesInto(p, step.id)[i - n], a[n + (i - n)]);
        assert EdgeCarries(known, EdgesInto(p, step.id)[i - n], b[n + (i - n)]);
      }
    }
  }

  // ---- answers that depend on what comes before --------------------------------------------------

  type Question = (string, Known) -> Option<Ports>

  ghost predicate Agree(from: Sources, id: string, a: Known, b: Known) {
    id in from && forall y :: y in from[id] ==> At(a, y) == At(b, y)
  }

  /** A step's answer depends on its predecessors' answers alone. */
  ghost predicate Local(from: Sources, ask: Question) {
    forall id, a, b :: Agree(from, id, a, b) ==> ask(id, a) == ask(id, b)
  }

  /** Every step done so far has the answer that what is known gives it. */
  ghost predicate Consistent(from: Sources, ask: Question, done: set<string>, known: Known) {
    && (forall id :: id in done ==> id in from && from[id] <= done)
    && (forall id :: id in done ==> At(known, id) == ask(id, known))
    && (forall id :: id in known ==> id in done)
  }

  function Learn(known: Known, id: string, answer: Option<Ports>): (r: Known) {
    if answer.Some? then known[id := answer.value] else known
  }

  lemma LearnKeeps(from: Sources, ask: Question, done: set<string>, known: Known, x: string)
    requires Local(from, ask) && Consistent(from, ask, done, known) && Ready(from, done, x)
    ensures Consistent(from, ask, done + {x}, Learn(known, x, ask(x, known)))
  {
    var after := Learn(known, x, ask(x, known));
    forall id | id in done + {x} ensures At(after, id) == ask(id, after) {
      assert Agree(from, id, known, after);
      assert ask(id, known) == ask(id, after);
    }
  }

  lemma {:induction false} AgreeBefore(
    from: Sources, ask: Question, levels: seq<seq<string>>, k: nat, a: Known, b: Known, x: string)
    requires Local(from, ask) && InWaves(from, levels) && k <= |levels| && x in Before(levels, k)
    requires Consistent(from, ask, from.Keys, a) && Consistent(from, ask, from.Keys, b)
    ensures At(a, x) == At(b, x)
    decreases k
  {
    var m := InSomeLevel(levels, k, x);
    LevelIsReady(from, levels, m, x);
    forall y | y in from[x] ensures At(a, y) == At(b, y) { AgreeBefore(from, ask, levels, m, a, b, y); }
    assert Agree(from, x, a, b);
    assert ask(x, a) == ask(x, b);
  }

  /** The equations have one solution, so the order the steps were asked in is not in it. */
  lemma OneAnswer(from: Sources, ask: Question, levels: seq<seq<string>>, a: Known, b: Known)
    requires Local(from, ask) && InWaves(from, levels) && forall x :: x in from ==> x in Before(levels, |levels|)
    requires Consistent(from, ask, from.Keys, a) && Consistent(from, ask, from.Keys, b)
    ensures a == b
  {
    forall x ensures At(a, x) == At(b, x) {
      if x in from { AgreeBefore(from, ask, levels, |levels|, a, b, x); }
    }
    assert forall x :: x in a ==> At(a, x) == Some(a[x]);
    assert forall x :: x in b ==> At(b, x) == Some(b[x]);
    assert forall x :: x in a <==> At(a, x).Some?;
    assert a.Keys == b.Keys;
  }

  // ---- the plan -------------------------------------------------------------------------------------

  /** What the plan says of a step, given what is known. */
  function Answer(p: Pipeline, ask: Oracle, id: string, known: Known): (r: Option<Ports>) {
    if id !in ById(p.steps) then None
    else
      var inputs := Inputs(p, ById(p.steps)[id], known);
      if inputs.None? then None else ask(ById(p.steps)[id], inputs.value)
  }

  function Outcome(p: Pipeline, ask: Oracle): (r: Question) {
    (id: string, known: Known) => Answer(p, ask, id, known)
  }

  lemma {:induction false} ByIdHasId(steps: seq<Step>, id: string)
    requires id in ById(steps)
    ensures ById(steps)[id].id == id
  {
    if steps[|steps| - 1].id != id { ByIdHasId(steps[..|steps| - 1], id); }
  }

  lemma {:induction false} EdgesAreLocal(p: Pipeline, n: nat, id: string, a: Known, b: Known)
    requires n <= |p.edges| && forall y :: Dep(p, y, id) ==> At(a, y) == At(b, y)
    ensures EdgeDigests(p.edges[..n], id, a) == EdgeDigests(p.edges[..n], id, b)
  {
    if n > 0 {
      EdgesAreLocal(p, n - 1, id, a, b);
      assert p.edges[..n][..n - 1] == p.edges[..n - 1];
      var e := p.edges[n - 1];
      if e.toStep == id { assert At(a, e.fromStep) == At(b, e.fromStep); }
    }
  }

  lemma AnswerIsLocal(p: Pipeline, ask: Oracle, id: string, a: Known, b: Known)
    requires forall y :: Dep(p, y, id) ==> At(a, y) == At(b, y)
    ensures Answer(p, ask, id, a) == Answer(p, ask, id, b)
  {
    EdgesAreLocal(p, |p.edges|, id, a, b);
    assert p.edges[..|p.edges|] == p.edges;
    if id in ById(p.steps) {
      ByIdHasId(p.steps, id);
      assert Inputs(p, ById(p.steps)[id], a) == Inputs(p, ById(p.steps)[id], b);
    }
  }

  lemma OutcomeIsLocal(p: Pipeline, g: Graph, ask: Oracle)
    requires GraphOf(g, p)
    ensures Local(SourcesOf(g), Outcome(p, ask))
  {
    var from := SourcesOf(g);
    forall id, a, b | Agree(from, id, a, b) ensures Outcome(p, ask)(id, a) == Outcome(p, ask)(id, b) {
      forall y | Dep(p, y, id) ensures At(a, y) == At(b, y) { SourceIsDep(g, p, y, id); }
      AnswerIsLocal(p, ask, id, a, b);
    }
  }

  method AskStep(p: Pipeline, ask: Oracle, id: string, known: Known) returns (r: Option<Ports>)
    ensures r == Answer(p, ask, id, known)
  {
    var steps := ById(p.steps);
    if id !in steps { return None; }
    var inputs := InputDigests(p, steps[id], known);
    if inputs.None? { return None; }
    r := ask(steps[id], inputs.value);
  }

  lemma NextIsReady(from: Sources, done: set<string>, level: seq<string>, m: nat)
    requires IsWave(from, done, level) && m < |level|
    ensures Ready(from, With(done, level[..m]), level[m])
    ensures With(done, level[..m + 1]) == With(done, level[..m]) + {level[m]}
  {
    assert level[m] in level;
    assert level[..m + 1][..m] == level[..m];
    assert level[m] !in level[..m];
  }

  /** One line of the plan. */
  datatype Planned = Planned(id: string, hit: bool)

  /**
   The lines so far: the steps done, each once, each after every step it depends on,
   and a hit exactly where the step is known.
   */
  ghost predicate Lists(from: Sources, done: set<string>, known: Known, planned: seq<Planned>) {
    && (forall id :: id in done <==> exists i :: 0 <= i < |planned| && planned[i].id == id)
    && (forall i, j :: 0 <= i < j < |planned| ==> planned[i].id != planned[j].id)
    && (forall i :: 0 <= i < |planned| ==> After(from, planned, i) && (planned[i].hit <==> planned[i].id in known))
  }

  ghost predicate After(from: Sources, planned: seq<Planned>, i: nat)
    requires i < |planned|
  {
    planned[i].id in from && forall y :: y in from[planned[i].id] ==> exists k :: 0 <= k < i && planned[k].id == y
  }

  lemma ListsNext(
    from: Sources, done: set<string>, known: Known, planned: seq<Planned>, x: string, answer: Option<Ports>)
    requires Lists(from, done, known, planned) && Ready(from, done, x) && x !in known
    ensures Lists(from, done + {x}, Learn(known, x, answer), planned + [Planned(x, answer.Some?)])
  {
    var after, list := Learn(known, x, answer), planned + [Planned(x, answer.Some?)];
    var n := |planned|;
    forall i | 0 <= i < |list| ensures After(from, list, i) && (list[i].hit <==> list[i].id in after) {
      if i < n {
        assert After(from, planned, i) && list[i].id in done;
        forall y | y in from[list[i].id] ensures exists k :: 0 <= k < i && list[k].id == y {
          var k :| 0 <= k < i && planned[k].id == y;
          assert list[k].id == y;
        }
      } else {
        forall y | y in from[x] ensures exists k :: 0 <= k < n && list[k].id == y {
          var k :| 0 <= k < n && planned[k].id == y;
          assert list[k].id == y;
        }
      }
    }
    forall id ensures id in done + {x} <==> exists i :: 0 <= i < |list| && list[i].id == id {
      if id in done {
        var i :| 0 <= i < n && planned[i].id == id;
        assert list[i].id == id;
      }
      assert list[n].id == x;
    }
  }

  /** One level of the walk. */
  method PlanLevel(
    p: Pipeline, ask: Oracle, level: seq<string>, before: Known, lines: seq<Planned>, ghost from: Sources,
    ghost done: set<string>)
    returns (known: Known, planned: seq<Planned>)
    requires Local(from, Outcome(p, ask)) && Consistent(from, Outcome(p, ask), done, before)
    requires IsWave(from, done, level)
    requires Lists(from, done, before, lines)
    ensures Consistent(from, Outcome(p, ask), With(done, level), known)
    ensures Lists(from, With(done, level), known, planned)
  {
    known, planned := before, lines;
    var m := 0;
    while m < |level|
      invariant 0 <= m <= |level| && Consistent(from, Outcome(p, ask), With(done, level[..m]), known)
      invariant Lists(from, With(done, level[..m]), known, planned)
    {
      NextIsReady(from, done, level, m);
      var answer := AskStep(p, ask, level[m], known);
      LearnKeeps(from, Outcome(p, ask), With(done, level[..m]), known, level[m]);
      ListsNext(from, With(done, level[..m]), known, planned, level[m], answer);
      planned := planned + [Planned(level[m], answer.Some?)];
      known := Learn(known, level[m], answer);
      m := m + 1;
    }
    assert level[..m] == level;
  }

  method PlanLevels(p: Pipeline, ask: Oracle, levels: seq<seq<string>>, ghost from: Sources)
    returns (known: Known, planned: seq<Planned>)
    requires Local(from, Outcome(p, ask)) && InWaves(from, levels)
    ensures Consistent(from, Outcome(p, ask), Before(levels, |levels|), known)
    ensures Lists(from, Before(levels, |levels|), known, planned)
  {
    known, planned := map[], [];
    var k := 0;
    while k < |levels|
      invariant 0 <= k <= |levels| && Consistent(from, Outcome(p, ask), Before(levels, k), known)
      invariant Lists(from, Before(levels, k), known, planned)
    {
      assert WaveAt(from, levels, k);
      known, planned := PlanLevel(p, ask, levels[k], known, planned, from, Before(levels, k));
      k := k + 1;
    }
  }

  lemma ConsistentSolves(p: Pipeline, ask: Oracle, g: Graph, done: set<string>, known: Known)
    requires GraphOf(g, p) && Consistent(SourcesOf(g), Outcome(p, ask), done, known)
    requires forall x :: x in done <==> x in g.stepIDs
    ensures Solves(p, ask, known)
  {
    GraphSteps(g, p);
    forall id | HasStep(p, id) ensures At(known, id) == Answer(p, ask, id, known) {
      assert id in done && At(known, id) == Outcome(p, ask)(id, known);
    }
  }

  /** Each step of the pipeline on one line, after every step it depends on, and a hit exactly where it is known. */
  ghost predicate InOrder(p: Pipeline, known: Known, planned: seq<Planned>) {
    && (forall id :: HasStep(p, id) <==> exists i :: 0 <= i < |planned| && planned[i].id == id)
    && (forall i, j :: 0 <= i < j < |planned| ==> planned[i].id != planned[j].id)
    && (forall i :: 0 <= i < |planned| ==> (planned[i].hit <==> planned[i].id in known))
    && (forall i, y :: 0 <= i < |planned| && Dep(p, y, planned[i].id) ==> exists k :: 0 <= k < i && planned[k].id == y)
  }

  lemma ListIsInOrder(p: Pipeline, g: Graph, done: set<string>, known: Known, planned: seq<Planned>)
    requires GraphOf(g, p) && Lists(SourcesOf(g), done, known, planned) && forall x :: x in done <==> x in g.stepIDs
    ensures InOrder(p, known, planned)
  {
    GraphSteps(g, p);
    forall i, y | 0 <= i < |planned| && Dep(p, y, planned[i].id) ensures exists k :: 0 <= k < i && planned[k].id == y {
      assert After(SourcesOf(g), planned, i);
      SourceIsDep(g, p, y, planned[i].id);
    }
  }

  /**
   Every step of the pipeline has the answer its own inputs give it: a hit exactly
   when all its inputs are known and the cache has the step that reads them. The list
   is an order the steps could run in.
   */
  method MakePlan(p: Pipeline, ask: Oracle) returns (r: Result<Known, BuildError>, planned: seq<Planned>)
    ensures r.Ok? <==> StepsNamed(p) && EdgesKnown(p) && AcyclicPipeline(p)
    ensures r.Ok? ==> Solution(p, ask, r.value) && InOrder(p, r.value, planned)
  {
    planned := [];
    var g := Build(p);
    if g.Err? { return Err(g.error), []; }
    var levels := TopoLevels(g.value);
    OutcomeIsLocal(p, g.value, ask);
    var known: Known;
    known, planned := PlanLevels(p, ask, levels, SourcesOf(g.value));
    ListIsInOrder(p, g.value, Before(levels, |levels|), known, planned);
    ConsistentSolves(p, ask, g.value, Before(levels, |levels|), known);
    SolvesMeans(p, ask, known);
    r := Ok(known);
  }

  ghost predicate Solves(p: Pipeline, ask: Oracle, known: Known) {
    && (forall id :: HasStep(p, id) ==> At(known, id) == Answer(p, ask, id, known))
    && (forall id :: id in known ==> HasStep(p, id))
  }

  /** What the cache has for a step: its answer to the step's inputs, or nothing where they are not all known. */
  ghost predicate Answered(p: Pipeline, ask: Oracle, known: Known, s: Step, answer: Option<Ports>) {
    if AllKnown(p, s, known) then exists inputs :: InputsAre(p, s, known, inputs) && answer == ask(s, inputs)
    else answer == None
  }

  /** Every step, and nothing else, has exactly the answer the cache gives to its own inputs. */
  ghost predicate Solution(p: Pipeline, ask: Oracle, known: Known) {
    && (forall s :: s in p.steps ==> Answered(p, ask, known, s, At(known, s.id)))
    && (forall id :: id in known ==> HasStep(p, id))
  }

  lemma {:induction false} NamedById(steps: seq<Step>, i: nat)
    requires i < |steps| && forall j, k :: 0 <= j < k < |steps| ==> steps[j].id != steps[k].id
    ensures steps[i].id in ById(steps) && ById(steps)[steps[i].id] == steps[i]
  {
    if i < |steps| - 1 { NamedById(steps[..|steps| - 1], i); }
  }

  lemma AnswerMeans(p: Pipeline, ask: Oracle, known: Known, s: Step, answer: Option<Ports>)
    requires NoDup(StepIds(p)) && s in p.steps
    ensures answer == Answer(p, ask, s.id, known) <==> Answered(p, ask, known, s, answer)
  {
    var i :| 0 <= i < |p.steps| && p.steps[i] == s;
    var ids := StepIds(p);
    assert forall j :: 0 <= j < |p.steps| ==> ids[j] == p.steps[j].id;
    NamedById(p.steps, i);
    InputsMean(p, s, known);
    if Inputs(p, s, known).Some? {
      var inputs := Inputs(p, s, known).value;
      forall other | InputsAre(p, s, known, other) ensures other == inputs { OneInputs(p, s, known, other, inputs); }
    }
  }

  lemma SolvesMeans(p: Pipeline, ask: Oracle, known: Known)
    requires NoDup(StepIds(p))
    ensures Solves(p, ask, known) <==> Solution(p, ask, known)
  {
    forall s | s in p.steps
      ensures At(known, s.id) == Answer(p, ask, s.id, known) <==> Answered(p, ask, known, s, At(known, s.id))
    {
      AnswerMeans(p, ask, known, s, At(known, s.id));
    }
    if Solves(p, ask, known) {
      forall s | s in p.steps ensures HasStep(p, s.id) { var i :| 0 <= i < |p.steps| && p.steps[i] == s; }
    }
    if Solution(p, ask, known) {
      forall id | HasStep(p, id) ensures At(known, id) == Answer(p, ask, id, known) {
        var i :| 0 <= i < |p.steps| && p.steps[i].id == id;
        assert p.steps[i] in p.steps;
      }
    }
  }

  lemma SolutionIsConsistent(p: Pipeline, ask: Oracle, g: Graph, known: Known)
    requires GraphOf(g, p) && Solves(p, ask, known)
    ensures Consistent(SourcesOf(g), Outcome(p, ask), SourcesOf(g).Keys, known)
  {
    var from := SourcesOf(g);
    GraphSteps(g, p);
    CoherentIsLinked(g);
    forall id | id in from.Keys ensures At(known, id) == Outcome(p, ask)(id, known) {
      assert At(known, id) == Answer(p, ask, id, known);
    }
  }

  lemma GraphIsNamed(g: Graph, p: Pipeline)
    requires GraphOf(g, p)
    ensures NoDup(StepIds(p))
  {
    var ids := StepIds(p);
    forall i, j | 0 <= i < j < |ids| ensures ids[i] != ids[j] {
      if ids[i] == ids[j] { TwiceCounted(ids, i, j); OnceCounted(g.stepIDs, ids[i]); }
    }
  }

  lemma TwiceCounted(s: seq<string>, i: nat, j: nat)
    requires i < j < |s| && s[i] == s[j]
    ensures multiset(s)[s[i]] >= 2
  {
    assert s == s[..j] + [s[j]] + s[j + 1..];
    assert s[i] in s[..j];
  }

  lemma {:induction false} OnceCounted(s: seq<string>, x: string)
    requires NoDup(s)
    ensures multiset(s)[x] <= 1
  {
    if s != [] {
      var n := |s| - 1;
      assert s == s[..n] + [s[n]];
      OnceCounted(s[..n], x);
      if x == s[n] { assert x !in s[..n]; }
    }
  }

  /** There is only one such answer for a pipeline that has a graph. */
  lemma PlanIsUnique(p: Pipeline, ask: Oracle, g: Graph, levels: seq<seq<string>>, a: Known, b: Known)
    requires GraphOf(g, p) && InWaves(SourcesOf(g), levels)
    requires forall x :: x in Before(levels, |levels|) <==> x in g.stepIDs
    requires Solution(p, ask, a) && Solution(p, ask, b)
    ensures a == b
  {
    var from := SourcesOf(g);
    GraphIsNamed(g, p);
    SolvesMeans(p, ask, a);
    SolvesMeans(p, ask, b);
    OutcomeIsLocal(p, g, ask);
    SolutionIsConsistent(p, ask, g, a);
    SolutionIsConsistent(p, ask, g, b);
    OneAnswer(from, Outcome(p, ask), levels, a, b);
  }

  /** A hit's predecessors are all hits. */
  lemma HitsFollowHits(p: Pipeline, ask: Oracle, known: Known, a: string, b: string)
    requires Solution(p, ask, known) && b in known && Dep(p, a, b)
    ensures a in known
  {
    var i :| 0 <= i < |p.edges| && p.edges[i].fromStep == a && p.edges[i].toStep == b;
    var k :| 0 <= k < |p.steps| && p.steps[k].id == b;
    assert p.steps[k] in p.steps && p.edges[i] in p.edges && EdgeKnown(known, p.edges[i]);
  }
}
