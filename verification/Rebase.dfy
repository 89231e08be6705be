/**
 Concurrent edits: what an operation claims, what changed between two revisions,
 and why an edit that is moved onto a newer head is a three-way merge.
 */
module Rebase {
  import opened Prelude
  import opened Definition
  import opened Edits
  import opened History

  /** A step's existence, anything about a step, an edge by its key, or the pipeline whole. */
  datatype Claim = Whole | Life(id: string) | About(id: string) | Joins(key: string)

  function EdgeKey(e: Edge): (r: string) {
    e.fromStep + "|" + e.fromPort + "|" + e.toStep + "|" + e.toPort
  }

  /** An operation that carries no edge reads as the edge of empty names. */
  function EdgeOf(edge: Option<Edge>): (r: Edge) {
    if edge.Some? then edge.value else Edge("", "", "", "")
  }

  function TouchedBy(op: Operation): (r: set<Claim>) {
    match op
    case AddStep(step) => {Life(step.id), About(step.id)}
    case RemoveStep(id) => {Life(id), About(id)}
    case Rename(id, _) => {About(id)}
    case SetProperty(id, _, _) => {About(id)}
    case SetStepConfig(id, _, _, _) => {About(id)}
    case SetStepSecret(id, _, _, _, _) => {About(id)}
    case SetStepCapability(id, _, _, _) => {About(id)}
    case Connect(edge) => {Joins(EdgeKey(EdgeOf(edge))), Life(EdgeOf(edge).fromStep), Life(EdgeOf(edge).toStep)}
    case RemoveEdge(edge) => {Joins(EdgeKey(EdgeOf(edge))), Life(EdgeOf(edge).fromStep), Life(EdgeOf(edge).toStep)}
    case SetFile(_, _) => {Whole}
  }

  // ---- what changed, as the loops compute it ------------------------------------

  datatype StepDiff = StepDiff(left: map<string, Step>, changed: set<Claim>)

  function DiffStep(d: StepDiff, s: Step): (r: StepDiff) {
    var changed :=
      if s.id !in d.left then d.changed + {Life(s.id), About(s.id)}
      else if d.left[s.id] != s then d.changed + {About(s.id)}
      else d.changed;
    StepDiff(d.left - {s.id}, changed)
  }

  function DiffSteps(d: StepDiff, after: seq<Step>): (r: StepDiff) {
    if after == [] then d else DiffStep(DiffSteps(d, after[..|after| - 1]), after[|after| - 1])
  }

  function Keys(edges: seq<Edge>): (r: set<string>) {
    if edges == [] then {} else Keys(edges[..|edges| - 1]) + {EdgeKey(edges[|edges| - 1])}
  }

  datatype EdgeDiff = EdgeDiff(left: set<string>, changed: set<Claim>)

  function DiffEdge(d: EdgeDiff, e: Edge): (r: EdgeDiff) {
    if EdgeKey(e) in d.left then EdgeDiff(d.left - {EdgeKey(e)}, d.changed)
    else EdgeDiff(d.left, d.changed + {Joins(EdgeKey(e))})
  }

  function DiffEdges(d: EdgeDiff, after: seq<Edge>): (r: EdgeDiff) {
    if after == [] then d else DiffEdge(DiffEdges(d, after[..|after| - 1]), after[|after| - 1])
  }

  function Changed(before: Pipeline, after: Pipeline): (r: set<Claim>) {
    var s := DiffSteps(StepDiff(ById(before.steps), {Whole}), after.steps);
    var removed := (set id | id in s.left :: Life(id)) + (set id | id in s.left :: About(id));
    var e := DiffEdges(EdgeDiff(Keys(before.edges), s.changed + removed), after.edges);
    e.changed + (set key | key in e.left :: Joins(key))
  }

  method DiffStepLists(before: seq<Step>, after: seq<Step>) returns (d: StepDiff)
    ensures d == DiffSteps(StepDiff(ById(before), {Whole}), after)
  {
    var steps: map<string, Step> := map[];
    var k := 0;
    while k < |before|
      invariant 0 <= k <= |before| && steps == ById(before[..k])
    {
      steps := steps[before[k].id := before[k]];
      assert before[..k + 1][..k] == before[..k];
      k := k + 1;
    }
    assert before[..k] == before;
    d := StepDiff(steps, {Whole});
    k := 0;
    while k < |after|
      invariant 0 <= k <= |after| && d == DiffSteps(StepDiff(ById(before), {Whole}), after[..k])
    {
      d := DiffStep(d, after[k]);
      assert after[..k + 1][..k] == after[..k];
      k := k + 1;
    }
    assert after[..k] == after;
  }

  method DiffEdgeLists(before: seq<Edge>, after: seq<Edge>, changed: set<Claim>) returns (d: EdgeDiff)
    ensures d == DiffEdges(EdgeDiff(Keys(before), changed), after)
  {
    var keys: set<string> := {};
    var k := 0;
    while k < |before|
      invariant 0 <= k <= |before| && keys == Keys(before[..k])
    {
      keys := keys + {EdgeKey(before[k])};
      assert before[..k + 1][..k] == before[..k];
      k := k + 1;
    }
    assert before[..k] == before;
    d := EdgeDiff(keys, changed);
    k := 0;
    while k < |after|
      invariant 0 <= k <= |after| && d == DiffEdges(EdgeDiff(Keys(before), changed), after[..k])
    {
      d := DiffEdge(d, after[k]);
      assert after[..k + 1][..k] == after[..k];
      k := k + 1;
    }
    assert after[..k] == after;
  }

  method ChangedBetween(before: Pipeline, after: Pipeline) returns (changed: set<Claim>)
    ensures changed == Changed(before, after)
  {
    var s := DiffStepLists(before.steps, after.steps);
    var removed := (set id | id in s.left :: Life(id)) + (set id | id in s.left :: About(id));
    var e := DiffEdgeLists(before.edges, after.edges, s.changed + removed);
    changed := e.changed + (set key | key in e.left :: Joins(key));
  }

  // ---- what the answer means --------------------------------------------------------

  function Lookup(steps: seq<Step>, id: string): (r: Option<Step>) {
    if StepIndex(steps, id) >= 0 then Some(steps[StepIndex(steps, id)]) else None
  }

  lemma LookupLast(steps: seq<Step>, id: string)
    requires steps != [] && DistinctIds(steps)
    ensures var n := |steps| - 1;
            Lookup(steps, id) == if steps[n].id == id then Some(steps[n]) else Lookup(steps[..n], id)
  {
    var n := |steps| - 1;
    if steps[n].id == id {
      StepIsFound(steps, steps[n]);
    } else if StepIndex(steps[..n], id) >= 0 {
      var s := steps[..n][StepIndex(steps[..n], id)];
      assert s in steps;
      StepIsFound(steps, s);
    } else {
      assert forall i :: 0 <= i < n ==> steps[..n][i] == steps[i];
    }
  }

  lemma {:induction false} ByIdIsLookup(steps: seq<Step>, id: string)
    requires DistinctIds(steps)
    ensures (if id in ById(steps) then Some(ById(steps)[id]) else None) == Lookup(steps, id)
  {
    if steps != [] {
      ByIdIsLookup(steps[..|steps| - 1], id);
      LookupLast(steps, id);
    }
  }

  function At(m: map<string, Step>, id: string): (r: Option<Step>) {
    if id in m then Some(m[id]) else None
  }

  /** After the scan: what is left was not met, and what is claimed differed. */
  ghost predicate Scanned(m: map<string, Step>, after: seq<Step>, d: StepDiff, id: string) {
    && At(d.left, id) == (if Lookup(after, id).Some? then None else At(m, id))
    && (Life(id) in d.changed <==> Lookup(after, id).Some? && id !in m)
    && (About(id) in d.changed <==> Lookup(after, id).Some? && At(m, id) != Lookup(after, id))
  }

  lemma {:induction false} DiffStepsScans(m: map<string, Step>, after: seq<Step>, id: string)
    requires DistinctIds(after)
    ensures Scanned(m, after, DiffSteps(StepDiff(m, {Whole}), after), id)
  {
    if after != [] {
      var n := |after| - 1;
      DiffStepsScans(m, after[..n], id);
      LookupLast(after, id);
      assert forall i :: 0 <= i < n ==> after[..n][i].id != after[n].id;
    }
  }

  lemma {:induction false} DiffEdgesKeepsSteps(d: EdgeDiff, after: seq<Edge>, c: Claim)
    requires !c.Joins?
    ensures c in DiffEdges(d, after).changed <==> c in d.changed
  {
    if after != [] { DiffEdgesKeepsSteps(d, after[..|after| - 1], c); }
  }

  /** A step's key is reported exactly when the step differs, its life exactly when it came or went. */
  lemma ChangedSteps(before: Pipeline, after: Pipeline, id: string)
    requires DistinctIds(before.steps) && DistinctIds(after.steps)
    ensures About(id) in Changed(before, after) <==> Lookup(before.steps, id) != Lookup(after.steps, id)
    ensures Life(id) in Changed(before, after) <==> Lookup(before.steps, id).Some? != Lookup(after.steps, id).Some?
    ensures Whole in Changed(before, after)
  {
    var m := ById(before.steps);
    var s := DiffSteps(StepDiff(m, {Whole}), after.steps);
    var removed := (set x | x in s.left :: Life(x)) + (set x | x in s.left :: About(x));
    var d := EdgeDiff(Keys(before.edges), s.changed + removed);
    DiffStepsScans(m, after.steps, id);
    ByIdIsLookup(before.steps, id);
    assert Scanned(m, after.steps, s, id);
    DiffEdgesKeepsSteps(d, after.edges, About(id));
    DiffEdgesKeepsSteps(d, after.edges, Life(id));
    DiffEdgesKeepsSteps(d, after.edges, Whole);
    WholeStays(StepDiff(m, {Whole}), after.steps);
    assert About(id) in removed <==> id in s.left;
    assert Life(id) in removed <==> id in s.left;
  }

  lemma {:induction false} WholeStays(d: StepDiff, after: seq<Step>)
    requires Whole in d.changed
    ensures Whole in DiffSteps(d, after).changed
  {
    if after != [] { WholeStays(d, after[..|after| - 1]); }
  }

  function KeyCount(edges: seq<Edge>, key: string): (r: nat) {
    if edges == [] then 0
    else KeyCount(edges[..|edges| - 1], key) + (if EdgeKey(edges[|edges| - 1]) == key then 1 else 0)
  }

  lemma {:induction false} DiffEdgesCounts(d: EdgeDiff, after: seq<Edge>, key: string)
    requires Joins(key) !in d.changed
    ensures key in DiffEdges(d, after).left <==> key in d.left && KeyCount(after, key) == 0
    ensures Joins(key) in DiffEdges(d, after).changed <==> KeyCount(after, key) > (if key in d.left then 1 else 0)
  {
    if after != [] { DiffEdgesCounts(d, after[..|after| - 1], key); }
  }

  lemma {:induction false} DiffStepsClaimNoEdge(d: StepDiff, after: seq<Step>, key: string)
    requires Joins(key) !in d.changed
    ensures Joins(key) !in DiffSteps(d, after).changed
  {
    if after != [] { DiffStepsClaimNoEdge(d, after[..|after| - 1], key); }
  }

  /** An edge's key is reported exactly when it came, went, or is carried more than once. */
  lemma ChangedEdges(before: Pipeline, after: Pipeline, key: string)
    ensures Joins(key) in Changed(before, after) <==>
            KeyCount(after.edges, key) != if key in Keys(before.edges) then 1 else 0
  {
    var s := DiffSteps(StepDiff(ById(before.steps), {Whole}), after.steps);
    var removed := (set x | x in s.left :: Life(x)) + (set x | x in s.left :: About(x));
    DiffStepsClaimNoEdge(StepDiff(ById(before.steps), {Whole}), after.steps, key);
    assert Joins(key) !in removed;
    DiffEdgesCounts(EdgeDiff(Keys(before.edges), s.changed + removed), after.edges, key);
  }

  // ---- an edge's key ------------------------------------------------------------------

  predicate NoBar(s: string) { '|' !in s }

  predicate PlainNames(e: Edge) {
    NoBar(e.fromStep) && NoBar(e.fromPort) && NoBar(e.toStep) && NoBar(e.toPort)
  }

  function Bars(s: string): (r: nat)
    ensures r == 0 <==> NoBar(s)
  {
    if s == [] then 0 else (if s[0] == '|' then 1 else 0) + Bars(s[1..])
  }

  lemma {:induction false} BarsConcat(s: string, t: string)
    ensures Bars(s + t) == Bars(s) + Bars(t)
  {
    if s == [] {
      assert s + t == t;
    } else {
      assert (s + t)[1..] == s[1..] + t;
      BarsConcat(s[1..], t);
    }
  }

  lemma BarsOfKey(e: Edge)
    ensures Bars(EdgeKey(e)) == 3 + Bars(e.fromStep) + Bars(e.fromPort) + Bars(e.toStep) + Bars(e.toPort)
  {
    var a := e.fromStep + "|";
    var b := a + e.fromPort + "|";
    var c := b + e.toStep + "|";
    BarsConcat(e.fromStep, "|");
    BarsConcat(a, e.fromPort);
    BarsConcat(a + e.fromPort, "|");
    BarsConcat(b, e.toStep);
    BarsConcat(b + e.toStep, "|");
    BarsConcat(c, e.toPort);
    assert Bars("|") == 1 by { assert "|"[1..] == ""; }
    assert EdgeKey(e) == c + e.toPort;
  }

  function Bar(a: string, b: string): (r: string) { a + "|" + b }

  lemma BarAssociates(a: string, b: string, c: string)
    ensures Bar(Bar(a, b), c) == Bar(a, Bar(b, c))
  {
  }

  lemma KeyFromTheFront(e: Edge)
    ensures EdgeKey(e) == Bar(Bar(Bar(e.fromStep, e.fromPort), e.toStep), e.toPort)
    ensures EdgeKey(e) == Bar(e.fromStep, Bar(e.fromPort, Bar(e.toStep, e.toPort)))
  {
    BarAssociates(Bar(e.fromStep, e.fromPort), e.toStep, e.toPort);
    BarAssociates(e.fromStep, e.fromPort, Bar(e.toStep, e.toPort));
  }

  lemma PlainKeyIsUnique(e: Edge, f: Edge)
    requires PlainNames(e) && EdgeKey(f) == EdgeKey(e)
    ensures f == e
  {
    BarsOfKey(e);
    BarsOfKey(f);
    KeyFromTheFront(e);
    KeyFromTheFront(f);
    CancelToken(e.fromStep, Bar(e.fromPort, Bar(e.toStep, e.toPort)),
                f.fromStep, Bar(f.fromPort, Bar(f.toStep, f.toPort)), '|');
    CancelToken(e.fromPort, Bar(e.toStep, e.toPort), f.fromPort, Bar(f.toStep, f.toPort), '|');
    CancelToken(e.toStep, e.toPort, f.toStep, f.toPort, '|');
  }

  lemma {:induction false} KeyIsCarried(edges: seq<Edge>, e: Edge)
    requires PlainNames(e)
    ensures e in edges <==> EdgeKey(e) in Keys(edges)
    ensures e in edges <==> KeyCount(edges, EdgeKey(e)) > 0
  {
    if edges != [] {
      var n := |edges| - 1;
      KeyIsCarried(edges[..n], e);
      assert edges == edges[..n] + [edges[n]];
      if EdgeKey(edges[n]) == EdgeKey(e) { PlainKeyIsUnique(e, edges[n]); }
    }
  }

  /** An edge with plain names whose key is not reported is carried by both definitions or by neither. */
  lemma EdgeUnchanged(before: Pipeline, after: Pipeline, e: Edge)
    requires PlainNames(e) && Joins(EdgeKey(e)) !in Changed(before, after)
    ensures e in before.edges <==> e in after.edges
  {
    ChangedEdges(before, after, EdgeKey(e));
    KeyIsCarried(before.edges, e);
    KeyIsCarried(after.edges, e);
  }

  /** Another edge with the same key, for an edge with a bar in one of its names. */
  function Double(e: Edge, k: nat): (r: Edge)
    requires k < |e.fromStep| || k < |e.fromPort| || k < |e.toStep| || k < |e.toPort|
  {
    if k < |e.fromStep| && e.fromStep[k] == '|' then
      Edge(e.fromStep[..k], e.fromStep[k + 1..], Bar(e.fromPort, e.toStep), e.toPort)
    else if k < |e.fromPort| && e.fromPort[k] == '|' then
      Edge(e.fromStep, e.fromPort[..k], Bar(e.fromPort[k + 1..], e.toStep), e.toPort)
    else if k < |e.toStep| && e.toStep[k] == '|' then
      Edge(e.fromStep, e.fromPort, e.toStep[..k], Bar(e.toStep[k + 1..], e.toPort))
    else if k < |e.toPort| then Edge(e.fromStep, Bar(e.fromPort, e.toStep), e.toPort[..k], e.toPort[k + 1..])
    else e
  }

  lemma SplitAtBar(s: string, k: nat)
    requires k < |s| && s[k] == '|'
    ensures s == Bar(s[..k], s[k + 1..])
  {
  }

  /** Five names between four bars, read as four names in four ways. */
  lemma FiveNames(a: string, b: string, c: string, d: string, e: string)
    ensures EdgeKey(Edge(Bar(a, b), c, d, e)) == EdgeKey(Edge(a, b, Bar(c, d), e))
    ensures EdgeKey(Edge(a, Bar(b, c), d, e)) == EdgeKey(Edge(a, b, Bar(c, d), e))
    ensures EdgeKey(Edge(a, b, Bar(c, d), e)) == EdgeKey(Edge(a, b, c, Bar(d, e)))
  {
    KeyFromTheFront(Edge(Bar(a, b), c, d, e));
    KeyFromTheFront(Edge(a, b, Bar(c, d), e));
    KeyFromTheFront(Edge(a, Bar(b, c), d, e));
    KeyFromTheFront(Edge(a, b, c, Bar(d, e)));
    BarAssociates(c, d, e);
    BarAssociates(a, b, Bar(c, Bar(d, e)));
    BarAssociates(b, c, Bar(d, e));
  }

  lemma DoubleHasSameKey(e: Edge, k: nat)
    requires (k < |e.fromStep| && e.fromStep[k] == '|') || (k < |e.fromPort| && e.fromPort[k] == '|')
          || (k < |e.toStep| && e.toStep[k] == '|') || (k < |e.toPort| && e.toPort[k] == '|')
    ensures Double(e, k) != e && EdgeKey(Double(e, k)) == EdgeKey(e)
  {
    var d := Double(e, k);
    if k < |e.fromStep| && e.fromStep[k] == '|' {
      SplitAtBar(e.fromStep, k);
      FiveNames(e.fromStep[..k], e.fromStep[k + 1..], e.fromPort, e.toStep, e.toPort);
      assert |d.fromStep| < |e.fromStep|;
    } else if k < |e.fromPort| && e.fromPort[k] == '|' {
      SplitAtBar(e.fromPort, k);
      FiveNames(e.fromStep, e.fromPort[..k], e.fromPort[k + 1..], e.toStep, e.toPort);
      assert |d.fromPort| < |e.fromPort|;
    } else if k < |e.toStep| && e.toStep[k] == '|' {
      SplitAtBar(e.toStep, k);
      FiveNames(e.fromStep, e.fromPort, e.toStep[..k], e.toStep[k + 1..], e.toPort);
      assert |d.toStep| < |e.toStep|;
    } else {
      SplitAtBar(e.toPort, k);
      FiveNames(e.fromStep, e.fromPort, e.toStep, e.toPort[..k], e.toPort[k + 1..]);
      assert |d.fromPort| > |e.fromPort|;
    }
  }

  /** An edge's key names that edge alone exactly when none of its four names holds a bar. */
  lemma EdgeKeyIsUnique(e: Edge)
    ensures (forall f :: EdgeKey(f) == EdgeKey(e) ==> f == e) <==> PlainNames(e)
  {
    if PlainNames(e) {
      forall f | EdgeKey(f) == EdgeKey(e) ensures f == e { PlainKeyIsUnique(e, f); }
    } else {
      var k :| (0 <= k < |e.fromStep| && e.fromStep[k] == '|') || (0 <= k < |e.fromPort| && e.fromPort[k] == '|')
            || (0 <= k < |e.toStep| && e.toStep[k] == '|') || (0 <= k < |e.toPort| && e.toPort[k] == '|');
      DoubleHasSameKey(e, k);
    }
  }
}
