/**
 The dependency graph of a pipeline: derived from its edges, refused when it has
 a cycle, and read off in waves.
 */
module Dag {
  import opened Prelude
  import opened Orders
  import opened Definition

  datatype Graph = Graph(stepIDs: seq<string>, dependents: map<string, seq<string>>, indegree: map<string, int>)

  datatype BuildError = EmptyStepId | DuplicateStep(id: string) | UnknownStep(id: string) | Cycle(path: seq<string>)

  // ---- what a graph means --------------------------------------------------

  /** b consumes an output of a. */
  predicate Dep(p: Pipeline, a: string, b: string) {
    exists i :: 0 <= i < |p.edges| && p.edges[i].fromStep == a && p.edges[i].toStep == b
  }

  function Dependents(g: Graph, a: string): (r: seq<string>) {
    if a in g.dependents then g.dependents[a] else []
  }

  predicate NoDup<T(==)>(s: seq<T>) {
    forall i, j :: 0 <= i < j < |s| ==> s[i] != s[j]
  }

  function Set<T>(s: seq<T>): (r: set<T>) {
    set x | x in s
  }

  function Preds(g: Graph, b: string): (r: set<string>) {
    set a | a in g.stepIDs && b in Dependents(g, a)
  }

  /** What every graph Build returns satisfies. */
  ghost predicate Coherent(g: Graph) {
    && NoDup(g.stepIDs) && Sorted(g.stepIDs, StringLeq)
    && (forall a, b :: b in Dependents(g, a) ==> a in g.stepIDs && b in g.stepIDs)
    && (forall a :: NoDup(Dependents(g, a)) && Sorted(Dependents(g, a), StringLeq))
    && g.indegree.Keys == Set(g.stepIDs)
    && (forall b <- g.indegree :: g.indegree[b] == |Preds(g, b)|)
  }

  function StepIds(p: Pipeline): (r: seq<string>) {
    seq(|p.steps|, i requires 0 <= i < |p.steps| => p.steps[i].id)
  }

  /** The graph has exactly the pipeline's steps and its derived dependencies. */
  ghost predicate GraphOf(g: Graph, p: Pipeline) {
    && Coherent(g)
    && multiset(g.stepIDs) == multiset(StepIds(p))
    && (forall a, b :: b in Dependents(g, a) <==> Dep(p, a, b))
  }

  ghost predicate IsPath(g: Graph, path: seq<string>) {
    |path| >= 1 && forall i :: 0 <= i < |path| - 1 ==> path[i + 1] in Dependents(g, path[i])
  }

  ghost predicate ClosedPath(g: Graph, path: seq<string>) {
    |path| >= 2 && IsPath(g, path) && path[0] == path[|path| - 1]
  }

  ghost predicate Acyclic(g: Graph) {
    forall path :: !ClosedPath(g, path)
  }

  /** A rank that falls along every dependency. */
  ghost predicate Ranks(g: Graph, rank: map<string, nat>) {
    && (forall a :: a in g.stepIDs ==> a in rank)
    && (forall a, d :: a in rank && d in Dependents(g, a) ==> d in rank && rank[d] < rank[a])
  }

  ghost predicate Ranked(g: Graph) {
    exists rank :: Ranks(g, rank)
  }

  lemma {:induction false} RankFalls(g: Graph, rank: map<string, nat>, path: seq<string>)
    requires Ranks(g, rank) && IsPath(g, path) && path[0] in rank
    ensures path[|path| - 1] in rank && rank[path[|path| - 1]] + |path| - 1 <= rank[path[0]]
  {
    if |path| > 1 {
      assert path[0 + 1] in Dependents(g, path[0]);
      var rest := path[1..];
      forall i | 0 <= i < |rest| - 1 ensures rest[i + 1] in Dependents(g, rest[i]) {
        assert path[(i + 1) + 1] in Dependents(g, path[i + 1]);
      }
      RankFalls(g, rank, rest);
    }
  }

  lemma DependencyIsInside(g: Graph, a: string, b: string)
    requires Coherent(g) && b in Dependents(g, a)
    ensures a in g.stepIDs && b in g.stepIDs
  {
  }

  lemma RankedIsAcyclic(g: Graph)
    requires Coherent(g) && Ranked(g)
    ensures Acyclic(g)
  {
    var rank :| Ranks(g, rank);
    forall path ensures !ClosedPath(g, path) {
      if ClosedPath(g, path) {
        assert path[0 + 1] in Dependents(g, path[0]);
        DependencyIsInside(g, path[0], path[1]);
        RankFalls(g, rank, path);
      }
    }
  }

  // ---- finding a cycle ------------------------------------------------------

  datatype Colour = White | Grey | Black

  /** The depth-first search: colours and the current path, updated as it walks. */
  class CycleSearch {
    const g: Graph
    var colour: map<string, Colour>
    var path: seq<string>
    ghost var rank: map<string, nat>
    ghost var clock: nat

    constructor (graph: Graph)
      ensures g == graph && colour == map[] && path == [] && rank == map[] && clock == 0
    {
      g, colour, path, rank, clock := graph, map[], [], map[], 0;
    }

    function ColourOf(id: string): (r: Colour)
      reads this
    {
      if id in colour then colour[id] else White
    }

    ghost function Whites(): (r: set<string>)
      reads this
    {
      set id | id in g.stepIDs && ColourOf(id) == White
    }

    /** Grey is the current path; black nodes are ranked below everything that reaches them. */
    ghost predicate Walking()
      reads this
    {
      && (forall id :: ColourOf(id) == Grey <==> id in path)
      && (forall id :: ColourOf(id) == Black <==> id in rank)
      && (path != [] ==> IsPath(g, path))
      && (forall a <- rank :: rank[a] < clock)
      && (forall a, d :: a in rank && d in Dependents(g, a) ==> d in rank && rank[d] < rank[a])
    }

    method Enter(id: string)
      requires Walking() && id in g.stepIDs && ColourOf(id) == White
      requires path != [] ==> id in Dependents(g, path[|path| - 1])
      modifies this
      ensures Walking() && path == old(path) + [id] && id !in old(path) && rank == old(rank)
      ensures Whites() < old(Whites())
    {
      colour := colour[id := Grey];
      path := path + [id];
      assert Whites() < old(Whites()) by { assert id in old(Whites()) && id !in Whites(); }
      PathExtends(g, old(path), id);
    }

    method Visit(id: string) returns (cycle: Option<seq<string>>)
      requires Coherent(g) && Walking() && id in g.stepIDs && ColourOf(id) == White
      requires path != [] ==> id in Dependents(g, path[|path| - 1])
      modifies this
      ensures cycle.Some? ==> ClosedPath(g, cycle.value)
      ensures cycle.None? ==> Walking() && path == old(path) && id in rank
      ensures cycle.None? ==> forall b :: b in old(rank) ==> b in rank
      ensures cycle.None? ==> Whites() <= old(Whites())
      decreases Whites()
    {
      Enter(id);
      var deps := Dependents(g, id);
      var k := 0;
      while k < |deps|
        invariant 0 <= k <= |deps|
        invariant Walking() && path == old(path) + [id]
        invariant forall j :: 0 <= j < k ==> deps[j] in rank
        invariant forall b :: b in old(rank) ==> b in rank
        invariant Whites() < old(Whites())
      {
        var d := deps[k];
        assert d in Dependents(g, id) && d in g.stepIDs;
        match ColourOf(d) {
          case Grey =>
            cycle := CloseAt(d);
            return;
          case White =>
            cycle := Visit(d);
            if cycle.Some? { return; }
          case Black =>
        }
        k := k + 1;
      }
      Finish(id);
      cycle := None;
    }

    /** A gray dependency closes a loop: what the walk has entered since it, and the edge back. */
    method CloseAt(d: string) returns (cycle: Option<seq<string>>)
      requires Walking() && d in path && d in Dependents(g, path[|path| - 1])
      ensures cycle.Some? && ClosedPath(g, cycle.value)
    {
      var i := 0;
      while path[i] != d
        invariant 0 <= i < |path| && d !in path[..i]
        decreases |path| - i
      {
        assert d in path[i + 1..];
        i := i + 1;
      }
      TailCloses(g, path, i);
      return Some(path[i..] + [d]);
    }

    method Finish(id: string)
      requires Walking() && path != [] && path[|path| - 1] == id && ColourOf(id) == Grey
      requires id !in path[..|path| - 1]
      requires forall d :: d in Dependents(g, id) ==> d in rank
      modifies this
      ensures Walking() && path == old(path)[..|old(path)| - 1]
      ensures rank.Keys == old(rank).Keys + {id} && Whites() == old(Whites())
    {
      DropLast(path);
      colour := colour[id := Black];
      path := path[..|path| - 1];
      rank, clock := rank[id := clock], clock + 1;
      assert forall x :: ColourOf(x) == (if x == id then Black else old(ColourOf(x)));
    }
  }

  lemma PathExtends(g: Graph, path: seq<string>, id: string)
    requires path != [] ==> IsPath(g, path) && id in Dependents(g, path[|path| - 1])
    ensures IsPath(g, path + [id])
  {
  }

  lemma DropLast(path: seq<string>)
    requires path != [] && path[|path| - 1] !in path[..|path| - 1]
    ensures forall x :: x in path[..|path| - 1] <==> x in path && x != path[|path| - 1]
    ensures |path| > 1 ==> forall g :: IsPath(g, path) ==> IsPath(g, path[..|path| - 1])
  {
    assert path == path[..|path| - 1] + [path[|path| - 1]];
  }

  lemma TailCloses(g: Graph, path: seq<string>, i: nat)
    requires IsPath(g, path) && i < |path| && path[i] in Dependents(g, path[|path| - 1])
    ensures ClosedPath(g, path[i..] + [path[i]])
  {
    var c := path[i..] + [path[i]];
    forall k | 0 <= k < |c| - 1 ensures c[k + 1] in Dependents(g, c[k]) {
      assert c[k] == path[i + k];
      if k + 1 < |path| - i { assert c[k + 1] == path[i + k + 1]; }
    }
  }

  /** Start from every step that no earlier start reached. */
  method VisitAll(search: CycleSearch) returns (cycle: Option<seq<string>>)
    requires Coherent(search.g) && search.Walking() && search.path == []
    modifies search
    ensures cycle.Some? ==> ClosedPath(search.g, cycle.value)
    ensures cycle.None? ==> Ranked(search.g)
  {
    var k := 0;
    while k < |search.g.stepIDs|
      invariant 0 <= k <= |search.g.stepIDs|
      invariant search.Walking() && search.path == []
      invariant forall j :: 0 <= j < k ==> search.g.stepIDs[j] in search.rank
    {
      if search.ColourOf(search.g.stepIDs[k]) == White {
        cycle := search.Visit(search.g.stepIDs[k]);
        if cycle.Some? { return; }
      }
      k := k + 1;
    }
    assert Ranks(search.g, search.rank);
    cycle := None;
  }

  /**
   Ends on every graph, answers nothing exactly when the dependency relation is
   acyclic, and otherwise answers a closed path of real dependencies.
   */
  method FindCycle(g: Graph) returns (cycle: Option<seq<string>>)
    requires Coherent(g)
    ensures cycle.None? <==> Acyclic(g)
    ensures cycle.None? ==> Ranked(g)
    ensures cycle.Some? ==> ClosedPath(g, cycle.value)
  {
    var search := new CycleSearch(g);
    cycle := VisitAll(search);
    if cycle.None? { RankedIsAcyclic(g); }
  }

  // ---- building --------------------------------------------------------------

  ghost predicate StepsNamed(p: Pipeline) {
    NoDup(StepIds(p)) && forall i :: 0 <= i < |p.steps| ==> p.steps[i].id != ""
  }

  predicate HasStep(p: Pipeline, id: string) {
    exists i :: 0 <= i < |p.steps| && p.steps[i].id == id
  }

  predicate EdgesKnown(p: Pipeline) {
    forall i :: 0 <= i < |p.edges| ==> HasStep(p, p.edges[i].fromStep) && HasStep(p, p.edges[i].toStep)
  }

  ghost predicate CycleOf(p: Pipeline, path: seq<string>) {
    |path| >= 2 && path[0] == path[|path| - 1] && forall i :: 0 <= i < |path| - 1 ==> Dep(p, path[i], path[i + 1])
  }

  ghost predicate AcyclicPipeline(p: Pipeline) {
    forall path :: !CycleOf(p, path)
  }

  /** The steps, in order: ids must be present and distinct. */
  method NameSteps(p: Pipeline) returns (fault: Option<BuildError>, ids: seq<string>, indegree: map<string, int>)
    ensures fault.None? <==> StepsNamed(p)
    ensures fault.None? ==> ids == StepIds(p) && indegree.Keys == Set(ids) && forall id <- indegree :: indegree[id] == 0
    ensures fault.Some? ==> fault.value.EmptyStepId? || fault.value.DuplicateStep?
    ensures fault.Some? && fault.value.EmptyStepId? ==> HasStep(p, "")
    ensures fault.Some? && fault.value.DuplicateStep? ==>
      exists i, j :: 0 <= i < j < |p.steps| && p.steps[i].id == p.steps[j].id == fault.value.id != ""
  {
    ids, indegree := [], map[];
    var k := 0;
    while k < |p.steps|
      invariant 0 <= k <= |p.steps|
      invariant ids == StepIds(p)[..k] && NoDup(ids) && forall i :: 0 <= i < k ==> p.steps[i].id != ""
      invariant indegree.Keys == Set(ids) && forall id <- indegree :: indegree[id] == 0
    {
      var id := p.steps[k].id;
      if id == "" { return Some(EmptyStepId), ids, indegree; }
      if id in indegree {
        assert id in ids;
        var i :| 0 <= i < k && ids[i] == id;
        assert StepIds(p)[i] == StepIds(p)[k] == id;
        return Some(DuplicateStep(id)), ids, indegree;
      }
      assert StepIds(p)[..k + 1] == ids + [id];
      ids := ids + [id];
      indegree := indegree[id := 0];
      k := k + 1;
    }
    fault := None;
  }

  function Sources(seen: set<(string, string)>, b: string): (r: set<string>) {
    set pair | pair in seen && pair.1 == b :: pair.0
  }

  /** The dependencies these pairs make. */
  ghost predicate Listed(seen: set<(string, string)>, dependents: map<string, seq<string>>) {
    && (forall a <- dependents :: NoDup(dependents[a]))
    && (forall a, b :: (a, b) in seen <==> a in dependents && b in dependents[a])
  }

  ghost predicate Counted(seen: set<(string, string)>, indegree: map<string, int>) {
    forall b <- indegree :: indegree[b] == |Sources(seen, b)|
  }

  function AppendTo(dependents: map<string, seq<string>>, a: string, b: string): (r: map<string, seq<string>>) {
    dependents[a := (if a in dependents then dependents[a] else []) + [b]]
  }

  lemma ListOne(seen: set<(string, string)>, dependents: map<string, seq<string>>, a: string, b: string)
    requires Listed(seen, dependents) && (a, b) !in seen
    ensures Listed(seen + {(a, b)}, AppendTo(dependents, a, b))
  {
    var before := if a in dependents then dependents[a] else [];
    assert b !in before;
    assert NoDup(before + [b]);
    var seen', dependents' := seen + {(a, b)}, AppendTo(dependents, a, b);
    forall x, y ensures (x, y) in seen' <==> x in dependents' && y in dependents'[x] {
      if x == a { assert y in before + [b] <==> y in before || y == b; }
    }
  }

  lemma SourcesOne(seen: set<(string, string)>, a: string, b: string, y: string)
    ensures Sources(seen + {(a, b)}, y) == if y == b then Sources(seen, y) + {a} else Sources(seen, y)
    ensures a in Sources(seen, b) <==> (a, b) in seen
  {
    var s, s' := Sources(seen, y), Sources(seen + {(a, b)}, y);
    forall x ensures x in s' <==> x in s || (x == a && y == b) {
      assert x in s <==> (x, y) in seen;
      assert x in s' <==> (x, y) in seen + {(a, b)};
    }
    assert a in Sources(seen, b) <==> (a, b) in seen;
  }

  lemma CountOne(seen: set<(string, string)>, indegree: map<string, int>, a: string, b: string)
    requires Counted(seen, indegree) && (a, b) !in seen && b in indegree
    ensures Counted(seen + {(a, b)}, indegree[b := indegree[b] + 1])
  {
    var indegree' := indegree[b := indegree[b] + 1];
    forall y | y in indegree' ensures indegree'[y] == |Sources(seen + {(a, b)}, y)| {
      SourcesOne(seen, a, b, y);
    }
  }

  datatype Derivation = Derivation(
    dependents: map<string, seq<string>>, indegree: map<string, int>, seen: set<(string, string)>)

  /** Two edges between the same steps are one dependency. */
  function DeriveOne(d: Derivation, e: Edge): (r: Derivation) {
    if (e.fromStep, e.toStep) in d.seen || e.toStep !in d.indegree then d
    else Derivation(AppendTo(d.dependents, e.fromStep, e.toStep), d.indegree[e.toStep := d.indegree[e.toStep] + 1],
                    d.seen + {(e.fromStep, e.toStep)})
  }

  function DeriveAll(edges: seq<Edge>, zero: map<string, int>): (r: Derivation) {
    if edges == [] then Derivation(map[], zero, {})
    else DeriveOne(DeriveAll(edges[..|edges| - 1], zero), edges[|edges| - 1])
  }

  lemma DeriveOneKeeps(d: Derivation, e: Edge)
    requires Listed(d.seen, d.dependents) && Counted(d.seen, d.indegree) && e.toStep in d.indegree
    ensures var d' := DeriveOne(d, e);
            && Listed(d'.seen, d'.dependents) && Counted(d'.seen, d'.indegree)
            && d'.indegree.Keys == d.indegree.Keys && d'.seen == d.seen + {(e.fromStep, e.toStep)}
  {
    if (e.fromStep, e.toStep) !in d.seen {
      ListOne(d.seen, d.dependents, e.fromStep, e.toStep);
      CountOne(d.seen, d.indegree, e.fromStep, e.toStep);
    }
  }

  function Pairs(edges: seq<Edge>): (r: set<(string, string)>) {
    set i | 0 <= i < |edges| :: (edges[i].fromStep, edges[i].toStep)
  }

  lemma PairsSnoc(edges: seq<Edge>)
    requires edges != []
    ensures var e := edges[|edges| - 1]; Pairs(edges) == Pairs(edges[..|edges| - 1]) + {(e.fromStep, e.toStep)}
  {
    var n := |edges| - 1;
    forall x ensures x in Pairs(edges) <==> x in Pairs(edges[..n]) || x == (edges[n].fromStep, edges[n].toStep) {
      if x in Pairs(edges) {
        var i :| 0 <= i < |edges| && x == (edges[i].fromStep, edges[i].toStep);
        if i < n { assert edges[..n][i] == edges[i]; }
      }
      if x in Pairs(edges[..n]) {
        var i :| 0 <= i < n && x == (edges[..n][i].fromStep, edges[..n][i].toStep);
        assert edges[..n][i] == edges[i];
      }
    }
  }

  lemma {:induction false} DeriveAllKeeps(edges: seq<Edge>, zero: map<string, int>)
    requires forall i :: 0 <= i < |edges| ==> edges[i].toStep in zero
    requires forall id <- zero :: zero[id] == 0
    ensures var d := DeriveAll(edges, zero);
            && Listed(d.seen, d.dependents) && Counted(d.seen, d.indegree) && d.indegree.Keys == zero.Keys
            && d.seen == Pairs(edges)
  {
    if edges == [] {
      assert forall b :: Sources({}, b) == {};
    } else {
      DeriveAllKeeps(edges[..|edges| - 1], zero);
      DeriveOneKeeps(DeriveAll(edges[..|edges| - 1], zero), edges[|edges| - 1]);
      PairsSnoc(edges);
    }
  }

  /** The edges, in order. */
  method DeriveEdges(p: Pipeline, zero: map<string, int>) returns (fault: Option<BuildError>, d: Derivation)
    requires forall id :: id in zero <==> HasStep(p, id)
    ensures fault.None? <==> EdgesKnown(p)
    ensures fault.None? ==> d == DeriveAll(p.edges, zero)
    ensures fault.Some? ==> fault.value.UnknownStep? && !HasStep(p, fault.value.id)
  {
    d := Derivation(map[], zero, {});
    var k := 0;
    while k < |p.edges|
      invariant 0 <= k <= |p.edges| && d == DeriveAll(p.edges[..k], zero)
      invariant forall i :: 0 <= i < k ==> p.edges[i].fromStep in zero && p.edges[i].toStep in zero
    {
      var e := p.edges[k];
      if e.fromStep !in zero { return Some(UnknownStep(e.fromStep)), d; }
      if e.toStep !in zero { return Some(UnknownStep(e.toStep)), d; }
      d := DeriveOne(d, e);
      assert p.edges[..k + 1][..k] == p.edges[..k];
      k := k + 1;
    }
    assert p.edges[..k] == p.edges;
    fault := None;
  }

  lemma KnownAreSteps(p: Pipeline)
    ensures forall id :: id in Set(StepIds(p)) <==> HasStep(p, id)
  {
    forall id ensures id in Set(StepIds(p)) <==> HasStep(p, id) {
      if HasStep(p, id) {
        var i :| 0 <= i < |p.steps| && p.steps[i].id == id;
        assert StepIds(p)[i] == id;
      }
    }
  }

  lemma SortedDependents(s: seq<string>)
    requires NoDup(s)
    ensures NoDup(Sort(s, StringLeq)) && Sorted(Sort(s, StringLeq), StringLeq)
    ensures forall x :: x in Sort(s, StringLeq) <==> x in s
  {
    StringOrder();
    SortIsSorted(s, StringLeq);
    SameMembers(Sort(s, StringLeq), s);
    NoDupIsMultiset(s);
    MultisetIsNoDup(Sort(s, StringLeq));
  }

  lemma {:induction false} NoDupIsMultiset<T>(s: seq<T>)
    requires NoDup(s)
    ensures forall x :: multiset(s)[x] <= 1
  {
    if s != [] {
      assert s == s[..|s| - 1] + [s[|s| - 1]];
      NoDupIsMultiset(s[..|s| - 1]);
      assert s[|s| - 1] !in multiset(s[..|s| - 1]);
    }
  }

  lemma MultisetIsNoDup<T>(s: seq<T>)
    requires forall x :: multiset(s)[x] <= 1
    ensures NoDup(s)
  {
    forall i, j | 0 <= i < j < |s| ensures s[i] != s[j] {
      assert s == s[..j] + [s[j]] + s[j + 1..];
      assert s[..j][i] == s[i];
      assert s[i] in multiset(s[..j]);
      assert multiset(s) == multiset(s[..j]) + multiset{s[j]} + multiset(s[j + 1..]);
      assert s[i] == s[j] ==> multiset(s)[s[j]] >= 2;
    }
  }

  lemma PairsAreDeps(p: Pipeline)
    ensures forall a, b :: (a, b) in Pairs(p.edges) <==> Dep(p, a, b)
  {
  }

  function Assemble(ids: seq<string>, d: Derivation): (r: Graph) {
    Graph(Sort(ids, StringLeq), map a | a in d.dependents :: Sort(d.dependents[a], StringLeq), d.indegree)
  }

  lemma GraphIsDerived(p: Pipeline, d: Derivation, g: Graph)
    requires StepsNamed(p) && EdgesKnown(p)
    requires Listed(d.seen, d.dependents) && Counted(d.seen, d.indegree) && d.indegree.Keys == Set(StepIds(p))
    requires d.seen == Pairs(p.edges)
    requires g == Assemble(StepIds(p), d)
    ensures GraphOf(g, p)
  {
    SortedDependents(StepIds(p));
    KnownAreSteps(p);
    PairsAreDeps(p);
    assert Set(g.stepIDs) == Set(StepIds(p));
    forall a ensures NoDup(Dependents(g, a)) && Sorted(Dependents(g, a), StringLeq)
      ensures forall b :: b in Dependents(g, a) <==> (a, b) in d.seen
    {
      if a in d.dependents { SortedDependents(d.dependents[a]); }
    }
    forall a, b | b in Dependents(g, a) ensures a in g.stepIDs && b in g.stepIDs {
      assert Dep(p, a, b);
    }
    forall b | b in g.indegree ensures Preds(g, b) == Sources(d.seen, b) {
      SourcesArePreds(g, d.seen, b);
    }
  }

  lemma SourcesArePreds(g: Graph, seen: set<(string, string)>, b: string)
    requires forall a :: b in Dependents(g, a) <==> (a, b) in seen
    requires forall a :: b in Dependents(g, a) ==> a in g.stepIDs
    ensures Preds(g, b) == Sources(seen, b)
  {
    forall a ensures a in Preds(g, b) <==> a in Sources(seen, b) {
      assert a in Sources(seen, b) <==> (a, b) in seen;
    }
  }

  lemma PathsAgree(g: Graph, p: Pipeline)
    requires GraphOf(g, p)
    ensures forall path :: ClosedPath(g, path) <==> CycleOf(p, path)
    ensures Acyclic(g) <==> AcyclicPipeline(p)
  {
    forall path ensures ClosedPath(g, path) <==> CycleOf(p, path) {
      if |path| >= 2 {
        assert forall i :: 0 <= i < |path| - 1 ==>
          (path[i + 1] in Dependents(g, path[i]) <==> Dep(p, path[i], path[i + 1]));
      }
    }
    if AcyclicPipeline(p) {
      forall path ensures !ClosedPath(g, path) { assert !CycleOf(p, path); }
    }
    if Acyclic(g) {
      forall path ensures !CycleOf(p, path) { assert !ClosedPath(g, path); }
    }
  }

  lemma Assembled(p: Pipeline, zero: map<string, int>, g: Graph)
    requires StepsNamed(p) && EdgesKnown(p) && zero.Keys == Set(StepIds(p)) && forall id <- zero :: zero[id] == 0
    requires g == Assemble(StepIds(p), DeriveAll(p.edges, zero))
    ensures GraphOf(g, p)
    ensures forall path :: ClosedPath(g, path) <==> CycleOf(p, path)
    ensures Acyclic(g) <==> AcyclicPipeline(p)
  {
    KnownAreSteps(p);
    DeriveAllKeeps(p.edges, zero);
    GraphIsDerived(p, DeriveAll(p.edges, zero), g);
    PathsAgree(g, p);
  }

  /**
   A pipeline has a graph exactly when its ids are present and distinct, its edges
   name its steps and its dependency relation is acyclic; the graph then has
   exactly its steps and dependencies, and a refusal names a real fault.
   */
  method Build(p: Pipeline) returns (r: Result<Graph, BuildError>)
    ensures r.Ok? <==> StepsNamed(p) && EdgesKnown(p) && AcyclicPipeline(p)
    ensures r.Ok? ==> GraphOf(r.value, p) && Acyclic(r.value) && Ranked(r.value)
    ensures r.Err? && (r.error.EmptyStepId? || r.error.DuplicateStep?) <==> !StepsNamed(p)
    ensures r.Err? && r.error.UnknownStep? <==> StepsNamed(p) && !EdgesKnown(p)
    ensures r.Err? && r.error.UnknownStep? ==> !HasStep(p, r.error.id)
    ensures r.Err? && r.error.Cycle? <==> StepsNamed(p) && EdgesKnown(p) && !AcyclicPipeline(p)
    ensures r.Err? && r.error.Cycle? ==> CycleOf(p, r.error.path)
  {
    var fault, ids, zero := NameSteps(p);
    if fault.Some? { return Err(fault.value); }
    assert forall id :: id in zero <==> HasStep(p, id) by { KnownAreSteps(p); }
    var fault', d := DeriveEdges(p, zero);
    if fault'.Some? { return Err(fault'.value); }
    var g := Assemble(ids, d);
    Assembled(p, zero, g);
    var cycle := FindCycle(g);
    if cycle.Some? { return Err(Cycle(cycle.value)); }
    return Ok(g);
  }
}
