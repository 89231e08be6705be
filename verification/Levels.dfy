/** Kahn's algorithm: the steps of a graph in waves, and what a wave number means. */
module Levels {
  import opened Orders
  import opened Definition
  import opened Dag

  /** Each step's predecessors. */
  type Sources = map<string, set<string>>

  ghost function SourcesOf(g: Graph): (r: Sources) {
    map x | x in g.stepIDs :: Preds(g, x)
  }

  /** The steps that wait for this one, listed once each. */
  ghost predicate ListsWaiters(deps: seq<string>, from: Sources, id: string) {
    NoDup(deps) && forall d :: d in deps <==> d in from && id in from[d]
  }

  /** The dependents lists and the predecessor sets are two views of one relation. */
  ghost predicate Linked(g: Graph, from: Sources) {
    && (forall a :: ListsWaiters(Dependents(g, a), from, a))
    && (forall a, d :: d in from && a in from[d] ==> a in from)
  }

  lemma CoherentIsLinked(g: Graph)
    requires Coherent(g)
    ensures Linked(g, SourcesOf(g))
  {
    var from := SourcesOf(g);
    forall a ensures ListsWaiters(Dependents(g, a), from, a) {
      forall d ensures d in Dependents(g, a) <==> d in from && a in from[d] {
        if d in Dependents(g, a) { DependencyIsInside(g, a, d); }
      }
    }
  }

  /** Not done, with every predecessor done. */
  predicate Ready(from: Sources, done: set<string>, x: string) {
    x in from && x !in done && from[x] <= done
  }

  /** A set with the elements of a list added. */
  function With(done: set<string>, level: seq<string>): (r: set<string>)
    ensures forall x :: x in r <==> x in done || x in level
  {
    if level == [] then done
    else
      assert level == level[..|level| - 1] + [level[|level| - 1]];
      With(done, level[..|level| - 1]) + {level[|level| - 1]}
  }

  /** Everything in the first k levels. */
  function Before(levels: seq<seq<string>>, k: nat): (r: set<string>)
    requires k <= |levels|
  {
    if k == 0 then {} else With(Before(levels, k - 1), levels[k - 1])
  }

  /** The level that follows `done`: exactly the ready steps, each once. */
  ghost predicate IsWave(from: Sources, done: set<string>, level: seq<string>) {
    NoDup(level) && forall x :: x in level <==> Ready(from, done, x)
  }

  ghost predicate WaveAt(from: Sources, levels: seq<seq<string>>, k: nat)
    requires k < |levels|
  {
    levels[k] != [] && IsWave(from, Before(levels, k), levels[k])
  }

  ghost predicate InWaves(from: Sources, levels: seq<seq<string>>) {
    forall k :: 0 <= k < |levels| ==> WaveAt(from, levels, k)
  }

  ghost predicate EachSorted(levels: seq<seq<string>>) {
    forall k :: 0 <= k < |levels| ==> Sorted(levels[k], StringLeq)
  }

  // ---- one level -------------------------------------------------------------

  datatype Tally = Tally(remaining: map<string, int>, next: seq<string>)

  /** One dependent of a finished step waits for one predecessor fewer. */
  function Lower(t: Tally, d: string): (r: Tally) {
    if d !in t.remaining then t
    else Tally(t.remaining[d := t.remaining[d] - 1], if t.remaining[d] - 1 == 0 then t.next + [d] else t.next)
  }

  function LowerAll(t: Tally, deps: seq<string>): (r: Tally) {
    if deps == [] then t else Lower(LowerAll(t, deps[..|deps| - 1]), deps[|deps| - 1])
  }

  function Retire(g: Graph, t: Tally, id: string): (r: Tally) {
    LowerAll(Tally(t.remaining - {id}, t.next), Dependents(g, id))
  }

  function RetireAll(g: Graph, t: Tally, level: seq<string>): (r: Tally) {
    if level == [] then t else Retire(g, RetireAll(g, t, level[..|level| - 1]), level[|level| - 1])
  }

  /** The next level so far: what waits for nothing and is not already placed. */
  ghost predicate NextOk(placed: set<string>, t: Tally) {
    NoDup(t.next) && forall x :: x in t.next <==> x in t.remaining && x !in placed && t.remaining[x] == 0
  }

  ghost predicate Counts(from: Sources, done: set<string>, remaining: map<string, int>) {
    && remaining.Keys == from.Keys - done
    && forall x <- remaining :: remaining[x] == |from[x] - done|
  }

  lemma LowerKeeps(placed: set<string>, t: Tally, d: string)
    requires NextOk(placed, t) && d in t.remaining && d !in placed && t.remaining[d] >= 1
    ensures NextOk(placed, Lower(t, d))
  {
    assert d !in t.next;
    var t' := Lower(t, d);
    forall x ensures x in t'.next <==> x in t'.remaining && x !in placed && t'.remaining[x] == 0 {
      if t'.next != t.next { assert x in t'.next <==> x in t.next || x == d; }
    }
  }

  lemma {:induction false} LowerAllKeeps(placed: set<string>, t: Tally, deps: seq<string>)
    requires NextOk(placed, t) && NoDup(deps)
    requires forall d :: d in deps ==> d in t.remaining && d !in placed && t.remaining[d] >= 1
    ensures var t' := LowerAll(t, deps);
            && NextOk(placed, t') && t'.remaining.Keys == t.remaining.Keys
            && forall x <- t.remaining :: t'.remaining[x] == t.remaining[x] - (if x in deps then 1 else 0)
  {
    if deps != [] {
      var n := |deps| - 1;
      assert deps == deps[..n] + [deps[n]];
      assert deps[n] !in deps[..n];
      LowerAllKeeps(placed, t, deps[..n]);
      LowerKeeps(placed, LowerAll(t, deps[..n]), deps[n]);
    }
  }

  lemma CountDrops(preds: set<string>, done: set<string>, id: string)
    requires id !in done
    ensures |preds - (done + {id})| == |preds - done| - (if id in preds then 1 else 0)
  {
    assert preds - (done + {id}) == (preds - done) - {id};
  }

  /** Nothing placed waits for a step outside `first`. */
  ghost predicate Settled(from: Sources, first: set<string>, placed: set<string>) {
    forall x :: x in placed ==> x in from && from[x] <= first
  }

  /** The dependents of a step being retired still wait for it, and are not placed. */
  lemma WaiterIsCounted(
    from: Sources, first: set<string>, placed: set<string>, done: set<string>, remaining: map<string, int>, id: string,
    d: string)
    requires Settled(from, first, placed) && first <= done <= placed && id !in done && d in from && id in from[d]
    requires Counts(from, done, remaining)
    ensures d in remaining && d !in placed && remaining[d] >= 1
  {
    assert id in from[d] - done;
  }

  lemma RetireKeeps(
    deps: seq<string>, from: Sources, first: set<string>, placed: set<string>, done: set<string>, t: Tally, id: string)
    requires ListsWaiters(deps, from, id) && Settled(from, first, placed) && first <= done <= placed && id in placed
    requires id !in done
    requires Counts(from, done, t.remaining) && NextOk(placed, t)
    ensures var t' := LowerAll(Tally(t.remaining - {id}, t.next), deps);
            Counts(from, done + {id}, t'.remaining) && NextOk(placed, t')
  {
    var t0 := Tally(t.remaining - {id}, t.next);
    forall d | d in deps ensures d in t0.remaining && d !in placed && t0.remaining[d] >= 1 {
      WaiterIsCounted(from, first, placed, done, t.remaining, id, d);
    }
    LowerAllKeeps(placed, t0, deps);
    CountsAfter(deps, from, done, t.remaining, LowerAll(t0, deps).remaining, id);
  }

  lemma CountsAfter(
    deps: seq<string>, from: Sources, done: set<string>, before: map<string, int>, after: map<string, int>, id: string)
    requires ListsWaiters(deps, from, id) && id !in done && Counts(from, done, before)
    requires after.Keys == before.Keys - {id}
    requires forall x <- after :: after[x] == before[x] - (if x in deps then 1 else 0)
    ensures Counts(from, done + {id}, after)
  {
    forall x | x in after ensures after[x] == |from[x] - (done + {id})| {
      CountDrops(from[x], done, id);
    }
  }

  lemma WithOne(done: set<string>, level: seq<string>, m: nat)
    requires 0 < m <= |level| && NoDup(level) && level[m - 1] !in done
    ensures With(done, level[..m]) == With(done, level[..m - 1]) + {level[m - 1]}
    ensures level[m - 1] in With(done, level) && level[m - 1] !in With(done, level[..m - 1])
    ensures done <= With(done, level[..m - 1]) <= With(done, level)
    ensures level[..m][..m - 1] == level[..m - 1]
  {
    assert level[..m] == level[..m - 1] + [level[m - 1]];
  }

  lemma {:induction false} RetireSome(g: Graph, from: Sources, done: set<string>, level: seq<string>, t: Tally, m: nat)
    requires Linked(g, from) && NoDup(level) && Settled(from, done, With(done, level)) && m <= |level|
    requires forall x :: x in level ==> x !in done
    requires Counts(from, done, t.remaining) && NextOk(With(done, level), t)
    ensures var t' := RetireAll(g, t, level[..m]);
            Counts(from, With(done, level[..m]), t'.remaining) && NextOk(With(done, level), t')
    decreases m
  {
    if m > 0 {
      var id := level[m - 1];
      WithOne(done, level, m);
      RetireSome(g, from, done, level, t, m - 1);
      assert ListsWaiters(Dependents(g, id), from, id);
      RetireKeeps(Dependents(g, id), from, done, With(done, level),
                  With(done, level[..m - 1]), RetireAll(g, t, level[..m - 1]), id);
    }
  }

  lemma ZeroIsReady(from: Sources, done: set<string>, remaining: map<string, int>, x: string)
    requires Counts(from, done, remaining)
    ensures x in remaining && remaining[x] == 0 <==> Ready(from, done, x)
  {
    if x in remaining {
      var left := from[x] - done;
      assert left == {} <==> |left| == 0;
      if left == {} { assert forall y :: y in from[x] ==> y !in left; }
    }
  }

  lemma OneLevel(g: Graph, from: Sources, done: set<string>, level: seq<string>, remaining: map<string, int>)
    requires Linked(g, from) && IsWave(from, done, level) && Counts(from, done, remaining) && Settled(from, done, done)
    ensures var t, done' := RetireAll(g, Tally(remaining, []), level), With(done, level);
            && Counts(from, done', t.remaining) && Settled(from, done', done')
            && NoDup(t.next) && forall x :: x in t.next <==> Ready(from, done', x)
  {
    var t0, done' := Tally(remaining, []), With(done, level);
    forall x ensures !(x in remaining && x !in done' && remaining[x] == 0) { ZeroIsReady(from, done, remaining, x); }
    assert NextOk(done', t0);
    RetireSome(g, from, done, level, t0, |level|);
    assert level[..|level|] == level;
    var t := RetireAll(g, t0, level);
    forall x ensures x in t.next <==> Ready(from, done', x) { ZeroIsReady(from, done', t.remaining, x); }
  }

  // ---- the loop ----------------------------------------------------------------

  method FirstLevel(g: Graph) returns (level: seq<string>)
    requires NoDup(g.stepIDs) && Sorted(g.stepIDs, StringLeq) && forall x :: x in g.stepIDs <==> x in g.indegree
    ensures NoDup(level) && Sorted(level, StringLeq)
    ensures forall x :: x in level <==> x in g.indegree && g.indegree[x] == 0
  {
    level := [];
    ghost var at: seq<int> := [];
    var k := 0;
    while k < |g.stepIDs|
      invariant 0 <= k <= |g.stepIDs| && |at| == |level|
      invariant forall i :: 0 <= i < |at| ==> 0 <= at[i] < k && level[i] == g.stepIDs[at[i]]
      invariant forall i, j :: 0 <= i < j < |at| ==> at[i] < at[j]
      invariant forall x :: x in level <==> x in g.stepIDs[..k] && x in g.indegree && g.indegree[x] == 0
    {
      var id := g.stepIDs[k];
      assert g.stepIDs[..k + 1] == g.stepIDs[..k] + [id];
      if g.indegree[id] == 0 {
        level, at := level + [id], at + [k];
      }
      k := k + 1;
    }
    assert g.stepIDs[..k] == g.stepIDs;
  }

  method NextLevel(g: Graph, level: seq<string>, remaining: map<string, int>) returns (t: Tally)
    ensures t == RetireAll(g, Tally(remaining, []), level)
  {
    t := Tally(remaining, []);
    var m := 0;
    while m < |level|
      invariant 0 <= m <= |level| && t == RetireAll(g, Tally(remaining, []), level[..m])
    {
      ghost var before := t;
      var id := level[m];
      t := Tally(t.remaining - {id}, t.next);
      var deps := Dependents(g, id);
      var j := 0;
      while j < |deps|
        invariant 0 <= j <= |deps| && t == LowerAll(Tally(before.remaining - {id}, before.next), deps[..j])
      {
        var d := deps[j];
        assert deps[..j + 1][..j] == deps[..j];
        t := Lower(t, d);
        j := j + 1;
      }
      assert deps[..j] == deps;
      assert level[..m + 1][..m] == level[..m];
      m := m + 1;
    }
    assert level[..m] == level;
  }

  /** The highest of a finite number of ranks. */
  lemma {:induction false} TopRank(rank: map<string, nat>) returns (top: nat)
    ensures forall a <- rank :: rank[a] <= top
    decreases rank.Keys
  {
    if a :| a in rank {
      var t := TopRank(rank - {a});
      top := if t < rank[a] then rank[a] else t;
      assert forall b <- rank :: b != a ==> b in rank - {a};
    } else {
      top := 0;
    }
  }

  /** An acyclic graph with steps left has a step ready. */
  lemma {:induction false} SomethingIsReady(
    g: Graph, from: Sources, rank: map<string, nat>, top: nat, done: set<string>, x: string) returns (y: string)
    requires Linked(g, from) && Ranks(g, rank) && forall z <- from :: z in rank
    requires x in from && x !in done && forall a <- rank :: rank[a] <= top
    ensures Ready(from, done, y)
    decreases top - rank[x]
  {
    if from[x] <= done {
      y := x;
    } else {
      var z :| z in from[x] && z !in done;
      assert ListsWaiters(Dependents(g, z), from, z);
      y := SomethingIsReady(g, from, rank, top, done, z);
    }
  }

  /** The end of the loop: nothing is ready, so nothing is left. */
  lemma NothingLeft(g: Graph, from: Sources, done: set<string>)
    requires Linked(g, from) && Ranked(g) && (forall x <- from :: x in g.stepIDs) && done <= from.Keys
    requires forall x :: !Ready(from, done, x)
    ensures done == from.Keys
  {
    if x :| x in from && x !in done {
      var rank :| Ranks(g, rank);
      var top := TopRank(rank);
      var y := SomethingIsReady(g, from, rank, top, done, x);
    }
  }

  lemma {:induction false} BeforePrefix(levels: seq<seq<string>>, level: seq<string>, k: nat)
    requires k <= |levels|
    ensures Before(levels + [level], k) == Before(levels, k)
  {
    if k > 0 {
      BeforePrefix(levels, level, k - 1);
      assert (levels + [level])[k - 1] == levels[k - 1];
    }
  }

  lemma WavesGrow(from: Sources, levels: seq<seq<string>>, level: seq<string>)
    requires InWaves(from, levels) && level != [] && IsWave(from, Before(levels, |levels|), level)
    ensures InWaves(from, levels + [level])
    ensures Before(levels + [level], |levels + [level]|) == With(Before(levels, |levels|), level)
  {
    var levels' := levels + [level];
    BeforePrefix(levels, level, |levels|);
    forall k | 0 <= k < |levels'| ensures WaveAt(from, levels', k) {
      BeforePrefix(levels, level, k);
      if k < |levels| { assert levels'[k] == levels[k] && WaveAt(from, levels, k); }
    }
  }

  /**
   Every step of an acyclic graph is listed, in waves: each level is exactly the
   steps ready once the earlier levels are done.
   */
  method TopoLevels(g: Graph) returns (levels: seq<seq<string>>)
    requires Coherent(g) && Ranked(g)
    ensures InWaves(SourcesOf(g), levels) && EachSorted(levels)
    ensures forall x :: x in Before(levels, |levels|) <==> x in g.stepIDs
  {
    ghost var from := SourcesOf(g);
    CoherentIsLinked(g);
    Start(g);
    var remaining := g.indegree;
    var level := FirstLevel(g);
    levels := [];
    ghost var done: set<string> := {};
    FirstIsWave(from, level, remaining);
    levels, done := Waves(g, from, level, remaining);
    NothingLeft(g, from, done);
  }

  lemma Start(g: Graph)
    requires Coherent(g)
    ensures Counts(SourcesOf(g), {}, g.indegree)
    ensures forall x :: x in g.stepIDs <==> x in g.indegree
  {
    var from := SourcesOf(g);
    forall x ensures x in g.stepIDs <==> x in g.indegree { assert x in g.indegree.Keys <==> x in Set(g.stepIDs); }
    assert g.indegree.Keys == from.Keys - {};
    forall x | x in g.indegree ensures g.indegree[x] == |from[x] - {}| { assert from[x] - {} == Preds(g, x); }
  }

  lemma FirstIsWave(from: Sources, level: seq<string>, remaining: map<string, int>)
    requires Counts(from, {}, remaining) && NoDup(level)
    requires forall x :: x in level <==> x in remaining && remaining[x] == 0
    ensures IsWave(from, {}, level)
  {
    forall x ensures x in level <==> Ready(from, {}, x) { ZeroIsReady(from, {}, remaining, x); }
  }

  lemma WaveShrinks(from: Sources, done: set<string>, level: seq<string>)
    requires IsWave(from, done, level) && level != [] && done <= from.Keys
    ensures With(done, level) <= from.Keys && from.Keys - With(done, level) < from.Keys - done
  {
    assert level[0] in level && Ready(from, done, level[0]);
    assert level[0] in from.Keys - done;
  }

  lemma SortedGrow(levels: seq<seq<string>>, level: seq<string>)
    requires EachSorted(levels) && Sorted(level, StringLeq)
    ensures EachSorted(levels + [level])
  {
    forall k | 0 <= k < |levels + [level]| ensures Sorted((levels + [level])[k], StringLeq) {
      if k < |levels| { assert (levels + [level])[k] == levels[k]; }
    }
  }

  lemma SortedWave(from: Sources, done: set<string>, next: seq<string>)
    requires NoDup(next) && forall x :: x in next <==> Ready(from, done, x)
    ensures IsWave(from, done, Sort(next, StringLeq)) && Sorted(Sort(next, StringLeq), StringLeq)
  {
    SortedDependents(next);
  }

  /** The loop over levels. */
  method Waves(g: Graph, ghost from: Sources, first: seq<string>, indegree: map<string, int>)
    returns (levels: seq<seq<string>>, ghost done: set<string>)
    requires Linked(g, from) && IsWave(from, {}, first) && Sorted(first, StringLeq) && Counts(from, {}, indegree)
    ensures EachSorted(levels)
    ensures InWaves(from, levels) && done == Before(levels, |levels|) && done <= from.Keys
    ensures forall x :: !Ready(from, done, x)
  {
    var level, remaining := first, indegree;
    levels, done := [], {};
    while level != []
      invariant done == Before(levels, |levels|) && done <= from.Keys && InWaves(from, levels)
      invariant EachSorted(levels) && Sorted(level, StringLeq)
      invariant IsWave(from, done, level) && Counts(from, done, remaining) && Settled(from, done, done)
      decreases from.Keys - done
    {
      var t := NextLevel(g, level, remaining);
      OneLevel(g, from, done, level, remaining);
      WavesGrow(from, levels, level);
      WaveShrinks(from, done, level);
      SortedGrow(levels, level);
      levels, done, remaining := levels + [level], With(done, level), t.remaining;
      SortedWave(from, done, t.next);
      level := Sort(t.next, StringLeq);
    }
  }

  // ---- what a level number means --------------------------------------------------

  /** A dependency path that ends at x. */
  ghost predicate PathInto(from: Sources, path: seq<string>, x: string) {
    |path| >= 1 && path[|path| - 1] == x && x in from && forall i :: 0 < i < |path| ==> Hop(from, path, i)
  }

  predicate Hop(from: Sources, path: seq<string>, i: int)
    requires 0 < i < |path|
  {
    path[i] in from && path[i - 1] in from[path[i]]
  }

  lemma {:induction false} InSomeLevel(levels: seq<seq<string>>, k: nat, x: string) returns (m: nat)
    requires k <= |levels| && x in Before(levels, k)
    ensures m < k && x in levels[m]
  {
    if x in levels[k - 1] { m := k - 1; } else { m := InSomeLevel(levels, k - 1, x); }
  }

  lemma {:induction false} InBefore(levels: seq<seq<string>>, m: nat, k: nat, x: string)
    requires m < k <= |levels| && x in levels[m]
    ensures x in Before(levels, k)
  {
    if m < k - 1 { InBefore(levels, m, k - 1, x); }
  }

  lemma LevelIsReady(from: Sources, levels: seq<seq<string>>, k: nat, x: string)
    requires InWaves(from, levels) && k < |levels|
    ensures x in levels[k] <==> Ready(from, Before(levels, k), x)
    ensures NoDup(levels[k])
  {
    assert WaveAt(from, levels, k);
  }

  /** A step of a later level has a predecessor in the level before it. */
  lemma PredInPreviousLevel(from: Sources, levels: seq<seq<string>>, k: nat, x: string) returns (y: string)
    requires InWaves(from, levels) && k + 1 < |levels| && x in levels[k + 1]
    ensures y in levels[k] && x in from && y in from[x]
  {
    LevelIsReady(from, levels, k + 1, x);
    LevelIsReady(from, levels, k, x);
    assert !(from[x] <= Before(levels, k));
    y :| y in from[x] && y !in Before(levels, k);
  }

  lemma {:induction false} LongPath(from: Sources, levels: seq<seq<string>>, k: nat, x: string)
    returns (path: seq<string>)
    requires InWaves(from, levels) && k < |levels| && x in levels[k]
    ensures PathInto(from, path, x) && |path| - 1 == k
  {
    LevelIsReady(from, levels, k, x);
    if k == 0 {
      path := [x];
    } else {
      var y := PredInPreviousLevel(from, levels, k - 1, x);
      var rest := LongPath(from, levels, k - 1, y);
      path := rest + [x];
      forall i | 0 < i < |path| ensures Hop(from, path, i) {
        if i < |rest| { assert Hop(from, rest, i); }
      }
    }
  }

  lemma PathPrefix(from: Sources, path: seq<string>)
    requires |path| > 1 && PathInto(from, path, path[|path| - 1])
    requires forall a, d :: d in from && a in from[d] ==> a in from
    ensures PathInto(from, path[..|path| - 1], path[|path| - 2])
  {
    var n := |path| - 1;
    assert Hop(from, path, n);
    forall i | 0 < i < n ensures Hop(from, path[..n], i) { assert Hop(from, path, i); }
  }

  lemma {:induction false} NoLongerPath(from: Sources, levels: seq<seq<string>>, k: nat, x: string, path: seq<string>)
    requires InWaves(from, levels) && k < |levels| && x in levels[k] && PathInto(from, path, x)
    requires forall a, d :: d in from && a in from[d] ==> a in from
    ensures |path| - 1 <= k
    decreases |path|
  {
    if |path| > 1 {
      var n := |path| - 1;
      assert Hop(from, path, n);
      LevelIsReady(from, levels, k, x);
      var m := InSomeLevel(levels, k, path[n - 1]);
      PathPrefix(from, path);
      NoLongerPath(from, levels, m, path[n - 1], path[..n]);
    }
  }

  lemma LevelsAreDisjoint(from: Sources, levels: seq<seq<string>>, j: nat, k: nat, x: string)
    requires InWaves(from, levels) && j < |levels| && k < |levels| && x in levels[j] && x in levels[k]
    ensures j == k
  {
    LevelIsReady(from, levels, j, x);
    LevelIsReady(from, levels, k, x);
    if j < k { InBefore(levels, j, k, x); }
    if k < j { InBefore(levels, k, j, x); }
  }

  /**
   Each step is in exactly one level, once; its level number is the length of the
   longest dependency path into it; and so its predecessors are all in earlier
   levels and it could not run in an earlier wave.
   */
  lemma LevelIsLongestPath(from: Sources, levels: seq<seq<string>>, x: string) returns (k: nat, path: seq<string>)
    requires InWaves(from, levels) && x in Before(levels, |levels|)
    requires forall a, d :: d in from && a in from[d] ==> a in from
    ensures k < |levels| && x in levels[k] && NoDup(levels[k])
    ensures forall j :: 0 <= j < |levels| && x in levels[j] ==> j == k
    ensures PathInto(from, path, x) && |path| - 1 == k
    ensures forall other :: PathInto(from, other, x) ==> |other| - 1 <= k
    ensures x in from && forall y :: y in from[x] ==> exists j :: 0 <= j < k && y in levels[j]
  {
    k := InSomeLevel(levels, |levels|, x);
    path := LongPath(from, levels, k, x);
    forall j | 0 <= j < |levels| && x in levels[j] ensures j == k { LevelsAreDisjoint(from, levels, j, k, x); }
    forall other | PathInto(from, other, x) ensures |other| - 1 <= k { NoLongerPath(from, levels, k, x, other); }
    LevelIsReady(from, levels, k, x);
    forall y | y in from[x] ensures exists j :: 0 <= j < k && y in levels[j] { var j := InSomeLevel(levels, k, y); }
  }

  // ---- in the pipeline's own terms --------------------------------------------------

  predicate DepHop(p: Pipeline, path: seq<string>, i: int)
    requires 0 < i < |path|
  {
    Dep(p, path[i - 1], path[i])
  }

  /** A path of the pipeline's dependencies that ends at this step. */
  ghost predicate DepPathInto(p: Pipeline, path: seq<string>, x: string) {
    |path| >= 1 && path[|path| - 1] == x && HasStep(p, x) && forall i :: 0 < i < |path| ==> DepHop(p, path, i)
  }

  lemma GraphSteps(g: Graph, p: Pipeline)
    requires GraphOf(g, p)
    ensures forall x :: x in g.stepIDs <==> HasStep(p, x)
  {
    SameMembers(g.stepIDs, StepIds(p));
    KnownAreSteps(p);
    forall x ensures x in g.stepIDs <==> HasStep(p, x) { assert x in StepIds(p) <==> x in Set(StepIds(p)); }
  }

  lemma SourceIsDep(g: Graph, p: Pipeline, a: string, b: string)
    requires GraphOf(g, p)
    ensures b in SourcesOf(g) && a in SourcesOf(g)[b] <==> Dep(p, a, b)
  {
    if b in Dependents(g, a) { DependencyIsInside(g, a, b); }
  }

  lemma PathsMatch(g: Graph, p: Pipeline, path: seq<string>, x: string)
    requires GraphOf(g, p)
    ensures PathInto(SourcesOf(g), path, x) <==> DepPathInto(p, path, x)
  {
    GraphSteps(g, p);
    forall i | 0 < i < |path| ensures Hop(SourcesOf(g), path, i) <==> DepHop(p, path, i) {
      SourceIsDep(g, p, path[i - 1], path[i]);
    }
  }

  /**
   For every pipeline with a graph: each of its steps is in exactly one of the
   levels, once, and the number of that level is the length of the longest path of
   dependencies into the step.
   */
  lemma LevelsOfPipeline(p: Pipeline, g: Graph, levels: seq<seq<string>>, x: string) returns (k: nat, path: seq<string>)
    requires GraphOf(g, p) && InWaves(SourcesOf(g), levels)
    requires forall y :: y in Before(levels, |levels|) <==> y in g.stepIDs
    requires HasStep(p, x)
    ensures k < |levels| && x in levels[k] && NoDup(levels[k])
    ensures forall j :: 0 <= j < |levels| && x in levels[j] ==> j == k
    ensures DepPathInto(p, path, x) && |path| - 1 == k
    ensures forall other :: DepPathInto(p, other, x) ==> |other| - 1 <= k
    ensures forall y :: Dep(p, y, x) ==> exists j :: 0 <= j < k && y in levels[j]
  {
    GraphSteps(g, p);
    CoherentIsLinked(g);
    k, path := LevelIsLongestPath(SourcesOf(g), levels, x);
    PathsMatch(g, p, path, x);
    forall other | DepPathInto(p, other, x) ensures |other| - 1 <= k { PathsMatch(g, p, other, x); }
    forall y | Dep(p, y, x) ensures exists j :: 0 <= j < k && y in levels[j] { SourceIsDep(g, p, y, x); }
  }
}
