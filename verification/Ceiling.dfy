/** How far past its ceiling a run can go: as far as the bound says, for every ceiling. */
module Ceiling {
  import opened Prelude
  import opened Definition
  import opened Splice
  import opened Generator

  /** Calls numbered from zero, all for one step. */
  function Calls(n: nat, c: Call): (r: map<nat, Call>) {
    if n == 0 then map[] else Calls(n - 1, c)[n - 1 := c]
  }

  lemma {:induction false} CallsAreNumbered(n: nat, c: Call, i: nat)
    ensures i in Calls(n, c) <==> i < n
    ensures i in Calls(n, c) ==> Calls(n, c)[i] == c
  {
    if n > 0 { CallsAreNumbered(n - 1, c, i); }
  }

  lemma {:induction false} CallsAreCounted(n: nat, c: Call)
    ensures |Calls(n, c)| == n && n !in Calls(n, c)
    ensures n > 0 ==> Calls(n, c) - {n - 1} == Calls(n - 1, c)
  {
    CallsAreNumbered(n, c, n);
    if n > 0 {
      CallsAreCounted(n - 1, c);
      assert Calls(n, c) - {n - 1} == Calls(n - 1, c);
      OneFewer(Calls(n, c), n - 1);
    }
  }

  // ---- a run with every world it passes through --------------------------------------------------

  datatype Trace = Trace(actions: seq<Action>, worlds: seq<World>)

  ghost predicate StepAt(t: Trace, max: nat, k: nat)
    requires k < |t.actions| && k + 1 < |t.worlds|
  {
    t.worlds[k + 1] == Do(t.worlds[k], t.actions[k]) && (t.actions[k].Ask? ==> t.actions[k].max <= max)
  }

  /** A run within its budgets, with never more calls side by side than the limit. */
  ghost predicate Within(t: Trace, max: nat, limit: nat) {
    && |t.worlds| == |t.actions| + 1 && t.worlds[0] == World([], map[], [])
    && (forall k: nat :: k < |t.actions| ==> StepAt(t, max, k))
    && (forall k: nat :: k < |t.worlds| ==> |t.worlds[k].asking| <= limit)
  }

  function Last(t: Trace): (r: World)
    requires t.worlds != []
  {
    t.worlds[|t.worlds| - 1]
  }

  /** Within its budgets, with so many fragments recorded and so many calls waiting. */
  ghost predicate Reaches(t: Trace, max: nat, limit: nat, recorded: nat, n: nat, c: Call) {
    && Within(t, max, limit)
    && Expansions(Last(t).log) == recorded && Last(t).asking == Calls(n, c)
  }

  lemma Extend(t: Trace, a: Action, after: World, max: nat, limit: nat) returns (longer: Trace)
    requires Within(t, max, limit) && after == Do(Last(t), a) && |after.asking| <= limit
    requires a.Ask? ==> a.max <= max
    ensures Within(longer, max, limit) && Last(longer) == after
  {
    longer := Trace(t.actions + [a], t.worlds + [after]);
    forall k: nat | k < |longer.actions| ensures StepAt(longer, max, k) {
      if k < |t.actions| { assert StepAt(t, max, k); }
    }
  }

  lemma {:induction false} TraceIsRun(t: Trace, max: nat, limit: nat, k: nat)
    requires Within(t, max, limit) && k <= |t.actions|
    ensures Run(t.actions[..k]) == t.worlds[k]
  {
    if k > 0 {
      TraceIsRun(t, max, limit, k - 1);
      RunOneMore(t.actions[..k - 1], t.actions[k - 1]);
      assert t.actions[..k] == t.actions[..k - 1] + [t.actions[k - 1]];
      assert StepAt(t, max, k - 1);
    }
  }

  lemma WithinMeans(t: Trace, max: nat, limit: nat)
    requires Within(t, max, limit)
    ensures Budgets(t.actions, max) && AtMostAsking(t.actions, limit) && Run(t.actions) == Last(t)
  {
    forall k: nat | k <= |t.actions| ensures Run(t.actions[..k]) == t.worlds[k] { TraceIsRun(t, max, limit, k); }
    assert t.actions[..|t.actions|] == t.actions;
    forall a | a in t.actions && a.Ask? ensures a.max <= max {
      var k: nat :| k < |t.actions| && t.actions[k] == a;
      assert StepAt(t, max, k);
    }
  }

  // ---- asking and answering, for steps that can be told apart ----------------------------------

  function Name(i: nat): (r: string) {
    seq(i + 1, _ => 'a')
  }

  function CallFor(i: nat): (r: Call) {
    Call(Name(i), Alone(Name(i)))
  }

  function AskFor(i: nat, n: nat, max: nat): (r: Action) {
    Ask(n, Name(i), Alone(Name(i)), max)
  }

  function AnswerTo(n: nat): (r: Action) {
    Answer(n, Emitted(Some(Alone("b"))), true)
  }

  lemma AskJoins(w: World, i: nat, n: nat, max: nat)
    requires w.asking == Calls(n, CallFor(i)) && Expansions(w.log) < max && Recorded(w.log, Name(i)).None?
    ensures Do(w, AskFor(i, n, max)) == w.(asking := Calls(n + 1, CallFor(i)))
  {
    CallsAreCounted(n, CallFor(i));
  }

  lemma AskOne(t: Trace, i: nat, max: nat, limit: nat, recorded: nat, n: nat) returns (longer: Trace)
    requires Reaches(t, max, limit, recorded, n, CallFor(i)) && recorded < max && n < limit
    requires Recorded(Last(t).log, Name(i)).None?
    ensures Reaches(longer, max, limit, recorded, n + 1, CallFor(i)) && Last(longer).log == Last(t).log
  {
    AskJoins(Last(t), i, n, max);
    CallsAreCounted(n + 1, CallFor(i));
    longer := Extend(t, AskFor(i, n, max), Last(t).(asking := Calls(n + 1, CallFor(i))), max, limit);
  }

  lemma NamedSplices(i: nat)
    ensures Spliceable(Alone(Name(i)), Name(i), Some(Alone("b")))
  {
    assert Name(i)[0] == 'a';
    AloneSplices(Name(i), "b");
  }

  lemma AnswerLeaves(w: World, i: nat, n: nat) returns (after: World)
    requires w.asking == Calls(n + 1, CallFor(i))
    ensures after == Do(w, AnswerTo(n))
    ensures after.log == w.log + [Realised(Name(i), Alone("b"))] && after.asking == Calls(n, CallFor(i))
  {
    var g := Grafted(Alone(Name(i)), Name(i), Alone("b"));
    NamedSplices(i);
    CallsAreNumbered(n + 1, CallFor(i), n);
    CallsAreCounted(n + 1, CallFor(i));
    AnswersWith(w, n, Alone("b"), g);
    after := World(w.log + [Realised(Name(i), Alone("b"))], Calls(n, CallFor(i)),
                   w.returned + [Return(Name(i), Alone(Name(i)), g)]);
  }

  lemma AnswerOne(t: Trace, i: nat, max: nat, limit: nat, recorded: nat, n: nat) returns (longer: Trace)
    requires n < limit && Reaches(t, max, limit, recorded, n + 1, CallFor(i))
    ensures Reaches(longer, max, limit, recorded + 1, n, CallFor(i))
    ensures Last(longer).log == Last(t).log + [Realised(Name(i), Alone("b"))]
  {
    var after := AnswerLeaves(Last(t), i, n);
    CallsAreCounted(n, CallFor(i));
    LogGrows(Last(t).log, Realised(Name(i), Alone("b")), "");
    longer := Extend(t, AnswerTo(n), after, max, limit);
  }

  // ---- a ceiling less one, one step after another --------------------------------------------

  /** Every step with a later name is still to be recorded. */
  ghost predicate Unused(log: seq<Event>, k: nat) {
    forall i: nat :: k <= i ==> Recorded(log, Name(i)).None?
  }

  lemma StaysUnused(log: seq<Event>, k: nat, fragment: Pipeline)
    requires Unused(log, k)
    ensures Unused(log + [Realised(Name(k), fragment)], k + 1)
  {
    forall i: nat | k + 1 <= i ensures Recorded(log + [Realised(Name(k), fragment)], Name(i)).None? {
      assert |Name(i)| == i + 1 && |Name(k)| == k + 1;
      LogGrows(log, Realised(Name(k), fragment), Name(i));
    }
  }

  lemma {:induction false} InTurn(max: nat, limit: nat, k: nat) returns (t: Trace)
    requires k < max && limit > 0
    ensures Reaches(t, max, limit, k, 0, CallFor(k)) && Unused(Last(t).log, k)
  {
    if k == 0 {
      t := Trace([], [World([], map[], [])]);
    } else {
      var before := InTurn(max, limit, k - 1);
      var asked := AskOne(before, k - 1, max, limit, k - 1, 0);
      t := AnswerOne(asked, k - 1, max, limit, k - 1, 0);
      StaysUnused(Last(before).log, k - 1, Alone("b"));
    }
  }

  // ---- then as many as may run side by side ---------------------------------------------------

  lemma {:induction false} AllAsk(before: Trace, i: nat, max: nat, limit: nat, recorded: nat, n: nat) returns (t: Trace)
    requires Reaches(before, max, limit, recorded, 0, CallFor(i)) && recorded < max && n <= limit
    requires Recorded(Last(before).log, Name(i)).None?
    ensures Reaches(t, max, limit, recorded, n, CallFor(i)) && Last(t).log == Last(before).log
  {
    if n == 0 {
      t := before;
    } else {
      var fewer := AllAsk(before, i, max, limit, recorded, n - 1);
      t := AskOne(fewer, i, max, limit, recorded, n - 1);
    }
  }

  lemma {:induction false} AllAnswer(before: Trace, i: nat, max: nat, limit: nat, recorded: nat, n: nat)
    returns (t: Trace)
    requires Reaches(before, max, limit, recorded, n, CallFor(i)) && n <= limit
    ensures Reaches(t, max, limit, recorded + n, 0, CallFor(i))
    decreases n
  {
    if n == 0 {
      t := before;
    } else {
      var fewer := AnswerOne(before, i, max, limit, recorded, n - 1);
      t := AllAnswer(fewer, i, max, limit, recorded + 1, n - 1);
    }
  }

  /**
   For every ceiling and every number of calls side by side, some run records exactly
   the bound: one short of the ceiling in turn, then as many calls as may overlap, all
   reading the log before any appends.
   */
  lemma CeilingIsReached(max: nat, limit: nat) returns (actions: seq<Action>)
    requires max > 0 && limit > 0
    ensures Budgets(actions, max) && AtMostAsking(actions, limit)
    ensures Expansions(Run(actions).log) == max - 1 + limit
  {
    var before := InTurn(max, limit, max - 1);
    var asked := AllAsk(before, max - 1, max, limit, max - 1, limit);
    var t := AllAnswer(asked, max - 1, max, limit, max - 1, limit);
    WithinMeans(t, max, limit);
    actions := t.actions;
  }
}
