/** How full an engine gets: as full as its bounds say, for every limit and every number of queues. */
module Capacity {
  import opened Room

  lemma RunOneMore(limit: int, pumps: nat, actions: seq<Action>, a: Action)
    ensures Run(limit, pumps, actions + [a]) == Do(Run(limit, pumps, actions), a)
  {
    assert (actions + [a])[..|actions|] == actions;
  }

  // ---- one dispatch after another, by the first pump --------------------------------------

  ghost predicate AllLooking(pumps: seq<Pump>) {
    forall p :: 0 <= p < |pumps| ==> pumps[p] == Looking
  }

  /** So many run, and every pump is free. */
  ghost predicate Serving(w: World, limit: int, pumps: nat, n: nat) {
    && w.limit == limit && |w.pumps| == pumps && AllLooking(w.pumps)
    && w.room.held == n && w.slots == n
  }

  lemma FetchOne(w: World)
    requires 0 < |w.pumps| && w.pumps[0].Looking? && w.room.held < w.limit
    ensures Do(Do(w, Look(0)), Arrive(0)) ==
            w.(pumps := w.pumps[0 := Fetched(|w.jobs|)], jobs := w.jobs + [Job(InHand, 0, 0, 0, 0)])
  {
    var w1 := Do(w, Look(0));
    assert w1.pumps[0] == Fetching(w.room.round);
  }

  lemma RunOne(w: World)
    requires 0 < |w.pumps| && w.pumps[0].Fetched? && w.pumps[0].job < |w.jobs| && w.slots < w.limit
    ensures var after := Do(Do(w, Hold(0)), TakeSlot(0));
            && after.limit == w.limit && after.pumps == w.pumps[0 := Looking]
            && after.room.held == w.room.held + 1 && after.slots == w.slots + 1
  {
    var w1 := Do(w, Hold(0));
    assert w1.pumps[0] == Queued(w.pumps[0].job);
  }

  lemma ServesOne(w: World, limit: int, pumps: nat, n: nat)
    requires pumps > 0 && n < limit && Serving(w, limit, pumps, n)
    ensures Serving(Do(Do(Do(Do(w, Look(0)), Arrive(0)), Hold(0)), TakeSlot(0)), limit, pumps, n + 1)
  {
    FetchOne(w);
    RunOne(Do(Do(w, Look(0)), Arrive(0)));
  }

  lemma {:induction false} Serve(limit: int, pumps: nat, n: nat) returns (actions: seq<Action>)
    requires pumps > 0 && n <= limit
    ensures Serving(Run(limit, pumps, actions), limit, pumps, n)
  {
    if n == 0 {
      actions := [];
    } else {
      var before := Serve(limit, pumps, n - 1);
      ServesOne(Run(limit, pumps, before), limit, pumps, n - 1);
      RunOneMore(limit, pumps, before, Look(0));
      RunOneMore(limit, pumps, before + [Look(0)], Arrive(0));
      RunOneMore(limit, pumps, before + [Look(0)] + [Arrive(0)], Hold(0));
      RunOneMore(limit, pumps, before + [Look(0)] + [Arrive(0)] + [Hold(0)], TakeSlot(0));
      actions := before + [Look(0)] + [Arrive(0)] + [Hold(0)] + [TakeSlot(0)];
    }
  }

  // ---- then every pump at once --------------------------------------------------------------

  /** So many pumps are fetching, in the last round there was room. */
  ghost predicate Rushing(w: World, limit: int, pumps: nat, n: nat) {
    && w.limit == limit && |w.pumps| == pumps && w.room.held == limit - 1 && w.slots == limit - 1
    && forall p :: 0 <= p < pumps ==> if p < n then w.pumps[p].Fetching? else w.pumps[p].Looking?
  }

  lemma {:induction false} Rush(limit: int, pumps: nat, before: seq<Action>, n: nat) returns (actions: seq<Action>)
    requires limit >= 1 && n <= pumps && Serving(Run(limit, pumps, before), limit, pumps, limit - 1)
    ensures Rushing(Run(limit, pumps, actions), limit, pumps, n)
  {
    if n == 0 {
      actions := before;
    } else {
      var fewer := Rush(limit, pumps, before, n - 1);
      RunOneMore(limit, pumps, fewer, Look(n - 1));
      actions := fewer + [Look(n - 1)];
    }
  }

  /** So many of them have fetched and hold a dispatch that waits for a slot. */
  ghost predicate Brimming(w: World, limit: int, pumps: nat, n: nat) {
    && w.limit == limit && |w.pumps| == pumps && w.room.held == limit - 1 + n && w.slots == limit - 1
    && forall p :: 0 <= p < pumps ==>
         if p < n then w.pumps[p].Queued? && w.pumps[p].job < |w.jobs| else w.pumps[p].Fetching?
  }

  lemma HoldsOneMore(w: World, limit: int, pumps: nat, n: nat)
    requires n < pumps && Brimming(w, limit, pumps, n)
    ensures Brimming(Do(Do(w, Arrive(n)), Hold(n)), limit, pumps, n + 1)
  {
    var w1 := Do(w, Arrive(n));
    assert w1.pumps[n] == Fetched(|w.jobs|) && |w1.jobs| == |w.jobs| + 1;
  }

  lemma {:induction false} Fill(limit: int, pumps: nat, before: seq<Action>, n: nat) returns (actions: seq<Action>)
    requires n <= pumps && Rushing(Run(limit, pumps, before), limit, pumps, pumps)
    ensures Brimming(Run(limit, pumps, actions), limit, pumps, n)
  {
    if n == 0 {
      actions := before;
    } else {
      var fewer := Fill(limit, pumps, before, n - 1);
      HoldsOneMore(Run(limit, pumps, fewer), limit, pumps, n - 1);
      RunOneMore(limit, pumps, fewer, Arrive(n - 1));
      RunOneMore(limit, pumps, fewer + [Arrive(n - 1)], Hold(n - 1));
      actions := fewer + [Arrive(n - 1)] + [Hold(n - 1)];
    }
  }

  /**
   For every limit L and every number P of queues some run holds L - 1 + P dispatches
   and runs L of them at once: one short of the limit in turn, then every pump starts
   a fetch while there is room and every fetch brings a message.
   */
  lemma BoundsAreReached(limit: int, pumps: nat) returns (actions: seq<Action>)
    requires limit >= 1 && pumps >= 1
    ensures var w := Run(limit, pumps, actions); w.room.held == limit - 1 + pumps && w.slots == limit
  {
    var served := Serve(limit, pumps, limit - 1);
    var rushed := Rush(limit, pumps, served, pumps);
    var filled := Fill(limit, pumps, rushed, pumps);
    RunOneMore(limit, pumps, filled, TakeSlot(0));
    actions := filled + [TakeSlot(0)];
  }
}
