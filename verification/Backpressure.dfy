/** A subscription that holds at most so many unsettled deliveries. */
module Backpressure {
  import opened Prelude

  /** What a fetch comes back with. */
  datatype Fetch = Message | Nothing | Failure

  /** Callers of Next: outside, or holding a slot across a fetch. */
  datatype Caller = Outside | Slotted

  /** slots is the number of tokens in the channel; settled says which messages have given theirs back. */
  datatype World = World(bound: nat, slots: int, callers: seq<Caller>, settled: seq<bool>)

  datatype Action = TakeSlot(caller: nat) | Returns(caller: nat, fetch: Fetch) | Settle(message: nat)

  function Init(bound: nat, callers: nat): (w: World) {
    World(bound, 0, seq(callers, _ => Outside), [])
  }

  /** Receiving from the channel, unless it is empty. */
  function ReleaseSlot(slots: int): (r: int) {
    if slots > 0 then slots - 1 else slots
  }

  function Do(w: World, a: Action): (r: World) {
    match a
    case TakeSlot(c) =>
      if c < |w.callers| && w.callers[c].Outside? && w.slots < w.bound then
        w.(slots := w.slots + 1, callers := w.callers[c := Slotted])
      else w
    case Returns(c, fetch) =>
      if c < |w.callers| && w.callers[c].Slotted? then
        if fetch.Message? then w.(callers := w.callers[c := Outside], settled := w.settled + [false])
        else w.(callers := w.callers[c := Outside], slots := ReleaseSlot(w.slots))
      else w
    case Settle(m) =>
      // Ack, Nak or a delayed Nak, whether or not the server took it; only the first gives the slot back.
      if m < |w.settled| && !w.settled[m] then w.(settled := w.settled[m := true], slots := ReleaseSlot(w.slots)) else w
  }

  function Run(bound: nat, callers: nat, actions: seq<Action>): (w: World) {
    if actions == [] then Init(bound, callers)
    else Do(Run(bound, callers, actions[..|actions| - 1]), actions[|actions| - 1])
  }

  function IsSlotted(): (r: Caller -> bool) { (c: Caller) => c.Slotted? }
  function IsOpen(): (r: bool -> bool) { (settled: bool) => !settled }

  predicate Inv(w: World) {
    w.slots == Count(w.callers, IsSlotted()) + Count(w.settled, IsOpen()) && w.slots <= w.bound
  }

  lemma TakeKeeps(w: World, c: nat)
    requires Inv(w) && c < |w.callers|
    ensures Inv(Do(w, TakeSlot(c)))
  {
    CountUpdate(w.callers, c, Slotted, IsSlotted());
  }

  lemma ReturnKeeps(w: World, c: nat, fetch: Fetch)
    requires Inv(w) && c < |w.callers|
    ensures Inv(Do(w, Returns(c, fetch)))
  {
    CountUpdate(w.callers, c, Outside, IsSlotted());
    CountAppend(w.settled, false, IsOpen());
  }

  lemma SettleKeeps(w: World, m: nat)
    requires Inv(w) && m < |w.settled|
    ensures Inv(Do(w, Settle(m)))
  {
    CountUpdate(w.settled, m, true, IsOpen());
  }

  lemma StepKeeps(w: World, a: Action)
    requires Inv(w)
    ensures Inv(Do(w, a)) && Do(w, a).bound == w.bound
  {
    match a
    case TakeSlot(c) => if c < |w.callers| { TakeKeeps(w, c); }
    case Returns(c, fetch) => if c < |w.callers| { ReturnKeeps(w, c, fetch); }
    case Settle(m) => if m < |w.settled| { SettleKeeps(w, m); }
  }

  lemma {:induction false} RunKeeps(bound: nat, callers: nat, actions: seq<Action>)
    ensures Inv(Run(bound, callers, actions)) && Run(bound, callers, actions).bound == bound
  {
    if actions == [] {
      CountNone(Init(bound, callers).callers, IsSlotted());
    } else {
      RunKeeps(bound, callers, actions[..|actions| - 1]);
      StepKeeps(Run(bound, callers, actions[..|actions| - 1]), actions[|actions| - 1]);
    }
  }

  /**
   Over every run the tokens are exactly the fetches in flight and the deliveries not
   settled, never more than the bound, however often a message is settled.
   */
  lemma OutstandingIsExact(bound: nat, callers: nat, actions: seq<Action>)
    ensures var w := Run(bound, callers, actions);
            w.slots == Count(w.callers, IsSlotted()) + Count(w.settled, IsOpen()) && Count(w.settled, IsOpen()) <= bound
  {
    RunKeeps(bound, callers, actions);
  }

  /** A slot taken for a fetch or a delivery is there to give back: no release finds the channel empty. */
  lemma ReleaseFindsASlot(bound: nat, callers: nat, actions: seq<Action>, i: nat)
    ensures var w := Run(bound, callers, actions);
            (i < |w.callers| && w.callers[i].Slotted?) || (i < |w.settled| && !w.settled[i]) ==> w.slots > 0
  {
    var w := Run(bound, callers, actions);
    RunKeeps(bound, callers, actions);
    if i < |w.callers| && w.callers[i].Slotted? { CountSome(w.callers, i, IsSlotted()); }
    if i < |w.settled| && !w.settled[i] { CountSome(w.settled, i, IsOpen()); }
  }

  /**
   A caller is served exactly while fewer than the bound are outstanding: a message
   makes one more outstanding, and a fetch that brings none leaves everything as it was.
   */
  lemma CallsAreServed(bound: nat, callers: nat, actions: seq<Action>, c: nat)
    requires c < |Run(bound, callers, actions).callers| && Run(bound, callers, actions).callers[c].Outside?
    ensures var w := Run(bound, callers, actions); var taken := Do(w, TakeSlot(c));
            if Count(w.callers, IsSlotted()) + Count(w.settled, IsOpen()) < bound then
              && Do(taken, Returns(c, Message)) == World(w.bound, w.slots + 1, w.callers, w.settled + [false])
              && Do(taken, Returns(c, Nothing)) == w && Do(taken, Returns(c, Failure)) == w
            else taken == w
  {
    var w := Run(bound, callers, actions);
    RunKeeps(bound, callers, actions);
    assert w.callers[c := Slotted][c := Outside] == w.callers;
  }

  /** The first settlement of a message gives one back; any other changes nothing. */
  lemma SettlingGivesBack(bound: nat, callers: nat, actions: seq<Action>, m: nat)
    requires m < |Run(bound, callers, actions).settled|
    ensures var w := Run(bound, callers, actions); var once := Do(w, Settle(m));
            && once == (if w.settled[m] then w else World(w.bound, w.slots - 1, w.callers, w.settled[m := true]))
            && Do(once, Settle(m)) == once
  {
    var w := Run(bound, callers, actions);
    ReleaseFindsASlot(bound, callers, actions, m);
  }
}
