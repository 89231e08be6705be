/** When a request is accepted: each kind, served with nothing in between, from any world a run can reach. */
module Requests {
  import opened Prelude
  import opened Definition
  import opened Edits
  import opened Meaning
  import opened History
  import opened Rebase
  import opened Merge
  import opened Heads
  import opened Editing

  /** The definition an edit is applied to: the head, or its base where there is none. */
  function Onto(req: Request, head: Option<Pipeline>): (r: Pipeline)
    requires req.Change?
  {
    if head.Some? then head.value else req.base
  }

  /** What an edit reads is in the store, and it lands. */
  ghost predicate CanLand(saved: set<(string, Pipeline)>, req: Request, head: Option<Pipeline>)
    requires req.Change?
  {
    && Has(saved, req.key, req.base) && Has(saved, req.key, Onto(req, head))
    && Submit(req.base, Onto(req, head), req.op).Landed?
  }

  /**
   Once it has read the head, a request goes on to store something exactly when it can
   land there, and what it will store and move the head from are what it landed on.
   */
  lemma PrepareLands(w: World, req: Request, head: Option<Pipeline>)
    requires req.Change?
    ensures Prepare(w, req, head) ==
            if CanLand(w.saved, req, head) then Ready(req, head, Submit(req.base, Onto(req, head), req.op).pipeline)
            else Answered(req, Rejected)
  {
  }

  function Next(w: World, id: nat): (r: World) {
    Do(w, Action.Step(id, Fine))
  }

  /** A request from its first call to its reply, with every call answered and no other request between. */
  function Served(w: World, id: nat, req: Request): (r: World) {
    Next(Next(Next(Next(Do(w, Begin(id, req)), id), id), id), id)
  }

  /** The world after an accepted request: stored, at the head, logged and told. */
  function AcceptedAs(w: World, id: nat, req: Request, to: Pipeline): (r: World) {
    World(w.heads[req.key := to], w.saved + {(req.key.tenant, to)},
          w.requests[id := Answered(req, Accepted(to))], w.log + [Move(id, req, Row(w.heads, req.key), to)])
  }

  function RejectedAs(w: World, id: nat, req: Request): (r: World) {
    w.(requests := w.requests[id := Answered(req, Rejected)])
  }

  /** What is prepared goes through, when the head has not moved since it was read. */
  lemma PreparedIsAccepted(w: World, id: nat, req: Request, to: Pipeline)
    requires id in w.requests && w.requests[id] == Ready(req, Row(w.heads, req.key), to)
    ensures Next(Next(w, id), id) == AcceptedAs(w, id, req, to)
  {
    var w1 := Next(w, id);
    assert w1.requests[id] == Stored(req, Row(w.heads, req.key), to);
    assert Next(w1, id).requests == w.requests[id := Answered(req, Accepted(to))];
  }

  lemma AnsweredStays(w: World, id: nat)
    requires id in w.requests && w.requests[id].Answered?
    ensures Next(w, id) == w
  {
  }

  lemma ChangeServed(w: World, id: nat, req: Request)
    requires id !in w.requests && req.Change?
    ensures Served(w, id, req) ==
            if req.key.tenant != "" && req.key.pipeline != "" && CanLand(w.saved, req, Row(w.heads, req.key))
            then AcceptedAs(w, id, req, Submit(req.base, Onto(req, Row(w.heads, req.key)), req.op).pipeline)
            else RejectedAs(w, id, req)
  {
    var head := Row(w.heads, req.key);
    var w1 := Do(w, Begin(id, req));
    var w2 := Next(w1, id);
    if req.key.tenant == "" || req.key.pipeline == "" {
      assert w2 == RejectedAs(w, id, req);
      AnsweredStays(w2, id);
    } else {
      assert w2 == Editing.At(w, id, Looked(req, head));
      PrepareLands(w2, req, head);
      var w3 := Next(w2, id);
      assert w3 == Editing.At(w, id, Prepare(w2, req, head));
      if CanLand(w.saved, req, head) {
        PreparedIsAccepted(w3, id, req, Submit(req.base, Onto(req, head), req.op).pipeline);
        assert w3.requests[id := Answered(req, Rejected)] == w.requests[id := Answered(req, Rejected)];
      } else {
        AnsweredStays(w3, id);
      }
    }
  }

  /**
   From every world a run can reach, an edit served with nothing in between is
   accepted exactly when its tenant and pipeline are named, its base is stored and
   the head accepts it with nobody having changed what it is about; the head is then
   what the operation leaves of it, and otherwise nothing changes but the reply.
   */
  lemma ChangeIsServed(imported: set<(string, Pipeline)>, actions: seq<Action>, id: nat, req: Request)
    requires AllDistinct(imported) && CreatesDistinct(actions)
    requires id !in Run(imported, actions).requests && req.Change?
    ensures var w := Run(imported, actions); var onto := Onto(req, Row(w.heads, req.key));
            if && req.key.tenant != "" && req.key.pipeline != "" && Has(w.saved, req.key, req.base)
               && Accepts(onto, req.op) && (onto == req.base || Undisturbed(req.base, onto, req.op))
            then exists to :: Leaves(onto, req.op, to) && Served(w, id, req) == AcceptedAs(w, id, req, to)
            else Served(w, id, req) == RejectedAs(w, id, req)
  {
    var w := Run(imported, actions);
    var onto := Onto(req, Row(w.heads, req.key));
    RunKeeps(imported, actions);
    RunKeepsDistinct(imported, actions);
    ChangeServed(w, id, req);
    if Has(w.saved, req.key, req.base) {
      assert (req.key.tenant, req.base) in w.saved && (req.key.tenant, onto) in w.saved && Has(w.saved, req.key, onto);
      SubmitMeans(req.base, onto, req.op);
    }
  }

  /** No definition of that tenant and id is stored. */
  ghost predicate Free(saved: set<(string, Pipeline)>, key: Key) {
    forall p :: p in saved ==> p.0 != key.tenant || p.1.id != key.pipeline
  }

  /**
   The same for a create: accepted exactly for a named tenant and an id with nothing
   stored under it, with the definition sent as its head, under that tenant and id.
   */
  lemma CreateIsServed(imported: set<(string, Pipeline)>, actions: seq<Action>, id: nat, key: Key, d: Pipeline)
    requires id !in Run(imported, actions).requests
    ensures var w := Run(imported, actions);
            Served(w, id, Create(key, d)) ==
            if key.tenant != "" && key.pipeline != "" && Free(w.saved, key)
            then AcceptedAs(w, id, Create(key, d), Pipeline(key.pipeline, key.tenant, d.steps, d.edges, d.files))
            else RejectedAs(w, id, Create(key, d))
  {
    var w := Run(imported, actions);
    RunKeeps(imported, actions);
    assert key in w.heads ==> Has(w.saved, key, w.heads[key]);
    CreateServed(w, id, key, d);
  }

  lemma CreateServed(w: World, id: nat, key: Key, d: Pipeline)
    requires id !in w.requests && (Free(w.saved, key) ==> key !in w.heads)
    ensures Served(w, id, Create(key, d)) ==
            if key.tenant != "" && key.pipeline != "" && Free(w.saved, key)
            then AcceptedAs(w, id, Create(key, d), Pipeline(key.pipeline, key.tenant, d.steps, d.edges, d.files))
            else RejectedAs(w, id, Create(key, d))
  {
    var req := Create(key, d);
    var w2 := Next(Do(w, Begin(id, req)), id);
    if key.tenant != "" && key.pipeline != "" && Free(w.saved, key) {
      var to := Named(key, d);
      assert w2 == Editing.At(w, id, Ready(req, None, to));
      PreparedIsAccepted(w2, id, req, to);
      var w4 := AcceptedAs(w2, id, req, to);
      AnsweredStays(w4, id);
      assert w4 == AcceptedAs(w, id, req, to);
    } else {
      assert w2 == RejectedAs(w, id, req);
      AnsweredStays(w2, id);
    }
  }

  /**
   A call that fails tells its caller so and changes nothing; one whose answer is lost
   changes what it would have and tells its caller no more.
   */
  lemma FailuresAreTold(w: World, id: nat)
    requires id in w.requests && !w.requests[id].Answered?
    ensures Do(w, Action.Step(id, Fails)) == w.(requests := w.requests[id := Answered(w.requests[id].req, Failed)])
    ensures w.requests[id].Ready? || w.requests[id].Stored? ==>
              var fine, lost := Next(w, id), Do(w, Action.Step(id, LosesReply));
              && lost == fine.(requests := w.requests[id := Answered(w.requests[id].req, Failed)])
              && fine.requests[id].Stored? == w.requests[id].Ready?
  {
  }
}
