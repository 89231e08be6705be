/** Every run of puts, references, uploads, saves, cache records and collections. */
module CollectorRuns {
  import opened Prelude
  import opened Definition
  import opened CacheCodec
  import opened Collector

  /** Plans hold the expired runs a collection computed before its transaction. */
  datatype World = World(db: Tables, blobs: set<Digest>, plans: map<nat, set<string>>)

  datatype Action =
    | Put(digest: Digest)
    | Reference(digest: Digest, run: string)
    | RecordUpload(digest: Digest, at: int)
    | Save(definition: Pipeline)
    | RecordEntry(key: string, entry: Bytes)
    | Happens(run: string, at: int)
    | Plan(collector: nat, cutoff: int)
    | Sweep(collector: nat, cutoff: int, fails: set<string>, commits: bool)

  /** ON CONFLICT … DO UPDATE SET uploaded_at. */
  function Refresh(uploads: seq<Upload>, text: string, at: int): (r: seq<Upload>) {
    Collect(OtherUploads([text]), uploads) + [Upload(text, Some(at))]
  }

  function Expired(db: Tables, cutoff: int): (r: set<string>) {
    set row | row in db.refs && IsExpired(db, row.run, cutoff) :: row.run
  }

  function Swept(w: World, parse: Bytes -> Option<OutputRef>, a: Action): (r: World)
    requires a.Sweep? && a.collector in w.plans
  {
    var expired := w.plans[a.collector];
    var doomed := Unpinned(w.db, expired, a.cutoff);
    if doomed.None? then w
    else
      var gone := DeleteAll(w.blobs, doomed.value, a.fails);
      w.(
        blobs := gone.blobs,
        db := if a.commits then Collector.Swept(w.db, parse, expired, doomed.value, gone.reclaimed) else w.db)
  }

  function Do(w: World, parse: Bytes -> Option<OutputRef>, a: Action): (r: World) {
    match a
    case Put(d) => w.(blobs := w.blobs + {d})
    case Reference(d, run) =>
      if DigestText(d).Some? && run != "" && d in w.blobs then
        w.(db := w.db.(refs := AddRef(w.db.refs, Ref(DigestText(d).value, run))))
      else w
    case RecordUpload(d, at) =>
      if DigestText(d).Some? then w.(db := w.db.(uploads := Refresh(w.db.uploads, DigestText(d).value, at))) else w
    case Save(p) => w.(db := w.db.(revisions := w.db.revisions + [Readable(p)]))
    case RecordEntry(key, entry) => w.(db := w.db.(entries := w.db.entries[key := entry]))
    case Happens(run, at) =>
      w.(db := w.db.(events := w.db.events[run := (if run in w.db.events then w.db.events[run] else []) + [at]]))
    case Plan(c, cutoff) => w.(plans := w.plans[c := Expired(w.db, cutoff)])
    case Sweep(c, _, _, _) => if c in w.plans then Swept(w, parse, a) else w
  }

  function Run(w: World, parse: Bytes -> Option<OutputRef>, actions: seq<Action>): (r: World) {
    if actions == [] then w else Do(Run(w, parse, actions[..|actions| - 1]), parse, actions[|actions| - 1])
  }

  // ---- what a sweep may delete -----------------------------------------------------------------

  /**
   A sweep deletes a blob only if no run outside the expired set it was given
   references it, no upload of it is inside the window and no revision carries it.
   */
  lemma SweepIsSafe(w: World, parse: Bytes -> Option<OutputRef>, a: Action, d: Digest)
    requires a.Sweep? && a.collector in w.plans && d in w.blobs && d !in Swept(w, parse, a).blobs
    ensures DigestText(d).Some? && Loose(w.db, w.plans[a.collector], a.cutoff, DigestText(d).value)
  {
    var expired := w.plans[a.collector];
    var doomed := Unpinned(w.db, expired, a.cutoff).value;
    DeletedOnly(w.blobs, doomed, a.fails, d);
    UnpinnedMeans(w.db, expired, a.cutoff, DigestText(d).value);
  }

  /** A run is planned for exactly when it holds a reference, has events and all of them are old. */
  lemma PlannedAreOld(db: Tables, cutoff: int, run: string)
    ensures run in Expired(db, cutoff) <==> IsExpired(db, run, cutoff)
  {
    if IsExpired(db, run, cutoff) {
      var i :| 0 <= i < |db.refs| && db.refs[i].run == run;
      assert db.refs[i] in db.refs;
    }
  }

  // ---- every reference names stored bytes ---------------------------------------------------------

  ghost predicate Stored(blobs: set<Digest>, text: string) {
    exists d :: d in blobs && DigestText(d) == Some(text)
  }

  ghost predicate RefsStored(w: World) {
    forall row :: row in w.db.refs ==> Stored(w.blobs, row.text)
  }

  lemma RefStays(w: World, parse: Bytes -> Option<OutputRef>, a: Action, row: Ref)
    requires a.Sweep? && a.collector in w.plans && row in w.db.refs && row.run !in w.plans[a.collector]
    ensures row in Swept(w, parse, a).db.refs
    ensures forall d :: d in w.blobs && DigestText(d) == Some(row.text) ==> d in Swept(w, parse, a).blobs
  {
    FilterMember(LiveRefs(w.plans[a.collector]), w.db.refs, row);
    var i :| 0 <= i < |w.db.refs| && w.db.refs[i] == row;
    forall d | d in w.blobs && DigestText(d) == Some(row.text) ensures d in Swept(w, parse, a).blobs {
      if d !in Swept(w, parse, a).blobs { SweepIsSafe(w, parse, a, d); }
    }
  }

  lemma CommittedSweepKeeps(w: World, parse: Bytes -> Option<OutputRef>, a: Action)
    requires a.Sweep? && a.commits && a.collector in w.plans && RefsStored(w)
    ensures RefsStored(Swept(w, parse, a))
  {
    var after := Swept(w, parse, a);
    forall row | row in after.db.refs ensures Stored(after.blobs, row.text) {
      if Unpinned(w.db, w.plans[a.collector], a.cutoff).Some? {
        FilterMember(LiveRefs(w.plans[a.collector]), w.db.refs, row);
        RefStays(w, parse, a, row);
      }
      assert Stored(w.blobs, row.text);
    }
  }

  predicate AllCommit(actions: seq<Action>) {
    forall a :: a in actions && a.Sweep? ==> a.commits
  }

  lemma StepKeepsRefs(w: World, parse: Bytes -> Option<OutputRef>, a: Action)
    requires RefsStored(w) && (a.Sweep? ==> a.commits)
    ensures RefsStored(Do(w, parse, a))
  {
    var after := Do(w, parse, a);
    if a.Sweep? {
      if a.collector in w.plans { CommittedSweepKeeps(w, parse, a); }
    } else {
      forall row | row in after.db.refs ensures Stored(after.blobs, row.text) {
        if row in w.db.refs {
          var d :| d in w.blobs && DigestText(d) == Some(row.text);
          assert d in after.blobs;
        } else {
          assert a.digest in after.blobs && DigestText(a.digest) == Some(row.text);
        }
      }
    }
  }

  /** In every run whose collections commit, every reference row names bytes that are still stored. */
  lemma {:induction false} ReferencesAreReadable(w: World, parse: Bytes -> Option<OutputRef>, actions: seq<Action>)
    requires RefsStored(w) && AllCommit(actions)
    ensures RefsStored(Run(w, parse, actions))
  {
    if actions != [] {
      var n := |actions| - 1;
      assert forall a :: a in actions[..n] ==> a in actions;
      ReferencesAreReadable(w, parse, actions[..n]);
      assert actions[n] in actions;
      StepKeepsRefs(Run(w, parse, actions[..n]), parse, actions[n]);
    }
  }

  /** The texts whose blobs a sweep has unlinked by the time it commits or not. */
  function Unlinked(w: World, a: Action): (r: seq<string>)
    requires a.Sweep? && a.collector in w.plans
  {
    var doomed := Unpinned(w.db, w.plans[a.collector], a.cutoff);
    if doomed.None? then [] else DeleteAll(w.blobs, doomed.value, a.fails).reclaimed
  }

  ghost predicate PlainAlgorithms(blobs: set<Digest>) {
    forall d :: d in blobs ==> ':' !in d.algo
  }

  lemma UnlinkedIsGone(w: World, parse: Bytes -> Option<OutputRef>, a: Action, text: string)
    requires a.Sweep? && a.collector in w.plans && PlainAlgorithms(w.blobs) && text in Unlinked(w, a)
    ensures !Stored(Swept(w, parse, a).blobs, text)
  {
    var doomed := Unpinned(w.db, w.plans[a.collector], a.cutoff).value;
    DeletedOnly(w.blobs, doomed, a.fails, Digest("", ""));
    forall d | d in Swept(w, parse, a).blobs ensures DigestText(d) != Some(text) {
      if DigestText(d) == Some(text) { TextRoundTrip(d); }
    }
  }

  /**
   A collection that unlinks and then fails to commit keeps that property exactly
   when it unlinked nothing a row still names: the rows come back, the bytes do not.
   */
  lemma RolledBackSweep(w: World, parse: Bytes -> Option<OutputRef>, a: Action)
    requires a.Sweep? && !a.commits && a.collector in w.plans && RefsStored(w) && PlainAlgorithms(w.blobs)
    ensures RefsStored(Swept(w, parse, a)) <==> forall row :: row in w.db.refs ==> row.text !in Unlinked(w, a)
  {
    var after := Swept(w, parse, a);
    forall row | row in w.db.refs ensures Stored(after.blobs, row.text) <==> row.text !in Unlinked(w, a) {
      var d :| d in w.blobs && DigestText(d) == Some(row.text);
      if row.text in Unlinked(w, a) {
        UnlinkedIsGone(w, parse, a, row.text);
      } else if Unpinned(w.db, w.plans[a.collector], a.cutoff).Some? {
        DeletedOnly(w.blobs, Unpinned(w.db, w.plans[a.collector], a.cutoff).value, a.fails, d);
      }
    }
  }

  // ---- what keeps its bytes -------------------------------------------------------------------------

  /** Holds a reference and the bytes, and no collection under way has counted the run out. */
  ghost predicate Holds(w: World, d: Digest, run: string, seen: int) {
    && DigestText(d).Some? && d in w.blobs && Ref(DigestText(d).value, run) in w.db.refs
    && (forall c :: c in w.plans ==> run !in w.plans[c])
    && run in w.db.events && seen in w.db.events[run]
  }

  /** Every collection planned in these steps looks back no further than this time. */
  predicate LookBack(actions: seq<Action>, seen: int) {
    forall a :: a in actions && a.Plan? ==> a.cutoff <= seen
  }

  lemma StepHolds(w: World, parse: Bytes -> Option<OutputRef>, a: Action, d: Digest, run: string, seen: int)
    requires Holds(w, d, run, seen) && (a.Plan? ==> a.cutoff <= seen)
    ensures Holds(Do(w, parse, a), d, run, seen)
  {
    match a
    case Plan(c, cutoff) =>
      PlannedAreOld(w.db, cutoff, run);
      var i :| 0 <= i < |w.db.events[run]| && w.db.events[run][i] == seen;
    case Sweep(c, _, _, _) =>
      if c in w.plans { RefStays(w, parse, a, Ref(DigestText(d).value, run)); }
    case _ =>
  }

  /**
   Bytes a run references are there after any steps at all, crashed and failed
   collections included, while some event of the run is inside every window.
   */
  lemma {:induction false} LiveRunKeepsBytes(
    w: World, parse: Bytes -> Option<OutputRef>, actions: seq<Action>, d: Digest, run: string, seen: int)
    requires Holds(w, d, run, seen) && LookBack(actions, seen)
    ensures Holds(Run(w, parse, actions), d, run, seen)
  {
    if actions != [] {
      var n := |actions| - 1;
      assert forall a :: a in actions[..n] ==> a in actions;
      LiveRunKeepsBytes(w, parse, actions[..n], d, run, seen);
      assert actions[n] in actions;
      StepHolds(Run(w, parse, actions[..n]), parse, actions[n], d, run, seen);
    }
  }

  // ---- exactly what goes ---------------------------------------------------------------------------

  /** Every row names a digest this collector can parse and whose blob it can unlink. */
  ghost predicate Unlinkable(w: World, a: Action)
    requires a.Sweep?
  {
    forall text :: Candidate(w.db, text) ==> ParseDigestText(text).Some? && text !in a.fails
  }

  lemma {:induction false} AllDeleted(blobs: set<Digest>, texts: seq<string>, fails: set<string>, d: Digest)
    requires forall t :: t in texts ==> ParseDigestText(t).Some? && t !in fails
    requires DigestText(d).Some? && ParseDigestText(DigestText(d).value) == Some(d)
    ensures d in DeleteAll(blobs, texts, fails).blobs <==> d in blobs && DigestText(d).value !in texts
  {
    if texts != [] {
      var e := ParseDigestText(texts[0]).value;
      ParsedText(texts[0]);
      assert forall t :: t in texts[1..] ==> t in texts;
      assert texts == [texts[0]] + texts[1..];
      AllDeleted(blobs - {e}, texts[1..], fails, d);
    }
  }

  /**
   A sweep that meets no error deletes a stored blob exactly when every revision can
   be read, some row names the blob, every run that references it was in the expired
   set it was given, its uploads are out of the window and no revision carries it.
   */
  lemma SweepIsExact(w: World, parse: Bytes -> Option<OutputRef>, a: Action, d: Digest)
    requires a.Sweep? && a.collector in w.plans && Unlinkable(w, a)
    requires d in w.blobs && DigestText(d).Some? && ':' !in d.algo
    ensures var text := DigestText(d).value;
            d !in Swept(w, parse, a).blobs <==>
            Garbled !in w.db.revisions && Candidate(w.db, text) && Loose(w.db, w.plans[a.collector], a.cutoff, text)
  {
    var expired, text := w.plans[a.collector], DigestText(d).value;
    var doomed := Unpinned(w.db, expired, a.cutoff);
    TextRoundTrip(d);
    GarbledStops(w.db, expired, a.cutoff);
    if doomed.Some? {
      UnpinnedMeans(w.db, expired, a.cutoff, text);
      forall t | t in doomed.value ensures ParseDigestText(t).Some? && t !in a.fails {
        UnpinnedMeans(w.db, expired, a.cutoff, t);
      }
      AllDeleted(w.blobs, doomed.value, a.fails, d);
    }
  }

  /** With plain algorithms a text names one blob, so an error-free sweep takes it exactly when the text is loose. */
  lemma LooseTextGoes(w: World, parse: Bytes -> Option<OutputRef>, a: Action, row: Ref)
    requires a.Sweep? && a.collector in w.plans && Unlinkable(w, a) && PlainAlgorithms(w.blobs)
    requires row in w.db.refs && Stored(w.blobs, row.text)
    ensures !Stored(Swept(w, parse, a).blobs, row.text) <==>
            Garbled !in w.db.revisions && Loose(w.db, w.plans[a.collector], a.cutoff, row.text)
  {
    var after := Swept(w, parse, a).blobs;
    var d :| d in w.blobs && DigestText(d) == Some(row.text);
    SweepIsExact(w, parse, a, d);
    assert Candidate(w.db, row.text) by { var i :| 0 <= i < |w.db.refs| && w.db.refs[i] == row; }
    TextRoundTrip(d);
    forall e | e in after && DigestText(e) == Some(row.text) ensures e == d {
      OnlyBlobsGo(w, parse, a, e);
      TextRoundTrip(e);
    }
  }

  lemma OnlyBlobsGo(w: World, parse: Bytes -> Option<OutputRef>, a: Action, d: Digest)
    requires a.Sweep? && a.collector in w.plans && d in Swept(w, parse, a).blobs
    ensures d in w.blobs
  {
    var doomed := Unpinned(w.db, w.plans[a.collector], a.cutoff);
    if doomed.Some? { DeletedOnly(w.blobs, doomed.value, a.fails, d); }
  }

  /**
   The same by the tables alone, for a collection whose only failure is its commit:
   every row keeps its bytes exactly when a revision cannot be read, or when each text
   a row names is kept by a run outside the expired set, a recent upload or a revision.
   */
  lemma RollbackKeepsBytes(w: World, parse: Bytes -> Option<OutputRef>, a: Action)
    requires a.Sweep? && !a.commits && a.collector in w.plans && Unlinkable(w, a)
    requires RefsStored(w) && PlainAlgorithms(w.blobs)
    ensures RefsStored(Swept(w, parse, a)) <==>
            || Garbled in w.db.revisions
            || forall row :: row in w.db.refs ==> !Loose(w.db, w.plans[a.collector], a.cutoff, row.text)
  {
    assert Swept(w, parse, a).db == w.db;
    forall row | row in w.db.refs
      ensures !Stored(Swept(w, parse, a).blobs, row.text) <==>
              Garbled !in w.db.revisions && Loose(w.db, w.plans[a.collector], a.cutoff, row.text)
    {
      LooseTextGoes(w, parse, a, row);
    }
  }

  /** A revision that cannot be read stops a sweep that has anything to do. */
  lemma GarbledStops(db: Tables, expired: set<string>, cutoff: int)
    ensures Garbled in db.revisions ==>
            Unpinned(db, expired, cutoff) == None || Unpinned(db, expired, cutoff) == Some([])
    ensures Garbled !in db.revisions ==> Unpinned(db, expired, cutoff).Some?
  {
  }

  const NOTHING := World(Tables([], [], [], map[], map[]), {}, map[])

  /** A run references a blob and goes quiet; a collector counts it out; the run comes back; the collector sweeps. */
  function Revival(d: Digest, run: string, old': int, c: nat, cutoff: int, recent: int): (r: seq<Action>) {
    [Put(d), Reference(d, run), Happens(run, old'), Plan(c, cutoff), Happens(run, recent)]
  }

  lemma RunMore(w: World, parse: Bytes -> Option<OutputRef>, actions: seq<Action>, a: Action)
    ensures Run(w, parse, actions + [a]) == Do(Run(w, parse, actions), parse, a)
  {
    assert (actions + [a])[..|actions|] == actions;
  }

  function Quiet(text: string, run: string, times: seq<int>): (r: Tables) {
    Tables([Ref(text, run)], [], [], map[], map[run := times])
  }

  lemma GoesQuiet(parse: Bytes -> Option<OutputRef>, d: Digest, run: string, old': int)
    requires DigestText(d).Some? && run != ""
    ensures Run(NOTHING, parse, [Put(d), Reference(d, run), Happens(run, old')]) ==
            World(Quiet(DigestText(d).value, run, [old']), {d}, map[])
  {
    RunMore(NOTHING, parse, [], Put(d));
    RunMore(NOTHING, parse, [Put(d)], Reference(d, run));
    RunMore(NOTHING, parse, [Put(d), Reference(d, run)], Happens(run, old'));
    assert [] + [Put(d)] == [Put(d)] && [Put(d)] + [Reference(d, run)] == [Put(d), Reference(d, run)];
    assert [Put(d), Reference(d, run)] + [Happens(run, old')] == [Put(d), Reference(d, run), Happens(run, old')];
    assert Run(NOTHING, parse, [Put(d)]).blobs == {d};
    assert Run(NOTHING, parse, [Put(d), Reference(d, run)]).db.refs == [] + [Ref(DigestText(d).value, run)];
    assert [] + [old'] == [old'];
  }

  lemma CountedOut(text: string, run: string, old': int, cutoff: int)
    requires old' < cutoff
    ensures Expired(Quiet(text, run, [old']), cutoff) == {run}
  {
    var db := Quiet(text, run, [old']);
    assert db.refs[0].run == run;
    forall r ensures r in Expired(db, cutoff) <==> r == run { PlannedAreOld(db, cutoff, r); }
  }

  lemma GetsCountedOut(parse: Bytes -> Option<OutputRef>, d: Digest, run: string, old': int, c: nat, cutoff: int)
    requires DigestText(d).Some? && run != "" && old' < cutoff
    ensures Run(NOTHING, parse, [Put(d), Reference(d, run), Happens(run, old'), Plan(c, cutoff)]) ==
            World(Quiet(DigestText(d).value, run, [old']), {d}, map[c := {run}])
  {
    var quiet := [Put(d), Reference(d, run), Happens(run, old')];
    GoesQuiet(parse, d, run, old');
    RunMore(NOTHING, parse, quiet, Plan(c, cutoff));
    CountedOut(DigestText(d).value, run, old', cutoff);
    assert quiet + [Plan(c, cutoff)] == [Put(d), Reference(d, run), Happens(run, old'), Plan(c, cutoff)];
  }

  lemma Revives(parse: Bytes -> Option<OutputRef>, d: Digest, run: string, old': int, c: nat, cutoff: int, recent: int)
    requires DigestText(d).Some? && run != "" && old' < cutoff
    ensures Run(NOTHING, parse, Revival(d, run, old', c, cutoff, recent)) ==
            World(Quiet(DigestText(d).value, run, [old', recent]), {d}, map[c := {run}])
  {
    var planned := [Put(d), Reference(d, run), Happens(run, old'), Plan(c, cutoff)];
    GetsCountedOut(parse, d, run, old', c, cutoff);
    RunMore(NOTHING, parse, planned, Happens(run, recent));
    assert Revival(d, run, old', c, cutoff, recent) == planned + [Happens(run, recent)];
    assert [old'] + [recent] == [old', recent];
  }

  lemma QuietIsLoose(text: string, run: string, times: seq<int>, cutoff: int)
    ensures Candidate(Quiet(text, run, times), text) && Loose(Quiet(text, run, times), {run}, cutoff, text)
    ensures forall t :: Candidate(Quiet(text, run, times), t) ==> t == text
  {
    assert Quiet(text, run, times).refs[0].text == text;
  }

  /** With one row, of a run that was counted out, a sweep that meets no error takes the blob. */
  lemma QuietBlobGoes(
    w: World, parse: Bytes -> Option<OutputRef>, d: Digest, run: string, times: seq<int>, a: Action)
    requires DigestText(d).Some? && ':' !in d.algo && a.Sweep? && a.fails == {}
    requires w == World(Quiet(DigestText(d).value, run, times), {d}, map[a.collector := {run}])
    ensures d !in Do(w, parse, a).blobs
  {
    QuietIsLoose(DigestText(d).value, run, times, a.cutoff);
    TextRoundTrip(d);
    SweepIsExact(w, parse, a, d);
  }

  /**
   From an empty store, with one collector: a run that referenced a blob is counted
   out, comes back inside the window while it still holds the reference, and loses the
   blob to that collector's sweep.
   */
  lemma RevivedRunLosesBytes(
    parse: Bytes -> Option<OutputRef>, d: Digest, run: string, old': int, c: nat, cutoff: int, recent: int,
    sweptAt: int, commits: bool)
    requires DigestText(d).Some? && ':' !in d.algo && run != "" && old' < cutoff <= recent
    ensures var w := Run(NOTHING, parse, Revival(d, run, old', c, cutoff, recent));
            && d in w.blobs && Ref(DigestText(d).value, run) in w.db.refs
            && run in w.db.events && recent in w.db.events[run]
            && d !in Do(w, parse, Sweep(c, sweptAt, {}, commits)).blobs
  {
    var text := DigestText(d).value;
    Revives(parse, d, run, old', c, cutoff, recent);
    QuietBlobGoes(World(Quiet(text, run, [old', recent]), {d}, map[c := {run}]), parse, d, run, [old', recent],
                  Sweep(c, sweptAt, {}, commits));
    assert [Ref(text, run)][0] == Ref(text, run) && [old', recent][1] == recent;
  }

  lemma QuietRowLosesBytes(
    w: World, parse: Bytes -> Option<OutputRef>, d: Digest, run: string, times: seq<int>, c: nat, sweptAt: int)
    requires DigestText(d).Some? && ':' !in d.algo
    requires w == World(Quiet(DigestText(d).value, run, times), {d}, map[c := {run}])
    ensures RefsStored(w) && !RefsStored(Do(w, parse, Sweep(c, sweptAt, {}, false)))
  {
    var row, a := Ref(DigestText(d).value, run), Sweep(c, sweptAt, {}, false);
    QuietBlobGoes(w, parse, d, run, times, a);
    forall e | e in Do(w, parse, a).blobs ensures e in w.blobs { OnlyBlobsGo(w, parse, a, e); }
    assert d in w.blobs && row in w.db.refs && row in Do(w, parse, a).db.refs;
  }

  /**
   From an empty store: a run goes quiet, a collector counts it out, unlinks its blob
   and fails to commit, and the row that is back names bytes that are not.
   */
  lemma RolledBackSweepLosesBytes(
    parse: Bytes -> Option<OutputRef>, d: Digest, run: string, old': int, c: nat, cutoff: int, sweptAt: int)
    requires DigestText(d).Some? && ':' !in d.algo && run != "" && old' < cutoff
    ensures var w := Run(NOTHING, parse, [Put(d), Reference(d, run), Happens(run, old'), Plan(c, cutoff)]);
            RefsStored(w) && !RefsStored(Do(w, parse, Sweep(c, sweptAt, {}, false)))
  {
    GetsCountedOut(parse, d, run, old', c, cutoff);
    var w := World(Quiet(DigestText(d).value, run, [old']), {d}, map[c := {run}]);
    QuietRowLosesBytes(w, parse, d, run, [old'], c, sweptAt);
  }

  /** A revision in the store carries this digest as a file. */
  ghost predicate Pinned(w: World, d: Digest) {
    && d in w.blobs && DigestText(d).Some?
    && exists i :: 0 <= i < |w.db.revisions| && DigestText(d).value in CarriedBy(w.db.revisions[i])
  }

  lemma StepKeepsPinned(w: World, parse: Bytes -> Option<OutputRef>, a: Action, d: Digest)
    requires Pinned(w, d)
    ensures Pinned(Do(w, parse, a), d)
  {
    var after := Do(w, parse, a);
    var i :| 0 <= i < |w.db.revisions| && DigestText(d).value in CarriedBy(w.db.revisions[i]);
    assert after.db.revisions[i] == w.db.revisions[i];
    if a.Sweep? && a.collector in w.plans && d !in after.blobs { SweepIsSafe(w, parse, a, d); }
  }

  /** Bytes a saved revision carries are never collected, however old the revision. */
  lemma {:induction false} RevisionKeepsBytes(
    w: World, parse: Bytes -> Option<OutputRef>, actions: seq<Action>, d: Digest)
    requires Pinned(w, d)
    ensures Pinned(Run(w, parse, actions), d)
  {
    if actions != [] {
      var n := |actions| - 1;
      RevisionKeepsBytes(w, parse, actions[..n], d);
      StepKeepsPinned(Run(w, parse, actions[..n]), parse, actions[n], d);
    }
  }

  /** After a committed sweep the cache hits on no digest that sweep removed. */
  lemma SweepLeavesNoStaleHit(w: World, parse: Bytes -> Option<OutputRef>, a: Action, key: string, i: nat)
    requires a.Sweep? && a.commits && a.collector in w.plans && key in Swept(w, parse, a).db.entries
    requires var outs := Decoded(Swept(w, parse, a).db.entries[key], parse); outs.Ok? && i < |outs.value|
    ensures var d := Decoded(Swept(w, parse, a).db.entries[key], parse).value[i].digest;
            !(d in w.blobs && d !in Swept(w, parse, a).blobs)
  {
    var doomed := Unpinned(w.db, w.plans[a.collector], a.cutoff);
    if doomed.Some? {
      NoStaleHit(w.db.entries, parse, doomed.value, key, i);
      DeletedOnly(w.blobs, doomed.value, a.fails, Decoded(w.db.entries[key], parse).value[i].digest);
    }
  }

  /** A reference needs a run, a digest and the bytes; it is then there, once, and otherwise nothing is written. */
  lemma ReferenceNeedsBytes(w: World, parse: Bytes -> Option<OutputRef>, d: Digest, run: string, row: Ref)
    ensures var after := Do(w, parse, Reference(d, run));
            && (row in after.db.refs <==>
                row in w.db.refs || (run != "" && d in w.blobs && DigestText(d) == Some(row.text) && row.run == run))
            && after == w.(db := w.db.(refs := after.db.refs)) && |after.db.refs| <= |w.db.refs| + 1
            && (run == "" || d !in w.blobs || DigestText(d).None? ==> after == w)
  {
  }

  // ---- what a write is for --------------------------------------------------------------------------

  lemma {:induction false} FilesAreCarried(files: seq<File>, d: Digest, i: nat)
    requires i < |files| && files[i].digest == d && DigestText(d).Some?
    ensures DigestText(d).value in Collect(FileTexts, files)
  {
    CollectMember(FileTexts, files, DigestText(d).value);
    assert DigestText(d).value in FileTexts(files[i]);
  }

  /** The bytes of a saved definition's files are there after any steps at all. */
  lemma SavedFileKeepsBytes(
    w: World, parse: Bytes -> Option<OutputRef>, p: Pipeline, i: nat, actions: seq<Action>)
    requires i < |p.files| && p.files[i].digest in w.blobs && DigestText(p.files[i].digest).Some?
    ensures p.files[i].digest in Run(Do(w, parse, Save(p)), parse, actions).blobs
  {
    var d, saved := p.files[i].digest, Do(w, parse, Save(p));
    FilesAreCarried(p.files, d, i);
    assert saved.db.revisions[|w.db.revisions|] == Readable(p);
    assert DigestText(d).value in CarriedBy(saved.db.revisions[|w.db.revisions|]);
    RevisionKeepsBytes(saved, parse, actions, d);
  }

  /** The bytes are there, and an upload of them at this time or later is on record. */
  ghost predicate Uploaded(w: World, d: Digest, seen: int) {
    && d in w.blobs && DigestText(d).Some?
    && exists u :: u in w.db.uploads && u.text == DigestText(d).value && InWindow(u, seen)
  }

  /** No sweep among these looks back less far than this time, and no upload of the digest is dated before it. */
  predicate Within(a: Action, d: Digest, seen: int) {
    && (a.Sweep? ==> a.cutoff <= seen)
    && (a.RecordUpload? && DigestText(a.digest) == DigestText(d) ==> a.at >= seen)
  }

  lemma RefreshHas(uploads: seq<Upload>, text: string, at: int, u: Upload)
    ensures u in Refresh(uploads, text, at) <==> u == Upload(text, Some(at)) || (u in uploads && u.text != text)
  {
    FilterMember(OtherUploads([text]), uploads, u);
  }

  lemma UploadStays(w: World, parse: Bytes -> Option<OutputRef>, a: Action, d: Digest, seen: int)
    requires a.Sweep? && a.collector in w.plans && a.cutoff <= seen && Uploaded(w, d, seen)
    ensures Uploaded(Swept(w, parse, a), d, seen)
  {
    var text := DigestText(d).value;
    var u :| u in w.db.uploads && u.text == text && InWindow(u, seen);
    var i :| 0 <= i < |w.db.uploads| && w.db.uploads[i] == u;
    assert InWindow(w.db.uploads[i], a.cutoff);
    if d !in Swept(w, parse, a).blobs { SweepIsSafe(w, parse, a, d); }
    var doomed := Unpinned(w.db, w.plans[a.collector], a.cutoff);
    if doomed.Some? {
      UnpinnedMeans(w.db, w.plans[a.collector], a.cutoff, text);
      DeletedOnly(w.blobs, doomed.value, a.fails, d);
      FilterMember(OtherUploads(DeleteAll(w.blobs, doomed.value, a.fails).reclaimed), w.db.uploads, u);
    }
  }

  lemma StepKeepsUpload(w: World, parse: Bytes -> Option<OutputRef>, a: Action, d: Digest, seen: int)
    requires Uploaded(w, d, seen) && Within(a, d, seen)
    ensures Uploaded(Do(w, parse, a), d, seen)
  {
    var u :| u in w.db.uploads && u.text == DigestText(d).value && InWindow(u, seen);
    if a.Sweep? {
      if a.collector in w.plans { UploadStays(w, parse, a, d, seen); }
    } else if a.RecordUpload? && DigestText(a.digest).Some? {
      RefreshHas(w.db.uploads, DigestText(a.digest).value, a.at, u);
      RefreshHas(w.db.uploads, DigestText(a.digest).value, a.at, Upload(DigestText(a.digest).value, Some(a.at)));
    } else {
      assert u in Do(w, parse, a).db.uploads;
    }
  }

  lemma {:induction false} RunKeepsUpload(
    w: World, parse: Bytes -> Option<OutputRef>, actions: seq<Action>, d: Digest, seen: int)
    requires Uploaded(w, d, seen) && forall a :: a in actions ==> Within(a, d, seen)
    ensures Uploaded(Run(w, parse, actions), d, seen)
  {
    if actions != [] {
      var n := |actions| - 1;
      assert forall a :: a in actions[..n] ==> a in actions;
      RunKeepsUpload(w, parse, actions[..n], d, seen);
      assert actions[n] in actions;
      StepKeepsUpload(Run(w, parse, actions[..n]), parse, actions[n], d, seen);
    }
  }

  /** Bytes uploaded for a definition nobody has saved yet are there while the upload is inside every window. */
  lemma UploadKeepsBytes(
    w: World, parse: Bytes -> Option<OutputRef>, d: Digest, at: int, actions: seq<Action>)
    requires d in w.blobs && DigestText(d).Some? && forall a :: a in actions ==> Within(a, d, at)
    ensures d in Run(Do(w, parse, RecordUpload(d, at)), parse, actions).blobs
  {
    var text := DigestText(d).value;
    RefreshHas(w.db.uploads, text, at, Upload(text, Some(at)));
    RunKeepsUpload(Do(w, parse, RecordUpload(d, at)), parse, actions, d, at);
  }

  // ---- which cache entries stay ------------------------------------------------------------------------

  /** An entry shows a digest this sweep would take. */
  ghost predicate ShowsLoose(w: World, parse: Bytes -> Option<OutputRef>, a: Action, entry: Bytes)
    requires a.Sweep? && a.collector in w.plans
  {
    exists messages, text ::
      Shows(entry, messages, parse, text) && Candidate(w.db, text) && Loose(w.db, w.plans[a.collector], a.cutoff, text)
  }

  /**
   A committed sweep keeps a cache entry, as it was, exactly when a revision cannot be
   read or the entry shows no digest that nothing keeps; and it makes none up.
   */
  lemma EntriesThatStay(w: World, parse: Bytes -> Option<OutputRef>, a: Action, key: string)
    requires a.Sweep? && a.commits && a.collector in w.plans
    ensures var before, after := w.db.entries, Swept(w, parse, a).db.entries;
            && (key in after <==>
                key in before && (Garbled in w.db.revisions || !ShowsLoose(w, parse, a, before[key])))
            && (key in after ==> after[key] == before[key])
  {
    var expired := w.plans[a.collector];
    var doomed := Unpinned(w.db, expired, a.cutoff);
    GarbledStops(w.db, expired, a.cutoff);
    if key in w.db.entries && doomed.Some? && Garbled !in w.db.revisions {
      var entry := w.db.entries[key];
      assert Names(entry, parse, doomed.value) <==> ShowsLoose(w, parse, a, entry) by {
        if text :| text in Collect(TextsOf, ReadableOf(entry, parse)) && text in doomed.value {
          YieldsWhatItShows(entry, parse, text);
          UnpinnedMeans(w.db, expired, a.cutoff, text);
        }
        if messages, text :|
          Shows(entry, messages, parse, text) && Candidate(w.db, text) && Loose(w.db, expired, a.cutoff, text)
        {
          YieldsWhatItShows(entry, parse, text);
          UnpinnedMeans(w.db, expired, a.cutoff, text);
        }
      }
    }
  }

  /** A revision cannot be read, and there is something only the revisions could keep. */
  ghost predicate Stops(w: World, a: Action)
    requires a.Sweep? && a.collector in w.plans
  {
    && Garbled in w.db.revisions
    && exists text ::
         && Candidate(w.db, text)
         && (forall row :: row in w.db.refs && row.text == text ==> row.run in w.plans[a.collector])
         && (forall u :: u in w.db.uploads && u.text == text ==> u.at.Some? && u.at.value < a.cutoff)
  }

  lemma StopsMeans(w: World, a: Action)
    requires a.Sweep? && a.collector in w.plans
    ensures Unpinned(w.db, w.plans[a.collector], a.cutoff).None? <==> Stops(w, a)
  {
    var db, expired := w.db, w.plans[a.collector];
    var claims := Claims(db, expired, a.cutoff);
    var m := MarkAll(UNMARKED, claims);
    MarkOnwards(UNMARKED, RefClaims(db.refs, expired), UploadClaims(db.uploads, a.cutoff));
    forall text ensures text in Collect(Drop(m.kept), m.order) <==> Named(claims, text) && !Kept(claims, text) {
      MarksMean(claims, text);
      FilterMember(Drop(m.kept), m.order, text);
    }
    forall text ensures Named(claims, text) && !Kept(claims, text) <==>
                          && Candidate(db, text)
                          && (forall row :: row in db.refs && row.text == text ==> row.run in expired)
                          && (forall u :: u in db.uploads && u.text == text ==> u.at.Some? && u.at.value < a.cutoff)
    {
      ClaimsAre(db, expired, a.cutoff, text);
    }
    var loose := Collect(Drop(m.kept), m.order);
    if loose != [] { assert loose[0] in loose; }
  }

  lemma ClaimsAre(db: Tables, expired: set<string>, cutoff: int, text: string)
    ensures var claims := Claims(db, expired, cutoff);
            && (Named(claims, text) <==> Candidate(db, text))
            && (!Kept(claims, text) <==>
                && (forall row :: row in db.refs && row.text == text ==> row.run in expired)
                && (forall u :: u in db.uploads && u.text == text ==> u.at.Some? && u.at.value < cutoff))
  {
    var unread := db.(revisions := []);
    ClaimsMean(unread, expired, cutoff, text);
    assert Claims(unread, expired, cutoff) == Claims(db, expired, cutoff);
    assert Candidate(unread, text) <==> Candidate(db, text);
    assert !Carried([], text);
  }

  /**
   What a committed sweep leaves of the rows: of the references, those of the runs it
   was not given as expired; of the uploads, those of every text whose blob was not
   reclaimed; and where a revision it needed cannot be read, all of both.
   */
  lemma RowsThatStay(w: World, parse: Bytes -> Option<OutputRef>, a: Action, row: Ref, u: Upload)
    requires a.Sweep? && a.commits && a.collector in w.plans
    ensures row in Swept(w, parse, a).db.refs <==>
            row in w.db.refs && (row.run !in w.plans[a.collector] || Stops(w, a))
    ensures u in Swept(w, parse, a).db.uploads <==> u in w.db.uploads && u.text !in Unlinked(w, a)
  {
    StopsMeans(w, a);
    var doomed := Unpinned(w.db, w.plans[a.collector], a.cutoff);
    if doomed.Some? {
      FilterMember(LiveRefs(w.plans[a.collector]), w.db.refs, row);
      FilterMember(OtherUploads(DeleteAll(w.blobs, doomed.value, a.fails).reclaimed), w.db.uploads, u);
    }
  }

  /** Every digest the entry shows is referenced by this run, which nothing under way has counted out. */
  ghost predicate OutputsHeld(w: World, parse: Bytes -> Option<OutputRef>, entry: Bytes, run: string, seen: int) {
    && (forall messages, text :: Shows(entry, messages, parse, text) ==> Ref(text, run) in w.db.refs)
    && (forall c :: c in w.plans ==> run !in w.plans[c])
    && run in w.db.events && seen in w.db.events[run]
  }

  ghost predicate EntryHeld(
    w: World, parse: Bytes -> Option<OutputRef>, key: string, entry: Bytes, run: string, seen: int)
  {
    key in w.db.entries && w.db.entries[key] == entry && OutputsHeld(w, parse, entry, run, seen)
  }

  lemma SweepHoldsEntry(
    w: World, parse: Bytes -> Option<OutputRef>, a: Action, key: string, entry: Bytes, run: string, seen: int)
    requires a.Sweep? && a.collector in w.plans && EntryHeld(w, parse, key, entry, run, seen)
    ensures EntryHeld(Swept(w, parse, a), parse, key, entry, run, seen)
  {
    forall messages, text | Shows(entry, messages, parse, text)
      ensures Ref(text, run) in Swept(w, parse, a).db.refs && !Loose(w.db, w.plans[a.collector], a.cutoff, text)
    {
      RefStays(w, parse, a, Ref(text, run));
      var i :| 0 <= i < |w.db.refs| && w.db.refs[i] == Ref(text, run);
    }
    if a.commits { EntriesThatStay(w, parse, a, key); }
  }

  lemma StepHoldsEntry(
    w: World, parse: Bytes -> Option<OutputRef>, a: Action, key: string, entry: Bytes, run: string, seen: int)
    requires EntryHeld(w, parse, key, entry, run, seen)
    requires (a.Plan? ==> a.cutoff <= seen) && (a.RecordEntry? ==> a.key != key)
    ensures EntryHeld(Do(w, parse, a), parse, key, entry, run, seen)
  {
    match a
    case Plan(c, cutoff) =>
      PlannedAreOld(w.db, cutoff, run);
      var i :| 0 <= i < |w.db.events[run]| && w.db.events[run][i] == seen;
    case Sweep(c, _, _, _) => if c in w.plans { SweepHoldsEntry(w, parse, a, key, entry, run, seen); }
    case _ =>
  }

  /**
   A recorded entry whose outputs a run references is there, as recorded, after any
   steps that do not record over it, while some event of the run is inside every window.
   */
  lemma {:induction false} LiveEntryStays(
    w: World, parse: Bytes -> Option<OutputRef>, actions: seq<Action>, key: string, entry: Bytes, run: string,
    seen: int)
    requires OutputsHeld(w, parse, entry, run, seen)
    requires LookBack(actions, seen) && forall a :: a in actions && a.RecordEntry? ==> a.key != key
    ensures EntryHeld(Run(Do(w, parse, RecordEntry(key, entry)), parse, actions), parse, key, entry, run, seen)
  {
    if actions != [] {
      var n := |actions| - 1;
      assert forall a :: a in actions[..n] ==> a in actions;
      LiveEntryStays(w, parse, actions[..n], key, entry, run, seen);
      assert actions[n] in actions;
      var before := Run(Do(w, parse, RecordEntry(key, entry)), parse, actions[..n]);
      StepHoldsEntry(before, parse, actions[n], key, entry, run, seen);
    }
  }
}
