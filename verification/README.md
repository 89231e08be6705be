# Dhole: a verified model of its coordination core

Dhole runs pipelines of steps on engines that several control planes direct. This
project models the parts in which several parties act at once, or in which a structure
has to keep its meaning, and proves what they promise:

- **Leases and fences** — `LeaseKeys`, `Lease`, `LeaseSafety`, `LeaseCalls`, `LeaseStore`.
  A revisioned key-value bucket, with every lease method a program of single bucket calls
  interleaved freely by any number of planes.
- **Editing** — `Definition`, `Scalars`, `Edits`, `Meaning`, `Draft`, `Undo`, `History`,
  `Rebase`, `Merge`, `Heads`, `Editing`, `Requests`. The ten edit operations, what each
  leaves and when it is refused, their inverses, the undo of whole histories, three-way
  rebase, and the compare-and-set head under interleaved planes.
- **Graphs** — `Orders`, `Dag`, `Levels`, `Plan`, `TypeCheck`, `Splice`, `Generator`,
  `Ceiling`. Cycle search, topological levels, the dry run over them, and generated
  fragments.
- **Cache and collector** — `Frames`, `CacheKey`, `KeyLayout`, `CacheCodec`, `Collector`,
  `CollectorRuns`. What a cache key is taken over, how entries are framed, and what a
  collection may delete.
- **Engines** — `Room`, `Capacity`, `Backpressure`, `Settlement`, `Capabilities`. How many
  dispatches an engine holds, when a delivery may be acknowledged or started, what it
  reports, and which queues an engine binds.
- **Outbox** — `Outbox`, `OutboxRuns`, `Drains`. Publishing what was committed, at least
  once.

`Prelude` holds what they share. Code that changes things step by step is a class or a
method with loops, proved against a function; concurrent behaviour is a total function
`Do(state, action)`, so that a theorem about `Run(actions)` is about every interleaving.
Beside what every run keeps, each machine has a theorem of what one request, delivery,
transaction or drain comes to from any world a run can reach. What an operation computes
is stated apart from the function that computes it.
Foreign calls (the bus, SQL, protobuf, SHA-256, clocks) are arguments or arbitrary
actions. Hashes and message encodings are assumed injective only where a `requires`
says so, and revision ids, which are content hashes, are the definitions they name.

## Where the code and its documentation disagree

The model follows the code. Each line names the lemma that shows the disagreement and
the one that gives the exact condition.

- `internal/api/operations.go` says every inverse is exact. Undoing a removed step, a
  removed edge or a detached file appends it, so order is lost (`RemoveThenUndoReorders`);
  `InverseIsExact` gives the condition for every pipeline and operation.
- `internal/api/presence.go` says `edgeKey` names one edge unambiguously. It does exactly
  for edges with no `|` in their four names (`EdgeKeyIsUnique`).
- `internal/lease/kv.go` says accepted offers are safe from Withdraw. It refuses one
  exactly while its last acceptance has not been written over (`WithdrawRefuses`), so the
  last acceptance of a withdrawn offer, if it had any, landed after Withdraw looked or was
  written over before (`WithdrawnAfterAcceptance`). Both happen:
  `AcceptedOfferCanBeWithdrawn` is a race with the delete, and in
  `ErasedAcceptanceCanBeWithdrawn` a sweep's late cleanup erases the acceptance and
  nothing overlaps the withdrawal. A late renewal under another fence, or a late cleanup,
  can take an accepted offer's holder away, but never gives a lease a later deadline
  (`StaleRenewalNeverExtends`, `LateForgetNeverExtends`).
- The same file says a sweep takes leases past their deadline. One whose renewal lands
  between the sweep's look and its delete is taken all the same
  (`RenewedLeaseCanBeSwept`); `SweepRace` says exactly when.
- `internal/dynamic/generator.go` says a generator is safe for concurrent use. Two calls
  for one step that overlap are both recorded, from any point of any run, and the first
  graph is rebuilt exactly when the second fragment makes it too (`OverlapDiverges`); from
  an empty log that exceeds a ceiling of one (`SideBySideDiverges`). Calls for one step that
  never overlap are recorded once and rebuilt (`ReplayIsTheRun`). `WithinCeiling` gives the
  bound for any overlap, and every such bound is reached (`CeilingIsReached`).
- `internal/cas/gc.go` says an entry that cannot be parsed yields no digests. Any entry
  yields exactly the digests of the well-framed, parsing messages its bytes begin with
  (`YieldsWhatItShows`), so none exactly when there are none (`YieldsNothing`); one with
  trailing bytes yields all of them (`UnreadableEntryYields`).
- The same file says a blob referenced by a run within the window is kept. Which runs are
  old is decided before the transaction that deletes: `SweepIsExact` says which blobs go,
  by that earlier set, and `RevivedRunLosesBytes` builds, from an empty store and with one
  collector, a run that comes back in between and loses its bytes. `LiveRunKeepsBytes`
  covers runs with an event inside every window on the way.
- The same file says no row is kept beside bytes that are gone. A collection whose commit
  fails brings rows back without their bytes: `RolledBackSweepLosesBytes` builds it from
  an empty store. Where nothing but the commit fails, a collection keeps every row's bytes
  exactly when a revision cannot be read or something else keeps each text a row names
  (`RollbackKeepsBytes`); where an unlink fails too, exactly when nothing a row names was
  unlinked before that (`RolledBackSweep`).

## Model

| member | source | states |
|---|---|---|
| `LeaseKeys.EncodeIsInjective` | internal/lease/kv.go:470-472 | unpadded base64url (section 5 of RFC 4648) tells every two byte strings apart |
| `LeaseKeys.ClaimKeyIsInjective` | internal/lease/kv.go:454-462 | leases of different tenant, run or step never share a claim key |
| `LeaseKeys.DecodeEncode` | internal/lease/kv.go:470-472 | what is encoded is read back by the alphabet and layout of section 5 of RFC 4648 |
| `LeaseKeys.ClaimKeyReads` | internal/lease/kv.go:454-466 | a claim key is the prefix and then tenant, run and step, each in its own segment in that order, refused exactly for an empty name; its renewal key has the same segments |
| `LeaseKeys.RenewKeysAreApart` | internal/lease/kv.go:464-466 | no renewal key is a claim key, and two claims never share a renewal |
| `Lease.RunKeeps` | internal/lease/kv.go:117-396 | in every interleaving of single bucket calls the bucket agrees with the log of takes, ends and renewals, and every logged event was permitted when it happened |
| `LeaseSafety.FencesIncrease` | internal/lease/kv.go:117-157 | the fences handed out strictly increase along every run |
| `LeaseSafety.DeadFenceStaysDead` | internal/lease/kv.go:117-396 | a fence superseded, swept or withdrawn is never confirmed again and never consumed twice, so a dead attempt goes to at most one plane |
| `LeaseSafety.RetakeNeedsAnEnd` | internal/lease/kv.go:127-154 | two takes of one attempt of a step have a sweep or withdrawal of its lease between them |
| `LeaseSafety.OrphanWasHeld` | internal/lease/kv.go:290-332 | an orphan was taken under its fence, was overdue by the renewal the sweep read and, if it was an offer, had been renewed under its own fence |
| `LeaseSafety.RenewalWasTaken` | internal/lease/kv.go:207-224 | a renewal is written only under a fence that was taken for that key |
| `LeaseSafety.StaleRenewalNeverExtends` | internal/lease/kv.go:207-224 | a renewal under any other fence never gives a lease a later deadline; it removes a holder exactly when the lease is an accepted offer |
| `LeaseSafety.LateForgetNeverExtends` | internal/lease/kv.go:302-331 | a sweep's late cleanup leaves the claim, never gives a lease a later deadline, and removes a holder exactly when the lease is an accepted offer |
| `LeaseSafety.WithdrawalRace` | internal/lease/kv.go:375-396 | a withdrawal removes only offers, and one that has a holder at the moment of the delete exactly when the last write of its renewal after Withdraw looked is the offer's own |
| `LeaseSafety.WithdrawRefuses` | internal/lease/kv.go:376-388 | when Withdraw looks it refuses a claim, and an offer exactly while its last acceptance has not been written over |
| `LeaseSafety.WithdrawnAfterAcceptance` | internal/lease/kv.go:375-396 | in every run, the last acceptance of a withdrawn offer, if it had any, came after Withdraw looked, or came before and was written over before it looked |
| `LeaseSafety.SweepRace` | internal/lease/kv.go:302-331 | a swept lease is still overdue at its delete, unless a renewal written since the sweep looked says otherwise, and exactly then |
| `LeaseSafety.AcceptedOfferCanBeWithdrawn` | internal/lease/kv.go:375-396 | for every step there is a run in which an accepted offer is withdrawn |
| `LeaseSafety.RenewedLeaseCanBeSwept` | internal/lease/kv.go:302-331 | for every step there is a run in which a lease is swept after its holder renewed it, not overdue by the renewal there at the delete |
| `LeaseSafety.ErasedAcceptanceCanBeWithdrawn` | internal/lease/kv.go:302-396 | for every step there is a run in which an earlier sweep's cleanup erases an acceptance and a withdrawal nothing overlaps takes the offer |
| `LeaseSafety.KeysAreSteps` | internal/lease/kv.go:454-472 | in every run two takes share a key exactly when tenant, run and step are equal |
| `LeaseCalls.CallsAreServed` | internal/lease/kv.go:117-396 | from every reachable world, a take, renewal, validation, sweep or withdrawal nothing interrupts adds to the history exactly what the leases and renewals there call for, and nothing when its names, TTL or token are not good |
| `LeaseCalls.RoundIsDecided` | internal/lease/kv.go:127-157 | whatever other planes do between a take's read and its write, the write lands exactly unless they moved the lease it read or left one where it read none; beaten, it writes nothing |
| `LeaseCalls.OnlyEightLossesEnd` | internal/lease/kv.go:124-161 | from every reachable world a take is ended by its eighth lost round and no earlier; the next round nobody wins ahead of it takes the step |
| `LeaseStore.KV.constructor` | internal/lease/kv.go:68-83 | a new store is an empty bucket |
| `LeaseStore.KV.TryTake` | internal/lease/kv.go:127-154 | one read and compare-and-set: refused exactly when an attempt no earlier than this one is there, lost only to a write of the same key, else written at a fresh fence |
| `LeaseStore.KV.Race` | internal/lease/kv.go:127-157 | the bounded retry: success in the bucket as the writes of the rounds it lost left it, refusal or giving up with nothing of its own written |
| `LeaseStore.KV.Take` | internal/lease/kv.go:96-157 | Claim and Offer: name and TTL errors first, then the outcome of the race over exactly the rivals' writes; alone, success exactly when no lease of this or a later attempt is there |
| `LeaseStore.KV.Validate` | internal/lease/kv.go:228-255 | a token is good exactly when its key carries a lease at its fence |
| `LeaseStore.KV.Renew` | internal/lease/kv.go:207-224 | a current token's deadline moves to now plus its TTL and its offer is held; no claim changes |
| `LeaseStore.KV.ExpireOne` | internal/lease/kv.go:290-332 | exactly an overdue held lease is removed with its renewal and returned |
| `LeaseStore.KV.Expire` | internal/lease/kv.go:264-286 | one sweep returns each overdue lease once, removes exactly those and leaves none overdue |
| `LeaseStore.KV.Unaccepted` | internal/lease/kv.go:400-448 | exactly the offers nobody has accepted, each once, and nothing is written |
| `LeaseStore.WaitingIsTheOffer` | internal/lease/kv.go:163-198 | what is reported of a waiting offer or an orphan is what its call said, and an offer's time is the time of that call |
| `LeaseStore.KV.Withdraw` | internal/lease/kv.go:375-396 | run alone, removes exactly an unaccepted offer at its own fence |
| `Orders.SortForgetsOrder` | internal/cache/key.go:86-104 | by a total order, two lists sort to the same list exactly when they hold the same elements |
| `Dag.VisitAll` | internal/dag/dag.go:172-179 | starting from every unvisited step finds a closed path or a ranking of all steps |
| `Dag.CycleSearch.Visit` | internal/dag/dag.go:148-169 | the coloured depth-first walk ends, and returns a closed path of real dependencies or finishes the step |
| `Dag.FindCycle` | internal/dag/dag.go:144-180 | nothing is returned exactly when the dependency relation is acyclic; otherwise a genuine closed path |
| `Dag.NameSteps` | internal/dag/dag.go:42-54 | refused exactly when an id is empty or repeated |
| `Dag.DeriveEdges` | internal/dag/dag.go:57-77 | refused exactly when an edge names no step; else one dependency per pair of steps, with exact in-degrees |
| `Dag.Build` | internal/dag/dag.go:32-86 | a graph exactly when ids are present and distinct, edges name steps and dependencies are acyclic; it has the pipeline's steps and dependencies; each refusal names a real fault |
| `Levels.TopoLevels` | internal/dag/dag.go:101-131 | every step is listed, each level sorted and exactly the steps ready once the earlier levels are done |
| `Levels.LevelIsLongestPath` | internal/dag/dag.go:101-131 | each step is in one level, whose number is the length of the longest path into it; predecessors are in earlier levels |
| `Levels.LevelsOfPipeline` | internal/dag/dag.go:32-131 | the same in the pipeline's own dependencies |
| `Plan.FileInputs` | internal/dag/files.go:24-52 | the digests of the files a step reads, or none if one is missing or has no digest |
| `Plan.InputDigests` | internal/api/plan.go:229-260 | file digests then edge digests, known exactly when all of them are; what they are is InputsMean |
| `Plan.InputsMean` | internal/api/plan.go:229-260 | a step's inputs can be told exactly when every file it reads is carried with a digest and every edge into it comes from a hit with that port; they are then one digest for each file and each such edge, in order, and no more |
| `Plan.PlanLevel` | internal/api/plan.go:124-172 | one level of the walk leaves every step done so far with the answer its inputs give it, and one line each in order |
| `Plan.MakePlan` | internal/api/plan.go:69-174 | a plan exactly for a pipeline with a graph; every step has the answer the cache gives to its own inputs, or none where they are not all known, and the lines name each step once, after every step it depends on, a hit exactly where the answer is known |
| `Plan.PlanIsUnique` | internal/api/plan.go:124-172 | there is one such answer, so the plan does not depend on the order of the walk |
| `Plan.HitsFollowHits` | internal/api/plan.go:194-260 | every predecessor of a hit is a hit |
| `TypeCheck.Check` | internal/dag/typecheck.go:31-97 | the faults in order, none exactly when every edge joins existing ports of agreeing types and every file binding holds |
| `TypeCheck.CheckFileBindings` | internal/dag/typecheck.go:108-138 | a fault for each file input with no file or no port |
| `TypeCheck.NoFaults` | internal/dag/typecheck.go:31-178 | nothing is reported exactly when the definition is well typed |
| `TypeCheck.FaultsAre` | internal/dag/typecheck.go:31-138 | exactly the faults there are: of an edge, at the end that is missing or at the target where the types do not agree, and of a file input without its file or port |
| `TypeCheck.CompatibleMeans` | internal/dag/typecheck.go:150-178 | untyped ports agree with nothing, blobs with every blob, structured ports exactly by schema id |
| `Splice.CheckIds` | internal/dynamic/generator.go:174-190 | accepted exactly when fragment ids are present, new to the parent and distinct |
| `Splice.Graft` | internal/dynamic/generator.go:211-234 | the grafted edges and the missing ports, step by step |
| `Splice.Splice` | internal/dynamic/generator.go:157-246 | accepted exactly when the anchor exists, the fragment is non-empty with fresh ids, and the result builds and type checks; the result is the splice, and each refusal is for its own reason in the source's order |
| `Splice.GraftedIs` | internal/dynamic/generator.go:192-235 | every step and edge of the parent and of the fragment is in the result as it is, and of other edges exactly the grafts that are due; files, id and tenant are the parent's |
| `Splice.MissesAre` | internal/dynamic/generator.go:211-234 | a fault is reported exactly for each input of an entry step the generator produces no port for |
| `Splice.GraftsAre` | internal/dynamic/generator.go:211-234 | a graft feeds an input of an entry step from the generator's output of that name, and every such pair is grafted |
| `Splice.EntriesAreFed` | internal/dynamic/generator.go:211-245 | a spliced pipeline leaves no entry input unfed |
| `Splice.SpliceIsAcyclic` | internal/dynamic/generator.go:192-240 | for every fragment, the result is acyclic exactly when parent and fragment have no cycle between them and no step the generator feeds leads back to it; where no fragment edge leads into the parent, exactly when each is acyclic |
| `Generator.RunLog.constructor` | internal/dynamic/generator.go:355-369 | a run starts with an empty log |
| `Generator.RunLog.Scan` | internal/dynamic/generator.go:371-382 | the number of recorded fragments and the step's own latest |
| `Generator.RunLog.Realise` | internal/dynamic/generator.go:355-443 | log and result of one call; refused for the ceiling exactly when nothing is recorded for the step and the budget is spent |
| `Generator.CallAlone` | internal/dynamic/generator.go:355-443 | a call nothing interleaves with is Realise |
| `Generator.ReturnedGraphsAreSound` | internal/dynamic/generator.go:355-443 | every graph any run returns is its parent with every step and edge of a fragment on record for its step and the grafts due, acyclic and well typed |
| `Generator.WithinCeiling` | internal/dynamic/generator.go:370-440 | with at most P calls side by side a run records at most ceiling - 1 + P fragments, so alone never more than the ceiling |
| `Ceiling.CeilingIsReached` | internal/dynamic/generator.go:370-440 | for every ceiling and every P there is a run with at most P calls side by side that records exactly ceiling - 1 + P fragments |
| `Generator.ReplayIsTheRun` | internal/dynamic/generator.go:383-397 | where calls for a step never overlap it is recorded once, and asking again returns the same graph for the same parent whatever the budget or generator says |
| `Generator.SideBySideDiverges` | internal/dynamic/generator.go:355-443 | two overlapping calls record two fragments under a ceiling of one, and the first graph is rebuilt exactly when the two are equal |
| `Generator.OverlapDiverges` | internal/dynamic/generator.go:355-443 | from any world with two calls asking for one step, their answers add two records, and the first graph is rebuilt exactly when the second fragment makes it of the first parent |
| `Generator.AloneSplices` | internal/dynamic/generator.go:157-246 | there are such fragments: any step by itself, spliced below any other |
| `Scalars.NameRoundTrip` | internal/api/operations.go:213-235 | an enum value survives its name exactly when it is declared |
| `Scalars.UintRoundTrip` | internal/api/operations.go:243-253 | a timeout survives its decimal text |
| `Edits.Scan` | internal/api/operations.go:356-364 | the first match and the number of matches |
| `Scalars.EnvNameMeans` | internal/secrets/step.go:207-222 | a variable's name is a letter or underscore and then any run of letters, digits and underscores |
| `Meaning.PropertyMeans` | internal/api/operations.go:207-271 | a property edit is accepted exactly for a settable property and a text that stands for a value of it; that value is then there, nothing else differs, and the inverse has the text of the one before |
| `Meaning.EditStepMeans` | internal/api/operations.go:207-490 | an edit of one step is accepted exactly when it should be, and leaves the named property, config key, secret, capability or name as it says and every other field and entry as it was |
| `Meaning.OneBinding` | internal/api/operations.go:347-421 | an accepted bind leaves the variable bound once, to the secret named; an accepted removal leaves it unbound |
| `Meaning.ApplyMeans` | internal/api/operations.go:38-88 | each of the ten kinds is accepted exactly under its condition on the definition, and leaves exactly what it says |
| `Meaning.InverseMeans` | internal/api/operations.go:38-88 | what is returned to undo an operation says what was there before it |
| `Meaning.RefusalMeans` | internal/api/operations.go:91-645 | an operation is refused for exactly the first thing that is wrong with it |
| `Draft.Draft.constructor` | internal/api/operations.go:48-51 | the draft is a copy of the definition |
| `Draft.Draft.AddStep` | internal/api/operations.go:91-113 | the draft becomes what add_step says, or is left alone with its refusal |
| `Draft.Draft.RemoveStep` | internal/api/operations.go:118-144 | the same for remove_step, refused while an edge names the step |
| `Draft.Draft.CheckEdge` | internal/api/operations.go:626-645 | the first endpoint that is missing, source before target |
| `Draft.Draft.Connect` | internal/api/operations.go:147-169 | the same for connect |
| `Draft.Draft.RemoveEdge` | internal/api/operations.go:178-201 | the same for remove_edge |
| `Draft.Draft.EditSecret` | internal/api/operations.go:347-421 | a secret unbound, rebound in place or inserted, with its inverse's index |
| `Draft.Draft.EditCapability` | internal/api/operations.go:426-490 | a capability withdrawn or inserted, with its inverse's index |
| `Draft.Draft.EditOneStep` | internal/api/operations.go:207-490 | the five kinds that edit one step change that step and its place stays |
| `Draft.Draft.SetFile` | internal/api/operations.go:524-594 | a file attached, replaced or detached, refused while a step reads it |
| `Draft.Draft.Apply` | internal/api/operations.go:38-88 | the draft and inverse are those of the operation, and a refused one changes nothing |
| `Undo.InverseIsExact` | internal/api/operations.go:38-88 | for every pipeline and accepted operation, the inverse restores it exactly precisely under a condition on the pipeline before the call |
| `Undo.RemoveThenUndoReorders` | internal/api/operations.go:118-144 | a step removed and put back moves to the end |
| `Undo.StepEditUndo` | internal/api/operations.go:207-490 | an edit of one step is undone exactly when the enum value it replaced is declared |
| `History.ApplyForgetsOrder` | internal/api/operations.go:38-88 | on definitions equal up to list order, an operation is accepted alike, with equal inverses and results equal up to order |
| `History.UndoOne` | internal/api/operations.go:38-88 | on a well-formed definition every inverse is accepted and restores it up to order |
| `History.WellFormedIsExact` | internal/api/operations.go:207-490 | there, every kind but the three removals is undone list for list |
| `History.WellFormedAgain` | internal/api/operations.go:38-88 | being well formed does not depend on list order |
| `History.ApplyKeepsForm` | internal/api/operations.go:38-88 | an accepted fitting operation keeps a definition well formed |
| `History.UndoHistory` | internal/api/operations.go:38-88 | the inverses of any accepted history, in reverse, are all accepted and restore the original up to order |
| `Rebase.ChangedBetween` | internal/api/presence.go:425-462 | what changed, as the two scans of the definitions compute it |
| `Rebase.ChangedSteps` | internal/api/presence.go:425-445 | a step is reported exactly when it differs, its life exactly when it came or went |
| `Rebase.ChangedEdges` | internal/api/presence.go:447-461 | an edge key is reported exactly when it came, went or is carried twice |
| `Merge.DisjointMeans` | internal/api/presence.go:384-461 | claims and changes are disjoint exactly when the step an edit is about is as it was, or its edge and the presence of both its ends are; never for a file edit |
| `Rebase.EdgeKeyIsUnique` | internal/api/presence.go:464-468 | a key names its edge alone exactly when no name holds a bar |
| `Merge.StepFrame` | internal/api/operations.go:38-88 | an accepted edit changes the step it targets, by that step alone, and no other |
| `Merge.EdgeFrame` | internal/api/operations.go:147-201 | an accepted edit changes the edge it names and no other |
| `Merge.FileFrame` | internal/api/operations.go:524-594 | an accepted edit changes the file it names, to what it attaches or to nothing, and no other |
| `Merge.SubmitMeans` | internal/api/server.go:487-517 | an edit lands exactly when the head accepts it and, if the head has moved, nobody has changed what it is about; it then leaves of the head what the operation says |
| `Merge.ThreeWayMerge` | internal/api/presence.go:332-355 | every submitted edit that lands makes what the operation says of the base's own steps, edges and files, and leaves everything else as the head has it |
| `Merge.MergeKeepsMine` | internal/api/presence.go:332-355 | where the base accepts the edit too, what it claims is as the edit of the base makes it, and so are the files of an edit of the head itself |
| `Merge.BaseWouldTake` | internal/api/server.go:506-517 | an edit that landed is one its base refuses exactly when the base wires up the step it removes, lacks the ports its edge needs or has that edge otherwise |
| `Merge.HeadTakesWhatBaseRefuses` | internal/api/operations.go:118-144 | every removal of a wired step is refused by its base and lands once somebody else has taken the edges away |
| `Merge.DisjointEditApplies` | internal/api/server.go:506-517 | a disjoint edit the base accepted applies at the head exactly when a removed step was not wired up, a new edge still has its ports and its edge is still free |
| `Merge.PlainEdgeIsFree` | internal/api/presence.go:425-468 | with no bar in an edge's names, disjoint claims keep that edge free |
| `Merge.EditsCommute` | internal/api/presence.go:332-468 | when both orders of two edits are accepted they leave the same definition up to order |
| `Heads.SQLHeads.constructor` | internal/defstore/heads.go:40-42 | a new table has no heads |
| `Heads.SQLHeads.Head` | internal/defstore/heads.go:47-62 | a lookup by tenant and pipeline, absent where no row was ever written |
| `Heads.SQLHeads.Insert` | internal/defstore/heads.go:83-87 | a first write, which changes nothing where a row is there already |
| `Heads.SQLHeads.Update` | internal/defstore/heads.go:88-93 | an update of exactly the row still at the named revision |
| `Heads.SQLHeads.CompareAndSetHead` | internal/defstore/heads.go:70-105 | a head moves exactly from the revision the caller names; a refusal writes nothing |
| `Heads.MemoryHeads.constructor` | internal/api/server.go:103-105 | a new double has no heads |
| `Heads.MemoryHeads.Head` | internal/api/server.go:108-113 | the recorded head under the tenant's key |
| `Heads.MemoryHeads.CompareAndSetHead` | internal/api/server.go:116-130 | the same move as the stored table's |
| `Heads.SharedKey` | internal/api/server.go:108-130 | two pipelines share an in-process head exactly when a slash in one id lets it be read as the other's |
| `Heads.OneIdTwoTenants` | internal/api/server.go:108-130 | two tenants' pipelines of one id never share a head |
| `Editing.RunKeeps` | internal/api/server.go:462-563 | in every interleaving heads are the end of a chain of landed requests, and in-flight requests hold what they will land |
| `Editing.NoEditIsLost` | internal/api/server.go:462-563 | the head is every accepted request, each operation applied to what the last one left |
| `Editing.HeadsAreStored` | internal/api/server.go:462-563 | every head is a stored revision of its own tenant and pipeline |
| `Editing.OneSeed` | internal/api/server.go:403-417 | of two moves of one head the later has a head to move from, so one create wins |
| `Editing.RepliesAreTrue` | internal/api/server.go:462-563 | an accepted request moved a head exactly once, to the revision its reply names; a rejected one never |
| `Editing.EveryEditMerges` | internal/api/server.go:462-563 | in every run whose definitions start with distinct step ids, every accepted edit is a three-way merge of its base and the head it moved |
| `Requests.PrepareLands` | internal/api/server.go:476-540 | once it has read the head, an edit goes on to store something exactly when what it reads is stored and it lands, and it stores what it landed on |
| `Requests.ChangeIsServed` | internal/api/server.go:462-563 | from every reachable world, an edit served alone is accepted exactly when tenant, pipeline and base are there and the head accepts it undisturbed; the head is then what the operation leaves of it, else nothing changes |
| `Requests.CreateIsServed` | internal/api/server.go:361-424 | from every reachable world, a create served alone is accepted exactly for a named tenant and an id with nothing stored under it, and its head is the definition sent, under that tenant and id |
| `Requests.FailuresAreTold` | internal/api/server.go:462-563 | a call that fails changes nothing and says so; one whose answer is lost changes what it would have and says no more |
| `Frames.NumberOfBigEndian` | internal/cache/key.go:116-129 | big-endian bytes of a number that fits read back as it |
| `Frames.BigEndianOfNumber` | internal/cache/cache.go:172-183 | any bytes are those of the number they read as |
| `Frames.FrameCancels` | internal/cache/key.go:114-121 | where a frame ends is decided by what it says, not by what follows |
| `CacheKey.NamesOf` | internal/cache/key.go:100-103 | a map's names, each once |
| `CacheKey.WriteAll` | internal/cache/key.go:92-98 | both halves of every pair, framed, in order |
| `CacheKey.Key` | internal/cache/key.go:63-112 | a key exactly for a pure step with an environment, and the hash of its material |
| `CacheKey.MaterialIsExact` | internal/cache/key.go:63-149 | two requests hash the same bytes exactly when plugin, environment, multiset of inputs and lockfile are equal |
| `KeyLayout.MaterialLays` | internal/cache/key.go:63-129 | read from the front, the bytes are the schema, the plugin, the environment, the inputs behind their number in order of algorithm and hex, and the pins behind theirs in order of name, and no more |
| `KeyLayout.MostSignificantFirst` | internal/cache/key.go:116-129 | a length or count is written most significant byte first |
| `CacheCodec.EncodeOutputs` | internal/cache/cache.go:151-162 | a count and framed messages |
| `CacheCodec.DecodeOutputs` | internal/cache/cache.go:167-196 | whole or not at all, with the error that stopped it |
| `CacheCodec.DecodedIsEncoded` | internal/cache/cache.go:151-196 | an entry decodes to outputs exactly when it is the encoding of messages that parse to them |
| `CacheCodec.RoundTrip` | internal/cache/cache.go:151-196 | what is stored is read back |
| `CacheCodec.EntryDigests` | internal/cas/gc.go:582-610 | the well-formed digests of what can be read before anything goes wrong |
| `CacheCodec.CollectorReadsEveryDigest` | internal/cas/gc.go:575-610 | from an entry the cache can read, exactly its well-formed digests |
| `CacheCodec.UnreadableEntryYields` | internal/cas/gc.go:575-610 | an entry with trailing bytes does not decode and yields the same digests |
| `CacheCodec.YieldsWhatItShows` | internal/cas/gc.go:575-610 | a digest is yielded exactly when the entry's bytes begin with framed messages, within the count, that all parse and the last of which has it |
| `CacheCodec.YieldsNothing` | internal/cas/gc.go:575-610 | an entry yields no digest exactly when its bytes begin with no well-framed, parsing messages of which the last has one |
| `Collector.ParsedText` | internal/cas/gc.go:632-647 | a stored text that parses is written back unchanged |
| `Collector.TextRoundTrip` | internal/cas/gc.go:632-647 | a digest is read back from its text exactly when its algorithm holds no colon |
| `Collector.LastEvent` | internal/cas/gc.go:325-330 | the latest of a run's events |
| `Collector.ExpiredRuns` | internal/cas/gc.go:296-336 | exactly the referencing runs that have events, all before the cutoff |
| `Collector.MarkRefs` | internal/cas/gc.go:366-386 | the candidates in order, each kept by a retained run |
| `Collector.DefinitionCandidates` | internal/cas/gc.go:429-457 | uploads join the candidates, kept inside the window |
| `Collector.CarriedDigests` | internal/cas/gc.go:477-511 | what revisions carry, or nothing where one cannot be read |
| `Collector.UnpinnedDigests` | internal/cas/gc.go:357-411 | the collectable digests, computed by those loops |
| `Collector.UnpinnedMeans` | internal/cas/gc.go:357-411 | exactly the candidates no retained run, recent upload or revision keeps |
| `Collector.DropCacheEntries` | internal/cas/gc.go:528-573 | exactly the entries that name no doomed digest stay |
| `Collector.NoStaleHit` | internal/cas/gc.go:528-610 | no remaining entry the cache can read names a doomed digest |
| `Collector.DeleteBlobs` | internal/cas/gc.go:218-250 | blob by blob until one will not go, with the texts reclaimed and the blobs that went |
| `Collector.DeletedOnly` | internal/cas/gc.go:218-250 | only blobs whose text was doomed go, and a reclaimed text's blob is gone |
| `Collector.CollectedAreGone` | internal/cas/gc.go:218-250 | the blobs counted are exactly those that went, each once |
| `Collector.DeletesUntil` | internal/cas/gc.go:218-250 | the texts reclaimed are those before the first that will not go, and it failed exactly when there is one |
| `Collector.GC.constructor` | internal/cas/gc.go:52-69 | a collector over given tables and blobs |
| `Collector.GC.Reference` | internal/cas/gc.go:108-142 | a reference is written exactly beside bytes that are there, once |
| `Collector.GC.Collect` | internal/cas/gc.go:164-290 | tables and blobs after one collection, commit failed or not; the number freed is the number gone, and credits are exactly those up to the first that is refused, only when everything else succeeded |
| `CollectorRuns.SweepIsSafe` | internal/cas/gc.go:164-272 | a deleted blob had no reference outside the expired set, no upload in the window and no revision carrying it |
| `CollectorRuns.SweepIsExact` | internal/cas/gc.go:164-272 | a sweep that meets no error deletes a stored blob exactly when every revision can be read, a row names it, every run referencing it is in the expired set, its uploads are old and no revision carries it |
| `CollectorRuns.PlannedAreOld` | internal/cas/gc.go:296-336 | a run is counted out exactly when it references, has events and all are old |
| `CollectorRuns.ReferencesAreReadable` | internal/cas/gc.go:108-272 | in every run whose collections commit, every reference row names stored bytes |
| `CollectorRuns.RolledBackSweep` | internal/cas/gc.go:215-267 | a collection that fails to commit, with or without failed unlinks, keeps every row's bytes exactly when it unlinked nothing a row names |
| `CollectorRuns.RollbackKeepsBytes` | internal/cas/gc.go:164-267 | a collection whose only failure is its commit keeps every row's bytes exactly when a revision cannot be read or each text a row names is kept by a run outside the expired set, a recent upload or a revision |
| `CollectorRuns.RolledBackSweepLosesBytes` | internal/cas/gc.go:164-267 | for every blob, run and cutoff there is a run from an empty store after which a collection that fails to commit leaves a row naming bytes that are gone |
| `CollectorRuns.LiveRunKeepsBytes` | internal/cas/gc.go:164-336 | bytes a run references survive any steps while some event of it is inside every window |
| `CollectorRuns.RevivedRunLosesBytes` | internal/cas/gc.go:164-202 | for every blob, run and cutoff there is a run of one collector from an empty store in which a run counted out comes back inside the window, still referencing, and loses the blob |
| `CollectorRuns.RevisionKeepsBytes` | internal/cas/gc.go:357-511 | bytes a saved revision carries are never collected |
| `CollectorRuns.SweepLeavesNoStaleHit` | internal/cas/gc.go:164-272 | after a committed collection no readable entry names a blob it removed |
| `CollectorRuns.EntriesThatStay` | internal/cas/gc.go:528-610 | a committed sweep keeps a cache entry, as it was, exactly when a revision cannot be read or the entry shows no digest that nothing keeps |
| `CollectorRuns.RowsThatStay` | internal/cas/gc.go:194-262 | it keeps exactly the references of runs not counted out and the uploads whose blobs were not reclaimed, or every reference where it had to stop |
| `CollectorRuns.LiveEntryStays` | internal/cas/gc.go:528-610 | a recorded entry whose outputs a run references stays as recorded while some event of the run is inside every window |
| `CollectorRuns.UploadKeepsBytes` | internal/cas/gc.go:413-457 | uploaded bytes no revision carries yet survive any steps while the upload is inside every window |
| `CollectorRuns.SavedFileKeepsBytes` | internal/cas/gc.go:459-511 | the bytes of a saved definition's files survive any steps |
| `CollectorRuns.ReferenceNeedsBytes` | internal/cas/gc.go:108-142 | a reference is written exactly for a named run and a digest whose bytes are there |
| `Room.Room.constructor` | internal/engine/agent.go:459-462 | a new room is open and empty |
| `Room.Room.Look` | internal/engine/agent.go:466-482 | there is room exactly while the room is open, and which round it is |
| `Room.Room.Hold` | internal/engine/agent.go:487-494 | one more held; closed exactly when that fills the engine |
| `Room.Room.Release` | internal/engine/agent.go:497-506 | one fewer held; a new round exactly when that makes room |
| `Room.RunKeeps` | internal/engine/agent.go:384-437 | the invariant of pumps, room, slots and jobs over every run |
| `Room.EngineIsBounded` | internal/engine/agent.go:384-437 | open exactly while held < L; held at most L - 1 + P; running at most L; both counts exact |
| `Capacity.BoundsAreReached` | internal/engine/agent.go:384-437 | for every L and every P there is a run that holds exactly L - 1 + P dispatches and runs exactly L of them |
| `Room.RoomComesBack` | internal/engine/agent.go:384-437 | every dispatch gives back its room once, and its slot exactly if it took one |
| `Room.EverythingComesBack` | internal/engine/agent.go:384-437 | when all dispatches are done the engine is empty and open |
| `Room.NoLostWakeup` | internal/engine/agent.go:464-506 | no pump sleeps while there is room, and none fetches on while there is not: one is woken exactly once room has come back since it looked, and a fetch ends exactly with its round or a full room |
| `Backpressure.OutstandingIsExact` | internal/bus/backpressure.go:89-225 | tokens are exactly fetches in flight and unsettled deliveries, within the bound however often a message is settled |
| `Backpressure.ReleaseFindsASlot` | internal/bus/backpressure.go:157-162 | no release finds the channel empty |
| `Backpressure.CallsAreServed` | internal/bus/backpressure.go:103-162 | a caller is served exactly while fewer than the bound are outstanding; a message makes one more so, and a fetch that brings none leaves everything as it was |
| `Backpressure.SettlingGivesBack` | internal/bus/backpressure.go:180-225 | the first settlement of a message gives one back, and any other changes nothing |
| `Settlement.RunKeeps` | internal/engine/agent.go:411-716 | over every run, timed-out publishes that reached the bus included, each event was justified by what came before it, from the wait for a slot on |
| `Settlement.AckIsEarned` | internal/engine/agent.go:550-634 | an acknowledged delivery would not parse, was answered FENCED, or had its terminal status published first with its own fence |
| `Settlement.StartIsConfirmed` | internal/engine/accept.go:66-88 | where a step runs at most once and must be confirmed, every start follows CURRENT, and none follows FENCED |
| `Settlement.FencedLeavesNoTrace` | internal/engine/agent.go:550-634 | a delivery answered FENCED leaves nothing but its acknowledgement |
| `Settlement.SettledOnce` | internal/engine/agent.go:411-634 | a delivery is settled at most once, one that never got a slot included |
| `Settlement.StatusIsTrue` | internal/engine/agent.go:627-715 | a terminal status is Cancelled exactly when its step was cancelled with the engine running on, else Succeeded exactly when the step succeeded, and a failure where nothing started; it has the dispatch's own run, step, attempt and fence |
| `Settlement.HandledLeaves` | internal/engine/agent.go:411-716 | what one delivery leaves from any world, all told: a runnable dispatch that needs no confirmation or is answered CURRENT is accepted, started, reported and acknowledged where the bus takes what it publishes |
| `Settlement.OverIsOver` | internal/engine/agent.go:550-634 | nothing more comes of a delivery that is settled, left or crashed |
| `Capabilities.NormaliseCaps` | internal/engine/registry_client.go:101-111 | zero dropped, sorted, compacted |
| `Capabilities.NormaliseMeans` | internal/engine/registry_client.go:101-111 | exactly the specified members, each once, in order |
| `Capabilities.RenderIsInjective` | internal/engine/registry_client.go:61-72 | different lists are hashed from different bytes |
| `Capabilities.HashIsOfTheSet` | internal/engine/registry_client.go:61-72 | two lists whose two renderings the hash tells apart hash alike exactly when they specify the same set |
| `Capabilities.SatisfiableCapsHashes` | internal/engine/registry_client.go:124-141 | one hash per mask, refused exactly above eight members |
| `Capabilities.OneMask` | internal/engine/registry_client.go:131-139 | a granted set is given by exactly one mask, any other by none |
| `Capabilities.BindsExactlyWhatItServes` | internal/engine/registry_client.go:120-141 | a required set's hash is bound exactly when every member is granted, at one place |
| `Capabilities.WorkQueues` | internal/engine/agent.go:283-303 | for each hash its own queue and the engine kind's |
| `Capabilities.RouteIsExact` | internal/bus/subjects.go:21-44 | a dispatch subject tells tier, set and kind apart |
| `Capabilities.DispatchReaches` | internal/engine/agent.go:283-303 | a dispatch reaches an engine exactly when tiers agree, required capabilities are granted and the kind is its own or none |
| `Outbox.OwedMeans` | internal/outbox/outbox.go:245-283 | exactly the deployment's unsent, unlocked rows, in id order |
| `Outbox.Outbox.constructor` | internal/outbox/outbox.go:88-94 | an outbox owned by one deployment |
| `Outbox.Outbox.Enqueue` | internal/outbox/outbox.go:104-132 | one owed row, or a refusal that writes nothing |
| `Outbox.Outbox.Publish` | internal/outbox/outbox.go:154-161 | published in order up to the first failure |
| `Outbox.Outbox.Drain` | internal/outbox/outbox.go:141-183 | a batch published up to the first failure and exactly those marked, if the marks commit |
| `Outbox.Outbox.DrainBacklog` | internal/outbox/outbox.go:204-219 | batch after batch publishes and marks exactly what one unbounded drain would |
| `OutboxRuns.RunKeeps` | internal/outbox/outbox.go:104-307 | the invariant of writers, claims and the bus over every interleaving |
| `OutboxRuns.OwedOrAccepted` | internal/outbox/outbox.go:141-183 | a committed row is owed or the bus has it |
| `OutboxRuns.CommittedRowsRemain` | internal/outbox/outbox.go:104-307 | whatever happens next, a committed row stays in the table, the same message, and once sent it stays sent |
| `OutboxRuns.PublishedAreCommitted` | internal/outbox/outbox.go:104-183 | everything on a bus is a committed row: its deployment, subject and payload |
| `OutboxRuns.OwnRowsOnly` | internal/outbox/outbox.go:245-283 | a plane publishes only its own deployment's rows |
| `OutboxRuns.ClaimsAreDisjoint` | internal/outbox/outbox.go:245-283 | two drains never hold the same row |
| `OutboxRuns.EveryCopyIsAccountedFor` | internal/outbox/outbox.go:141-183 | a row is on the bus once per drain that gave it up, and once more if marked or about to be |
| `Drains.TransactionIsAtomic` | internal/outbox/outbox.go:104-132 | a message is in the table, whole and unsent, exactly when it names a tenant, a deployment and a subject and its transaction commits |
| `Drains.DrainIsServed` | internal/outbox/outbox.go:141-307 | from every reachable world, a drain alone claims the oldest hundred of what waits for its deployment, puts on the bus, whole and in order, everything before the first refusal, and marks exactly those if its marks commit |
| `Drains.UnacknowledgedStaysOwed` | internal/outbox/outbox.go:141-183 | a publish the bus took without saying so stops the drain and leaves the row owed |

## Left out

- Orders.SortForgetsOrder: the library sort is modelled by its result, not its algorithm; by a total order there is only one.
- LeaseStore.KV.Expire: runs without other planes between its calls; the interleaved behaviour is in Lease and LeaseSafety.
- LeaseStore.KV.Withdraw: runs without other planes between its calls; the interleaved behaviour is in LeaseSafety.WithdrawnAfterAcceptance and LeaseSafety.WithdrawalRace.
- TypeCheck.Check: the step and port of a diagnostic, not the wording of its message.
- Draft.Draft.EditSecret: list indices are unbounded here; the wire carries them in 32 bits.
- Generator.RunLog.Realise: one run's log; the JSON and protobuf around a recorded fragment are trusted.
- Editing.NoEditIsLost: the file checks, the lockfile resolver and authorisation appear only as calls that may fail.
- Collector.GC.Collect: one tenant; sizes in bytes are not modelled, so a credit is a digest.
- Settlement.AckIsEarned: the plane's acceptance handler is not modelled; its answers are arbitrary.
- Plan.MakePlan: a line is a step and whether it hits; the engine kinds and the reason a step misses are not in it. Eligibility, the environment identity, engine matching and the cache lookup are one arbitrary function of a step and its inputs.
- Capabilities.BindsExactlyWhatItServes: assumes that the truncated hash tells the one required set from each set the engine can serve.
- CacheKey.Key: SHA-256 is an argument; only the bytes in front of it are modelled.
- Nil as distinct from empty lists and maps, and nil messages where the code refuses them.
- Diffs and change summaries that accompany an edit, and every error message's text.
- Tokens whose value is not a key of the bucket's own making are accepted as any string.
- Clocks are an arbitrary reading per call; nothing here assumes that they agree or advance.
- Approvals, runs, secrets redemption, sandboxes, logs, heartbeats, presence streaming and triggers.
- Importers, the catalogue, identity, policy, tenancy quotas, the web interface and deployment: mostly tables and single decisions.
