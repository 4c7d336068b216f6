# pg_durable: a verified model

pg_durable runs durable workflows inside PostgreSQL. A client calls `df.start()`; the graph is
written to local tables in the caller's transaction, while a ledger row and a queue entry are
committed over a separate connection; a background worker waits for the caller's outcome, loads
the graph and runs it; monitoring functions read statuses back. This project models the parts of
that system whose correctness is not visible in one function body, and proves what they promise.

| module | what it models |
|---|---|
| `Lineage`, `LineageParent`, `NodeStatus`, `StatusLaws` | spawn lineages and execution stamps, the question whether a stamp is superseded, the worklist walk that infers node statuses, and what it answers in terms of stored statuses and stamps |
| `Submission`, `Quota`, `Ledger`, `Admission`, `StartFlow` | `df.start()` as a transition system over any number of backends, its invariants over every run, when it is refused and when it cannot be, and its code as a method against that system |
| `GraphProbe` | the transaction-aware graph probe against an origin transaction that may end at any moment |
| `Attestation` | attest, lock, re-attest against concurrent DDL |
| `LaunchSlots` | the advisory-lock slots that bound loopback launches |
| `InstanceStatus` | status updates, cancels and waiters on one instance row |
| `Cursor`, `Listing` | the cursor token and keyset pagination over a changing table |
| `EndpointCatalog`, `EndpointLaws` | the lazy cache over one frozen snapshot, and what option strings yield |
| `Secrets`, `SecretsLaws` | secret bindings in query, form body and headers, what is checked and what is written |
| `Base64`, `HttpBody` | bounded bodies, base64, error excerpts, multipart sizes |
| `EngineIds` | engine identities |
| `NodeInsert` | numbered batch inserts |
| `Explain`, `DrawnStatus` | the tree drawing of a workflow, and its agreement with the inferred statuses |
| `Prelude`, `Text`, `Bytes` | result types, string splitting and numerals, UTF-8 and hexadecimal |

State that the program changes in place is a class whose methods say what the new state is;
interleaving is explicit: between any two database calls a method lets other sessions take any
schedule of steps. Values, parsers and drawings are functions with lemmas. Library errors,
timeouts and scheduling choices are nondeterministic; a ghost counter of faults lets contracts say
what happens when nothing fails.

## Where the code falls short of the plain promise

Each of these is a lemma with the exact condition or a concrete run.

- A failed `df.start()` leaves no ledger or queue entry exactly when it did not fail on a commit
  whose acknowledgement was lost (`Ledger.FailedStartLeavesNothing`); a run in which it does
  leave both is `Ledger.LostCommitLeavesEntry`.
- An engine id is enqueued again if and only if reconciliation has removed its ledger row
  (`Ledger.CommitRepeatsIffReconciled`), which happens (`Ledger.ReconciledIdIsEnqueuedAgain`).
- The engine's load is within the limit as long as reconciliation keeps the ledger rows of running
  instances (`Ledger.EngineLoadBounded`); a run without that condition is
  `Ledger.EngineLoadWithoutRows`.
- A page walk may end early when no row of a page is known to the engine
  (`Listing.LostWalkDropsRows`). On an unchanged table it fetches everything if and only if that
  does not happen to its last page (`Listing.WalkIsSortedTable`); if the engine does not change
  either, one can tell beforehand: it happens if and only if some full run of `limit` rows of the
  sorted listing, with a row behind it, is wholly unknown (`Listing.LostIffDarkBlock`), and
  everything is shown if and only if every matching instance is known
  (`Listing.SteadyWalkShowsListing`). Whatever changes, a row present and known throughout is
  missed if and only if it sorts after the row a lost walk ended on (`Listing.StableRowShownOnce`).
- An instance can be shown twice, but only if its creation time is set back between two pages
  (`Listing.WalkHasNoDuplicates`, `Listing.MovedRowIsShownTwice`).
- `CommittedMissing` can also mean that the rows were deleted after they became visible
  (`GraphProbe.MissingMayMeanDeleted`).
- A probe that does not see the row ends in an error once the transaction's status is no longer
  available. Without failed reads, and if neither deletion nor loss of the status falls into it, a
  probe begun after the outcome is visible gives a verdict if and only if it sees the row or the
  status is available (`GraphProbe.ProbeTransaction`).
- `parent()` splits from the right and `parse()` from the left; they disagree exactly on a last
  node that begins with a colon (`LineageParent.ParentExactly`), as in `a::1:::b`
  (`LineageParent.ColonNodeHasNoParent`).
- `await_instance` honours its timeout exactly up to 214,748,364 seconds; beyond that the
  32-bit product of an optimised build wraps (`InstanceStatus.TimeoutHonoured`).
- A session that cancels and waits in one transaction can be told `cancelled` and roll that back
  (`InstanceStatus.OwnCancelMayVanish`). A terminal row that a session sees is final if and only
  if it is not its own unfinished write (`InstanceStatus.FinalUnlessOwn`).
- A session outside its guard owns no slot if and only if no unlock has failed in it
  (`LaunchSlots.OthersHoldNothing`). After a failed unlock it keeps the slot until it ends
  (`LaunchSlots.LeakedSlotIsKept`); the bound on launches holds even then.

## Model

| member | source | states |
|---|---|---|
| Lineage.Parse | src/node_status.rs:21-42 | the pair-by-pair loop accepts exactly the identifiers with a nonempty root and complete pairs that all parse, and returns their generations and nodes |
| Lineage.LineageRoundTrip | src/node_status.rs:20-58 | parsing a printed lineage over colon-free tokens gives back every generation and node |
| Lineage.ParentDropsLastSpawn | src/node_status.rs:60-67 | the parent of a printed lineage is the same lineage without its last pair, at that pair's generation |
| Lineage.StampRoundTrip | src/node_status.rs:70-76 | a printed execution stamp parses back to its scope and generation |
| Lineage.GenerationFits | src/node_status.rs:29-33 | a printed generation is read back exactly if it is a 64-bit integer |
| Text.SignedExactly | src/node_status.rs:29-33 | which strings are read as signed integers, and as which |
| Text.DigitsValueIs | src/node_status.rs:29-33 | the value of a decimal numeral |
| LineageParent.ParentExactly | src/node_status.rs:21-67 | on every accepted string with pairs, `parent` drops exactly the last pair if and only if the last node does not begin with a colon |
| LineageParent.ColonNodeHasNoParent | src/node_status.rs:60-67 | `a::1:::b` is accepted with the node `:b` and has no parent |
| LineageParent.ShortenedParses | src/node_status.rs:21-67 | what remains without the last pair is accepted and parses to the remaining pairs, for every accepted string |
| Lineage.SupersededIff | src/node_status.rs:150-162 | for every string, superseded exactly when some scope on the spawn lineage has a maximum above the generation the lineage names for it |
| Lineage.SupersededIffSomeScopeAdvanced | src/node_status.rs:150-162 | the same in terms of the spawns of a printed lineage |
| Lineage.AncestorOfComposed | src/node_status.rs:60-67 | the scopes met going up are exactly the prefixes of the lineage with their named generations |
| Lineage.SupersededPassesToDescendants | src/node_status.rs:136-162 | whatever a superseded generation spawned, at any depth, is superseded |
| Lineage.SupersededMonotone | src/node_status.rs:150-162 | higher recorded maxima never make a superseded stamp current |
| Lineage.RootScopeComparesGenerations | src/node_status.rs:136-162 | in the root scope it is the plain comparison, so a stamp holding the maximum is current |
| NodeStatus.ScopeMaxOf | src/node_status.rs:231-239 | the loop yields, for exactly the stamped scopes, the highest stamped generation |
| NodeStatus.ScopeMaxUnique | src/node_status.rs:231-239 | these maxima do not depend on the map's iteration order |
| NodeStatus.InferStatuses | src/node_status.rs:216-344 | on any graph, with cycles, shared children or dangling ids, the walk terminates with one entry per known node; a reachable node is judged by a real path, any other keeps its stored status |
| NodeStatus.Walk | src/node_status.rs:241-325 | the worklist visits exactly the nodes reachable from the root and judges each by its ancestors on some path |
| NodeStatus.ExtendIsContextOf | src/node_status.rs:299-319 | the carried pair of ancestors always is the nearest decider and the highest generation of the path walked |
| NodeStatus.NearestDeciderIs | src/node_status.rs:299-308 | the carried decider is the last terminal, current node of the path, if there is any |
| NodeStatus.HighestGenerationIs | src/node_status.rs:309-319 | the carried stamp is the highest of the path, the deepest on ties |
| NodeStatus.DerivedAncestorOnPath | src/node_status.rs:263-297 | a derived status names a proper ancestor on a real path from the root |
| NodeStatus.TreeStatusIsPathStatus | src/node_status.rs:241-325 | on a tree the walk equals the recursive path specification |
| NodeStatus.TreeSkipped | src/node_status.rs:263-289 | under a terminal current ancestor a node that did not itself run is skipped and names the nearest one |
| NodeStatus.TreeSuperseded | src/node_status.rs:263-275 | a superseded terminal node without such an ancestor is pending and names the highest-generation ancestor, the deepest on ties |
| NodeStatus.TreeKeeps | src/node_status.rs:275-289 | every other node keeps its terminal status, or is running or pending, and names none |
| NodeStatus.TreeInferenceUnique | src/node_status.rs:216-344 | on a tree the result does not depend on the order of the walk |
| StatusLaws.FinishedReadsAsStored | src/node_status.rs:263-289 | on a tree a node stored as completed or failed, with no stamp or one that no stamp has overtaken, reads as stored |
| StatusLaws.FinishedSkipsBelow | src/node_status.rs:263-308 | every unfinished or overtaken node below it, under no nearer finished one, is skipped by it |
| StatusLaws.SkippedOnlyByFinished | src/node_status.rs:263-308 | no node is skipped but by an ancestor stored as completed or failed and not overtaken |
| StatusLaws.OtherwiseRunningOrPending | src/node_status.rs:263-289 | under overtaken or unfinished nodes only, an unfinished node is running if stored so and else pending, and an overtaken finished one is pending |
| StatusLaws.OlderIsSuperseded | src/node_status.rs:131-162 | a stamp is superseded once a later generation of its scope, or of a scope it was spawned from, is stamped anywhere in the graph |
| StatusLaws.CurrentIsNotSuperseded | src/node_status.rs:131-162 | a stamp that no stamp in the graph has overtaken, in its scope or a scope it was spawned from, is current |
| StatusLaws.UnreachedReadsAsStored | src/node_status.rs:327-341 | a node no path reaches reads as stored, or pending if nothing is stored |
| StatusLaws.ChildrenAre | src/node_status.rs:169-211 | which links are children, by node type |
| StatusLaws.FailedRootSkips | src/node_status.rs:216-344 | a failed root reads failed and its child without a status is skipped by it |
| Submission.IdsKept | src/dsl.rs:1516-1606 | every step of every backend keeps: admission locks, local claims and reservations have one holder each, and a claimed or reserved id is nowhere else |
| Quota.CountCoversRetained | src/client.rs:185-273 | under the lock the counted ids cover everything the user retains, whatever others do between the two reads |
| Quota.OneAdmitting | src/dsl.rs:1068-1083 | of one user in one database at most one backend is past admission |
| Quota.QuotaKept | src/dsl.rs:1130-1171 | every step keeps both limits and what an admitted backend has learned about its count |
| Quota.QuotaBoundsEveryRun | src/dsl.rs:1130-1171 | in every run no limited user retains more than `max_instances_per_user` or has more active than `max_concurrent_per_user` |
| Ledger.HistoryKept | src/client.rs:341-381 | every step keeps ledger, engine, history of the queue and outcomes of starts in agreement |
| Ledger.LedgerIsQueueHistory | src/client.rs:341-453 | the ids ever enqueued are those in the ledger or reconciled away; before reconciliation the two are equal |
| Ledger.NeverEnqueuedTwice | src/client.rs:418-453 | no engine id is enqueued twice unless its ledger row was reconciled away |
| Ledger.CommitRepeatsIffReconciled | src/client.rs:418-453 | a start about to commit enqueues an id again if and only if its ledger row was reconciled away |
| Ledger.ReconciledIdIsEnqueuedAgain | src/client.rs:418-453 | a run in which an id is enqueued a second time |
| Ledger.FailedStartLeavesNothing | src/client.rs:341-393 | an ended start left an entry exactly when it returned an id or its commit went unacknowledged |
| Ledger.LostCommitLeavesEntry | src/client.rs:366-371 | a run from an empty database whose failed start left its ledger row and queue entry |
| Ledger.ReturnedIsStarted | src/dsl.rs:1516-1606 | a returned id is claimed by the caller, reserved for this start, and enqueued afresh |
| Ledger.EngineLoadBounded | src/dsl.rs:1130-1171 | while ledger rows of running instances are kept, the engine itself never runs more of a user's instances than the limit |
| Ledger.EngineLoadWithoutRows | src/client.rs:185-273 | a run with a limit of one whose user has two instances queued after the rows of the first were removed |
| Admission.CountDecides | src/dsl.rs:1139-1170 | counting refuses a start exactly if the local and ledger rows number at least the one limit, or those queued or live at least the other; it admits in every other state |
| Admission.ListReadsLocalRows | src/dsl.rs:1085-1128 | the rows counted are the user's committed rows of the database and the backend's own |
| Admission.CandidateDecides | src/dsl.rs:1529-1594 | a candidate is given up exactly if the ledger or the local table has it |
| Admission.UnhinderedStartReturns | src/dsl.rs:1363-1698 | from every state in which the user is at no limit, the lock free and the identifier unused, a start that meets nobody returns it |
| Admission.UnlimitedStartReturns | src/dsl.rs:1130-1135 | a superuser, or anybody without limits, is never refused, whatever is retained |
| Admission.SecondStartAfterEnd | src/client.rs:223-231 | a run in which, with one active instance allowed, a second start returns while the first is retained and has ended |
| StartFlow.OthersLeaveBackend | src/dsl.rs:1529-1606 | steps of other backends never move a backend or touch its transaction |
| StartFlow.PickId | src/dsl.rs:953-967 | a returned id is claimed; without faults it fails only after exactly ten collisions |
| StartFlow.TryClaim | src/dsl.rs:1536-1594 | one reservation attempt: claimed, or the ledger or the local table had the candidate, or a fault and the start has failed |
| StartFlow.EnforceLimits | src/dsl.rs:1130-1171 | passes only with room in both counts; without faults it rejects only a start that was counted at a limit, in the sense of `Admission.AtLimit` |
| StartFlow.StartInCallerTransaction | src/dsl.rs:1363-1698 | with arbitrary schedules of others between its calls: success means claimed, reserved and enqueued; failure left neither ledger nor queue entry, or was an unacknowledged commit; without faults it fails only before any attempt and counted at a limit, or after ten collisions |
| GraphProbe.ProbeTransaction | src/activities/load_function_graph.rs:504-728 | for every timing of the origin transaction: the verdict is true of it, and a pending answer needs an outcome not yet visible; a failed read alone decides the answer, which is another probe exactly for a deadline, a lost connection and fourteen transient server states; without one, and with the status available, a probe begun after visibility returns a verdict, which is `CommittedMissing` exactly if the graph was never written or is deleted; with the status unavailable and no row to see it is an error; within the transaction it is pending |
| GraphProbe.CommittedOutcome | src/activities/load_function_graph.rs:493-499 | after `committed`, absence is concluded only from a read begun after snapshot visibility |
| GraphProbe.VerdictsAreStable | src/activities/load_function_graph.rs:504-728 | `Ready`, `Aborted` and `CommittedMissing` stay true for ever; an aborted graph never appears |
| GraphProbe.MissingMayMeanDeleted | src/activities/load_function_graph.rs:640-715 | rows that were ready and then deleted are rightly reported as `CommittedMissing` |
| GraphProbe.ProbeRepeatedly | src/activities/load_function_graph.rs:501-728 | no later probe contradicts an earlier verdict, deletion of the rows aside |
| GraphProbe.CommittedIsNotYetVisible | src/activities/load_function_graph.rs:477-492 | trusting `committed` alone would call a graph missing that is about to appear |
| Attestation.LockedNamesStay | src/origin.rs:116-133 | through any schedule of DDL a share-locked name keeps its relation and attributes |
| Attestation.Connection.LockTable | src/origin.rs:55-60 | locks taken one after the other, with DDL in between, end up pinning every name at once |
| Attestation.Connection.LockAttested | src/origin.rs:120-133 | without faults it succeeds exactly when the relations locked are those attested before, still attested; so a replacement in place at lock grant always gives `REPLACED` |
| Attestation.Connection.LockAndValidate | src/origin.rs:171-197 | without faults it succeeds exactly when `_installation`, and for the graph scope `instances` and `nodes`, are each share-locked on the relation the first attestation read, attested then and now, and the expected installation id is there |
| Attestation.FenceHolds | src/origin.rs:116-178 | from then to the end of the transaction every name of the scope denotes that relation |
| Attestation.FencedStays | src/origin.rs:116-178 | through any schedule of DDL each fenced name keeps denoting its relation, locked and attested |
| LaunchSlots.AtMostLimit | src/dsl.rs:1192-1259 | in every interleaving at most `limit` sessions hold a slot, no two the same |
| LaunchSlots.OthersHoldNothing | src/dsl.rs:1233-1259 | a session that waits, timed out or failed owns no lock if and only if no unlock has failed in it |
| LaunchSlots.OwnsExactly | src/dsl.rs:1192-1259 | a session owns a slot if and only if it is past the guard with it or an unlock of it failed in the session |
| LaunchSlots.LeakedSlotIsKept | src/dsl.rs:1196-1203 | over every run, once an unlock has failed the session keeps the slot until it ends |
| LaunchSlots.DropFailsLeaks | src/dsl.rs:1196-1203 | an unlock that fails leaves the slot with the session |
| LaunchSlots.TakenWhileHeld | src/dsl.rs:1196-1203 | a slot is taken exactly while some session is past its guard with it, or lasts after an unlock of it failed |
| LaunchSlots.OthersStepKeepsMine | src/dsl.rs:1205-1231 | nothing another session does gives or takes a lock of mine |
| LaunchSlots.TryLockAnswers | src/dsl.rs:1205-1231 | a slot nobody has is granted, one of another session refused, an own one granted once more |
| LaunchSlots.LoneSessionGetsSlot | src/dsl.rs:1233-1259 | when no slot is taken a launch gets the first at its first try |
| LaunchSlots.Server.TryLockSlot | src/dsl.rs:1206-1228 | one lock call: granted, refused because another session has the slot, or an error |
| LaunchSlots.Server.TryAcquire | src/dsl.rs:1205-1231 | a round ends with one slot held, or every slot refused and none added, or an error and none added, also in a session with failed unlocks |
| LaunchSlots.Server.Acquire | src/dsl.rs:1233-1259 | the session has the returned slot locked once more than before and no other lock changes; after a timeout or an error none does; a timeout means that every slot of every round was found in the hands of another session |
| LaunchSlots.Server.DropGuard | src/dsl.rs:1196-1203 | the session has the slot locked once less, and free again if no unlock of it failed before; or this unlock fails and no lock changes |
| InstanceStatus.TerminalIsPermanent | src/activities/update_instance_status.rs:33-54 | over every run the first committed terminal row never changes again |
| InstanceStatus.EndedNeverChanges | src/activities/update_instance_status.rs:33-54 | over every run a committed completed, failed or cancelled row never changes |
| InstanceStatus.OpenRowCanChange | src/activities/update_instance_status.rs:33-54 | a pending or running row takes every status |
| InstanceStatus.CompletedAtIff | src/activities/update_instance_status.rs:36-54 | for every reader `completed_at` is set exactly on a completed row |
| InstanceStatus.RemovedStaysRemoved | src/activities/update_instance_status.rs:33-54 | no status write brings a removed row back |
| InstanceStatus.WaitersAgree | src/dsl.rs:1827-1864 | two waiters, however far apart, see the same terminal row, the first one's own unfinished write aside |
| InstanceStatus.FinalUnlessOwn | src/dsl.rs:1827-1864 | a terminal row a session sees is what everybody will see as terminal for ever if and only if it is not its own unfinished write |
| InstanceStatus.OwnWriteMayVanish | src/dsl.rs:1723-1735 | from every state in which a session sees its own unfinished terminal write, some run commits another terminal status |
| InstanceStatus.OwnCancelMayVanish | src/dsl.rs:1699-1740 | a run in which a session is told `cancelled` by its own transaction and the instance ends otherwise |
| InstanceStatus.TimeoutHonoured | src/dsl.rs:1824 | ten looks a second for the whole timeout exactly up to 214,748,364 seconds |
| InstanceStatus.Instance.Execute | src/activities/update_instance_status.rs:14-70 | a completed, failed, cancelled or missing row is left alone; a pending or running one has the new status, update time and completion time, or, after a fault only, possibly stays |
| InstanceStatus.Instance.Cancel | src/dsl.rs:1703-1740 | a pending or running row becomes cancelled in the caller's transaction unless something failed; a completed, failed or cancelled one stays |
| InstanceStatus.Instance.Await | src/dsl.rs:1805-1865 | it answers with the first completed, failed or cancelled status a look finds; every look before, and every look of a timeout, which are as many as the timeout allows, found the row pending or running |
| Cursor.Decode | src/monitoring.rs:62-88 | the decoding loop computes the decoding of the whole token or rejects it |
| Cursor.DecodeEncode | src/monitoring.rs:36-88 | a token decodes to what it was made from if and only if both parts are nonempty, the timestamp has no separator and the token fits the cap |
| Cursor.EncodeDecode | src/monitoring.rs:50-88 | every accepted token re-encodes to its own lower-case form |
| Cursor.AcceptedExactly | src/monitoring.rs:62-88 | a token is accepted as this timestamp and id exactly if it is their encoding, letters in either case, within 512 digits |
| Cursor.TokenIs | src/monitoring.rs:36-53 | a token is `76317c`, the timestamp, `7c` and the id in hexadecimal |
| Listing.ListPage | src/monitoring.rs:471-633 | a page is the first `limit` rows after its cursor; a next cursor exists exactly when a further row does, and is the last row's |
| Listing.WalkAscends | src/monitoring.rs:411-633 | the rows fetched by a walk are strictly increasing in (created_at DESC, id ASC) whatever happens to the table between pages |
| Listing.ShownAscends | src/monitoring.rs:604-633 | so are the rows the client is shown |
| Listing.ShownRowsMatch | src/monitoring.rs:480-535 | every row shown has the requested status and label and was known to the engine when its page was taken; newer rows come first, rows of one instant by id |
| Listing.MatchingExactly | src/monitoring.rs:480-500 | which rows the filters let through |
| Listing.WalkHasNoDuplicates | src/monitoring.rs:411-633 | no position of the order is shown twice; an instance is shown twice only if its creation time was set back |
| Listing.MovedRowIsShownTwice | src/monitoring.rs:411-633 | a walk that shows an instance twice because its creation time was set back between two pages |
| Listing.StableRowIsReached | src/monitoring.rs:501-519 | a row matching throughout has been returned or sorts after the last cursor |
| Listing.StableRowShownOnce | src/monitoring.rs:411-633 | in a finished walk a row present and known throughout is shown exactly once, except that a lost walk does not show it if and only if it sorts after the last row fetched |
| Listing.WalkIsSortedTable | src/monitoring.rs:411-633 | on an unchanged table a finished walk fetches exactly the sorted filtered list if and only if it is not lost |
| Listing.WalkShowsSortedTable | src/monitoring.rs:604-633 | on an unchanged table the client is shown exactly the sorted filtered list if and only if every lookup found its row |
| Listing.KnownWalkIsNotLost | src/monitoring.rs:594-633 | if every matching instance is known when a page is taken, no walk is lost, whatever else happens to the table |
| Listing.KnownWalkShowsSortedTable | src/monitoring.rs:411-633 | on an unchanged table whose matching instances are all known the pages as shown concatenate to the sorted filtered list |
| Listing.LostIffDarkBlock | src/monitoring.rs:597-601 | with table and engine unchanged, a finished walk is lost if and only if some full run of the listing with a row behind it is wholly unknown |
| Listing.SteadyWalkShowsListing | src/monitoring.rs:597-633 | with table and engine unchanged, a finished walk shows the whole listing if and only if every matching instance is known |
| Listing.ListingUnique | src/monitoring.rs:527-533 | the sorted filtered list is determined by the table |
| Listing.WalkTerminates | src/monitoring.rs:561-574 | on an unchanged table the number of pages is bounded by the number of rows |
| Listing.LostWalkDropsRows | src/monitoring.rs:597-601 | the documented limitation: a page nothing of which is shown ends the walk early |
| EndpointCatalog.ParseOptions | src/endpoints.rs:220-231 | the loop accepts the option list or rejects it as its specification does |
| EndpointCatalog.ParsedOptionsHold | src/endpoints.rs:220-231 | the parsed map has exactly the written names, each once, with the written values |
| EndpointCatalog.SecretsAreWritten | src/endpoints.rs:617-630 | the named secrets are exactly the options written `secret.<key>=<value>` |
| EndpointLaws.ParsesExactly | src/endpoints.rs:220-231 | options parse exactly if each has an equals sign and no name before it occurs twice |
| EndpointLaws.ConfigExactly | src/endpoints.rs:241-325 | which server options are acceptable, and which URL and scheme they say |
| EndpointLaws.ServerExactly | src/endpoints.rs:560-599 | a server is found exactly if it exists, uses the wrapper, USAGE is held and the options are acceptable; the first that fails is the error |
| EndpointLaws.MappingExactly | src/endpoints.rs:327-359 | which user mapping options are acceptable |
| EndpointLaws.EndpointExactly | src/endpoints.rs:406-431 | with a scheme other than none the endpoint has the server's URL and, in the place the scheme says, the mapping's credential of that scheme; or which error |
| EndpointLaws.PlainEndpointExactly | src/endpoints.rs:632-645 | with the scheme none the URL alone decides |
| EndpointLaws.SecretsExactly | src/endpoints.rs:617-682 | named secrets are the written ones of an acceptable, visible mapping; or which error |
| EndpointCatalog.Catalog.Connection | src/endpoints.rs:467-558 | the first success takes one permit and freezes a snapshot; it fails only on a fault, and then gives the permit back |
| EndpointCatalog.Catalog.LoadServer | src/endpoints.rs:560-599 | without a fault the answer, cached or not, equals a direct lookup in the frozen snapshot |
| EndpointCatalog.Catalog.LoadMapping | src/endpoints.rs:601-615 | without a fault the mapping, cached or not, equals a direct lookup in the frozen snapshot |
| EndpointCatalog.Catalog.ResolveNamedSecrets | src/endpoints.rs:617-630 | without a fault the secrets equal those of a direct lookup in the frozen snapshot |
| EndpointCatalog.Catalog.ResolveEndpoint | src/endpoints.rs:632-645 | without a fault the endpoint equals that of a direct lookup in the frozen snapshot |
| EndpointCatalog.Catalog.Close | src/endpoints.rs:647-656 | connection and permit are given back |
| EndpointCatalog.AskAll | src/endpoints.rs:439-657 | any questions in any order, with any commits in between: without faults all are answered, all answers come from one snapshot, and nothing is kept open |
| Secrets.ValidateBindings | src/secrets.rs:70-94 | accepts exactly bindings with sound references, plain field names, and header names distinct in any case |
| Secrets.Validate | src/secrets.rs:132-187 | accepts exactly sound bindings whose form mode fits the request and whose names do not collide |
| Secrets.Request.ValidateDestinations | src/secrets.rs:189-233 | accepts exactly when no bound name meets an ordinary header, the credential or a query parameter |
| Secrets.DecodeEncode | src/secrets.rs:302-306 | percent-decoding undoes percent-encoding on every byte string |
| Secrets.LossyKeepsUtf8 | src/secrets.rs:225-231 | the lossy decoding of valid UTF-8 loses nothing |
| Secrets.ParsedAppend | src/secrets.rs:307-311 | any two queries joined by an ampersand parse to their pairs in order |
| Secrets.ParsedSerialized | src/secrets.rs:302-320 | decoding what the serializer wrote gives back the pairs in order |
| Secrets.InsertOrdered | src/secrets.rs:313-315 | inserting a field keeps the map ordered and is the map update |
| Secrets.EveryHeaderArrives | src/secrets.rs:285-300 | of validated bindings every header arrives with its own secret and no other does |
| SecretsLaws.HeaderHoldsSecret | src/secrets.rs:268-300 | each resolved header is its prefix followed by the secret stored under the server and key |
| SecretsLaws.BoundIsStored | src/secrets.rs:269-283 | references resolve exactly if the server's secrets have the key, and to what is stored there |
| SecretsLaws.ByteIsWritten | src/secrets.rs:302-306 | letters, digits and four marks stay, a space is a plus sign, all else is upper-case hexadecimal |
| SecretsLaws.PairsAreWritten | src/secrets.rs:302-320 | names and values with equals signs between, pairs with ampersands |
| SecretsLaws.PlusIsRead | src/secrets.rs:225-231 | a plus sign is read as a space |
| SecretsLaws.PercentIsRead | src/secrets.rs:225-231 | a percent sign with two hexadecimal digits of either case is read as their byte |
| SecretsLaws.StrayPercentIsRead | src/secrets.rs:225-231 | any other percent sign is read as itself |
| SecretsLaws.BindingsExactly | src/secrets.rs:40-94 | which bindings are acceptable, down to the characters of names, keys and prefixes |
| SecretsLaws.FormExactly | src/secrets.rs:132-187 | which requests a form fits |
| SecretsLaws.FormBodySent | src/secrets.rs:124-130 | a form body is sent exactly with form fields, even none, or form bindings |
| SecretsLaws.DestinationsExactly | src/secrets.rs:189-233 | which destinations are free, Host included |
| SecretsLaws.LossyIsUtf8 | src/secrets.rs:225-231 | reading gives text whatever was sent, and changes exactly what is not text |
| Secrets.Request.BindQuery | src/secrets.rs:301-312 | the final query decodes to the original pairs followed by the bound ones, or nothing was written |
| Secrets.Request.Materialize | src/secrets.rs:264-325 | succeeds exactly when every reference resolves; query, headers and form body decode to what was bound |
| Secrets.BoundNamesOnce | src/secrets.rs:189-233 | with checked destinations every bound name is in the final query exactly once |
| Secrets.FormDecodes | src/secrets.rs:132-187 | the form body of checked options decodes to exactly the ordinary fields and the bound secrets, each name once |
| Secrets.Resolve | src/secrets.rs:235-262 | check then materialize: succeeds exactly when the destinations are free and every reference resolves; then the promises hold together, and no bound header replaces an ordinary or endpoint one |
| Base64.DecodeEncode | src/activities/http_response.rs:133-138 | decoding undoes encoding on every byte string |
| Base64.EncodeDecode | src/activities/execute_multipart.rs:42-53 | only canonical encodings are accepted |
| Base64.DecodesExactly | src/activities/execute_multipart.rs:42-53 | a part decodes to these bytes exactly when, whitespace aside, it is their encoding |
| Base64.WrappedRoundTrip | src/activities/execute_multipart.rs:31-53 | base64 wrapped at any width decodes to the bytes |
| Base64.TestVectors | src/activities/http_response.rs:133-138 | the vectors of section 10 of RFC 4648 |
| Base64.SymbolsAre | src/activities/http_response.rs:133-138 | the standard alphabet |
| Base64.StripOne | src/activities/execute_multipart.rs:42-53 | which characters are white space, and that nothing else is taken out |
| HttpBody.InlinedIsLossless | src/activities/http_response.rs:178-183 | an undeclared body is inline text exactly if it is valid UTF-8 without NUL, and then itself; else it is base64 that the multipart decoder turns back into it |
| HttpBody.InlinedIsInjective | src/activities/http_response.rs:178-183 | different bodies have different inline forms |
| HttpBody.ReadBody | src/activities/http_response.rs:411-477 | for every split into chunks: succeeds exactly when the total fits the limit, and count, digest and content are those of the whole body; 64-bit arithmetic never wraps |
| HttpBody.ErrorPreview | src/activities/http_response.rs:140-166 | the excerpt is valid UTF-8, the longest that ends on a character within 512 bytes, and loses at most three of them; its note says the full length and its unit |
| Bytes.ScalarIsChar | src/activities/http_response.rs:148-151 | the encoding of every scalar value is one character |
| Bytes.CharIsScalar | src/activities/http_response.rs:178-183 | and every character accepted as UTF-8 is one of these |
| HttpBody.BuildMultipart | src/activities/execute_multipart.rs:55-102 | succeeds exactly when all parts decode and their sum and the built length fit the limit; parts keep order and bytes |
| EngineIds.FromEngineIdExactly | src/origin.rs:246-276 | for every local id and suffix the origin comes back exactly when the part before the first suffix is eight hexadecimal digits, and is an identity error otherwise |
| EngineIds.RoundTrip | src/origin.rs:246-276 | the origin survives under any child suffix |
| EngineIds.EngineIdInjective | src/origin.rs:246-252 | different origins or local ids never share an engine id |
| EngineIds.BareIdHasNoOrigin | src/origin.rs:254-258 | a bare local id, with or without a child suffix, has no origin |
| EngineIds.NamesAreUnique | src/origin.rs:282-284 | across the control database and all satellites a name belongs to one workflow |
| EngineIds.EngineIdIs | src/origin.rs:246-252 | an engine id character by character |
| EngineIds.FieldsDecide | src/origin.rs:254-276 | for any three fields after the prefix and any child suffix: which origin, or which error |
| EngineIds.ForeignIdHasNoOrigin | src/origin.rs:254-258 | what does not begin with the prefix has no origin |
| EngineIds.LocalIdIs | src/origin.rs:260-265 | a local id is eight hexadecimal digits of either case |
| Text.UnsignedExactly | src/origin.rs:266-268 | which strings are read as unsigned integers, and as which |
| NodeInsert.NodeInsertSql | src/dsl.rs:969-1017 | row r has the placeholders r × width + 1 onwards, with the role cast on exactly the role columns |
| NodeInsert.PlaceholderOnce | src/dsl.rs:969-1017 | placeholder k stands in row (k-1) div width and column (k-1) mod width and nowhere else, for 1 to rows × width |
| NodeInsert.FlatAt | src/dsl.rs:1423-1456 | the bound argument of row r and column c is that node's value for that column |
| NodeInsert.RowHolds | src/dsl.rs:1423-1456 | the row of a node column by column, left and right included |
| NodeInsert.StatementStoresBatch | src/dsl.rs:1423-1459 | each statement is within 65,535 parameters, its casts meet roles, and it stores the batch row by row |
| NodeInsert.Table.InsertNodes | src/dsl.rs:1412-1473 | unless a statement fails, the batches together add exactly the nodes' rows, in order |
| Explain.CollectSequence | src/explain.rs:484-510 | the recursion appends the non-THEN frontier left to right |
| Explain.BuildTree | src/explain.rs:380-481 | the mutual recursion appends the drawing its specification gives |
| Explain.RenderChildren | src/explain.rs:513-641 | the branches of a node in order, each with heading, indentation and last-branch connector |
| Explain.NodeIsDrawn | src/explain.rs:395-477 | a node's own line, its connector and the indentation of its branches |
| Explain.ChainIsDrawn | src/explain.rs:419-464 | a chain of two, the second after an arrow |
| Explain.LoopIsDrawn | src/explain.rs:521-553 | body and condition of a loop, each under its heading |
| Explain.IfIsDrawn | src/explain.rs:557-601 | condition, then and else of a conditional, each under its heading |
| Explain.BranchesAreDrawn | src/explain.rs:602-635 | two branches side by side, numbered from one, the second drawn as the last |
| Explain.DrawingIgnoresAssociation | src/explain.rs:425-481 | the drawing depends on THEN nodes only through the frontier of each drawn position |
| Explain.RotationKeepsSequence | src/explain.rs:484-510 | re-associating a chain leaves every frontier unchanged |
| Explain.RotationKeepsDrawing | src/explain.rs:380-641 | re-associating a chain anywhere leaves every drawing unchanged |
| Explain.RotationStaysAcyclic | src/explain.rs:484-510 | re-associating a chain makes no cycle |
| Explain.DrawnIsPreorder | src/explain.rs:380-641 | the lines show the non-THEN nodes in preorder |
| Explain.TreeDrawnOnce | src/explain.rs:380-641 | on a tree every reachable non-THEN node is drawn exactly once, and nothing else |
| Explain.RankedIffNoCycle | src/explain.rs:380-641 | the ranking the drawing is proved with exists if and only if no way from the root along drawn children comes to a node twice |
| Explain.DrawingIgnoresRank | src/explain.rs:380-641 | the drawing does not depend on the ranking |
| DrawnStatus.SameChildren | src/explain.rs:513-641 | the drawing and the inference enumerate the same children of a node in the same order |
| DrawnStatus.ReachIsReachable | src/explain.rs:380-641 | the drawing's recursion and the inference's walk reach the same nodes |
| DrawnStatus.DrawnIffInferred | src/explain.rs:95-130 | on every graph that can be drawn the nodes drawn are exactly the non-THEN nodes judged by a path |
| DrawnStatus.DrawnTreeIsTree | src/node_status.rs:241-325 | where children reach disjoint sets every node has one path, so the tree results of inference and drawing meet |

## Left out

- The durable engine, database drivers, SPI, HTTP client, TLS, DNS and URL parser are calls with nondeterministic outcomes; the URL library's re-encoding of an already encoded query is taken to be the identity.
- SQL text, grants and row-level security; statements are modelled by what they read and write.
- Savepoints, schema renames and direct user writes to the tables: rows change only through the modelled functions.
- The worker, graph execution and reconciliation (src/worker.rs, src/orchestrations/execute_function_graph.rs): reconciliation only removes rows, engine progress is queued, live, terminal.
- Wall-clock time: a deadline is a nondeterministic outcome, or a number of rounds.
- JSON: the condition node, extra nodes and execution id of a node stand for the configuration they are read from; the two parsers of a LOOP's condition are taken to agree.
- Status glyphs and display texts in the drawing; a line is its prefix, its connector and its node.
- Explain.BuildTree: a cycle that the drawing from the root meets is excluded, because there the original recursion does not end (`Explain.RankedIffNoCycle` has the exact condition); cycles elsewhere are not.
- The order in which hash maps are iterated: loops over them pick any remaining key.
- Attestation.Connection.Attest: compares relation identities only; the original also compares extension, schema and owner, which can only refuse more.
- Attestation.LockedNamesStay: DDL is assumed to change the attributes of a relation that the attestation reads only under an exclusive lock on it; extension membership and schema ownership can change under locks that do not conflict with the shared table lock, and such changes are not modelled.
- EndpointCatalog.Catalog.LoadServer: the USAGE privilege is taken from the same snapshot as the row; PostgreSQL answers it from its current catalog.
- EndpointCatalog: header names, header values, base URLs and query strings are checked by library predicates that stay parameters.
- Secrets.Resolve: the named secrets of the servers are an argument; `EndpointCatalog` proves where they come from.
- HttpBody.ReadBody: the digest, the declared character set and the content-type test are parameters.
- GraphProbe.ProbeTransaction: the shape of the loaded graph is not interpreted; permanent load errors are errors of the read.
- StartFlow.StartInCallerTransaction: the checks of the target database, LOGIN and superuser privileges before admission, and the content of nodes and variables (`NodeInsert` has the inserts), are not part of the run; superusers are a parameter.
- EndpointCatalog.Catalog.Close: an error while closing the connection is not told apart; everything is given back either way.
- Submission: the global instance table is taken to be one table per database; ids of different databases never meet.
- InstanceStatus.Instance.Await: a query runs in its own READ COMMITTED snapshot; a caller at a higher isolation level sees one snapshot until the timeout.
- Listing: the text of timestamps is their instant, and identifiers are their rank in the collation order.
- Superseded-stamp display text, `df.status`, `df.result`, signals, variables, SSRF ranges and redaction would add only single-branch members.
