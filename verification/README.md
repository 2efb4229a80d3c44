# A model of the fossil core in Dafny

The repository is a durable knowledge store: events and artifacts are written once, projections are
rebuilt from them, and agents coordinate through an append-only issue log. This project models the parts
whose correctness is hard to see from the code and proves what they promise, for all inputs, all runs
and all interleavings. `dafny verify dfyconfig.toml` checks everything.

Code that mutates state is written as classes and methods with loops, each proved against a function or
a predicate; what the code promises is then proved about that function, or about every run of the state
machine built from it. Pure code is written as functions and lemmas.

| module | what it models |
|---|---|
| `Basics`, `Ordering` | shared types; code-point order of strings, tuple order, Python's stable `sorted` |
| `Graphs`, `ImportCycles` | reachability, and Tarjan's search over the import graph |
| `PackGraph`, `PacksetLock` | dependency resolution, layering and cycles of packs; building and validating a lock |
| `ClaimLedger`, `WorkOrders`, `BrokerRuns`, `RivalBrokers` | the lease lock read off a comment log, generations and authorisation, runs of many brokers, and how two of them collide |
| `TaskQueue` | the fold that decides which queued tasks are executable |
| `Publish`, `EventStore`, `StoreAdapters` | racing publications of one file; the write-once store with tombstones; its filesystem and S3 versions |
| `ArtifactStore`, `ArtifactRaces` | the content-addressed store, with any hash; its puts and redactions interleaved call by call |
| `Projection`, `Projector`, `Bookkeeping`, `ProjectorRuns` | the graph adapter with its ledger, the worker that drives it, what a lost answer does to the two, and runs with failures, redactions, races and restarts |
| `Lifecycle`, `Migration` | replay of claims and relations, as-of cutoffs, semantic snapshots and projection switches |
| `ChatGraph` | completeness of a captured conversation graph |
| `Lineage`, `Provenance` | shortest lineage paths, and which of them is taken; byte spans and the provenance checks of a conversation |
| `Reranker` | the lifecycle reranker, over exact reals |

## How the outside is modelled

- sha256 is a function-valued parameter with no assumption about collisions; where a lock is validated its digests
  are 64 hexadecimal characters. Canonical JSON is a codec with a left inverse. Timestamps are compared as the code
  compares them: as strings in the event store and the switch ledger, as integers (minutes) where the code parses them.
- A queue comment arrives parsed. In the ledgers it is its releases, its renewals, its optional claim and its
  work-order, done and cancel marks, handled in the code's order; in the task queue it is its first lifecycle directive.
- Each broker reads its own clock, which may be off true time by a fixed skew, any number. Two readings by one broker
  are related by nothing else.
- A projection cycle lists the tombstones, purges them one by one, reads the events and projects them one by one. The
  store may change, and the worker may stop, between any two of these steps, and between a client call and the ledger
  write after it.
- Network calls, clocks and clients appear as nondeterministic steps, or as a function from the number of a
  call to its answer.
- A raised exception is an `Err`, a `None`, a `Fail` or a `false`. Where the code's error names something,
  the model proves that the named thing is really wrong.
- Shapes that a JSON schema fixes are built into the datatypes.

## Where the code does less than it says

- A redaction of an event that stops between tombstone and delete is never finished: the retry finds the
  tombstone and returns before the delete (`EventStore.RetryNeverErases`, and `EventStore.ErasedIff` for the exact
  condition). The artifact store's retry does finish (`ArtifactStore.RetryFinishes`, `ArtifactRaces.RetryCanFinish`).
- A put of an artifact that checked the tombstone before it was there can publish the bytes after a redaction has erased
  them (`ArtifactRaces.ErasedComesBack`); `ArtifactRaces.ComesBackIff` says exactly when. A put that stops between blob
  and manifest leaves bytes that a redaction answers with not-found (`ArtifactRaces.StoppedPutLeavesBytes`).
- While an event is tombstoned but its bytes remain, a purge can record it ahead of earlier events that could
  not be projected yet, so the recorded store events need not form a prefix (`ProjectorRuns.HalfRedactedBreaksPrefix`).
  `ProjectorRuns.EveryCycleClosesIff` says exactly when no undisturbed next cycle can break the prefix.
- `rebuild_async` says that redacted events cannot resurrect. That holds for completed redactions only:
  a fresh rebuild makes an event live exactly if its bytes are still there and the policy shows it
  (`Projector.RebuildLive`).
- An episode added without a UUID cannot be removed. Once its event is tombstoned every cycle fails before the scan, and
  nothing is projected any more until a rebuild (`Projection.StuckRemovalStops`).
- A redaction that lands after a projection cycle has listed the tombstones does not stop that cycle: an event can be
  erased for good and then projected from the copy the worker read (`ProjectorRuns.ErasedYetProjected`).
  `ProjectorRuns.ResurrectsIff` says exactly when; a later failure-free cycle removes the episode
  (`ProjectorRuns.CycleConverges`).
- If the worker stops between adding an episode and recording it, or never gets the answer, the event may be added
  again, and the first episode stays in the graph even after the event is redacted (`ProjectorRuns.LostEpisodeStays`,
  and `ProjectorRuns.LostAdditionOutlivesRedaction` for a run). A removal whose answer is lost leaves a record without an
  episode until it is retried (`ProjectorRuns.LostRemovalBreaks`).
  `ProjectorRuns.RunMirrorsIff` says exactly when graph and ledger agree.
- Reconciliation is meant to keep a cancelled or superseded order from being published, but it reads the log before the
  push and the pull request: a cancellation that lands in between changes nothing (`RivalBrokers.CancelledYetPublished`,
  and `BrokerRuns.FencedAtPublicationIff` for the exact condition). A fence that is there before reconciliation does
  stop it, for good (`BrokerRuns.NoPublishAfterFence`).
- The reranker separates current from past documents exactly for lexical weights up to 1.25
  (`Reranker.SeparatesIff`); its constructor accepts any nonnegative weight.
- A projection switch whose timestamp is not past the recorded ones is written but does not become active
  (`Migration.BecomesActiveIff`, `Migration.OlderSwitch`).
- Recording a switch reads the active slot and writes afterwards, so two switchers can both leave from one slot
  (`Migration.RaceBreaksChain`). For writes in key order `Migration.RaceChainsIff` says exactly when the chain of
  switches is unbroken, for writes in any order `Migration.RaceChainsThroughoutIff`.
- `span_for_text` accepts an empty needle, but the span it returns never resolves (`Provenance.EmptyNeedle`).
- A claim that lapsed and is renewed later comes back in front of the claim that won meanwhile, so two agents can
  hold live claims on one task (`RivalBrokers.TwoLiveClaims`); `RivalBrokers.BothCanLiveIff` says exactly when that can
  still happen, and `ClaimLedger.WinStability` exactly when a win is displaced. Without renewals
  `BrokerRuns.MutualExclusion` holds, and in runs of this broker alone, which never renews, `BrokerRuns.BrokersExclude`.
- The lease does not keep two brokers from publishing one task: a lease can lapse between reconciliation and push
  (`RivalBrokers.TwoPublishOneTask`). `BrokerRuns.ClearedAreSeparated` says what must lie between the two readings.

## Constants and tables

Literal data of the code is stated literally by small lemmas beside the results that use it: the types a path may take
(`Lineage.PathRelationsAre`), event type names (`Migration.EventTypeIs`), cue words and adjustments (`Reranker.IntentIff`,
`Reranker.AdjustmentIs`), artifact identities (`ArtifactStore.ArtifactIdIs`), the receipt's rules
(`ChatGraph.TerminalSuccessIff`, `ChatGraph.CrossChecksIff`) and what a read answers (`EventStore.GetIff`,
`ArtifactStore.ReadIff`).

## Model

| member | source | states |
|---|---|---|
| Ordering.SortSorts | src/fossil_core/projection/migration.py:26-27 | `sorted` returns an ordered list for every total preorder |
| Ordering.SortPermutes | src/fossil_core/projection/migration.py:26-27 | `sorted` keeps every element with its multiplicity |
| Ordering.SortIsStable | src/fossil_core/projection/migration.py:26-27 | `sorted` leaves elements that compare equal in the order in which they came |
| Ordering.StringLeIff | src/fossil_core/projection/migration.py:26-27 | strings are ordered as Python orders them: a prefix first, otherwise by the first differing character |
| Graphs.OnCycleIff | scripts/check_architecture_boundaries.py:170-172 | a node lies on a cycle iff its component has a second member or it has a self loop: the test that decides what is reported |
| ImportCycles.Edges | scripts/check_architecture_boundaries.py:121-129 | the import graph has exactly the known modules as nodes and the imports between known modules as edges |
| ImportCycles.ComponentFinder.Visit | scripts/check_architecture_boundaries.py:144-172 | one call keeps the search invariant, numbers the node, leaves the older stack alone and bounds the lowlink; recursion ends on the unvisited nodes |
| ImportCycles.ComponentFinder.PopDownTo | scripts/check_architecture_boundaries.py:162-168 | the popping loop takes off exactly the stack from the node up, each entry once |
| ImportCycles.SegmentIsComponent | scripts/check_architecture_boundaries.py:159-168 | when lowlink equals index, the stack from the node up is exactly its strongly connected component |
| ImportCycles.ReportsGrow | scripts/check_architecture_boundaries.py:170-172 | reporting one popped component keeps the report equal to the cyclic components of all popped nodes, each once |
| ImportCycles.ComponentFinder.SearchAll | scripts/check_architecture_boundaries.py:174-176 | after the driver loop the report holds exactly the cyclic components of the whole graph |
| ImportCycles.NoneIffAcyclic | scripts/check_architecture_boundaries.py:132-178 | there is nothing to report iff the graph is acyclic |
| ImportCycles.StronglyConnectedComponents | scripts/check_architecture_boundaries.py:132-178 | the result lists exactly the components of size over one and the self-looped singletons, each once, sorted; it is empty iff the graph is acyclic |
| PackGraph.DependenciesByTarget | src/fossil_core/domain/packset.py:40-49 | fails iff some target repeats, naming a repeated one; otherwise keys are the targets and values their dependencies |
| PackGraph.CheckTargetSound | src/fossil_core/domain/packset.py:86-104 | one dependency passes iff it is mounted when required and its layer is allowed; a failure names a broken law, stated by kind |
| PackGraph.CheckTargetIff | src/fossil_core/domain/packset.py:86-104 | between mounted packs the layer check passes iff one kind is not standard, or a domain pack depends on a common one, or a project pack on a common or domain one; a missing target fails iff it is required |
| PackGraph.LawfulEdges | src/fossil_core/domain/packset.py:13-104 | in every catalog that passes, each resolved edge between standard kinds points strictly upstream, names are the mounted ones and required targets are mounted |
| PackGraph.BackEdgeIsCycle | src/fossil_core/domain/packset.py:114-120 | a dependency on a grey pack closes a walk from that pack back to itself along the stack |
| PackGraph.CycleSearch.IndexOf | src/fossil_core/domain/packset.py:115-118 | looking up a grey pack on the stack always succeeds, so the fallback index is unreachable |
| PackGraph.CycleSearch.Visit | src/fossil_core/domain/packset.py:110-126 | a found cycle is a cycle of the graph; otherwise the pack is finished, the stack restored and nothing finished is lost |
| PackGraph.CycleSearch.SearchAll | src/fossil_core/domain/packset.py:128-129 | the search finds a real cycle, or the graph is acyclic |
| PackGraph.ExplainedBreaksLaw | src/fossil_core/domain/packset.py:66-129 | whatever an error names refutes the dependency law |
| PackGraph.ValidatePackDependencyGraph | src/fossil_core/domain/packset.py:66-129 | passes iff identities match, no dependency repeats, required targets are mounted, layers are allowed and the resolved graph is acyclic; an error names a violation |
| PacksetLock.ResolvedDependencies | src/fossil_core/domain/packset.py:52-63 | the resolved dependencies are listed in target order and are the mounted targets |
| PacksetLock.ResolvedExact | src/fossil_core/domain/packset.py:52-63 | a dependency is resolved iff the manifest declares it, flag included, and its target is mounted |
| PacksetLock.BuildPacksetLock | src/fossil_core/domain/packset.py:132-182 | builds iff the manifests are mountable under the dependency law with exact nonblank revisions; the lock is the canonical one |
| PacksetLock.BuiltRoundTrip | src/fossil_core/domain/packset.py:132-182 | the built lock lists the mounted packs in order, and its revisions are the ones it was built from |
| PacksetLock.BuiltRecordIs | src/fossil_core/domain/packset.py:158-182 | each record of a built lock has its pack's revision, the algorithm "sha256", the digest of its manifest and exactly its mounted dependencies |
| PacksetLock.CheckRecordShape | src/fossil_core/domain/packset.py:203-250 | accepts iff identity, revision, digest and a strictly sorted list of well-formed dependencies are in order |
| PacksetLock.PackIdOkIff | src/fossil_core/domain/packset.py:14 | a pack id is "pack_" and at least sixteen ASCII letters, digits, underscores or hyphens |
| PacksetLock.Hex64Iff | src/fossil_core/domain/packset.py:15 | a digest is 64 lower-case hexadecimal digits |
| PacksetLock.NonBlankIff | src/fossil_core/domain/packset.py:213-214 | a revision is refused as blank iff it has nothing but white space in it |
| PacksetLock.SortedFormIff | src/fossil_core/domain/packset.py:249-250 | for distinct names, being equal to the sorted form means strictly ascending |
| PacksetLock.PackRevisionsFromLock | src/fossil_core/domain/packset.py:253-267 | accepts iff the lock has a legal shape with distinct sorted pack ids, and returns each pack's revision |
| PacksetLock.RevisionsLookup | src/fossil_core/domain/packset.py:253-267 | for distinct pack ids every record finds its own revision in the result |
| PacksetLock.AcceptedIsBuilt | src/fossil_core/domain/packset.py:270-323 | a lock that passes every check is the lock that the builder makes of its own packs and revisions |
| PacksetLock.BuiltIsAccepted | src/fossil_core/domain/packset.py:132-182 | a built lock validates against every catalog that contains its manifests |
| PacksetLock.ValidatePacksetLock | src/fossil_core/domain/packset.py:270-323 | for every catalog, a lock validates iff its pack ids are well formed and it equals the lock built from the catalog restricted to those ids and its own revisions |
| ClaimLedger.WinnerIs | src/fossil_core/trusted_local_runner.py:124-130 | the claim recorded for a task is its earliest candidate that is neither released nor lapsed |
| ClaimLedger.WinnerIff | src/fossil_core/trusted_local_runner.py:124-130 | field by field: the winner is the first claim on the task that is not released and whose lease is past the time of reading |
| ClaimLedger.ExtensionEffect | src/fossil_core/trusted_local_runner.py:99-123 | in any longer log, claims keep their place, task and agent; new releases and changed leases trace back to directives of that agent in the extension |
| ClaimLedger.ReleaseEffect | src/fossil_core/trusted_local_runner.py:101-106 | a release closes exactly the newest open claim of that agent on that task, and changes nothing if there is none |
| ClaimLedger.RenewEffect | src/fossil_core/trusted_local_runner.py:107-118 | a renewal gives exactly that claim the new lease, and changes nothing if there is none or the deadline does not parse |
| ClaimLedger.CommentActsInOrder | src/fossil_core/trusted_local_runner.py:99-123 | a comment acts as its releases in order, then its renewals in order, then its claim, one comment each |
| ClaimLedger.ReleasedForGood | src/fossil_core/trusted_local_runner.py:99-130 | after a comment that releases a task as often as the agent has open claims on it, no claim the agent had on it is live in any longer log at any time |
| ClaimLedger.ClaimWinsIff | src/fossil_core/trusted_local_runner.py:119-130 | a new claim wins the log that ends with it iff its lease is ahead and no earlier claim on the task is live |
| ClaimLedger.WinStability | src/fossil_core/trusted_local_runner.py:90-130 | a later reading shows the same winner iff its agent did not release it, its lease has not passed and no earlier lapsed claim was revived |
| ClaimLedger.TwoWinnersAreSeparated | src/fossil_core/trusted_local_runner.py:90-130 | two agents that both win one task are separated by a release, a lapse or a revival |
| ClaimLedger.FoldOneComment | src/fossil_core/trusted_local_runner.py:99-123 | the nested loops over one comment apply its releases, then its renewals, then its claim, each to the newest open candidate |
| ClaimLedger.ParseClaimLedger | src/fossil_core/trusted_local_runner.py:90-130 | the parsed dictionary holds the winner of every task that has one and nothing else |
| WorkOrders.LatestIsGreatest | src/fossil_core/trusted_local_broker.py:105-121 | the latest generation of a task is the greatest that any trusted comment mentions for it |
| WorkOrders.FencedAttempts | src/fossil_core/trusted_local_broker.py:106-123 | the terminal and cancelled sets are exactly the attempts that the log closes |
| WorkOrders.NextGenerationExceeds | src/fossil_core/trusted_local_broker.py:170-198 | a new work order's generation exceeds every generation in the log it was made from |
| WorkOrders.NextGenerationIs | src/fossil_core/trusted_local_broker.py:170-174 | it is 0 if the log mentions no generation of the task and otherwise one more than one that is mentioned |
| WorkOrders.ParseBrokerLedger | src/fossil_core/trusted_local_broker.py:96-124 | the parsed ledger is the claims and fences of the trusted comments |
| WorkOrders.GrantedIff | src/fossil_core/trusted_local_runner.py:197-231 | authorisation is granted iff the order fits the policy, its deadline is ahead, the agent holds the task's earliest live claim, nothing fences the attempt and its access class is cleared |
| WorkOrders.GrantedLaneIs | src/fossil_core/trusted_local_runner.py:197-231 | a granted order gets the secretless lane iff its access class is CLOUD_SECRETLESS, the privileged one otherwise |
| WorkOrders.RefusedIff | src/fossil_core/trusted_local_runner.py:197-231 | an order is refused iff one of the named checks fails, and the code is that of the first one in the order of the checks |
| WorkOrders.FencedIff | src/fossil_core/trusted_local_broker.py:96-124 | a log fences an order iff some trusted comment in it closes or cancels that attempt or names a later generation of its task |
| WorkOrders.FenceStays | src/fossil_core/trusted_local_broker.py:96-124 | a fenced work order is fenced in every longer log |
| WorkOrders.FencedForever | src/fossil_core/trusted_local_runner.py:197-231 | once the log closes the attempt or names a later generation, no longer log, clock or policy authorises it |
| BrokerRuns.RunIsHonest | scripts/run_trusted_local_broker.py:117-146 | in every run, a broker past the win check really won the log prefix it re-read |
| BrokerRuns.PostsAre | scripts/run_trusted_local_broker.py:89-187 | the only comments a broker posts are its claim with a lease of 120 minutes, its order, the order's completion and the release of its task |
| BrokerRuns.RunChoosesFree | scripts/run_trusted_local_broker.py:126-137 | in every run, a broker claims only a task that it saw nobody hold |
| BrokerRuns.RunWorksHonestly | scripts/run_trusted_local_broker.py:147-187 | in every run, the order a broker works on is for its task, secretless, due within 60 minutes and of a generation beyond every one in the log it won by; it is posted before it is used, and its completion before the release |
| BrokerRuns.ReleasedWasClosed | scripts/run_trusted_local_broker.py:89-114 | in every run, a broker has fenced its own order off when it releases the task |
| BrokerRuns.HoldersAreSeparated | scripts/run_trusted_local_broker.py:138-146 | in every run, two brokers that hold one task won on either side of a release, a lapse or a revival |
| BrokerRuns.BothLiveMeansRenewed | src/fossil_core/trusted_local_runner.py:109-118 | each broker reading its own clock within a skew, two holders' claims live by every clock at once imply that the earlier one had lapsed when the later won and was renewed since |
| BrokerRuns.MutualExclusion | scripts/run_trusted_local_broker.py:138-146 | with no renewal since both read the log, no two agents hold claims on one task that are live by every clock |
| RivalBrokers.BothCanLiveIff | src/fossil_core/trusted_local_runner.py:99-123 | the claims of two holders of one task can both come to be live at one moment iff neither has been released |
| RivalBrokers.TwoLiveClaims | src/fossil_core/trusted_local_runner.py:109-118 | a run from an empty queue in which two agents hold live claims on one task |
| BrokerRuns.HeldUntilLapse | scripts/run_trusted_local_broker.py:89-114 | in runs of brokers alone, a holder that has not released keeps its claim by every clock exactly until its lease passes on the fastest one |
| BrokerRuns.BrokersExclude | scripts/run_trusted_local_broker.py:117-187 | in runs of brokers alone, from any log and with clocks any skew apart, two holders of one task never both have time left on their leases by every clock |
| BrokerRuns.ClearedByRead | src/fossil_core/trusted_local_broker.py:458-483 | in every run, a broker that pushes or opens a pull request was granted its order by one reconciliation, which went by the whole log as it stood at that step |
| BrokerRuns.PublishedWasCleared | src/fossil_core/trusted_local_broker.py:521-545 | in every run, a published order was unfenced, unexpired and its task held by the broker in the log that its reconciliation read, by the clock it used |
| BrokerRuns.FencedAtPublicationIff | src/fossil_core/trusted_local_broker.py:402-455 | when a broker pushes or opens the pull request, its order is fenced iff a fencing trusted comment landed after its reconciling read |
| BrokerRuns.CancelledTooLate | src/fossil_core/trusted_local_broker.py:536-545 | every run that reaches a reconciliation goes on to one where a cancellation lands next and the order is still pushed and its pull request opened |
| RivalBrokers.CancelledYetPublished | src/fossil_core/trusted_local_broker.py:536-545 | such a run exists from an empty queue |
| BrokerRuns.ClearedAreSeparated | src/fossil_core/trusted_local_broker.py:458-483 | two brokers cleared to publish one task took their reconciling readings on either side of a release, a lapse or a revival |
| RivalBrokers.TwoPublishOneTask | src/fossil_core/trusted_local_broker.py:536-545 | a run from an empty queue in which a lease lapses between reconciliation and push and both brokers open a pull request for the task |
| BrokerRuns.NoPublishAfterFence | src/fossil_core/trusted_local_broker.py:458-483 | once the log fences an order that no broker has reconciled yet, no broker reconciles or publishes it at any later moment |
| TaskQueue.ActiveReadyLocalTasks | src/fossil_core/trusted_local_queue.py:27-80 | the result lists the tasks whose last deciding comment made them ready, in the order of those comments |
| TaskQueue.ListedIff | src/fossil_core/trusted_local_queue.py:37-42 | a task is listed iff some comment made it ready and no later trusted comment decides it |
| TaskQueue.ListedOnce | src/fossil_core/trusted_local_queue.py:58-62 | no task is listed twice |
| TaskQueue.DirectiveEffect | src/fossil_core/trusted_local_queue.py:37-80 | a trusted cancel, done, blocked or unready task comment drops the task, a ready one moves it to the end, anything else changes nothing |
| Publish.StepKeepsInv | src/fossil_core/adapters/filesystem/io.py:21-51 | every file-system call of every writer keeps: whole data before the link, at most one winner, a visible file never changes |
| Publish.VisibleForever | src/fossil_core/adapters/filesystem/io.py:37-41 | once bytes are visible they stay, through every interleaving |
| Publish.VisibleIsComplete | src/fossil_core/adapters/filesystem/io.py:28-41 | visible bytes are one writer's whole data, and that writer alone won |
| Publish.ReturnedIsVisible | src/fossil_core/adapters/filesystem/event_store.py:128-139 | a commit that returned did so with its own content, which is visible at every later moment |
| Publish.ConflictIff | src/fossil_core/adapters/filesystem/event_store.py:131-139 | a finished commit conflicts iff its content differs from the visible one |
| Publish.FinishesAlone | src/fossil_core/adapters/filesystem/io.py:21-51 | wherever other writers have stopped, one that goes on alone ends within six calls; it returns iff nothing or its own content was visible, and is in conflict otherwise |
| EventStore.RunEvolves | src/fossil_core/adapters/filesystem/event_store.py:116-200 | over any operations a stored value never changes, a tombstone never changes and a completely redacted identity never returns |
| EventStore.RunDisjoint | src/fossil_core/adapters/filesystem/event_store.py:146-200 | with whole operations no identity has both its bytes and a tombstone |
| EventStore.CommitIff | src/fossil_core/adapters/filesystem/event_store.py:116-139 | a commit is refused iff the identity has a tombstone, in conflict iff it has none and another event is stored, accepted otherwise; only an accepted one writes, and it writes that event |
| EventStore.FreshCommitIsFound | src/fossil_core/adapters/filesystem/event_store.py:116-144 | an identity with neither bytes nor tombstone can be committed and is found by the next read |
| EventStore.ReplayAccepted | src/fossil_core/adapters/filesystem/event_store.py:131-139 | after any operations, committing an accepted event again is accepted unless its identity has a tombstone |
| EventStore.RedactIff | src/fossil_core/adapters/filesystem/event_store.py:146-200 | a first redaction succeeds iff its request is complete and the event is there; it erases the bytes and leaves a tombstone with the event's description, digest and request |
| EventStore.RepeatedRedactionIff | src/fossil_core/adapters/filesystem/event_store.py:161-173 | after any operations, repeating a redaction succeeds iff all four request fields are the same, with the same tombstone |
| EventStore.AcceptedIsFound | src/fossil_core/adapters/filesystem/event_store.py:116-144 | an accepted commit is what every later read finds until that identity is redacted |
| EventStore.RedactedStaysRedacted | src/fossil_core/adapters/filesystem/event_store.py:123-144 | after a redaction every later commit and read of the identity is refused |
| EventStore.ErasedIff | src/fossil_core/adapters/filesystem/event_store.py:161-200 | a redaction that reports success has erased the bytes iff it did not find a tombstone beside them |
| EventStore.RetryNeverErases | src/fossil_core/adapters/filesystem/event_store.py:161-173 | after a crash between tombstone and delete, every retry reports success and the bytes stay |
| EventStore.KeysInjective | src/fossil_core/adapters/s3/storage.py:377-385 | distinct event ids have distinct event keys and distinct tombstone keys, in both layouts |
| EventStore.KeysApart | src/fossil_core/adapters/filesystem/event_store.py:56-63 | no event key is a tombstone key, in both layouts |
| EventStore.KeysAre | src/fossil_core/adapters/s3/storage.py:377-385 | the file names and object keys of an event and of its tombstone, in both layouts |
| EventStore.ValidIdIff | src/fossil_core/adapters/s3/storage.py:377-385 | an event id is "evt_" and at least sixteen ASCII letters, digits, underscores or hyphens |
| StoreAdapters.FilesystemStore.Commit | src/fossil_core/adapters/filesystem/event_store.py:116-139 | result and files after a commit are the abstract machine's |
| StoreAdapters.FilesystemStore.Get | src/fossil_core/adapters/filesystem/event_store.py:141-144 | a read returns what the abstract machine returns |
| StoreAdapters.FilesystemStore.Redact | src/fossil_core/adapters/filesystem/event_store.py:146-200 | result and files after a redaction are the abstract machine's |
| StoreAdapters.S3Backend.PutImmutable | src/fossil_core/adapters/s3/storage.py:118-141 | creates, replays or conflicts exactly by whether the key is free, holds the same bytes or holds others (section 13.1.2 of RFC 9110) |
| StoreAdapters.S3Store.Commit | src/fossil_core/adapters/s3/storage.py:431-450 | result and objects after a commit are the abstract machine's |
| StoreAdapters.S3Store.Get | src/fossil_core/adapters/s3/storage.py:452-455 | a read returns what the abstract machine returns |
| StoreAdapters.S3Store.Redact | src/fossil_core/adapters/s3/storage.py:457-509 | result and objects after a redaction are the abstract machine's |
| StoreAdapters.RunBoth | src/fossil_core/adapters/s3/storage.py:343-509 | driven by the same operations, both stores return the same results, those of the abstract machine |
| ArtifactStore.RunIsSound | src/fossil_core/adapters/filesystem/artifact_store.py:59-161 | every run keeps blobs under their own digest, manifests under their own id with true sizes, and a blob for every manifest not redacted |
| ArtifactStore.RunHolds | src/fossil_core/adapters/filesystem/artifact_store.py:59-161 | over any operations an id keeps its bytes until a redaction of that very id |
| ArtifactStore.PutIff | src/fossil_core/adapters/filesystem/artifact_store.py:59-88 | a put is refused iff its identity has a tombstone, succeeds iff neither other bytes nor another manifest are in the way, and fails its integrity check otherwise |
| ArtifactStore.PutWrites | src/fossil_core/adapters/filesystem/artifact_store.py:70-88 | a put writes bytes and manifest if it succeeds, the bytes alone if only the manifest is in the way, and never a tombstone |
| ArtifactStore.VerifyIff | src/fossil_core/adapters/filesystem/artifact_store.py:104-120 | an artifact verifies iff it can be read and its bytes have the digest and the size of its manifest |
| ArtifactStore.RedactIff | src/fossil_core/adapters/filesystem/artifact_store.py:122-161 | what a redaction answers, how it marks the identity, and that it erases the bytes unless it is stopped |
| ArtifactStore.PutAgain | src/fossil_core/adapters/filesystem/artifact_store.py:59-88 | after any operations, putting stored bytes again is accepted with the same manifest unless the identity has a tombstone |
| ArtifactStore.StoredReadsBack | src/fossil_core/adapters/filesystem/artifact_store.py:59-120 | after a successful put the id reads back exactly those bytes and verifies, until a redaction of that id, with no collision-freedom assumed |
| ArtifactStore.RetryFinishes | src/fossil_core/adapters/filesystem/artifact_store.py:122-161 | with operations one after another, whatever follows an interrupted redaction, retrying it with the same request succeeds and no later operations bring the bytes back |
| ArtifactStore.ErasedForGood | src/fossil_core/adapters/filesystem/artifact_store.py:59-161 | with operations one after another, nothing brings the bytes of a completed redaction back |
| ArtifactRaces.UndisturbedPut | src/fossil_core/adapters/filesystem/artifact_store.py:59-88 | the three calls of a put, when nothing comes in between, do what the store function says |
| ArtifactRaces.UndisturbedRedaction | src/fossil_core/adapters/filesystem/artifact_store.py:122-161 | the two calls of a redaction, when nothing comes in between, do what the store function says |
| ArtifactRaces.RaceIsSound | src/fossil_core/adapters/filesystem/artifact_store.py:59-161 | in every interleaving, stops included, digests and identities fit and an artifact without a tombstone has its bytes in full |
| ArtifactRaces.ReturnedReadsBack | src/fossil_core/adapters/filesystem/artifact_store.py:59-120 | in every interleaving, what a put returned for reads back exactly at every later moment until its identity has a tombstone |
| ArtifactRaces.ComesBackIff | src/fossil_core/adapters/filesystem/artifact_store.py:67-80 | erased bytes can come back iff a put of them is past its tombstone check and has not published its blob |
| ArtifactRaces.RetryCanFinish | src/fossil_core/adapters/filesystem/artifact_store.py:122-161 | whatever interleaves with an interrupted redaction, its request is accepted again and can erase at once |
| ArtifactRaces.ErasedComesBack | src/fossil_core/adapters/filesystem/artifact_store.py:67-80 | for every hash and all bytes, a run in which a second put publishes the bytes that a completed redaction erased |
| ArtifactRaces.UnlistedWasStopped | src/fossil_core/adapters/filesystem/artifact_store.py:78-88 | in every interleaving, bytes without a manifest belong to a put that is, or was stopped, between blob and manifest |
| ArtifactRaces.StoppedPutLeavesBytes | src/fossil_core/adapters/filesystem/artifact_store.py:78-88 | such a stop leaves stored bytes that a redaction answers with not-found |
| ArtifactStore.Artifacts.Put | src/fossil_core/adapters/filesystem/artifact_store.py:59-88 | with nothing in between, the tombstone check, the two publications and their comparisons do what the store function says |
| ArtifactStore.Artifacts.Redact | src/fossil_core/adapters/s3/storage.py:307-340 | tombstone first, blob second, with a crash possible between; same as the store function |
| Projection.CycleMirrors | src/fossil_core/projection/graphiti.py:75-272 | every cycle, whatever fails and whatever the policy hides, keeps live episodes equal to applied minus redacted, one each |
| Projection.PurgeEffect | src/fossil_core/projection/graphiti.py:300-321 | a purge adds redaction records of tombstoned events only; without a failure it covers all tombstones; with nothing to do it makes no call |
| Projection.RemovalEffect | src/fossil_core/projection/graphiti.py:168-272 | a removal is skipped iff it is recorded, fails iff the event was applied without a UUID or the client fails, and otherwise records the redaction and takes the episode out |
| Projection.PurgeSettles | src/fossil_core/projection/graphiti.py:300-321 | a purge goes on after a failure: each tombstoned event is recorded unless its own removal failed, its receipt says which, and its episode is gone when it is recorded |
| Projection.StuckRemovalStops | src/fossil_core/runtime/projector.py:69-80 | a tombstoned event that was applied without a UUID fails every cycle before its scan: nothing is projected any more |
| Projection.AppliesIff | src/fossil_core/projection/graphiti.py:75-166 | an event is applied iff it is neither recorded nor hidden and the client succeeds; then its episode and record are the only change |
| Projection.HiddenEvent | src/fossil_core/projection/graphiti.py:88-109 | a hidden event is never applied: it is recorded as redacted, and an episode it had is removed, or the removal fails |
| Projection.CycleHidden | src/fossil_core/runtime/projector.py:69-99 | whatever fails, no cycle applies an event that the policy hides or brings it to life |
| Projection.ScanSettles | src/fossil_core/runtime/projector.py:81-99 | after a scan without a failure every new event is applied iff the policy shows it and recorded as redacted iff it hides it |
| Projection.ScanOrder | src/fossil_core/runtime/projector.py:81 | events are scanned by timestamp, and by identity among equal timestamps |
| Projection.ScanEffect | src/fossil_core/runtime/projector.py:81-99 | a scan records exactly a prefix of the ordered events on top of what was recorded, and it failed iff the prefix is not all |
| Projection.ScanKeeps | src/fossil_core/runtime/projector.py:81-99 | a scan forgets nothing, applies no redacted event and redacts nothing when there is no policy |
| Projection.ScanQuiet | src/fossil_core/runtime/projector.py:86-92 | a scan of recorded events changes nothing and makes no client call |
| Projector.Worker.RemoveEvent | src/fossil_core/projection/graphiti.py:168-272 | the method's new state and status are those of the removal function: skipped, marked, refused without a UUID, failed or removed |
| Projector.Worker.ApplyEvent | src/fossil_core/projection/graphiti.py:75-166 | the method's new state and status are those of the application function, hidden events included |
| Projector.Worker.PurgeEventRedactions | src/fossil_core/projection/graphiti.py:300-321 | the loop over tombstones, which goes on after a failure, equals the purge function |
| Projector.Worker.RunOnce | src/fossil_core/runtime/projector.py:69-99 | the worker's cycle, stopping at the first failure, equals the cycle function, and counts the events it scanned |
| Projector.Worker.Rebuild | src/fossil_core/projection/graphiti.py:323-340 | the rebuild loop equals the replay function over the canonically ordered events |
| Projector.Worker.PurgeRedacted | src/fossil_core/projection/graphiti.py:275-298 | the loop over the ordered events equals the purge of the applied events that are hidden now |
| Projector.HiddenArePurged | src/fossil_core/projection/graphiti.py:275-298 | without failures that purge takes exactly the hidden events out of the graph and leaves the others alone |
| Projector.PolicyTakesHold | src/fossil_core/projection/graphiti.py:275-298 | after it and a failure-free cycle an event of the store is live iff the policy shows it, it has no tombstone and it was never taken out before |
| Projector.ReplayHidden | src/fossil_core/projection/graphiti.py:323-340 | whatever fails, no rebuild applies an event that the policy hides or brings it to life |
| Projector.ReplayMirrors | src/fossil_core/projection/graphiti.py:323-340 | a rebuild keeps live episodes equal to applied minus redacted, whatever fails |
| Projector.RebuildLive | src/fossil_core/projection/graphiti.py:323-340 | under any policy, a fresh rebuild without failures makes an event live iff its bytes are in the store and the policy shows it |
| Bookkeeping.MirrorsSplit | src/fossil_core/projection/graphiti.py:110-166 | live episodes equal applied minus redacted iff every episode belongs to one unredacted record, no two to the same, and none that a record names is missing |
| ProjectorRuns.RunMirrors | src/fossil_core/projection/graphiti.py:75-272 | while no answer is lost, whatever fails, races or stops, live episodes equal applied minus redacted at every moment |
| ProjectorRuns.RunMirrorsIff | src/fossil_core/projection/graphiti.py:75-272 | at every moment of every run, live episodes equal applied minus redacted, one each, iff no step lost the answer to an addition and every removal whose answer a step lost has been recorded since |
| ProjectorRuns.HiddenNeverLive | src/fossil_core/projection/graphiti.py:88-109 | in every run whose scans all hide an event, with the store and the worker changing in any way, the event is never live |
| ProjectorRuns.LostEpisodeStays | src/fossil_core/projection/graphiti.py:113-165 | an episode whose addition took effect without being recorded is in the graph at every later moment, whatever is purged or redacted |
| ProjectorRuns.LostAdditionOutlivesRedaction | src/fossil_core/projection/graphiti.py:113-165 | a run in which the answer to an addition is lost, the event is erased and its redaction recorded, and its episode is live all the same |
| ProjectorRuns.LostRemovalBreaks | src/fossil_core/projection/graphiti.py:233-262 | a run in which the answer to a removal is lost and the ledger counts an event as live that has no episode |
| ProjectorRuns.RunAccounted | src/fossil_core/runtime/projector.py:69-99 | at every moment of every run the ledger names committed events only, and what the worker has in hand is sorted, distinct and stored or tombstoned |
| ProjectorRuns.RunPrefix | src/fossil_core/runtime/projector.py:81-99 | with commits in canonical order, at every moment a recorded event without a tombstone has every earlier store event recorded, for any failures, crashes and changes of the store during a cycle |
| ProjectorRuns.RunClosed | src/fossil_core/runtime/projector.py:81-99 | with no redaction half done, the recorded store events are a prefix of the canonical order at every moment |
| ProjectorRuns.UndisturbedCycle | src/fossil_core/runtime/projector.py:69-99 | the worker's single steps, when nothing comes in between, compute the cycle function and leave the store alone |
| ProjectorRuns.EveryCycleClosesIff | src/fossil_core/runtime/projector.py:69-99 | every undisturbed next cycle leaves a prefix iff what is recorded or tombstoned now is one |
| ProjectorRuns.HalfRedactedBreaksPrefix | src/fossil_core/projection/graphiti.py:300-321 | a run of two commits, half a redaction and a cycle without a client leaves the second event recorded and the first not |
| ProjectorRuns.ResurrectsIff | src/fossil_core/projection/graphiti.py:300-321 | some continuation makes a tombstoned, dead event live again iff the cycle under way can still reach it: it was read, or will be, by a cycle that listed the tombstones without it |
| ProjectorRuns.TombstonedStaysDead | src/fossil_core/runtime/projector.py:69-99 | once tombstoned, not live and out of reach of the cycle under way, an event is not live at any later moment, whatever changes during the cycles |
| ProjectorRuns.ErasedYetProjected | src/fossil_core/runtime/projector.py:81-99 | a run in which an event is redacted to the end between the worker's read and its scan, and is projected all the same |
| ProjectorRuns.CycleConverges | src/fossil_core/runtime/projector.py:69-99 | unless an added episode was lost, an undisturbed failure-free cycle without a policy leaves exactly one episode per event without a tombstone, and a further cycle changes nothing |
| Lifecycle.ReplayConsistent | src/fossil_core/domain/lifecycle.py:48-115 | after any successful replay every current state is the last entry of its history |
| Lifecycle.ClaimProposedEffect | src/fossil_core/domain/lifecycle.py:60-65 | a proposed claim starts at proposed with that history; it is refused iff it has no subject or is known already |
| Lifecycle.ClaimChangedEffect | src/fossil_core/domain/lifecycle.py:67-69 | a state change writes the given state and appends it to the history, nothing else; it succeeds iff the claim is known, the state is a known one and the expected state, if any, is the current one |
| Lifecycle.ClaimSupersededEffect | src/fossil_core/domain/lifecycle.py:70-74 | a supersession writes superseded under the same condition and leaves the relations alone |
| Lifecycle.RelationProposedEffect | src/fossil_core/domain/lifecycle.py:76-95 | a proposed relation is stored as given, last in order; it is refused iff it is known or its type or state is not |
| Lifecycle.RelationChangedEffect | src/fossil_core/domain/lifecycle.py:97-105 | a relation change writes the given state and appends it to the history, nothing else, under the same kind of condition |
| Lifecycle.RelationSupersededEffect | src/fossil_core/domain/lifecycle.py:97-105 | a relation supersession writes replaced |
| Lifecycle.LastDecides | src/fossil_core/domain/lifecycle.py:48-115 | after a replay a claim is known iff some event decides it, and its state is that of the last one, or stale if another claim was superseded since |
| Lifecycle.LastDecidesRelation | src/fossil_core/domain/lifecycle.py:48-115 | after a replay a relation is known iff some event decides it, its state is that of the last one and everything else is as proposed |
| Lifecycle.PrefixReplays | src/fossil_core/domain/lifecycle.py:48-53 | if a replay succeeds so does every prefix, and its histories are prefixes of the later ones |
| Lifecycle.SortAsOf | src/fossil_core/application/rebuild/pack_corpus.py:25-33 | filtering by cutoff before the stable sort gives the same list as filtering after it |
| Lifecycle.EventsForPack | src/fossil_core/application/rebuild/pack_corpus.py:19-33 | the loader returns the sorted events of all roots up to the cutoff |
| Lifecycle.LoadedIff | src/fossil_core/application/rebuild/pack_corpus.py:19-33 | an event is loaded iff some root holds it and it was recorded no later than the cutoff, if there is one |
| Lifecycle.ReplayOrder | src/fossil_core/application/rebuild/pack_corpus.py:19-33 | the loaded events are ordered by timestamp, and by identity among equal timestamps |
| Lifecycle.CutoffsReplay | src/fossil_core/application/rebuild/pack_corpus.py:36-79 | if the full replay succeeds it succeeds at every cutoff, and histories at an earlier cutoff are prefixes of those at a later one |
| Lifecycle.MarkStaleEffect | src/fossil_core/domain/lifecycle.py:117-125 | a claim gets one stale entry per active dependence on the premise unless it is terminal, and is untouched without one |
| Lifecycle.MarkStaleOrderFree | src/fossil_core/domain/lifecycle.py:117-125 | states and histories are the same for any iteration order of the relations, several from one claim included |
| Lifecycle.SupersededStep | src/fossil_core/domain/lifecycle.py:71-74 | the subject is superseded, every dependent is stale or terminal, and no other claim or relation changes |
| Lifecycle.KnowledgeState.ChangeClaimInPlace | src/fossil_core/domain/lifecycle.py:107-115 | the dictionaries change as the function says, or not at all when the expectation fails |
| Lifecycle.KnowledgeState.MarkDependentsStale | src/fossil_core/domain/lifecycle.py:117-125 | the loop over the relations equals the marking in insertion order |
| Lifecycle.KnowledgeState.ApplyEvent | src/fossil_core/domain/lifecycle.py:55-105 | one event changes the state as the function says, raises exactly when it does and keeps the state consistent |
| Lifecycle.KnowledgeState.ReplayEvents | src/fossil_core/domain/lifecycle.py:48-53 | the in-place replay succeeds iff the functional one does, with the same state |
| Migration.FromEvents | src/fossil_core/projection/migration.py:51-112 | the snapshot describes the ordered replay and its final state, dictionary by dictionary; it fails iff the replay does |
| Migration.DescriptionUnique | src/fossil_core/projection/migration.py:51-112 | that description fixes the snapshot |
| Migration.ProvenanceCounts | src/fossil_core/projection/migration.py:51-112 | the provenance of a snapshot has one entry for every event |
| Migration.PackIdsAre | src/fossil_core/projection/migration.py:51-112 | the identities of a pack are those of its events in replay order |
| Migration.SnapshotIgnoresOrder | src/fossil_core/projection/migration.py:51-112 | for distinct event ids the snapshot does not depend on the order of the input |
| Migration.PassedIff | src/fossil_core/projection/migration.py:129-170 | a comparison passes iff the snapshots are equal and every benchmark passed |
| Migration.MismatchesAre | src/fossil_core/projection/migration.py:129-170 | the mismatches name exactly the seven fields in which the snapshots differ |
| Migration.SwitchLedger.RecordSwitch | src/fossil_core/projection/migration.py:188-224 | a switch is recorded iff the report passed, is about the target and leaves from the active slot; nothing else changes |
| Migration.AdmitsIff | src/fossil_core/projection/migration.py:188-224 | what recording requires, field by field: no mismatch, all benchmarks passed, the report about the target, the switch leaving the active slot and a new key |
| Migration.ActiveIsLatest | src/fossil_core/projection/migration.py:226-235 | the active slot is the target of the record with the latest timestamp, by identity among equal ones; there is none iff nothing is recorded |
| Migration.SwitchLedger.CompareAndSwitch | src/fossil_core/projection/migration.py:257-291 | a recorded switch means equal snapshots and passed benchmarks |
| Migration.SwitchesChain | src/fossil_core/projection/migration.py:188-235 | with strictly increasing timestamps and one switcher after another, whatever is attempted, the switches form an unbroken chain ending at the active slot |
| Migration.RaceChainsIff | src/fossil_core/projection/migration.py:200-224 | of switchers whose checks and writes interleave, writing in key order, the records form an unbroken chain iff no switch was written after others overtook it and left another slot active |
| Migration.RaceChainsThroughoutIff | src/fossil_core/projection/migration.py:200-231 | in whatever key order switchers write, the sorted records form an unbroken chain at every moment iff each switch was written between neighbours that it fits |
| Migration.RaceBreaksChain | src/fossil_core/projection/migration.py:200-224 | two switchers that both check before either writes both leave from the same slot |
| Migration.BecomesActiveIff | src/fossil_core/projection/migration.py:226-235 | a recorded switch becomes active iff its key is past every recorded key or it targets the active slot anyway |
| Migration.OlderSwitch | src/fossil_core/projection/migration.py:208-235 | a switch checked against the whole ledger and written with an older timestamp is recorded, does not become active and breaks the chain |
| ChatGraph.RepeatIsEndless | src/fossil_core/application/ingest/shared_chat_capture.py:241-267 | meeting a node again makes the walk up periodic, so it never ends |
| ChatGraph.BoundNotReached | src/fossil_core/application/ingest/shared_chat_capture.py:255-263 | an unvisited known node leaves room below the bound, so the step-bound branch is unreachable |
| ChatGraph.WalkUp | src/fossil_core/application/ingest/shared_chat_capture.py:241-267 | the walk reports iff it never ends; what it reports lies on a parent cycle, and is the start if the start does |
| ChatGraph.CheckLinks | src/fossil_core/application/ingest/shared_chat_capture.py:192-236 | the references reported for a node are exactly its broken parent and child links |
| ChatGraph.RootedIff | src/fossil_core/application/ingest/shared_chat_capture.py:238-267 | with agreeing links a node has a root above it iff the walk up from it ends |
| ChatGraph.GraphUnresolvedRefs | src/fossil_core/application/ingest/shared_chat_capture.py:189-267 | the references are exactly the broken links and the nodes on parent cycles; there are none iff the nodes form a rooted forest with agreeing links |
| ChatGraph.ActiveBranch | src/fossil_core/application/ingest/shared_chat_capture.py:270-321 | the branch is the path of parents that ends at the current node and starts at the top unless it meets a cycle; what is reported is a cycle or a lost current node |
| ChatGraph.BuildReceipt | src/fossil_core/application/ingest/shared_chat_capture.py:324-409 | every built receipt passes the cross-field checks; it is complete iff the graph is a nonempty rooted forest with messages, a known current node and a finished continuation; its unresolved list is exact, and empty iff the graph is a rooted forest whose current node, if any, is known |
| ChatGraph.DerivedPasses | src/fossil_core/application/ingest/shared_chat_capture.py:57-143 | the facts a receipt is derived from imply every cross-field check |
| Lineage.BuildAdjacency | src/fossil_core/conversation.py:390-397 | the adjacency list of a node holds the targets of its allowed edges, one by one in edge-id order |
| Lineage.NextIsLeast | src/fossil_core/conversation.py:401-409 | a path to an unvisited neighbour of the node at the head of the queue, through the head, comes first in edge order among all walks of its length |
| Lineage.PoppedIsShortest | src/fossil_core/conversation.py:401-404 | when the end is taken off the queue no walk to it is shorter |
| Lineage.ExhaustedUnreachable | src/fossil_core/conversation.py:401-410 | when the queue runs empty the end cannot be reached |
| Lineage.Path | src/fossil_core/conversation.py:383-410 | a nonempty result is a shortest path over the allowed relations and, where it parts from any other shortest one, takes the edge with the smaller identity; an empty result means there is none; an unknown start that is its own end raises |
| Lineage.TakesFirstOnce | src/fossil_core/conversation.py:387-410 | with distinct edge identities only one path meets that: the answer does not depend on the order of the edges |
| Provenance.SpanForText | src/fossil_core/conversation.py:81-111 | the located span is where the last of that many disjoint occurrences can be found earliest; not found iff there are not that many |
| Provenance.LocatedResolves | src/fossil_core/conversation.py:113-140 | a located span resolves to the needle's own bytes iff the needle is not empty |
| Provenance.SliceIff | src/fossil_core/conversation.py:113-140 | a span resolves iff it is nonempty and inside the source, to exactly the bytes between its ends |
| Provenance.EmptyNeedle | src/fossil_core/conversation.py:81-111 | an empty needle is located at the start of every source and its span resolves nowhere |
| Provenance.ValidateProvenance | src/fossil_core/conversation.py:150-227 | an envelope is accepted iff ids and sequences are distinct, sources verify, spans resolve and are not upgraded, messages are grounded and the declared status fits |
| Provenance.VerbatimIsTraced | src/fossil_core/conversation.py:205-214 | a verbatim message of an accepted envelope is byte for byte the join of verbatim spans cut out of verbatim sources |
| Provenance.VerbatimGroundedIff | src/fossil_core/conversation.py:196-214 | a verbatim message is grounded iff its parent comes earlier, all its spans are verbatim and its text is the join of their decoded texts |
| Provenance.ParentsComeFirst | src/fossil_core/conversation.py:183-194 | the ordered messages of an accepted envelope list every parent before its child |
| Reranker.Rerank | src/fossil_core/real_retrieval.py:229-264 | fails iff the weight is negative or the limit not positive; otherwise returns the first entries, up to the limit, of the sorted scored candidates |
| Reranker.ScoreIs | src/fossil_core/real_retrieval.py:223-251 | a score is the reciprocal of the base rank, plus the adjustment, plus the weight times the share of query terms found |
| Reranker.RankedByScore | src/fossil_core/real_retrieval.py:263-264 | results come by falling score, equal scores by identity |
| Reranker.ScoreRange | src/fossil_core/real_retrieval.py:199-251 | under current intent a current document scores above 1.25 and a past one at most the lexical weight |
| Reranker.SeparatesIff | src/fossil_core/real_retrieval.py:199-264 | every current document outscores every past one, whatever their ranks and texts, iff the lexical weight is at most 1.25 |
| Reranker.Outscored | src/fossil_core/real_retrieval.py:165-169 | beyond 1.25 a superseded text match outscores a current document far down the list |
| Reranker.CurrentFirst | src/fossil_core/real_retrieval.py:263-264 | under current intent and a weight up to 1.25 no past document precedes a current one |
| Reranker.NoneCutForPast | src/fossil_core/real_retrieval.py:263-264 | if a past document survives the limit, every current one does, with its multiplicity |

## Left out

- Network clients, GitHub and its pagination, Docker, git worktrees, subprocesses, environment handling and MCP wiring.
- JSON Schema validation: schema-valid shapes are preconditions or datatypes. The exact field-set and type checks of a lock file are part of that.
- Regular expressions over comments, ISO timestamp parsing, uuids, secret scrubbing and UTF-8: comments arrive parsed, deadlines are optional integers, identities are given.
- BM25, embeddings, cross-encoders, LiteLLM and floating-point rounding: scores are exact reals.
- `prepare` fills in identities and timestamps before a commit; the model starts from the prepared event. The semantic commit checks of validate_event_for_commit are not part of this model.
- The failure records of the projection ledger.
- A projection cycle reads the event files in one action: what the code does when a listed file is gone before it is opened, raising and giving up the cycle, is the worker's stop step.
- Interleavings of a commit with a redaction of the same event: the two are atomic towards each other.
- ArtifactStore.Artifacts.Put: the method runs with nothing in between; races are the subject of ArtifactRaces.
- ArtifactStore.RetryFinishes: over whole operations; ArtifactRaces.ComesBackIff says what a put already past its tombstone check can do.
- ArtifactStore.ErasedForGood: over whole operations; ArtifactRaces.ComesBackIff says what a put already past its tombstone check can do.
- Migration.SwitchLedger.RecordSwitch: the method reads the active slot and writes with nothing in between; races are the subject of Migration.RaceChainsIff.
- `iter_events`, directory listings and `put_file`.
- The remote artifact store has the same operations on object keys as the local one; one model stands for both.
- The local machine's loss of power: `fsync` has no effect in the model.
- Two brokers under one agent name: agents are distinct.
- The free-text DONE and BLOCKED comments of a close-out carry no ledger directive and are left out of broker runs.
- The text fields of lineage nodes, retrieval documents built from a replayed pack, receipts, metadata and digests of snapshots.
- Reciprocal rank fusion: a sum over retrievers and a sort. RerankedRetriever.search only passes a larger limit to one retriever and renumbers the result.
- Python's recursion limit: the recursive searches may go as deep as the graph.
- ImportCycles.ComponentFinder.Visit: the order of the report before the final sort is not stated, only its contents.
- PackGraph.ValidatePackDependencyGraph: says that the error is a real violation, not which of several is found first.
- Provenance.ValidateProvenance: which of several broken rules an error names is not stated; all are one exception type.
- ChatGraph.GraphUnresolvedRefs: a cycle is listed once for every node whose walk ends in it; the model states which references are listed, not how often.
