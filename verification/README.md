# Goblin King: verified models of delivery, replacement and retention

Goblin King is a control plane that runs jobs in containers, copies their events into a Redis
Stream, publishes long-lived services and keeps the artifacts jobs leave behind. This project
models the parts where several parties act at once or where a failure can strike between two
steps, and proves what the control plane relies on.

Three protocols come first.

**Ordered, replay-safe event delivery** (`EventDelivery`, `EventDeliveryProofs`,
`EventDeliveryLoop`, `EventDeliveryWitnesses`). Events live in an append-only SQLite log; one delivery at a time copies them
into a Redis Stream under explicit ids, and its cursor lives in SQLite. The SQLite transaction can
roll back, what was sent to Redis cannot, and a command whose caller gave up may land at any later
time. The module is a step system (insert, delete, begin, bootstrap, append, send, commit,
rollback, late arrival, trim) with one invariant, and the batched loop is a class whose every
method is a run of that system.

**Rolling replacement of a published service** (`ServiceReplacement`, `ServiceAvailability`,
`ServiceHistory`, `ServiceLeaks`, `ServiceTidiness`, `ServiceWitnesses`). Any number of start requests run at once, and
each stretch between two awaits is one step.

**Artifact retention and result forwarding** (`TornReads`, `StoredNames`, `FileTree`, `Retention`,
`RetentionSpec`, `RetentionStore`, `RetainedCleanup`, `ResultForwarding`, `ResultObservation`). A
staged copy of files their worker can still write to, an atomic rename, an idempotent second
commit, cleanup, and the one Redis key the runtime trusts. The volume is a small directory tree
whose every operation may fail; source files are sequences of versions.

The supporting algorithms each carry a theorem of their own: UTF-8 tails of logs (`Utf8`,
`LogTail`), signed cookies (`Base64Url`, `CookieCodec`), recorded URIs (`PercentEncoding`,
`RetainedUri`), the rate limiter (`RateLimit`, `RateLimitRace`, `RateLimitOverlap`), the monotonic clock (`CausalTime`),
the cleanup selector (`CleanupSelection`) and fanout status (`Fanout`).

## What the code does not do

Some promises hold only under a condition. Each is stated as an equivalence or with a bound that is
attained, and a concrete run or input shows that the failure happens.

- A stream whose tail names its event only by id needs that event until the offset is stored:
  `EventDeliveryProofs.LegacyTailMatters`. Its witness `EventDeliveryWitnesses.LegacyTailLost` is a stream
  and a log rather than a run, because the step system itself excludes that deletion.
- A delivery whose pending event was trimmed from the head after a rolled-back attempt had appended
  it raises an id conflict: `EventDeliveryProofs.ConflictIffTrimmed`,
  `EventDeliveryWitnesses.ConflictIsReachable`. No later delivery gets past such an event while it stays
  in the log: `EventDeliveryProofs.BlockedForGood`.
- A runtime can be left running that no pointer leads to, no start in flight remembers and no drain
  will stop. `ServiceLeaks.OrphanMade` says for every action of the step system exactly when it leaves one
  behind, and `ServiceLeaks.OrphanIffLeaked` for whole runs. From a start with at most one live service it
  takes overlapping starts, a request that raises once its runtime is up (in the start, the probe, the stop
  of the candidate or the store calls of the swap), a drain whose stop raises, or a probe of a draining
  service (`ServiceTidiness.NoOrphans`); `ServiceWitnesses` has a run for each.
- Of two forwarders that commit the same artifacts at once, the loser succeeds only if the rename it lost
  is reported as "exists". On Linux a rename onto a directory that is not empty is reported as "not
  empty", which the code does not catch, and the loser fails: `RetentionStore.ArtifactVolume.LoseRace`.
- An artifact named `retained` shares its size metric with the byte total:
  `Retention.FinalMetricsMeaning`.
- Cleanup also prunes directories that were empty before the run was retained:
  `RetainedCleanup.CleanupInvertsRetention`.
- A retained URI is decoded twice, so a storage root whose path contains a percent sign and two hex
  digits is not found again: `RetainedUri.RetainedUriResolves`.
- A token id that contains `:/` shares rate-limit rows with shorter ones: `RateLimit.RowSharedIff`.
- The increment of a rate-limit row reads the count and writes it back later, so overlapping requests lose
  updates, and a late write takes the count back. A window keeps to its limit under every overlap exactly
  when there is one thread or the limit is reached already (`RateLimitOverlap.LimitKeptIff`). With n
  threads and m requests left it can accept as many as `Choose(n + m, m) - 1`, and no more
  (`RateLimitOverlap.WindowBound`, `RateLimitOverlap.WindowBoundIsTight`);
  `RateLimitOverlap.OverlapBound` bounds any minute of any run.
- Even with serialised increments, requests that come between the two transactions of another one raise
  the number of acceptances in a minute, by at most a whole limit for each request that waits:
  `RateLimitRace.RaceBound`, `RateLimitRace.RaceBoundIsTight`.
- A cookie whose signature part is not ASCII raises instead of being rejected:
  `CookieCodec.RaisesIffNotAscii`.
- Retrying a job takes back a completed or failed fanout outcome: `Fanout.RetryReopens`.

## Model

| member | source | states |
|---|---|---|
| `EventDelivery.NextLive` | src/goblin_king/event_delivery.py:63-73 | the next event to deliver is the lowest stored sequence above the cursor and up to the bound; none means there is none |
| `EventDelivery.Lookup` | src/goblin_king/event_delivery.py:102-110 | the stored event with the tail's id, or none when every stored event has another id |
| `EventDelivery.XRange` | src/goblin_king/event_delivery.py:127 | the entry at exactly one id, or none when the stream has no such id |
| `EventDeliveryProofs.RunInv` | src/goblin_king/event_delivery.py:38-89 | every run of inserts, deletions, deliveries that commit or roll back, late arrivals and trims keeps the invariant, from any log and any stream |
| `EventDeliveryProofs.OrderedDelivery` | src/goblin_king/event_delivery.py:38-136 | in every reachable state the entries this target wrote have strictly increasing sequences, ids offset + sequence, the payload of that durable event, and ids above all that was there before |
| `EventDeliveryProofs.CommitDelivers` | src/goblin_king/event_delivery.py:57-86 | when a delivery up to t commits, the cursor is at least t and every event still stored above the bootstrap cursor and up to t is in the stream or was trimmed from its head, then and ever after |
| `EventDeliveryProofs.OffsetStays` | src/goblin_king/event_delivery.py:57-61 | every offset a run stores is the one the untouched stream gives: bootstrap after any failed attempts reads the same one |
| `EventDeliveryProofs.BootstrapRecovers` | src/goblin_king/event_delivery.py:91-116 | a bootstrap after a first delivery that appended some entries and rolled back gives the same offset and the last appended sequence as cursor, and every later id lies above the tail, clamped offsets and ids ms-k included |
| `EventDeliveryProofs.LegacyTailMatters` | src/goblin_king/event_delivery.py:102-112 | with a tail that carries only an id, deleting events leaves the row the bootstrap reads as it was exactly when that event stays |
| `EventDeliveryWitnesses.LegacyTailLost` | src/goblin_king/event_delivery.py:102-112 | a stream and log from which a bootstrap loses the cursor when that event is deleted, for any tail id, and the offset with it unless the milliseconds are zero |
| `EventDeliveryProofs.ConflictIffTrimmed` | src/goblin_king/event_delivery.py:115-129 | the due append raises an id conflict exactly when this target had appended the event already and it was trimmed since |
| `EventDeliveryProofs.ConflictIffBelowHead` | src/goblin_king/event_delivery.py:115-129 | the same condition read off the stream: the due id lies below the first entry left |
| `EventDeliveryProofs.BlockedForGood` | src/goblin_king/event_delivery.py:62-89 | once the offset is stored, an event above the stored cursor that was appended and trimmed is never committed past while it stays in the log |
| `EventDeliveryWitnesses.ConflictIsReachable` | src/goblin_king/event_delivery.py:38-89 | a run from an empty log and stream that ends in an id conflict with such an event |
| `EventDeliveryProofs.AcceptsIffAbove` | src/goblin_king/event_delivery.py:116-125 | XADD accepts the due entry exactly when its sequence is above all this target has written |
| `EventDeliveryProofs.KnownIff` | src/goblin_king/event_delivery.py:126-129 | the compare passes exactly when that very entry, payload included, is in the stream |
| `EventDeliveryProofs.BootstrapReadsOrigin` | src/goblin_king/event_delivery.py:91-113 | without a stored offset, bootstrap recovers offset and sequence from whatever the tail now is |
| `EventDeliveryProofs.OffsetIsLeast` | src/goblin_king/event_delivery.py:91-113 | the recovered offset is the least under which every event after the one the tail stands for, by its sequence or by its id, gets an id above the tail |
| `EventDeliveryProofs.CursorIsLeast` | src/goblin_king/event_delivery.py:91-113 | the recovered cursor is never behind the stored one and the tail, and no further than needed; with an empty stream it stands just before the first stored event |
| `EventDeliveryProofs.PendingNext` | src/goblin_king/event_delivery.py:63-81 | one in-order pass over what is pending is the next live event and then the pass from there; gaps make no difference |
| `EventDeliveryProofs.CalmPass` | src/goblin_king/event_delivery.py:62-86 | an undisturbed pass raises exactly when a pending event was trimmed, and otherwise appends just the pending events above the top, in order |
| `EventDeliveryLoop.Batch` | src/goblin_king/event_delivery.py:63-73 | a batch is a prefix of what is pending, at most 100 rows, empty only when nothing is pending |
| `EventDeliveryLoop.NextRow` | src/goblin_king/event_delivery.py:78-85 | the first pending row is the due event and the rest of the pass starts after it |
| `EventDeliveryLoop.OrderedEventStreamDelivery.Compare` | src/goblin_king/event_delivery.py:126-129 | a refused append is accepted only if the very same entry is there; a read that raises leaves it unanswered |
| `EventDeliveryLoop.OrderedEventStreamDelivery.Append` | src/goblin_king/event_delivery.py:115-129 | append, known entry, lost reply or conflict, under any interference; refused only in an id conflict; undisturbed it is exactly the one-step specification |
| `EventDeliveryLoop.OrderedEventStreamDelivery.DeliverRow` | src/goblin_king/event_delivery.py:78-85 | gap jump, append, cursor save: each a step of the system |
| `EventDeliveryLoop.OrderedEventStreamDelivery.DeliverRows` | src/goblin_king/event_delivery.py:78-85 | a batch row by row: undisturbed, what remains of the pass is what was left of it before |
| `EventDeliveryLoop.OrderedEventStreamDelivery.Open` | src/goblin_king/event_delivery.py:41-61 | the transaction starts from the stored row, or from the bootstrap when no offset is stored, unless reading the tail raises |
| `EventDeliveryLoop.OrderedEventStreamDelivery.SaveState` | src/goblin_king/event_delivery.py:131-136 | saving changes cursor and offset of the transaction's row only |
| `EventDeliveryLoop.OrderedEventStreamDelivery.RollBack` | src/goblin_king/event_delivery.py:87-89 | rollback forgets the transaction and nothing that was sent |
| `EventDeliveryLoop.OrderedEventStreamDelivery.DeliverThrough` | src/goblin_king/event_delivery.py:38-89 | the batched loop is a run of the step system, terminates, leaves SQLite alone unless it commits, raises an id conflict only when an event it had to append was trimmed, and undisturbed equals one in-order pass |
| `EventDeliveryLoop.OrderedEventStreamDelivery.Persist` | src/goblin_king/store.py:177-222 | a persisted event gets the next sequence and is the only change to the log |
| `EventDeliveryLoop.OrderedEventStreamDelivery.Emit` | src/goblin_king/events.py:48-82 | the event is durable whatever delivery does; undisturbed, and with nothing it needs trimmed, it is in the stream |
| `EventDeliveryLoop.CalmOutcome` | src/goblin_king/event_delivery.py:57-89 | an undisturbed delivery commits exactly when nothing it has to append was trimmed, and then appends precisely what was missing |
| `EventDeliveryLoop.Convergence` | src/goblin_king/events.py:132-143 | after any run, any number of failed and swallowed deliveries included, an undisturbed delivery commits exactly when nothing it has to append was trimmed |
| `EventDeliveryLoop.EmittedIsThere` | src/goblin_king/events.py:78-82 | after such a delivery the emitted event is in the stream |
| `ServiceReplacement.LastKnownGood` | src/goblin_king/api.py:3175-3188 | what the search finds is published, pointed at, ready and the newest such version; if it finds nothing no published pointer leads to a ready service |
| `ServiceReplacement.StepInv` | src/goblin_king/api.py:3005-3119 | every step of every start, probe, swap, drain and retirement, completed or cut short by an exception, keeps the invariant and the availability |
| `ServiceReplacement.PublishInv` | src/goblin_king/api.py:3084-3119 | the swap leaves a routed, ready, running service that nobody is about to retire, also when a store call after it raises |
| `ServiceAvailability.LookupIffAnchored` | src/goblin_king/api.py:3175-3188 | the lookup finds a service exactly when some routed ready service with a running runtime is not about to be retired |
| `ServiceAvailability.Availability` | src/goblin_king/api.py:3005-3119 | once the lookup finds a ready service it finds one in every later state, under every interleaving of starts, candidates, swaps, drains and retirements, whichever of them raise |
| `ServiceAvailability.PublishAnchors` | src/goblin_king/api.py:3084-3093 | after any successful swap the lookup always finds a service |
| `ServiceAvailability.CandidateIsPrivate` | src/goblin_king/api.py:3020-3082 | everything a start does before its swap, every failure included, leaves the pointers and the lookup's answer unchanged |
| `ServiceAvailability.RetireSparesNewer` | src/goblin_king/api.py:523-541 | retiring clears only pointers that still name the retired service, leaves none, and the lookup still finds a service |
| `ServiceAvailability.StepKeepsLookup` | src/goblin_king/api.py:3175-3188 | no single step takes the lookup's answer away |
| `ServiceHistory.RowAfter` | src/goblin_king/api.py:261-325 | who writes a service row and what it then says: ready after a successful probe, failed after a failed one, stopped after a replacement, registered after a start; every other row stays |
| `ServiceHistory.ReadyAfter` | src/goblin_king/api_service_websockets.py:105-111 | a row is ready after a step exactly when the step proves it, or it was ready and the step neither disproves nor replaces it |
| `ServiceHistory.ReadyWasProved` | src/goblin_king/api_service_websockets.py:105-111 | a service is ready only after a successful probe of it |
| `ServiceHistory.RoutedWasProved` | src/goblin_king/api.py:3060-3093 | no pointer is ever swapped to a service without a successful probe |
| `ServiceHistory.PointerAfter` | src/goblin_king/api.py:3084-3093 | who writes a pointer and where it then leads; every other pointer stays |
| `ServiceHistory.DrainAfter` | src/goblin_king/service_websocket_drain.py:65-83 | a swap registers the drain of the service it replaces unless one is pending, and the drain ends with its callback |
| `ServiceHistory.RuntimeAfter` | src/goblin_king/api.py:3029-3067 | a runtime comes up only in a start and goes down only when a rejected candidate or a drained service is stopped |
| `ServiceHistory.PublishedIffSwapped` | src/goblin_king/api.py:3005-3119 | a start ends as published exactly when it moved its pointer |
| `ServiceHistory.KeepsItsRequest` | src/goblin_king/api.py:3019-3020 | up to its swap a start keeps the kind it was asked for and what the lookup answered then |
| `ServiceLeaks.OrphanMade` | src/goblin_king/api.py:3005-3119 | for every action: a runtime becomes an orphan in this step exactly when a request that ends before its swap was the last to remember it, or ends without stopping the runtime it brought up, a swap overwrites its pointer while no start remembers it, a swap is cut short before it registers the drain, or a drain's stop raises when nothing routes to or remembers it |
| `ServiceLeaks.OrphanStays` | src/goblin_king/api.py:3084-3119 | an orphan keeps running through every later step |
| `ServiceLeaks.OrphanIffLeaked` | src/goblin_king/api.py:3005-3119 | a run ends with an orphan exactly when one of its steps leaked it |
| `ServiceTidiness.CurrentIsFound` | src/goblin_king/api.py:3175-3188 | in an orderly run the lookup finds the one service that is live, and no other |
| `ServiceTidiness.NoOrphans` | src/goblin_king/api.py:3005-3119 | a run whose starts do not overlap, whose requests do not raise once their runtime is up, whose drains' stops do not raise and in which nobody probes a draining service leaves no runtime behind |
| `ServiceWitnesses.OverlapLeaks` | src/goblin_king/api.py:3020-3119 | overlapping starts that leave one behind at the swap |
| `ServiceWitnesses.RememberedLeaks` | src/goblin_king/api.py:3020-3046 | overlapping starts that leave one behind only when the start that remembered it fails |
| `ServiceWitnesses.RaisedStopLeaks` | src/goblin_king/api.py:523-544 | a drain whose stop raises, without overlap |
| `ServiceWitnesses.RaisedStartLeaks` | src/goblin_king/notebook_services.py:302-318 | a start that raises although its container runs |
| `ServiceWitnesses.RaisedSwapLeaks` | src/goblin_king/api.py:3084-3119 | a store call of the swap that raises, before and after the pointer moved |
| `ServiceWitnesses.RaisedProbeLeaks` | src/goblin_king/api.py:3060-3067 | a probe that raises something other than a failed readiness |
| `ServiceWitnesses.RaisedCandidateStopLeaks` | src/goblin_king/api.py:3062-3067 | a rejected candidate whose stop raises |
| `ServiceWitnesses.ReprobeLeaks` | src/goblin_king/api.py:3175-3188 | a draining service that is probed again is taken for the last known good one |
| `ServiceAvailability.RepositoryServices.LastKnownGoodRepositoryService` | src/goblin_king/api.py:3175-3188 | the search loop, newest version first, computes the lookup |
| `ServiceAvailability.RepositoryServices.BeginStart` | src/goblin_king/api.py:3019-3023 | the first stretch of a start is the request step |
| `ServiceAvailability.RepositoryServices.ManagerStarted` | src/goblin_king/api.py:3029-3059 | the stretch after the runtime came up, or the start raised and left one or none |
| `ServiceAvailability.RepositoryServices.ProbeReturned` | src/goblin_king/api.py:261-325 | once the result is stored the candidate is ready exactly for status codes 200 to 299, and otherwise its row is failed; any other exception ends the request, before or after the result was stored |
| `ServiceAvailability.RepositoryServices.CandidateStopReturned` | src/goblin_king/api.py:3062-3082 | the rejected candidate was stopped, or its stop raised; the request ends |
| `ServiceAvailability.RepositoryServices.PublishCandidate` | src/goblin_king/api.py:3084-3119 | the stretch that swaps the pointer, stops the old row and registers its drain, with a cut at every store call |
| `ServiceAvailability.RepositoryServices.RuntimeStopReturned` | src/goblin_king/api.py:525-531 | the drain callback's stop: done, or raised and the callback ends without touching the pointer |
| `ServiceAvailability.RepositoryServices.ClearPointer` | src/goblin_king/api.py:532-541 | the end of the drain callback, completed or cut short by a store call that raises |
| `TornReads.CopyFdAndHash` | src/goblin_king/kubernetes_artifacts.py:272-304 | with writes between any two system calls, the copy succeeds exactly when the first fstat meets the validated version, that fits, and nothing is written up to the fstat after its last read; then destination, size and digest are those of that one version |
| `StoredNames.IndexOfStored` | src/goblin_king/kubernetes_artifacts.py:472-476 | the artifact's position can be read back from its stored name, for any number of artifacts |
| `StoredNames.StoredNamesDistinct` | src/goblin_king/kubernetes_artifacts.py:472-476 | stored names of different positions differ, whatever the names and digests |
| `StoredNames.ExtensionKept` | src/goblin_king/kubernetes_artifacts.py:472-476 | an extension of one to ten letters and digits is kept in lower case |
| `StoredNames.ExtensionDropped` | src/goblin_king/kubernetes_artifacts.py:472-476 | any other ending is dropped |
| `StoredNames.IndexWidth` | src/goblin_king/kubernetes_artifacts.py:476 | the position has four digits, or as many as it needs |
| `FileTree.RenameHolds` | src/goblin_king/kubernetes_artifacts.py:367 | renaming a directory onto a free sibling moves exactly its files and leaves the rest of the tree |
| `Retention.StoredDistinct` | src/goblin_king/kubernetes_artifacts.py:107-110 | one result's stored names are pairwise distinct |
| `Retention.FinalMetricsMeaning` | src/goblin_king/kubernetes_artifacts.py:131-138 | a retained result's metrics give each artifact's digest and size and both totals; the size is the artifact's unless it is named `retained`, and then exactly when it is the total |
| `Retention.OtherMetricsKept` | src/goblin_king/kubernetes_artifacts.py:104 | metrics that are not about artifacts pass through |
| `Retention.FailureHidesArtifacts` | src/goblin_king/kubernetes_artifacts.py:58-70 | a failed retention has no artifacts and no artifact metrics, keeps every other metric and both bodies, and appends its reason to the error |
| `Retention.DigestAccepted` | src/goblin_king/kubernetes_artifacts.py:326-346 | the declared metrics pass exactly when the size is absent or the actual number, and the digest absent or a text that is the actual one, in any case and with or without its prefix |
| `Retention.RetainedMetricsVerify` | src/goblin_king/kubernetes_artifacts.py:326-346 | the metrics retention writes pass its own check when the result is retained again, with the same exception |
| `Retention.MatchHolds` | src/goblin_king/kubernetes_artifacts.py:395-404 | against the staged copy, the directory comparison holds exactly when the other directory has one file per artifact with the same digest and nothing else |
| `RetentionSpec.Refusal` | src/goblin_king/kubernetes_artifacts.py:77-87 | nothing is refused up front exactly when configuration, limits and names are in order |
| `RetentionSpec.RefusalReason` | src/goblin_king/kubernetes_artifacts.py:77-87 | the reason given is that of the first check that fails |
| `RetentionSpec.StagingInvisible` | src/goblin_king/kubernetes_artifacts.py:96-102 | nothing that happens in the staging directory can be seen at the run directory |
| `RetentionSpec.PlantHolds` | src/goblin_king/kubernetes_artifacts.py:367-373 | a rival forwarder's complete commit fills a free run directory and changes nothing else |
| `RetentionSpec.KeptWhole` | src/goblin_king/kubernetes_artifacts.py:357-365 | a volume on which everything was kept and nothing is left in staging is the old volume |
| `RetentionStore.ArtifactVolume.EnsureDirectoryTree` | src/goblin_king/kubernetes_artifacts.py:377-384 | only directories on the way down are added; without faults it succeeds exactly when no file is in the way |
| `RetentionStore.ArtifactVolume.StoreFile` | src/goblin_king/kubernetes_artifacts.py:288-304 | the staged file holds one single version of the source, within the remaining budget |
| `RetentionStore.ArtifactVolume.StoreOne` | src/goblin_king/kubernetes_artifacts.py:108-119 | one artifact is stored exactly when name, source, budget, declared size and digest and media type all pass |
| `RetentionStore.ArtifactVolume.StoreArtifacts` | src/goblin_king/kubernetes_artifacts.py:107-132 | the loop stores all artifacts or fails; records, metrics and total describe what was stored |
| `RetentionStore.ArtifactVolume.AcceptExisting` | src/goblin_king/kubernetes_artifacts.py:358-365 | an existing run directory is accepted exactly when its files have the same digests, and is not changed |
| `RetentionStore.ArtifactVolume.LoseRace` | src/goblin_king/kubernetes_artifacts.py:368-373 | after losing the race to another forwarder the run directory is that forwarder's, and without faults accepted exactly when the rename reports "exists" and the digests are the same |
| `RetentionStore.ArtifactVolume.MoveIntoPlace` | src/goblin_king/kubernetes_artifacts.py:366-374 | the rename makes the run directory complete in one step |
| `RetentionStore.ArtifactVolume.CommitStaging` | src/goblin_king/kubernetes_artifacts.py:357-374 | at every moment the run directory is what it was, this complete set, or a rival's complete set |
| `RetentionStore.ArtifactVolume.DropStaging` | src/goblin_king/kubernetes_artifacts.py:134-136 | the cleanup of a failed attempt touches the staging directory only |
| `RetentionStore.ArtifactVolume.StoreAndCommit` | src/goblin_king/kubernetes_artifacts.py:106-136 | storing and committing succeed exactly when every artifact passes and the destination is free or holds the same |
| `RetentionStore.ArtifactVolume.RetainAll` | src/goblin_king/kubernetes_artifacts.py:73-139 | all or nothing: without faults it succeeds exactly when all limits and checks pass, and never when an operation raised; every observable state of the run directory is absent, unchanged or complete; every other file stays; no staging directory is left |
| `RetentionStore.ArtifactVolume.RetainResultArtifacts` | src/goblin_king/kubernetes_artifacts.py:42-55 | a returned envelope with artifacts means the run directory holds one file per artifact with the source's bytes; anything else is the metadata-free failure; retaining a run that is already there changes nothing |
| `RetainedCleanup.PrunedOnly` | src/goblin_king/kubernetes_artifacts.py:442-448 | pruning removes only directories on the way to the run, never the root, and keeps all files |
| `RetainedCleanup.PrunedNoneEmpty` | src/goblin_king/kubernetes_artifacts.py:442-448 | no empty directory is left between the root and the run |
| `RetainedCleanup.CleanupInvertsRetention` | src/goblin_king/kubernetes_artifacts.py:93-101 | retaining a fresh run and cleaning up restores the volume exactly when no directory on the way was empty before |
| `RetainedCleanup.CleanupRetainedRun` | src/goblin_king/kubernetes_artifacts.py:428-448 | the rmtree and rmdir loop stops at the root or the first failure, leaves everything else untouched, and without faults prunes exactly the empty parents |
| `ResultForwarding.KeysDisjoint` | src/goblin_king/kubernetes_result_keys.py:7-14 | no run id makes a worker-owned key a forwarded one, and forwarded keys of different runs differ |
| `ResultForwarding.OutcomeOfRetention` | src/goblin_king/kubernetes_artifacts.py:42-55 | what retention returns lists only artifacts that are committed files with the recorded digest |
| `ResultForwarding.StepInv` | src/goblin_king/kubernetes_result_forwarder.py:93-113 | whatever workers, other runs and restarts do, the forwarded key only ever holds an envelope whose artifacts are committed |
| `ResultForwarding.PublishedBefore` | src/goblin_king/kubernetes_result_forwarder.py:93-113 | what the forwarded key holds was published by this run's forwarder after its artifacts were committed |
| `ResultForwarding.TimelineKeeps` | src/goblin_king/kubernetes_artifacts.py:357-374 | committed files of a run stay what they are |
| `ResultForwarding.WaitForResult` | src/goblin_king/kubernetes_result_forwarder.py:116-129 | the first valid envelope is returned; otherwise the error tells whether an invalid one was ever seen |
| `ResultForwarding.ForwardResult` | src/goblin_king/kubernetes_result_forwarder.py:93-113 | a result without artifacts is published as it is, a missing configuration or a refusal as its failure; any other result is published retained as a whole or failed, and without faults retained exactly when it is acceptable and its destination usable |
| `ResultObservation.LoadResultObserved` | src/goblin_king/kubernetes_runtime.py:335-369 | missing, malformed and valid results are told apart; a malformed one is never a success |
| `ResultObservation.ReadsItsWriter` | src/goblin_king/kubernetes_runtime.py:335-352 | with retention configured the run reads what its forwarder publishes and nothing else, and otherwise what the worker sets |
| `ResultObservation.WaitForResultObserved` | src/goblin_king/kubernetes_runtime.py:270-325 | the first round that is not idle decides; the loaded envelope is returned as it is, its validity included, except that a failed Job turns a success into a failure |
| `ResultObservation.ReadIsBacked` | src/goblin_king/kubernetes_runtime.py:335-352 | with retention configured, what is read lists only committed artifacts |
| `ResultObservation.RunObserved` | src/goblin_king/kubernetes_runtime.py:114-219 | end to end: the run reports exactly what the decisive round found, or an exception; every artifact in any observation names committed bytes, and a success means the Job succeeded and the forwarder published this envelope after committing |
| `Utf8.RoundTrip` | src/goblin_king/container_logs.py:70-71 | decoding an encoded text gives it back |
| `Utf8.LosslessIffWellFormed` | src/goblin_king/container_logs.py:70 | decoding with replacement loses nothing exactly on well-formed UTF-8 (section 3 of RFC 3629) |
| `Utf8.Cut` | src/goblin_king/container_logs.py:77 | a cut anywhere in encoded text leaves at most three stray bytes before whole characters |
| `Utf8.MaximalStart` | src/goblin_king/container_logs.py:70-77 | a replacement character stands for the longest start of an encoded scalar |
| `Utf8.DecodeStray` | src/goblin_king/container_logs.py:70-77 | where no encoded scalar stands, one replacement character takes the longest start of one, and decoding goes on behind it |
| `LogTail.TailMeaning` | src/goblin_king/container_logs.py:66-77 | a tail is at most three replacement characters and then the longest whole-character suffix that fits; re-encoded it exceeds the limit by twice their number; the flag is set exactly when the text exceeds the limit |
| `LogTail.TailBound` | src/goblin_king/container_logs.py:66-77 | the same for missing values and limits of zero or less |
| `LogTail.Budgets` | src/goblin_king/container_logs.py:29-34 | the two stream budgets sum to the limit |
| `LogTail.PayloadBound` | src/goblin_king/container_logs.py:12-56 | both tails together re-encode to at most twelve bytes more than the limit, each stream is marked exactly when it exceeds its share or was cut before, an unmarked payload carries both whole, and the sizes are the observed ones or those of the streams |
| `LogTail.PayloadTails` | src/goblin_king/container_logs.py:12-56 | each stream carries the tail of its share of the limit |
| `LogTail.RawIsDecoded` | src/goblin_king/container_logs.py:70 | bytes are shown as the text they encode, and as their decoding with replacement if they encode none |
| `Base64Url.PaddedRoundTrip` | src/goblin_king/directory_ui.py:648 | the lenient reader returns the bytes of any padded encoding (sections 3.2 and 5 of RFC 4648) |
| `Base64Url.RepadStripped` | src/goblin_king/directory_ui.py:659 | padding rebuilt from the length is the padding that was stripped |
| `Base64Url.RoundTrip` | src/goblin_king/directory_ui.py:648-661 | stripping, rebuilding and reading is the identity on bytes |
| `Base64Url.JunkIsSkipped` | src/goblin_king/directory_ui.py:661 | characters outside both alphabets are skipped wherever they stand |
| `Base64Url.DecodesIffLength` | src/goblin_king/directory_ui.py:659-661 | with its padding rebuilt a text over the alphabets decodes unless its length is one more than a multiple of four |
| `Base64Url.DecodesIffPadded` | src/goblin_king/directory_ui.py:659-661 | a text over the alphabets with any number of padding signs decodes exactly when they complete its last group |
| `Base64Url.EndsAtPadding` | src/goblin_king/directory_ui.py:659-661 | more padding than needed and anything behind it are ignored |
| `CookieCodec.LastDotOf` | src/goblin_king/directory_ui.py:679 | the last dot splits a signed value where it was joined, dots in the value included |
| `CookieCodec.DecodedIffSigned` | src/goblin_king/directory_ui.py:667-681 | a value is recovered from exactly one cookie, its signed form |
| `CookieCodec.RaisesIffNotAscii` | src/goblin_king/directory_ui.py:681 | the only exception is a signature part with a character that is not ASCII |
| `CookieCodec.CookieRoundTrip` | src/goblin_king/directory_ui.py:643-664 | decoding the cookie of any JSON object gives the object back |
| `CookieCodec.AcceptedIsSigned` | src/goblin_king/directory_ui.py:652-664 | whatever is accepted is an ASCII part with its signature behind the last dot, and the object that part loads to |
| `PercentEncoding.UnquoteQuote` | src/goblin_king/kubernetes_artifacts.py:462-468 | unquoting once undoes quoting, for any text |
| `PercentEncoding.UnquoteFixed` | src/goblin_king/api_artifacts.py:35 | unquoting changes a text exactly when it holds an escape, and then shortens it |
| `PercentEncoding.UnquoteAround` | src/goblin_king/api_artifacts.py:35 | a character that is not ASCII stays, and what stands before and behind it is unquoted by itself |
| `PercentEncoding.QuotedIff` | src/goblin_king/kubernetes_artifacts.py:462-468 | quoting leaves letters, digits, the four unreserved marks, the slash and the declared colon (section 2.3 of RFC 3986) and nothing else |
| `RetainedUri.UriText` | src/goblin_king/kubernetes_artifacts.py:461-469 | the recorded URI is the quoted text of the committed path |
| `RetainedUri.UriParses` | src/goblin_king/api_artifacts.py:32-34 | it parses with empty authority, no query and no fragment |
| `RetainedUri.ArtifactFilePath` | src/goblin_king/api_artifacts.py:16-47 | what is served lies under the root; an artifact locator serves its declared name below the mounted directory and nothing else |
| `RetainedUri.LocateWalks` | src/goblin_king/api_artifacts.py:40-47 | a candidate is accepted exactly when walking its components one directory at a time ends under the root, and is then the path that walk ends in |
| `RetainedUri.LocatedIsPath` | src/goblin_king/api_artifacts.py:42-47 | what is served lies under the root and holds no empty, "." or ".." component |
| `RetainedUri.ComponentsJoin` | src/goblin_king/api_artifacts.py:39-41 | slashes separate components |
| `RetainedUri.FileUriMeans` | src/goblin_king/api_artifacts.py:31-35 | a file URI is served from its path, decoded twice, for no authority or localhost and for no other |
| `RetainedUri.LocatorMeans` | src/goblin_king/api_artifacts.py:23-30 | a locator is served exactly when storage is mounted, query and fragment are empty and its body decoded once is the declared name |
| `RetainedUri.PathMeans` | src/goblin_king/api_artifacts.py:36-39 | any other URI is refused if it holds "://" and else taken as a path |
| `RetainedUri.RetainedUriResolves` | src/goblin_king/api_artifacts.py:31-47 | resolving the recorded URI gives the committed path exactly when the root's path holds no percent sign followed by two hex digits |
| `RetainedUri.LocatorResolves` | src/goblin_king/api_artifacts.py:23-30 | a locator that quotes any file name finds that file, percent signs included |
| `RetainedUri.StoredNameIsComponent` | src/goblin_king/kubernetes_artifacts.py:472-476 | stored names are plain path components without percent signs |
| `RetainedUri.SafeNameIff` | src/goblin_king/kubernetes_artifacts.py:479-487 | the names retention accepts are those of one path component, or empty, of at most 255 characters without backslashes and control characters |
| `RateLimit.RateLimiter.IncrementRateLimit` | src/goblin_king/store.py:1154-1192 | one request's increment when no other comes between its read and its write |
| `RateLimit.RateLimiter.CheckRateLimit` | src/goblin_king/auth.py:449-481 | without interleaving, the answer is the closed form over all requests counted for this token and route |
| `RateLimit.WindowBound` | src/goblin_king/auth.py:466-473 | of one window's requests exactly the first max are accepted |
| `RateLimit.DeniedMeansFull` | src/goblin_king/auth.py:466-473 | a denied request finds exactly max accepted before it in its window, all less than a minute old |
| `RateLimit.SpanBound` | src/goblin_king/auth.py:449-481 | in any half-open minute at most 2 max - 1 requests are accepted |
| `RateLimit.SpanBoundIsTight` | src/goblin_king/auth.py:449-481 | and that many can be, within a microsecond, for every max |
| `RateLimitRace.Undisturbed` | src/goblin_king/auth.py:459-473 | one request alone is a request of the sequential limiter |
| `RateLimitRace.RaceBound` | src/goblin_king/auth.py:459-473 | with serialised increments and at most w requests between their two transactions, a stretch whose clock readings lie in one half-open minute accepts at most (w + 1) max - 1 |
| `RateLimitRace.RaceBoundIsTight` | src/goblin_king/auth.py:459-473 | and with serialised increments that many can be, for every w and max |
| `RateLimitOverlap.SerialisedIncrement` | src/goblin_king/store.py:1162-1191 | read and write with nothing in between are the single increment of the serialised limiter |
| `RateLimitOverlap.SerialisedRequest` | src/goblin_king/auth.py:459-473 | with the reset, where there is one, they are a whole request of the serialised limiter |
| `RateLimitOverlap.Spend` | src/goblin_king/store.py:1162-1191 | a write from a view with a requests left pays for one acceptance, however many threads fall back to the count it writes |
| `RateLimitOverlap.WindowBound` | src/goblin_king/store.py:1162-1191 | however n threads overlap, a window with m requests left accepts at most Choose(n + m, m) - 1 more |
| `RateLimitOverlap.WindowBoundIsTight` | src/goblin_king/store.py:1162-1191 | and that many can be, for every n and m |
| `RateLimitOverlap.LimitKeptIff` | src/goblin_king/store.py:1162-1191 | a window keeps to its limit under every overlap exactly when there is at most one thread or nothing left |
| `RateLimitOverlap.OverlapBound` | src/goblin_king/auth.py:459-473 | in any stretch of any run of n threads whose clock readings lie in one half-open minute, at most Choose(n + max - 1, max - 1) + Choose(n + max + 1, max + 1) - 3 are accepted |
| `RateLimitOverlap.OneThread` | src/goblin_king/auth.py:459-473 | for one thread that is 2 max - 1, the bound of the sequential limiter |
| `RateLimit.RowSharedIff` | src/goblin_king/auth.py:460 | a token shares a row with a shorter one, for URL paths as routes, exactly when it contains `:/` |
| `RateLimit.KeysApart` | src/goblin_king/auth.py:460 | without that substring every token and route has its own row |
| `CausalTime.MonotonicUtcClock.Now` | src/goblin_king/causal_time.py:27-34 | the nth value is the maximum over i of reading i plus n - i |
| `CausalTime.SameInstant` | src/goblin_king/causal_time.py:13-17 | an instant is the same whatever zone it is written in |
| `CausalTime.LeadIsUnique` | src/goblin_king/causal_time.py:27-34 | that closed form fixes the value |
| `CausalTime.StrictlyIncreasing` | src/goblin_king/causal_time.py:27-34 | values grow by at least one microsecond per call |
| `CausalTime.LeadBound` | src/goblin_king/causal_time.py:27-34 | a value is never behind its reading and leads the largest reading by at most n - 1 |
| `CausalTime.Floor` | src/goblin_king/causal_time.py:51-54 | the maximum of the predecessors that are given |
| `CausalTime.CausallyAfter` | src/goblin_king/causal_time.py:45-55 | the result is the maximum of the candidate and every predecessor plus one |
| `CausalTime.CausallyAfterIsLeast` | src/goblin_king/causal_time.py:45-55 | no earlier time is strictly after every predecessor and not before the candidate |
| `CausalTime.FinishPassesValidator` | src/goblin_king/contracts.py:448-455 | a finish stamped after its start always passes; a raw reading passes exactly when the clock did not fall behind |
| `CleanupSelection.Sum` | src/goblin_king/api_artifacts.py:128 | the total is the sum of all sizes |
| `CleanupSelection.SelectByAge` | src/goblin_king/api_artifacts.py:123-126 | exactly the files as old as the limit, or older, are selected |
| `CleanupSelection.AgeLengthCuts` | src/goblin_king/api_artifacts.py:111-126 | on an oldest-first list they are a prefix |
| `CleanupSelection.SelectBySize` | src/goblin_king/api_artifacts.py:127-133 | the loop adds exactly the size policy's prefix |
| `CleanupSelection.SizeLengthCuts` | src/goblin_king/api_artifacts.py:127-133 | that prefix is enough for the byte limit, or all there is, and no shorter one is |
| `CleanupSelection.SelectArtifactCleanupCandidates` | src/goblin_king/api_artifacts.py:114-134 | both policies together select the longer of the two prefixes |
| `CleanupSelection.SelectionIsMinimal` | src/goblin_king/api_artifacts.py:114-134 | that prefix is the shortest that leaves no expired file and no more than the limit |
| `Fanout.CountJobs` | src/goblin_king/fanout.py:215-221 | one entry per occurring status with its number of jobs, and the total |
| `Fanout.CountsSum` | src/goblin_king/fanout.py:215-221 | the counts of all statuses sum to the total |
| `Fanout.StatusFromCounts` | src/goblin_king/fanout.py:195-212 | the derived status depends on the counts only |
| `Fanout.OutcomesAreAbsorbing` | src/goblin_king/fanout.py:195-212 | completed, failed and partial never change while terminal jobs stay terminal and no job joins |
| `Fanout.NewFanoutIsQueued` | src/goblin_king/fanout.py:58-116 | a new fanout is queued |
| `Fanout.RetryKeeps` | src/goblin_king/fanout.py:119-171 | exactly terminal jobs can be retried; every job keeps its status and one queued job is added |
| `Fanout.RetryReopens` | src/goblin_king/fanout.py:119-171 | a retry turns completed and failed into queued and changes no other status |

## Left out

The environment is assumed to behave as follows; none of it is proved here.

- Event sequences only grow and are never reused, event ids are fresh, events are immutable, and BEGIN IMMEDIATE serialises deliveries and inserts. Delivery targets are sequences already assigned.
- Redis applies XADD only above the last id, trimming removes a head prefix but never the tail, and no other writer uses the stream. A command without an answer may be applied once, at any later time, or never.
- While no offset is stored, the event that an id-only stream tail names is not deleted; `EventDeliveryProofs.LegacyTailMatters` shows what happens otherwise.
- Rolling replacement: no explicit stop or unpublish, no failed probe of an established service, a fixed list of published versions whose records exist, fresh service ids, and a drain callback that is called at most once per registration. A stop that raises has left the runtime as it was. The process keeps running: a restart, which forgets tasks and drains in flight, is not a step.
- While a run is being forwarded and observed, no cleanup removes the files of its directory: neither the age and size cleanup nor a cleanup of the run itself.
- SHA-256, HMAC, JSON text, media type checks and URI construction are function parameters. Directories are compared by digest, so "the same bytes" there means the same digest. For HMAC only that the output is hex is used, for JSON only that loading what was dumped gives it back.

The following is not modelled.

- HTTP routes, authentication, pydantic models, the CLI, container and Job manifests, settings, templates, the scheduler, the Directory and JupyterLab front ends: I/O or record construction without a property of its own.
- The WebSocket relay and its connection registry; a drain is one pending callback per service.
- Publish and heartbeat messages of the event bus, and the created_at floor of persisted events.
- Resolution of an artifact's URI inside the worker directory, symbolic links, file modes and descriptor flags: an artifact is either not retainable or an open file with a validated identity.
- The portable copy path; it runs the same copy on another descriptor.
- RetentionStore.ArtifactVolume.AcceptExisting: a removal of a tree is one operation that happens as a whole or raises, so a partly removed staging directory does not occur.
- RetentionStore.ArtifactVolume.LoseRace: a rename refused because the target is not empty is reported either as "exists" or as another error; the second ends in the storage failure, as in the code. A rival commits at least one file.
- RetainedCleanup.CleanupRetainedRun: the check that the resolved target stays under the root is not modelled, as there are no symbolic links.
- ResultForwarding.TimelineKeeps: rests on the assumption above that no cleanup removes files of this run.
- ResultObservation.RunObserved: pod diagnostics, heartbeats, events and the deletion of Job and ConfigMap, which do not change the result.
- ResultForwarding.ForwardResult: the inline script used when no retention is configured, and the expiry time of the key beyond that it may expire.
- LogTail.TailText: text values with surrogates, which the original cannot encode.
- CookieCodec.DecodeSignedJsonCookie: the session store around the cookies and their expiry.
- RetainedUri.ArtifactFilePath: authorities with brackets, control characters in a URI, symbolic links, roots written as file URLs and the two-slash root of POSIX.
- RateLimit.RateLimiter.IncrementRateLimit: the class answers one request at a time, so its read and write are one step; `RateLimitOverlap` separates them.
- RateLimit.RateLimiter.CheckRateLimit: requests that interleave are the subject of `RateLimitRace` and `RateLimitOverlap`. The audit record of a denial and a database that stays locked are not modelled.
- RateLimitRace.RaceBound: assumes that each increment is serialised, which the code does not ensure, and leaves out readings more than a minute apart that are in flight at once.
- RateLimitOverlap.OverlapBound: not shown to be attained when the window changes within the minute; the bound of a single window is. A fixed number of threads is in flight at most.
- CausalTime.MonotonicUtcClock.Now: overflow of the date range, and the order in which concurrent callers take the lock.
- CleanupSelection.SelectArtifactCleanupCandidates: the order in which selected files with equal modification times are listed, and files that vanish between two stat calls.
- Fanout.RetryJob: the fields of the retried job other than its status and batch.
