# Sous: a verified model

Sous keeps a Global Deploy Manifest (GDM), compares it with what runs on Singularity, and drives
the differences to zero. This project models the parts of it where that can go wrong and proves
what they keep:

- **The two-way mapping between manifests and deployments** (`StartupDefaults`, `DeployConfigs`,
  `OwnerSets`, `ManifestMapping`, `ManifestLens`, `StateUpdate`). Manifests are expanded into
  deployments by filling in cluster defaults, and put back by stripping the defaults the old
  manifests left out. `lib/manifest.go:18` calls this a direct two-way mapping. It is one under
  conditions that are stated and proved exactly, in both directions: get-put, put-get, and what
  an upsert and a write of one cluster change.
- **The rectification queue** (`QueueModel`, `R11nQueue`, `R11nQueueSet`). Pushers and one
  consumer interleave; the consumer receives outside the lock and corrects positions later under
  it. The step machine carries the laws; the class is proved to take exactly its steps.
- **The scan of running deployments** (`ClusterScan`): request tokens, assemblers, retries, three
  wait groups, the closing goroutine and the collecting loop, with termination, absence of
  deadlock and conservation.
- **The pair pipeline and its first processor** (`Pipeline`, `PipelineChain`, `NameResolver`), one
  segment and two running in a row.
- **The status poller** (`StatusPoller`, `SubPoller`): reports of many clusters folded into one.
- **The diff engine** (`Volumes`, `Differences`, `DeploymentDiffs`, `Rectification`): which pairs a
  comparison yields, where they lead, and which Singularity calls they cause.
- **Identifiers as strings** (`Identifiers`).

`Types` holds the entities, `Ordering` sorting, `Families` unions of maps.

Code that loops and assigns is a method with invariants, or a class whose methods update fields,
proved against a specification function; concurrent code is a machine whose events are the
atomic steps of the goroutines, and its laws hold for every run. Loops over Go maps visit keys in
an arbitrary order here too.

## What the code does not keep

Each of these is a lemma, with the exact condition where there is one.

- Putting back and expanding loses a deployment's explicit zero where its cluster has a default
  (`PutGet`, `ExplicitZeroLost`). A deployment may carry a cluster of its own, which strips it
  while the defined one fills it in again: a value that was a default in an outdated copy of the
  cluster is lost too (`StaleDefaultLost`), and a deployment whose own cluster hides that its name
  is undefined is put back, but what was put back then cannot be expanded (`PutExpandable`).
- The first visited deployment of a manifest decides its owners and the last its kind
  (`FirstDecidesOwners`, `LastDecidesKind`), so the result depends on the order of a map loop
  unless they agree (`OrderIrrelevantIffAgree`).
- Expanding and putting back drops manifests without deployments and rewrites owner lists that are
  not alphabetical (`GetPut`, `EmptyManifestDropped`).
- `WriteCluster` upserts, so removals are not carried through (`WriteClusterRemovesNothing`,
  `EmptyWriteRemovesNothing`). The cluster it names has no effect on what is stored: deployments of
  other clusters among the written ones are written too (`WriteClusterReadBack`).
- A spec keeps its own values over those it inherits (`OwnValuesWin`) except its startup checks,
  which are those of the last spec it inherits from (`OwnStartupKept`, `OwnStartupLost`). The
  expansion of manifests passes none, so a manifest does not meet this.
- A queued rectification can have a negative position before it is handled, which
  `server/handle_r11n.go:89` takes to mean that its resolution is there
  (`NegativePositionWhileQueued`). From a capacity of a hundred on, an unfinished rectification
  can be unfindable (`UnfinishedLost`), namely whenever more than a hundred are unfinished
  (`FindableIffFew`), and `Snapshot` can invert push order (`SnapshotInverted`); below it neither
  happens. Above a hundred even a position in the channel can be stale
  (`QueuedPositionStale`).
- A listing error that decodes like a malformed deploy is swallowed. A scan that ends is complete or
  returns an error if none was swallowed, and is never complete if one was
  (`SoundUnlessSwallowed`): then it has panicked, returned an error, or returned without one though
  a listed request is missing (`ListedRequestLost`). Some run panics for every set of requests, if
  there is a cluster to list (`SomeRunPanics`).
- The pipeline hands its own errors to `HandleResolution` twice (`LocalErrorsHandledTwice`), and
  cancelling can leave its first goroutine sending forever, if and only if some input pair fails
  to process (`StrandsIffSomeFailure`).
- The poller can report completion while a cluster is still deploying, or not polled yet
  (`PrematureCompletion`, `CompleteWhileInProgress`, `CompleteWhileNotPolled`), and one failed retrieval counts as the end of a resolve cycle
  (`FailedRetrievalEndsCycle`).
- A pair that differs in metadata or status only is classified as modified and nothing is called
  for it (`ModifiedWithoutEffect`). Having no difference is not transitive
  (`DifferenceNotTransitive`); over two steps it is exactly when CPU and memory stay within the
  tolerance over both (`TransitiveIffNear`).
- Identifiers with a comma, colon or tilde in the wrong place, or an unusual first character, are
  not read back (`DeploymentRoundTrip`), also if the location came from a text that parses
  (`ParsedPrintable`).

## Model

| member | source | states |
|---|---|---|
| StartupDefaults.StartupGetPut | lib/startup.go:85-207 | stripping the defaults just filled in returns what was written, including a value that repeats a default |
| StartupDefaults.StartupPutGet | lib/startup.go:85-207 | filling in one cluster's defaults after stripping another's returns the value, failure statuses as a multiset, if and only if it carries every default of the first and that fills in again what the second stripped |
| StartupDefaults.EqualDefaultsStripAlike | lib/startup.go:85-207 | the second condition always holds for equal defaults |
| StartupDefaults.MergedCarries | lib/startup.go:85-134 | what was filled in carries every default |
| DeployConfigs.FlattenDeployConfigs | lib/deploy_config.go:225-269 | the earliest config that sets a value decides it, but the startup checks are those of the last config |
| DeployConfigs.FirstWinsKeys | lib/deploy_config.go:249-265 | an overlaid map has exactly the keys of all maps |
| DeployConfigs.FirstWinsAt | lib/deploy_config.go:249-265 | and each key has the value of the first map that sets it |
| DeployConfigs.FlattenSingle | lib/deploy_config.go:225-269 | flattening one config returns it |
| DeployConfigs.StripEnv | lib/map_state_to_deployments.go:74-93 | removes just the variables that repeat the cluster's value and that the old spec did not write out |
| DeployConfigs.EnvGetPut | lib/map_state_to_deployments.go:74-93 | stripping after inheriting returns the variables as written |
| DeployConfigs.EnvPutGet | lib/map_state_to_deployments.go:74-93 | inheriting from one cluster after stripping another's variables returns the variables if and only if they include all of the first one's and it has every stripped one with its value |
| OwnerSets.NewOwnerSet | lib/owner_set.go:12-18 | the set of the listed names |
| OwnerSets.Slice | lib/owner_set.go:71-78 | an alphabetical listing of the set, each name once |
| OwnerSets.SliceUnique | lib/owner_set.go:71-78 | there is only one such listing |
| Ordering.StrLeMeans | lib/owner_set.go:71-78 | alphabetical: a string comes first if it begins the other, or is smaller where they first differ |
| ManifestMapping.BuildDeployment | lib/map_state_to_deployments.go:189-211 | the deployment of the spec overlaid on those it inherits from, whatever these are, with the cluster's env and startup checks filled in |
| ManifestMapping.FlattenDeploySpecs | lib/map_state_to_deployments.go:213-227 | the overlaid configs under the earliest version that is set |
| ManifestMapping.FlattenedAlone | lib/map_state_to_deployments.go:213-227 | a spec that inherits from none is unchanged |
| ManifestMapping.OwnValuesWin | lib/map_state_to_deployments.go:213-227 | instances, volumes, schedule, version, env, resources and metadata that a spec sets win over what it inherits |
| ManifestMapping.OwnStartupKept | lib/deploy_config.go:249-266 | its startup checks survive if and only if it inherits from none or the last it inherits from has the same |
| ManifestMapping.OwnStartupLost | lib/deploy_config.go:249-266 | for every spec there is one to inherit from that takes them away |
| ManifestMapping.DeploymentsFromManifest | lib/map_state_to_deployments.go:169-186 | one deployment per spec under its own ID, or an error if and only if a cluster is undefined |
| ManifestMapping.AddAll | lib/deployments_generated.go:180-197 | union of disjoint maps, or the conflicting key |
| ManifestMapping.ManifestsDeployments | lib/map_state_to_deployments.go:18-31 | the union of all manifests' deployments, or the error |
| ManifestMapping.KeyedExpansion | lib/map_state_to_deployments.go:18-31 | manifests keyed by their IDs never conflict; the result has one deployment per spec |
| ManifestMapping.ExpandedExpands | lib/map_state_to_deployments.go:189-211 | the expansion has exactly one deployment per spec, on its defined cluster, with the manifest's source, flavor, owners and kind, the spec's version, config and variables over the cluster's, and its startup checks filled in field by field |
| ManifestMapping.PutDeployment | lib/map_state_to_deployments.go:47-98 | one round of putting back: manifest looked up or opened, spec stripped and set, kind overwritten |
| ManifestMapping.PutbackManifests | lib/map_state_to_deployments.go:34-109 | succeeds if and only if every deployment names a cluster and carries one or names a defined one; the result is that of putting back in some visiting order |
| ManifestLens.SpecGetPut | lib/map_state_to_deployments.go:74-98 | putting back the deployment built from a spec returns the spec literally |
| ManifestLens.SpecPutGet | lib/map_state_to_deployments.go:41-98 | building on the defined cluster from a spec that the deployment's own cluster stripped returns the deployment if and only if it carries the defined defaults, what was stripped is filled in again, and owners and kind match |
| ManifestLens.SameDefaultsStripAlike | lib/map_state_to_deployments.go:41-98 | the second condition always holds for clusters with the same defaults |
| ManifestLens.PutBackOutcome | lib/map_state_to_deployments.go:34-109 | whatever the visiting order, each spec depends on its own deployment and old spec alone |
| ManifestLens.GetPutManifest | lib/map_state_to_deployments.go:18-109 | a manifest comes back if it has a deployment, unchanged but for its owner list |
| ManifestLens.GetPut | lib/map_state_to_deployments.go:18-109 | get-put: expanding and putting back returns the same manifests if and only if each is non-empty with alphabetical, distinct owners |
| ManifestLens.EmptyManifestDropped | lib/map_state_to_deployments.go:18-109 | no manifest without deployments comes back |
| ManifestLens.PutExpandable | lib/map_state_to_deployments.go:18-109 | what was put back can be expanded if and only if every deployment names a defined cluster |
| ManifestLens.PutGet | lib/map_state_to_deployments.go:18-109 | put-get: putting back and expanding returns the same deployments if and only if all carry the defaults of their defined clusters, these fill in again what the deployments' own clusters stripped, and owners and kind agree per manifest |
| ManifestLens.DefinedStripAlike | lib/map_state_to_deployments.go:41-47 | the second condition holds for all deployments that carry the defined cluster or none |
| ManifestLens.ExplicitZeroLost | lib/map_state_to_deployments.go:74-98 | a deployment that sets zero where its cluster has a default does not come back |
| ManifestLens.StaleDefaultLost | lib/map_state_to_deployments.go:41-98 | no value that is a default only in the deployment's own copy of the cluster comes back, though all defined defaults are carried and owners and kinds agree |
| ManifestLens.FirstDecidesOwners | lib/map_state_to_deployments.go:49-69 | the deployment of a manifest that is visited first decides its owners |
| ManifestLens.LastDecidesKind | lib/map_state_to_deployments.go:94-98 | the one visited last decides its kind |
| ManifestLens.OrderIrrelevantIffAgree | lib/map_state_to_deployments.go:34-109 | all visiting orders put back the same manifests if and only if owners and kind agree per manifest |
| StateUpdate.State.Deployments | lib/map_state_to_deployments.go:13-15 | the expansion of the state, field by field, or an error if and only if a cluster is undefined |
| StateUpdate.State.UpdateDeployments | lib/state.go:229-246 | either the whole upsert or no change |
| StateUpdate.SetEachLast | lib/state.go:229-246 | of several deployments of one ID the last is upserted |
| StateUpdate.UpsertFrame | lib/state.go:229-246 | no spec disappears and those not addressed are literally unchanged |
| StateUpdate.UpsertReadBack | lib/state.go:229-246 | the expansion is the old one overridden by the written deployments, if and only if those carry their defaults, their own clusters strip them as the defined ones would, and manifests agree |
| StateUpdate.ClusterManager.ReadCluster | lib/cluster_manager.go:44-57 | exactly the deployments of the named cluster, field by field |
| StateUpdate.ClusterManager.WriteCluster | lib/cluster_manager.go:60-85 | what is stored after a write, and nothing on an error |
| StateUpdate.WriteClusterFrame | lib/cluster_manager.go:60-85 | the specs of all deployments that are not written are literally unchanged, and none disappears |
| StateUpdate.OtherClustersUntouched | lib/cluster_manager.go:60-85 | so writing deployments of one cluster only leaves every other cluster's specs as they were |
| StateUpdate.WriteClusterReadBack | lib/cluster_manager.go:44-85 | every cluster reads as before, overridden by what was written for it, if and only if the written deployments meet the conditions of put-get |
| StateUpdate.WriteClusterRemovesNothing | lib/cluster_manager.go:60-85 | reading a cluster back yields just what was written for it if and only if that mentions every old deployment |
| StateUpdate.EmptyWriteRemovesNothing | lib/cluster_manager.go:60-85 | whatever is stored, a cluster that is written empty reads as before |
| QueueModel.FifoExactlyOnce | lib/r11n_queue.go:125-138 | finished, in-flight and queued items are together the accepted sequence; `refs` is the unfinished part, of size at most capacity plus one |
| QueueModel.PushNeverBlocks | lib/r11n_queue.go:157-199 | the send made while holding the lock can complete at once |
| QueueModel.PushIfEmptyMeansAllFinished | lib/r11n_queue.go:190-199 | it succeeds if and only if everything accepted earlier has finished |
| QueueModel.RingAgreesWithHistory | lib/r11n_queue.go:167-185 | `allRefs` and the ring hold exactly the last hundred accepted IDs |
| QueueModel.FindableIffFew | lib/r11n_queue.go:102-117 | in every reachable state everything unfinished is findable if and only if that is at most a hundred items |
| QueueModel.UnfinishedFindable | lib/r11n_queue.go:102-117 | below a capacity of a hundred every unfinished item is findable |
| QueueModel.UnfinishedLost | lib/r11n_queue.go:12 | for every larger capacity a run loses one |
| QueueModel.PositionExact | lib/r11n_queue.go:208-221 | the position of each of the last hundred accepted items differs from its channel index by at most one, and by what exactly |
| QueueModel.QueuedPositionExact | lib/r11n_queue.go:208-221 | while the channel holds at most a hundred items, that covers all of them, for every capacity |
| QueueModel.QueuedPositionStale | lib/r11n_queue.go:217-221 | for every larger capacity a run leaves a queued item with a position that is too high |
| QueueModel.PositionNeverTooLow | lib/r11n_queue.go:208-221 | for every capacity and every accepted item the position is at least the exact one |
| QueueModel.PositionExactWithAtomicPop | lib/r11n_queue.go:208-221 | positions are exact in runs where nothing comes between a receive and its correction |
| QueueModel.PositionsMonotone | lib/r11n_queue.go:87-98 | among the last hundred accepted items positions never invert push order; when two are equal, exactly |
| QueueModel.UnfinishedMonotone | lib/r11n_queue.go:87-98 | while at most a hundred items are unfinished, positions never invert their push order, for every capacity |
| QueueModel.SmallCapacity | lib/r11n_queue.go:12 | which small capacities ensure that |
| QueueModel.SnapshotInverted | lib/r11n_queue.go:87-98 | for every capacity from a hundred on a run inverts it |
| QueueModel.NegativePosition | lib/r11n_queue.go:217-221 | finished items have a negative position; which others have, exactly |
| QueueModel.NegativePositionWhileQueued | server/handle_r11n.go:86-91 | an item still in the channel can have a negative position |
| QueueModel.Drains | lib/r11n_queue.go:125-152 | from every reachable state the consumer's own steps, as many as remain, run to a state where everything accepted has finished |
| QueueModel.ConsumerRuns | lib/r11n_queue.go:125-138 | every run of the consumer alone uses up its remaining steps one by one and accepts nothing |
| QueueModel.HistoryGrows | lib/r11n_queue.go:125-138 | accepted items stay in order and a closed `done` is never closed again or reopened |
| R11nQueues.R11nQueue.InternalPush | lib/r11n_queue.go:167-185 | position, references, ring and channel after a push |
| R11nQueues.R11nQueue.Push | lib/r11n_queue.go:157-164 | refuses exactly a full queue, else takes the machine's step |
| R11nQueues.R11nQueue.PushIfEmpty | lib/r11n_queue.go:190-199 | accepts exactly when all accepted before has finished |
| R11nQueues.R11nQueue.Receive | lib/r11n_queue.go:208-214 | takes the oldest queued item, outside the lock |
| R11nQueues.R11nQueue.HandlePopped | lib/r11n_queue.go:217-221 | moves every remembered unfinished item up one place |
| R11nQueues.R11nQueue.Finish | lib/r11n_queue.go:125-138 | drops the reference and closes `done` of the item in flight |
| R11nQueues.R11nQueue.ByID | lib/r11n_queue.go:102-107 | finds exactly the IDs in `allRefs` |
| R11nQueues.R11nQueue.Snapshot | lib/r11n_queue.go:87-98 | exactly the unfinished items with their positions, ascending |
| R11nQueues.SnapshotInPushOrder | lib/r11n_queue.go:87-98 | while at most a hundred items are unfinished it lists them in push order, but for equal positions |
| R11nQueueSets.R11nQueueSet.Push | lib/r11n_queue_set.go:56-66 | pushes to the queue of the deployment, creating it if needed, and touches no other queue |
| R11nQueueSets.R11nQueueSet.PushIfEmpty | lib/r11n_queue_set.go:42-52 | pushes only if that deployment's queue has finished everything, and touches no other queue |
| R11nQueueSets.QueuesAreIndependent | lib/r11n_queue_set.go:42-66 | each queue runs as if alone on the events of its own ID |
| R11nQueueSets.Exclusion | lib/r11n_queue_set.go:42-66 | at most one rectification per deployment is executing, and all accepted before it have finished |
| ClusterScan.AssemblyVerdict | ext/singularity/deployment_builder.go:59-103 | the three errors that are dropped; any other can be retried under URL and ID if the request has both, and is fatal otherwise |
| ClusterScan.RetryCounter.Maybe | ext/singularity/actual_deployment_set.go:122-143 | retries a name at most four times and counts it |
| ClusterScan.WaitGroupCountsUnresolved | ext/singularity/actual_deployment_set.go:42-118 | while the scan runs its three wait groups count the listers at work, the unresolved requests short of the swallowed errors, and the assemblers |
| ClusterScan.ReturnedOkIsComplete | ext/singularity/actual_deployment_set.go:42-118 | after a successful return as many listed requests are missing as listing errors were swallowed; all others were assembled and offered, or failed to assemble with one of the three errors that are dropped |
| ClusterScan.Provenance | ext/singularity/actual_deployment_set.go:97-118 | in every run, what is offered was assembled, what is dropped failed with one of the three errors, and an error being handled is that of the request's own assembly |
| ClusterScan.ErrorDecides | ext/singularity/actual_deployment_set.go:106-115 | such an error is dropped, one that can be retried is up to four times per name, and any other returns an error |
| ClusterScan.ListingErrorDecides | ext/singularity/actual_deployment_set.go:106-115 | a listing error ends the scan if and only if it is none of the three |
| ClusterScan.OnlyErrorsReturn | ext/singularity/actual_deployment_set.go:97-118 | nothing else returns an error |
| ClusterScan.ClosedIsQuiet | ext/singularity/actual_deployment_set.go:76-95 | unless a listing error was swallowed, the channels are closed only when every request is resolved and every assembler gone |
| ClusterScan.PoolBounded | ext/singularity/actual_deployment_set.go:226-259 | at most a hundred assemblers hold a place in the pool, and no channel exceeds its capacity |
| ClusterScan.PanicsOnlyAfterSwallowing | ext/singularity/actual_deployment_set.go:97-115 | a scan panics only after swallowing a listing error |
| ClusterScan.SoundUnlessSwallowed | ext/singularity/actual_deployment_set.go:42-118 | a scan that ends is complete or returns an error if no listing error was swallowed, and is never complete if one was |
| ClusterScan.SomeRunPanics | ext/singularity/actual_deployment_set.go:97-115 | some run panics if and only if there is a cluster to list |
| ClusterScan.RetriesBounded | ext/singularity/actual_deployment_set.go:122-143 | in every run, however it ends, at most four retries per name, and each name is the URL and ID of a listed request |
| ClusterScan.RunsTerminate | ext/singularity/actual_deployment_set.go:42-259 | every run is finite, with a bound |
| ClusterScan.NoDeadlock | ext/singularity/actual_deployment_set.go:42-259 | while the scan runs some goroutine can move, for every channel capacity |
| ClusterScan.ListedRequestLost | ext/singularity/actual_deployment_set.go:178-209 | a run that returns successfully with a listed request still queued |
| Pipeline.ReceivedSoFar | lib/pipeline.go:25-95 | at all times, cancelled or not, what was received is a prefix of what is owed, pairs and errors of each origin in order |
| Pipeline.NothingLost | lib/pipeline.go:25-95 | a segment that finishes uncancelled passed on all processed pairs and all errors once, and closed everything |
| Pipeline.LocalErrorsHandledTwice | lib/pipeline.go:53-57 | `HandleResolution` sees upstream errors once and local errors twice |
| Pipeline.NoSendAfterClose | lib/pipeline.go:38-63 | no send follows a close and no channel is closed twice |
| Pipeline.RunsTerminate | lib/pipeline.go:25-95 | every run has at most six steps per pair, three per error and ten more |
| Pipeline.Progress | lib/pipeline.go:25-95 | with drained outputs a segment that has not finished can move unless it is stranded |
| Pipeline.StrandedOnlyByCancelling | lib/pipeline.go:45-58 | stranding takes a cancellation |
| Pipeline.StrandedForGood | lib/pipeline.go:45-58 | a stranded segment stays so and its wait group never empties |
| Pipeline.CancellingStrands | lib/pipeline.go:45-58 | for every input in which some pair fails, a cancelled run strands |
| Pipeline.StrandsIffSomeFailure | lib/pipeline.go:45-58 | some run strands if and only if some pair of the input fails |
| PipelineChain.ChainReceivedSoFar | lib/pipeline.go:25-95 | of two segments running in a row, what has come out is at all times a prefix of what both owe |
| PipelineChain.TwoInARow | lib/pipeline.go:25-95 | when the second has finished uncancelled so has the first, and the pairs are those both pass on, in input order, with every error once and each kind in order |
| PipelineChain.ChainRunsTerminate | lib/pipeline.go:25-95 | every run of the two is finite, with a bound |
| PipelineChain.ChainProgress | lib/pipeline.go:25-95 | uncancelled, the two can always move until the second has finished |
| NameResolver.GuardImage | lib/nameresolver.go:77-107 | the artifact, or the first objection |
| NameResolver.NoObjection | lib/nameresolver.go:86-105 | there is an objection if and only if some advisory is not allowed by the cluster |
| NameResolver.JudgedMeans | lib/nameresolver.go:77-107 | an image is accepted if and only if nothing is to run, or the registry has it and the cluster allows every advisory; and what each refusal means |
| NameResolver.ResolveName | lib/nameresolver.go:60-75 | sets the artifact or says why not |
| NameResolver.HandlePairs | lib/nameresolver.go:28-58 | unchanged and removed pairs pass, the others get their artifact or an error |
| NameResolver.PassesIff | lib/nameresolver.go:28-58 | which pairs must pass, and the ID a refusal carries |
| NameResolver.PassedIsNamed | lib/nameresolver.go:28-58 | a pair passed on may be deployed, and is otherwise the pair that came in |
| NameResolver.EveryPairAccountedFor | lib/nameresolver.go:17-58 | after a finished run the names of the pairs that came out and the IDs of the errors are together, each as often, the names of the input pairs |
| NameResolver.EveryDeploymentSettledOnce | lib/nameresolver.go:17-58 | fed with a comparison of states, every deployment on either side comes out exactly once, as a pair or as an error |
| StatusPollers.StatusPoller.NextSubStatus | lib/status_poller.go:188-200 | the report is recorded and ends the cycle if the resolve ID changed |
| StatusPollers.StatusPoller.ComputeStatus | lib/status_poller.go:216-274 | the status is a function of the sets of last reports before and after the cycle change, whatever order the map is visited in |
| StatusPollers.Combine | lib/status_poller.go:240-273 | the decisions on the four accumulators in terms of those two sets |
| StatusPollers.StatusPoller.Finished | lib/status_poller.go:202-214 | stores the status and says whether it is one of the four that end polling |
| StatusPollers.Poll | lib/status_poller.go:162-186 | returns after the first report that makes the status terminal |
| StatusPollers.StateIsHistory | lib/status_poller.go:188-200 | a cluster is in its last cycle if and only if two consecutive reports had a resolve ID and then another |
| StatusPollers.LastCycleMeans | lib/status_poller.go:188-200 | the same in terms of the reports' resolve IDs |
| StatusPollers.FirstCycleStatus | lib/status_poller.go:216-274 | before any last cycle, terminal only as complete or unreachable; each exactly when |
| StatusPollers.LastCycleStatus | lib/status_poller.go:216-274 | with all clusters in their last cycle, complete if and only if all are |
| StatusPollers.NeverSlipsBack | lib/status_poller.go:188-274 | once a cluster is in its last cycle the status never again falls below in-progress |
| StatusPollers.TerminalStatuses | lib/status_poller.go:216-274 | if no cluster reports that nothing is intended, a terminal status is complete, failed or unreachable |
| StatusPollers.FailedMeans | lib/status_poller.go:216-274 | failed if and only if a cluster was overtaken, or failed in its last cycle while none is unreachable and the first cycle is not complete |
| StatusPollers.HttpFailedMeans | lib/status_poller.go:216-274 | unreachable if and only if a cluster is, none was overtaken and the first cycle is not complete |
| StatusPollers.CompleteMeans | lib/status_poller.go:216-274 | complete if and only if none was overtaken and the first cycle is complete, or all in their last cycle are and the others not polled |
| StatusPollers.EarlyMeans | lib/status_poller.go:252-255 | before any last cycle otherwise the furthest report, but at most in-progress |
| StatusPollers.LateMeans | lib/status_poller.go:257-273 | after that otherwise in-progress while another cluster has been polled in its first cycle, else the least report of the last cycle, but at least in-progress |
| StatusPollers.PrematureCompletion | lib/status_poller.go:235-270 | exactly when the status is complete though some cluster is not |
| SubPollers.ServerIntent | lib/subpoller.go:140-160 | the only intended deployment at the location, if there is just one |
| SubPollers.DiffResolutionFor | lib/subpoller.go:123-138 | the first log entry about the manifest |
| SubPollers.SubPoller.PollOnce | lib/subpoller.go:76-112 | reports unreachable if and only if the last eleven retrievals failed |
| SubPollers.SubPoller.Start | lib/subpoller.go:51-66 | everything that is sent, for any sequence of answers |
| SubPollers.MeaningRange | lib/subpoller.go:165-235 | no answer means not intended or not polled |
| SubPollers.MeaningMeans | lib/subpoller.go:93-112 | an answer means what its resolve in progress conveys if that has reached the deployment, else what the completed one does; missing intentions are taken from beside |
| SubPollers.UnreachedMeans | lib/subpoller.go:165-189 | not started, another version or pending, each exactly when, by the one deployment intended at the location and the log entries |
| SubPollers.ReachedMeans | lib/subpoller.go:191-235 | otherwise the first log entry decides: transient error, other error, unchanged, coming, or anything else |
| SubPollers.CompleteMeans | lib/subpoller.go:76-235 | what an answer has to say to mean success, exactly |
| SubPollers.CycleEndsWithResolve | lib/subpoller.go:51-74 | a cluster changes to its last cycle if and only if consecutive answers name different resolves |
| SubPollers.FailedRetrievalEndsCycle | lib/subpoller.go:68-91 | one failed retrieval during a resolve is enough |
| SubPollers.LastReport | lib/status_poller.go:188-200 | what the poller knows of a cluster is what its sub-poller made of the last answer |
| SubPollers.PollingEnds | lib/status_poller.go:162-274 | for all reports that sub-pollers send, in any interleaving, polling ends only as complete, failed or unreachable |
| SubPollers.CompletionMeans | lib/status_poller.go:216-238 | completion before any last cycle means that the latest answer of every reporting cluster says so |
| SubPollers.CompleteWhileInProgress | lib/status_poller.go:235-238 | for every deployment, server answers after which polling ends as complete while a cluster is deploying |
| SubPollers.CompleteWhileNotPolled | lib/status_poller.go:258-268 | for every deployment, server answers after which polling ends as complete while a cluster has only announced itself |
| Volumes.StrikeOff | lib/volumes.go:42-53 | one equal volume is struck off the copy, if there is any |
| Volumes.Equal | lib/volumes.go:32-63 | true if and only if the lists are equal as multisets; both stay unchanged |
| Differences.StatusesDiffer | lib/startup.go:252-262 | compares as multisets, and leaves both lists sorted when their lengths agree, also when they are one list |
| Differences.SortInts | lib/startup.go:255-256 | sorts in place, ascending |
| Differences.StartupDiff | lib/startup.go:214-283 | exactly the fields that differ, skipped checks counting as unset |
| Differences.MapEqual | lib/deploy_config.go:182-211 | equal size and inclusion mean equality |
| Differences.OwnerDiff | lib/owner_set.go:54-68 | exactly the size difference and the missing owners; empty if and only if the sets are equal |
| Differences.ConfigDiff | lib/deploy_config.go:121-155 | exactly the differences; its boolean says that there are none |
| Differences.DeploymentDiff | lib/deployment.go:191-235 | exactly the differences; its boolean says that there are some |
| Differences.NoDifference | lib/deployment.go:191-235 | what deployments without differences share, field by field |
| Differences.SourceAndUse | lib/source_id.go:89-97 | sources are equal by location and version but for build metadata; resources by size, ports, and CPUs and memory within a thousandth |
| Differences.DifferenceSymmetric | lib/deployment.go:191-235 | having a difference is symmetric and irreflexive |
| Differences.DifferenceNotTransitive | lib/resources.go:151-174 | having none is not transitive, also away from the tolerance's boundary |
| Differences.TransitiveIffNear | lib/resources.go:151-174 | two steps without a difference make one if and only if CPU and memory stay within the tolerance over both |
| DeploymentDiffs.Diffs | lib/deployable_pair.go:54-63 | the differences of a pair and whether its statuses differ |
| DeploymentDiffs.Kind | lib/deployable_pair.go:38-51 | added, removed, modified if and only if something differs, or same |
| DeploymentDiffs.StateDiffer.constructor | lib/deployment_diff.go:58-69 | indexes states by their own ID |
| DeploymentDiffs.StateDiffer.Diff | lib/deployment_diff.go:116-138 | one pair per ID on either side, with the right sides, and none twice |
| DeploymentDiffs.PromoteAll | lib/deployment_diff.go:84-91 | every deployment with the given status |
| DeploymentDiffs.DiffStates | lib/deployment_diff.go:36-46 | the exact pairs of what runs against what is intended, as active |
| DeploymentDiffs.PairExisting | lib/deployment_diff.go:145-171 | the pair of one existing deployment |
| DeploymentDiffs.Differ.Diff | lib/deployment_diff.go:140-181 | one pair per ID on either side; without a difference the prior deployment is on both |
| DeploymentDiffs.DiffDeployments | lib/deployment_diff.go:49-56 | the exact pairs of two sets of deployments |
| DeploymentDiffs.StatePairsLeadThere | lib/deployment_diff.go:116-138 | carrying out the pairs, in any order, turns the prior set into the target |
| DeploymentDiffs.DeploymentPairsLeadThere | lib/deployment_diff.go:140-181 | carrying out the pairs yields the target's IDs, each with the target's deployment or a prior one without a difference from it |
| DeploymentDiffs.StatePairKinds | lib/deployable_pair.go:38-51 | classifying never panics; each kind holds exactly when membership and differences say so |
| DeploymentDiffs.DeploymentPairKinds | lib/deployable_pair.go:38-51 | for two sets of deployments too classifying never panics, and modified means that the two differ |
| DeploymentDiffs.StatePairSides | lib/deployment_diff.go:93-138 | the prior side is the known state, the post side the existing one, and the executor data the known state's |
| DeploymentDiffs.DeploymentPairSides | lib/deployment_diff.go:140-181 | for two sets of deployments both sides are active, and the post side is the known deployment if nothing differs |
| DeploymentDiffs.SelfDiff | lib/deployment_diff.go:36-56 | a set compared with itself yields unchanged pairs only |
| DeploymentDiffs.SettledIffActive | lib/deployment_diff.go:36-46 | what runs is left alone if and only if it is active, intended and without a difference |
| Rectification.ChangesReq | ext/singularity/deployer.go:266-271 | whether kind, schedule of a scheduled job, instances or owners differ |
| Rectification.ChangesDep | ext/singularity/deployer.go:273-281 | whether a side failed, or source, resources, env, volumes or checks differ |
| Rectification.RequestDifferences | ext/singularity/deployer.go:266-271 | the request is posted if and only if `Deployment.Diff` lists a difference in kind, schedule, owners or instances |
| Rectification.DeployDifferences | ext/singularity/deployer.go:273-281 | without failures a deploy is made if and only if `Deployment.Diff` lists a difference in source, resources, env, volumes or checks |
| Rectification.RectifySingleModification | ext/singularity/deployer.go:221-258 | which calls are made and in which order, in terms of the listed differences |
| Rectification.RectifiesIffDifferent | ext/singularity/deployer.go:266-281 | something is called for if and only if a difference other than metadata is listed |
| Rectification.VersionsDecide | ext/singularity/deployer.go:273-281 | a new version is always deployed, other build metadata alone never is |
| Rectification.ModifiedWithoutEffect | ext/singularity/deployer.go:266-281 | when a pair is modified and nothing is called for, exactly |
| Identifiers.LocationRoundTrip | lib/source_location.go:52-109 | a printed location is parsed back if and only if it has a repository that starts plainly, and no comma |
| Identifiers.ManifestRoundTrip | lib/manifest_id.go:40-77 | a printed manifest ID is parsed back if and only if its location is printable or empty and there is no tilde |
| Identifiers.DeploymentRoundTrip | lib/deploymentid.go:21-56 | a printed deployment ID is parsed back if and only if its manifest ID is and the cluster's name has no colon |
| Identifiers.PrintingInjective | lib/deploymentid.go:54-56 | printing keeps such IDs apart |
| Identifiers.PrintingCollides | lib/source_location.go:104-109 | different IDs with the same text, for every non-empty directory |
| Identifiers.PrintedForm | lib/deploymentid.go:54-56 | the text of an identifier with all four parts |
| Identifiers.ParsedPrintable | lib/source_id.go:115-131 | a parsed location prints as something that parses to the same if and only if the text starts plainly, or behind its own delimiter, which is or could be the comma |
| Identifiers.ParsedNotPrintable | lib/source_id.go:115-131 | a text where it does not |
| Identifiers.LocationRefused | lib/source_location.go:52-65 | which texts are refused as locations, exactly |
| Identifiers.ManifestRefused | lib/manifest_id.go:65-77 | a manifest ID is refused if and only if it has more than one tilde; a refused location reads as empty |
| Identifiers.DeploymentRefused | lib/deploymentid.go:21-38 | a deployment ID is refused if and only if it has no colon, or more than one tilde after the first |

## Left out

- State and containers: nil and empty maps and slices are one value. Deployments and manifests are
  keyed by their own ID wherever the callers keep them so; this is a `requires` of the members
  concerned.
- Aliasing: deployments, manifests and pairs are values. That `PutbackManifests` assigns the
  cluster of the caller's deployments, and that sorting failure statuses also sorts the slices of
  the cluster's defaults and of the caller's deployments, shows only in `StatusesDiffer` and in the
  order of the statuses a put-back spec holds. The artifact that `resolveName` stores in a shared
  deployable is part of its result here.
- ManifestMapping.PutbackManifests: the last loop, which sets each manifest under its key again, has
  no effect and is not modelled; nor is the cluster name a spec carries beside its key. An error
  names some undefined cluster; which one depends on the visiting order.
- RawManifests, `Manifests.Validate`, flaws and repairs, advisories beyond the image guard, and
  `ResolveFilter` matching, which are parameters where needed.
- Etags and storage: reading and writing the state succeed or fail as parameters say.
- R11nQueues.R11nQueue.Push: items are kept in a map by ID instead of behind shared references, IDs
  are fresh by assumption, and the consumer is started once. `Receive`, `HandlePopped` and `Finish`
  are the steps of the loop that `Start` begins; what the handler does is not modelled, and the
  resolution it returns is not stored. A push is one step, although the consumer may receive
  between its reads of the channel's length and its send: a receive before the position is read
  has the effect of one before the push, and a receive after it of one right after the push.
- ClusterScan.RunsTerminate: channels are sets of tokens without order. A failed listing that is not
  swallowed, or a panic in the collecting loop, ends the scan in one step; goroutines that outlive
  the return are not followed. Assembling a deployment from Singularity's answers is an outcome
  chosen freely. A listing or assembling goroutine that panics, and so sends an error without a
  name to retry, is not modelled: an assembler fails only with an error, and a lister only before
  it has listed anything. Nor are sends that fail because, after a swallowed listing error, the
  channels were closed too early; the goroutines recover from these.
- Pipeline.NothingLost: the processor is a function of the pair, the input channels deliver
  finitely many values and are then closed, and the consumer's receives are events of the run.
- NameResolver.HandlePairs: the UUID of a pair, which the source does not copy, and log messages. A
  pair without either side panics in the source and is excluded.
- SubPollers.SubPoller.PollOnce: what a failed retrieval may already have decoded is ignored. Errors
  are transient or permanent as given; their texts are not modelled.
- StatusPollers.Poll: which clusters are polled, and those that have not reported yet, do not enter
  the status, as in the source; real time and cancellation by the caller are left out.
- Differences.DeploymentDiff: lists hold kinds of difference instead of texts. Nil volumes, which
  panic, do not occur. Numbers in resources are parsed by a parameter and compared over the reals;
  differences of exactly the tolerance, which floating point decides either way, count as none.
- DeploymentDiffs.StateDiffer.Diff: pairs are appended to a sequence instead of sent on a channel;
  executor messages and scheduler URLs of a state are not modelled.
- Rectification.RectifySingleModification: missing executor data, recovery from panics, and what the
  client sends. Creation and deletion only forward calls.
- Identifiers.DeploymentRoundTrip: strings are ASCII, so Unicode normalisation is the identity.
  Versions are not parsed; `SourceID` texts are left out.
- SQL and git storage, HTTP handlers and clients, the command line, Docker registries, logging.
