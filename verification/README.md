# Urban development generator: verified model

This project models, in Dafny, the parts of the backend in which several steps, several workers or several
calls have to fit together, and proves what they promise.

- **Artifact promotion.** `S3Promotion.dfy` turns `promote` on an S3-compatible bucket into a worker that
  sends one request at a time; any number of workers interleave, any request may fail before or after taking
  effect, and a crashed worker is one that is never scheduled again. `S3PutRace.dfy` adds a put of the same key.
  `LocalStore.dfy` is the filesystem store: four files per key, and operations that may stop between any two file
  operations.
- **Garbage-collection scans.** `S3GcScan.dfy` is the rotating two-state cursor over a bucket, `S3GcFill.dfy`
  determines from the listing how far a call gets, and `S3GcCoverage.dfy` what consecutive calls cover or never
  see; `LocalGcScan.dfy` is the resumable directory walk.
- **Road diagnostics.** `RoadGraph.dfy` says what connection, components and degrees are; `RoadDiagnostics.dfy`
  proves that union-find with path compression and the counters compute them.
- **Checkpoints.** `CheckpointEncoding.dfy` decodes the bytes fed to the digests; `CheckpointReuse.dfy` derives
  that reusing persisted stage results agrees with executing everything.
- **Stage plans.** `StageGraph.dfy`, `StageRegistry.dfy` and `StagePlan.dfy` cover the depth-first cycle check,
  the topological sort with a priority queue and the skip closure; `PlanAssumptions.dfy` shows that the plans
  meet what checkpoint reuse and generation take for granted.
- **Generation.** `Generation.dfy` is one attempt at a run as a machine that makes one call per step, with
  cancellation arriving at any moment and every call free to raise; `GenerationRuns.dfy` proves what every run
  promises, `GenerationTraces.dfy` what log and outcome have to do with the answers of the calls,
  `GenerationUndisturbed.dfy` the log of a run that nothing disturbs, and `GenerationService.dfy` that `run`, as written,
  is that machine. `GenerationState.dfy` is the rows of
  run, job and stages with the transactions over them, `GenerationStateStore.dfy` the store that performs these, and
  `GenerationHistories.dfy` what any sequence of them keeps, over all attempts, workers and requests.
- **Comparison.** `Ranking.dfy` and `RunCompare.dfy`: competition ranks by sorting and scanning, and their use
  for scores and metrics.
- **Road sources.** `SourceReference.dfy` prints and parses layer references, `FixedRoads.dfy` reads the roads of
  a snapshot within a budget, and `Snapshots.dfy` builds the snapshots and proves that the two agree.
- **Uploads.** `Upload.dfy`: the size-limited reader and the put, promote, create transaction over the local store.
- **Scenario matrices.** `ScenarioMatrix.dfy`: the canonical expansion of seeds and configurations.

`Prelude.dfy`, `Arithmetic.dfy`, `Artifacts.dfy`, `Ordering.dfy` and `Sorting.dfy` hold what these share. `dafny verify dfyconfig.toml`
checks everything.

## What the code does not promise

Some properties one would expect fail. Each is proved to fail on a concrete input, and the exact condition
under which it holds is proved as well.

- The S3 scan leaves a gap when `max_results` is reached inside the last page of a listing, because the cursor is
  then reset as if the page had been read to its end; the exact condition, before the call, is
  `S3GcCoverage.CallSkipsExactlyWhen`. Without gaps everything is covered (`S3GcCoverage.ScanCoversBucket`); when
  every call leaves one, what the first left out is never seen (`S3GcCoverage.SkippedStaysUnseen`), and there are
  such buckets (`S3GcCoverage.SecondObjectStarves`), although the docstring calls the scan rotating.
- The local scan never returns a run key that ends in `.tmp`, although such keys are legal
  (`LocalGcScan.TemporaryNameIsNeverCollected`); it returns every other stale key (`LocalGcScan.PassCollectsTree`).
- A put to the local store that is interrupted between its two replaces, over an older sidecar of the same size,
  leaves a `stat` that reports the old checksum (`LocalStore.SameSizeReplacementCanTear`). Without such a put,
  and only then, `stat` is honest throughout (`LocalStore.StatIsHonestExactlyWithoutTornPut`).
- A put on S3 that overlaps a promotion of the same key can be lost (`S3PutRace.OverlappingPutIsLost`); when exactly
  is `S3PutRace.LatePayloadIsLostExactlyWhen`, and whether it can be is decided when the PUT takes effect
  (`S3PutRace.LossCanFollowExactlyWhen`).
- A stage that has failed can be cancelled too, when the cancellation is raised by `fail_run`
  (`GenerationRuns.FailureThenCancellation`); a stage ends twice in exactly that case (`GenerationRuns.EndingsFit`).
- A generation run that was claimed is not ended when the error handler's check, `fail_stage` or `fail_run` raises
  anything but the cancellation, or when `cancel_stage` or `cancel_run` raises at all; otherwise it is ended
  (`GenerationRuns.EveryRunKeepsItsPromises`). A run that is left so (`GenerationRuns.ClaimedRunStaysOpen`) stays running,
  and every further claim is told that it is in progress (`GenerationHistories.AbandonedRunStaysRunning`).

## Model

| member | source | states |
|---|---|---|
| S3Promotion.PromotionLosesNothing | backend/app/adapters/s3_artifact_store.py:238-282 | Over any interleaving of any number of promoting workers, with requests failing before or after their effect and retries, the original content stays available, the ready object is written at most once and never changes, and the temporary object goes only when an equal ready object exists |
| S3Promotion.PromotionsAgree | backend/app/adapters/s3_artifact_store.py:243-282 | In those runs every call that ends failed on a request or returned the one stat of the ready object, and once one has returned nothing is temporary any more; no call raises KeyError or a contract error |
| S3Promotion.NoFaultsNoFailures | backend/app/adapters/s3_artifact_store.py:243-282 | When no request goes wrong no call of any worker fails, however they race |
| S3Promotion.AnyWorkerCompletes | backend/app/adapters/s3_artifact_store.py:254-282 | In every reachable state each unfinished call, left alone, completes the promotion, except one refused the copy while nothing is ready, which fails and changes nothing |
| S3Promotion.RefusedCopyCompletes | backend/app/adapters/s3_artifact_store.py:262-270 | A copy refused by 409 or 412 because ready exists is no failure: the call goes on and completes |
| S3Promotion.PromotesExactlyWhen | backend/app/adapters/s3_artifact_store.py:243-282 | A call on its own returns if and only if all its requests are answered, two, three or five of them; the copy is ready, and the temporary object gone, exactly when the request for it took effect or it was so before |
| S3Promotion.UndisturbedPromotion | backend/app/adapters/s3_artifact_store.py:243-282 | What one undisturbed call does with any two objects, well formed or not: return, promote, KeyError for nothing, a contract error for other content |
| S3Promotion.PromotionEndsWell | backend/app/adapters/s3_artifact_store.py:243-282 | Whatever it finds and however requests fail: a call returns only with nothing temporary and the stat of what is ready; a refusal changes nothing; KeyError is raised exactly when there is nothing and the two stats were answered |
| S3Promotion.RetryCompletes | backend/app/adapters/s3_artifact_store.py:238-282 | After any such run one undisturbed call finishes the promotion, and a further one changes nothing and returns the same |
| S3Promotion.ConflictingReadyIsKept | backend/app/adapters/s3_artifact_store.py:378-389 | When ready holds other content no run changes either object, and every call that ends raises |
| S3PutRace.LatePayloadIsLostExactlyWhen | backend/app/adapters/s3_artifact_store.py:106-158 | With one put, as HEAD and PUT, among any number of promotions: once its PUT has taken effect its payload is gone if and only if ready already held something else then and a promotion that had read the temporary object before has deleted it since; a payload that lands while ready is absent is never lost |
| S3PutRace.LossCanFollowExactlyWhen | backend/app/adapters/s3_artifact_store.py:106-158 | At the moment the PUT takes effect: some continuation loses its payload if and only if ready holds something else and a promotion is under way that has read the temporary object |
| S3PutRace.OriginalIsKept | backend/app/adapters/s3_artifact_store.py:238-282 | In the same runs the original content is kept until the PUT takes effect, and for good when ready held it by then |
| S3PutRace.OverlappingPutIsLost | backend/app/adapters/s3_artifact_store.py:121-154 | The seven requests, HEAD before the copy and PUT after it, after which put and promote have both succeeded and the payload of the put is gone |
| S3PutRace.MoveKeeps | backend/app/adapters/s3_artifact_store.py:238-282 | Every request of either kind keeps what is known about who has read what and who may delete |
| S3Promotion.UploadedIsDescribed | backend/app/adapters/s3_artifact_store.py:140-166 | What put uploads is what stat reports: size, checksum and content type survive the headers |
| S3Promotion.S3ArtifactStore.Promote | backend/app/adapters/s3_artifact_store.py:238-282 | The method, request by request, ends like the worker machine left alone, for every script of faults, and touches no other key. It returns only when the temporary object is gone, with the stat of the ready one, and raises KeyError exactly when neither is there; for a ready reference it is a stat |
| S3Promotion.S3ArtifactStore.CopyToReady | backend/app/adapters/s3_artifact_store.py:254-270 | The conditional copy and the stat after it, including the refused copy |
| S3Promotion.S3ArtifactStore.DeleteLast | backend/app/adapters/s3_artifact_store.py:281-282 | The final delete: the ready stat is returned exactly when it is answered, and the temporary object is gone exactly when it took effect |
| S3Promotion.S3ArtifactStore.Put | backend/app/adapters/s3_artifact_store.py:106-166 | Put is HEAD and PUT left alone, for every script of faults: it succeeds exactly for a temporary reference without a ready object and with both requests answered, refuses otherwise, and stores the described payload exactly when its PUT took effect |
| S3Promotion.StatSaysExactly | backend/app/adapters/s3_artifact_store.py:198-230 | A stat is KeyError exactly for a missing object, and succeeds exactly when version, size, checksum and content type are recorded and the size is the body's, with those values |
| S3Promotion.S3ArtifactStore.Stat | backend/app/adapters/s3_artifact_store.py:198-230 | KeyError exactly for an absent object when the request succeeds; otherwise what the metadata records, which agrees with the body's length |
| S3Promotion.S3ArtifactStore.Delete | backend/app/adapters/s3_artifact_store.py:232-236 | Delete removes exactly the one object, whether or not its answer is lost |
| S3GcScan.CallIsBounded | backend/app/adapters/s3_artifact_store.py:297-336 | One call examines at most max_scan objects and returns at most max_results distinct keys, exactly the run keys it examined that were listed as old enough |
| S3GcScan.LogicalKeyExactlyWhen | backend/app/adapters/s3_artifact_store.py:444-455 | A run key is read off an object exactly when the object key is the prefix, if there is one, the name of the state and the run key, with slashes between |
| S3GcScan.ReturnsStoredKeys | backend/app/adapters/s3_artifact_store.py:303-336 | A key is returned if and only if an object stored for it, as temporary or as ready, was examined and is old enough, and it is a run key |
| S3GcScan.CallFollowsRing | backend/app/adapters/s3_artifact_store.py:297-336 | Over an unchanged bucket a call works through consecutive objects of both listings in key order, from where the last call stopped; what it skips comes last |
| S3GcCoverage.CallExamines | backend/app/adapters/s3_artifact_store.py:303-330 | What a call examines is determined beforehand: the objects ahead of the cursor within the budget, as many as it takes for max_results different stale keys, or all of them; and its result is full exactly when there are that many keys |
| S3GcCoverage.CallSkipsExactlyWhen | backend/app/adapters/s3_artifact_store.py:328-335 | A call leaves a gap if and only if that number falls inside the last page of a listing that the budget covers, whatever sizes the service gives its pages |
| S3GcFill.FillIsLeast | backend/app/adapters/s3_artifact_store.py:320-330 | The number is the least one with that many different keys |
| S3GcFill.ScanFills | backend/app/adapters/s3_artifact_store.py:303-335 | Page by page and across both listings, the scan examines exactly that prefix, and a gap ends at the end of a listing |
| S3GcCoverage.ScanCoversBucket | backend/app/adapters/s3_artifact_store.py:297-336 | As long as no call leaves a gap, consecutive calls walk both listings without gap or repeat, and more than N/max_scan + C/max_results + 1 of them examine all N objects, C of them with stale keys |
| S3GcCoverage.FullCallsUseStale | backend/app/adapters/s3_artifact_store.py:325-330 | Each full call uses up max_results stale objects |
| S3GcCoverage.SkippedStaysUnseen | backend/app/adapters/s3_artifact_store.py:328-335 | When a call from the start of a listing leaves a gap and so does every later one, nothing in that first gap is ever examined, for any listing |
| S3GcScan.CallReach | backend/app/adapters/s3_artifact_store.py:303-335 | How far a call moves the cursor, and how many objects one that is not full examines, exactly |
| S3GcCoverage.SecondObjectStarves | backend/app/adapters/s3_artifact_store.py:328-335 | A bucket of two old ready objects and calls that may return one key: every call leaves the gap, and the second object is never examined, by however many calls |
| S3GcScan.FullPagesStop | backend/app/adapters/s3_artifact_store.py:328-335 | When the service fills its pages, the last page of a listing begins at a multiple of 1000 objects from the cursor, which makes the place of a gap a matter of division |
| S3GcScan.S3RunScanner.StaleRunRefs | backend/app/adapters/s3_artifact_store.py:284-336 | The method with its stored cursor refines the scan specification, and returns exactly the run keys whose stored objects it examined and found old; bad limits raise and leave the cursor alone |
| S3GcScan.S3RunScanner.ScanNextPage | backend/app/adapters/s3_artifact_store.py:303-335 | One turn of the outer loop refines one page step |
| S3GcScan.S3RunScanner.ExaminePage | backend/app/adapters/s3_artifact_store.py:320-330 | The inner loop refines the page examination and moves the cursor to the last object examined |
| S3GcScan.S3RunScanner.ListRunObjects | backend/app/adapters/s3_artifact_store.py:398-442 | An answer holds objects after the start key in order, at most max_keys but possibly fewer, and none only when there are none; it is truncated exactly when objects are left |
| S3GcScan.PagesHoldAThousand | backend/app/adapters/s3_artifact_store.py:310-314 | A page holds at most 1000 objects and at most the budget, as many when the service gives that many, and is empty only at the end |
| LocalStore.HistoryKeepsExclusive | backend/app/adapters/local_artifact_store.py:71-99 | In every serial history with a stop between any two file operations, no payload and no sidecar is in both states, and a ready sidecar never meets a temporary payload |
| LocalStore.StatIsHonestExactlyWithoutTornPut | backend/app/adapters/local_artifact_store.py:107-133 | Stat reports the stored payload's size and checksum at every point of a history if and only if the history has no put torn over a sidecar that disagrees |
| LocalStore.TruthfulExactlyUnlessTorn | backend/app/adapters/local_artifact_store.py:84-99 | The same for one event: exactly a torn put ends truthfulness |
| LocalStore.SameSizeReplacementCanTear | backend/app/adapters/local_artifact_store.py:91-95 | The shortest history after which stat is wrong |
| LocalStore.ReadyPayloadIsWrittenOnce | backend/app/adapters/local_artifact_store.py:71-80 | Nothing but a delete of the ready reference changes a ready payload |
| LocalStore.PromotionSurvivesCrashes | backend/app/adapters/local_artifact_store.py:143-201 | From a complete temporary artifact, any number of interrupted promotes and one that completes end with exactly the original payload and sidecar ready and nothing temporary; one more changes nothing and returns the same stat |
| LocalStore.PromotesExactlyWhen | backend/app/adapters/local_artifact_store.py:158-180 | A promotion goes ahead if and only if the key has one payload and one sidecar, wherever they are; KeyError exactly for a key without files |
| LocalStore.StatFilesSaysExactly | backend/app/adapters/local_artifact_store.py:107-133 | A stat succeeds exactly with a payload and a sidecar that gives its size, and is KeyError exactly without a payload |
| LocalStore.OperationsMean | backend/app/adapters/local_artifact_store.py:55-201 | The files each operation leaves when it completes, when it stops after one file operation, and when it is refused |
| LocalStore.LocalArtifactStore.Put | backend/app/adapters/local_artifact_store.py:55-99 | Put performs a prefix of its plan on the files of its key and of no other, and returns exactly when payload and sidecar are in place |
| LocalStore.LocalArtifactStore.Promote | backend/app/adapters/local_artifact_store.py:143-201 | Promote decides by the files it finds, with the same errors in the same order, and performs a prefix of its plan; it returns only with payload and sidecar ready and nothing temporary, and raises KeyError exactly without files |
| LocalStore.LocalArtifactStore.Delete | backend/app/adapters/local_artifact_store.py:135-141 | Delete unlinks payload and then sidecar of the reference |
| LocalStore.LocalArtifactStore.Stat | backend/app/adapters/local_artifact_store.py:107-133 | Stat raises for a missing payload, a missing sidecar or a wrong size, and otherwise reports the sidecar |
| LocalGcScan.LocalRunScanner.StaleRunRefs | backend/app/adapters/local_artifact_store.py:203-239 | Over the tree and its file times, the method continues with the stored iterator or starts a new one, and refines the scan of one call; bad limits raise and keep the iterator |
| LocalGcScan.CallIsBounded | backend/app/adapters/local_artifact_store.py:225-238 | A call consumes at most max_scan entries of the listing and returns at most max_results distinct keys, exactly the stale keys among them |
| LocalGcScan.PassCollectsTree | backend/app/adapters/local_artifact_store.py:221-239 | On an unchanged tree one pass returns a key if and only if one of its files exists, none is newer than the cutoff, and the key does not end in .tmp |
| LocalGcScan.PassReturnsEveryStaleKey | backend/app/adapters/local_artifact_store.py:221-239 | The calls of one pass consume consecutive slices of what the generator yields without gap or repeat, and a key is returned by some call if and only if it is stale and listed |
| LocalGcScan.TemporaryNameIsNeverCollected | backend/app/adapters/local_artifact_store.py:274-276 | The key runs/a.tmp is never returned, however old its file is |
| LocalGcScan.OldFilesAreCollected | backend/app/adapters/local_artifact_store.py:241-277 | An old payload and its sidecar in a subdirectory are found under one key, which a pass returns |
| LocalGcScan.PassEndsInTime | backend/app/adapters/local_artifact_store.py:221-239 | A pass ends within N/max_scan + C/max_results + 1 calls, for N entries of which C belong to stale keys |
| LocalGcScan.IterRunEntries | backend/app/adapters/local_artifact_store.py:241-277 | The generator yields one item per directory entry of all four trees, none twice, whatever order the worklist takes |
| LocalGcScan.WalkRoot | backend/app/adapters/local_artifact_store.py:254-277 | The walk over one root yields exactly the items of its tree |
| LocalGcScan.ListedExactlyWhen | backend/app/adapters/local_artifact_store.py:241-277 | The generator yields a key if and only if some root holds its payload or its sidecar and the key does not end in .tmp |
| LocalGcScan.YieldedExactlyWhen | backend/app/adapters/local_artifact_store.py:262-277 | The same for the walk below one root |
| LocalGcScan.Collect | backend/app/adapters/local_artifact_store.py:225-238 | The loop of one call over the stored iterator refines the scan |
| LocalGcScan.IsStaleRunRef | backend/app/adapters/local_artifact_store.py:290-306 | A key is stale if and only if one of its four files exists and none is newer than the cutoff |
| RoadDiagnostics.SameRootIsConnected | backend/app/application/road_layers.py:148-162 | Two nodes have the same root exactly when a path of two-ended edges joins them |
| RoadDiagnostics.DisjointSets.Find | backend/app/application/road_layers.py:148-156 | Find terminates, returns the root, and path compression leaves every node under its root |
| RoadDiagnostics.DisjointSets.Union | backend/app/application/road_layers.py:158-162 | Union puts the right tree under the left root and loses one root exactly when the two differ |
| RoadDiagnostics.DisjointSets.AddNode | backend/app/application/road_layers.py:145-146 | A new node is its own root; a known one changes nothing |
| RoadDiagnostics.UnionRepresents | backend/app/application/road_layers.py:164-174 | Joining the roots of an edge's ends keeps the forest equal to connection by the edges so far |
| RoadDiagnostics.RootsAreComponents | backend/app/application/road_layers.py:177 | There are as many roots as connected components |
| RoadDiagnostics.GraphDiagnostics | backend/app/application/road_layers.py:137-195 | Every field is what the graph says: components, nodes, dead ends, ratio, lengths and counts; components are nodes less effective unions |
| RoadDiagnostics.CountComponents | backend/app/application/road_layers.py:177 | The number of different roots is the number of connected components |
| RoadDiagnostics.CountDeadEnds | backend/app/application/road_layers.py:178 | The nodes of degree one, counted |
| RoadDiagnostics.CountBy | backend/app/application/road_layers.py:180-181 | The counter holds, for each name that occurs, how many edges carry it |
| RoadDiagnostics.CountRoads | backend/app/application/road_layers.py:182-192 | Distinct named roads, and the sum of the lengths that are not negative |
| RoadDiagnostics.DescribePermutes | backend/app/application/road_layers.py:164-195 | The whole result is the same for any order of the edges |
| RoadDiagnostics.DescribeFlips | backend/app/application/road_layers.py:164-195 | Swapping an edge's endpoints changes nothing |
| RoadDiagnostics.DiagnosticsAddUp | backend/app/application/road_layers.py:164-195 | Degrees sum to the edge ends, class counts and origin counts each sum to the edge count; the dead-end ratio times the nodes is the dead ends, and is 0 without nodes |
| RoadDiagnostics.GraphIsNamed | backend/app/application/road_layers.py:164-174 | Nodes, neighbours and roads are what edges name; the empty name is no node and no road; dead ends are the nodes of degree one |
| RoadDiagnostics.DegreesAddUp | backend/app/application/road_layers.py:164-171 | Degrees are sums over edges, to which an edge adds one for each end at the node, two for a loop |
| RoadDiagnostics.LengthsAddUp | backend/app/application/road_layers.py:192 | Lengths are sums over edges, negative ones counting as none |
| RoadDiagnostics.NameCountsAddUp | backend/app/application/road_layers.py:180-181 | How often a name occurs is a sum over edges |
| RoadDiagnostics.CountersCount | backend/app/application/road_layers.py:180-195 | The counters hold exactly the names that occur, with those counts |
| CheckpointEncoding.InputDecodes | backend/app/application/checkpoints.py:102-108 | A decoder recovers the exact parts and ordered dependency outputs from the input preimage |
| CheckpointEncoding.InputEncodes | backend/app/application/checkpoints.py:102-108 | Whatever decodes is the preimage of what it decodes to: decoding and encoding are inverse |
| CheckpointEncoding.ConfigDecodes | backend/app/application/checkpoints.py:111-116 | A decoder recovers the exact parts from the configuration preimage |
| CheckpointEncoding.ConfigEncodes | backend/app/application/checkpoints.py:111-116 | Whatever decodes as a configuration is the preimage of what it decodes to |
| CheckpointEncoding.PreimagesLookLike | backend/app/application/checkpoints.py:98-124 | The two preimages in full: scheme, purpose, a zero byte, the parts behind their number, the outputs behind theirs, each name and fingerprint behind its length |
| CheckpointEncoding.PartLooksLike | backend/app/application/checkpoints.py:127-145 | A part is tagged s for text and b for bytes, then its length, then its bytes |
| CheckpointEncoding.LengthLooksLike | backend/app/application/checkpoints.py:131-145 | Lengths are eight bytes, the most significant first |
| CheckpointEncoding.HashesExactlyWhen | backend/app/application/checkpoints.py:70-116 | A hash is the digest of its preimage; why there is none, in the order of the checks |
| CheckpointEncoding.NamespacesAreDisjoint | backend/app/application/checkpoints.py:119-124 | No input preimage equals a configuration preimage |
| CheckpointEncoding.PartsDecode | backend/app/application/checkpoints.py:127-145 | Tagged, length-prefixed parts decode to themselves, text and bytes kept apart |
| CheckpointEncoding.BigEndianRoundTrip | backend/app/application/checkpoints.py:131-145 | Eight-byte big-endian lengths read back, for every length below 2^64 |
| CheckpointEncoding.InputHashIsInjective | backend/app/application/checkpoints.py:64-108 | Equal input hashes come from equal parts, dependency names and outputs, in order |
| CheckpointEncoding.ConfigHashIsInjective | backend/app/application/checkpoints.py:111-116 | Equal configuration hashes come from equal parts |
| CheckpointEncoding.InputAndConfigHashesDiffer | backend/app/application/checkpoints.py:119-124 | An input hash is never a configuration hash |
| CheckpointEncoding.BuildResolvedInputHash | backend/app/application/checkpoints.py:64-108 | The method feeds exactly the specified preimage, or fails for the specified reason |
| CheckpointEncoding.BuildConfigHash | backend/app/application/checkpoints.py:111-116 | The method feeds exactly the configuration preimage |
| CheckpointEncoding.DigestWriter.UpdateParts | backend/app/application/checkpoints.py:127-145 | The part loop appends exactly the encoded block, or reports a length that does not fit |
| CheckpointEncoding.DigestWriter.UpdateText | backend/app/application/checkpoints.py:148-151 | A text is appended with its length |
| CheckpointEncoding.UpdateDependencies | backend/app/application/checkpoints.py:104-107 | The dependency loop appends exactly the encoded pairs, in order |
| CheckpointEncoding.FindDuplicate | backend/app/application/checkpoints.py:169-181 | A duplicate dependency name is found exactly when there is one |
| CheckpointReuse.ReusedExactlyWhenSameCall | backend/app/adapters/checkpoints.py:154-200 | A recorded row is reused if and only if the call it records is the call that would be made now, and then it yields that call's output |
| CheckpointReuse.ReuseIsSound | backend/app/adapters/checkpoints.py:154-200 | What is reused is what executing the stage now would produce |
| CheckpointReuse.ChangedDependencyMisses | backend/app/application/checkpoints.py:56-61 | A changed dependency output forces a miss |
| CheckpointReuse.ReuseAgreesWithExecution | backend/app/adapters/checkpoints.py:68-103 | Resolving a whole plan with reuse, from any honest rows, ends with the fingerprints of executing every stage |
| CheckpointReuse.DrivenExactlyWithoutRows | backend/app/db/generation_state.py:218-261 | The stage loop as it is today, which refuses a reusable checkpoint and an existing row, gets through a plan exactly when reuse would and the run has no row of its stages, and leaves the same rows |
| CheckpointReuse.PlanResolves | backend/app/adapters/checkpoints.py:68-152 | From well-formed rows, resolving a plan in dependency order never fails |
| CheckpointReuse.OtherRunsDoNotMatter | backend/app/adapters/checkpoints.py:120-152 | Only rows of the same run take part |
| CheckpointReuse.CheckpointStore.LoadOutputs | backend/app/adapters/checkpoints.py:105-152 | The outputs in the order asked for, or the first reason why one is not available |
| CheckpointReuse.CheckpointStore.ResolveStage | backend/app/adapters/checkpoints.py:68-103 | Resolve builds the identity from the loaded outputs and looks for an exact match |
| CheckpointReuse.LoadsExactlyWhen | backend/app/adapters/checkpoints.py:105-158 | Outputs are loaded if and only if no dependency is named twice and all have succeeded in this run with a well-formed fingerprint; then these are they, in order |
| CheckpointReuse.LoadingFailsExactlyWhen | backend/app/adapters/checkpoints.py:128-157 | Which of the errors a dependency gives |
| CheckpointReuse.FirstFailureIsReported | backend/app/adapters/checkpoints.py:133-157 | The error is that of the first dependency that cannot be used |
| CheckpointReuse.FindsExactlyWhen | backend/app/adapters/checkpoints.py:160-207 | A checkpoint is found if and only if the row of the stage in this run has the version and both hashes, has succeeded and has a well-formed fingerprint; which error, or nothing, otherwise |
| CheckpointReuse.ResolvesTo | backend/app/adapters/checkpoints.py:81-103 | The identity that is resolved, from the loaded outputs |
| CheckpointReuse.ResolveFailsWith | backend/app/adapters/checkpoints.py:81-103 | What resolving fails with: the first of loading, input hash, configuration hash and row that fails |
| CheckpointReuse.FingerprintLooksLike | backend/app/application/checkpoints.py:199 | A fingerprint is sha256: and 64 digits out of 0 to 9 and a to f |
| StageGraph.OrderExcludesCycle | core/urban_generator/stages/registry.py:214-242 | A graph with a dependency order has no cycle |
| StageGraph.CanonicalIsFirst | core/urban_generator/stages/registry.py:113-147 | The canonical order comes before every other dependency order, compared name by name |
| StageGraph.CanonicalIsUnique | core/urban_generator/stages/registry.py:113-147 | There is only one canonical order |
| StageRegistry.CycleSearch.Visit | core/urban_generator/stages/registry.py:222-240 | A visit returns a path that really is a cycle, or finishes the stage after all its dependencies and leaves the stack as it was; it terminates |
| StageRegistry.ValidateAcyclic | core/urban_generator/stages/registry.py:214-242 | The search accepts exactly the graphs that can be ordered, and shows a cycle of the others |
| StageRegistry.ValidateRegistry | core/urban_generator/stages/registry.py:65-104 | A registry is accepted exactly when its metadata is well formed and its stages can be ordered; otherwise the error names the first thing that is wrong, in the order of the checks |
| StagePlan.TopologicalStages | core/urban_generator/stages/registry.py:113-147 | The sort by remaining degrees yields the canonical order of all stages, and fails exactly when there is none |
| StagePlan.Release | core/urban_generator/stages/registry.py:137-143 | Counting down the dependents of a finished stage keeps the degrees right and makes exactly the free stages ready |
| StagePlan.DependentsOf | core/urban_generator/stages/registry.py:122-129 | For each stage, exactly the stages that depend on it directly, once each |
| StagePlan.BuildPlan | core/urban_generator/stages/registry.py:157-211 | A stage is skipped if and only if it is requested or depends on such a stage over any number of steps; blocked_by lists its skipped direct dependencies in order |
| StagePlan.Decide | core/urban_generator/stages/registry.py:180-209 | The decision for one stage from the stages skipped before it |
| StagePlan.ExecutableHasItsInputs | core/urban_generator/stages/registry.py:180-209 | All dependencies of an executable stage are executable and come earlier |
| StagePlan.PlanDecides | core/urban_generator/stages/registry.py:180-209 | Each stage is in one of three cases: requested, skipped for the skipped dependencies that are listed, or executed |
| StagePlan.RegistrationOrderDoesNotMatter | core/urban_generator/stages/registry.py:106-147 | The order in which stages are registered does not matter |
| PlanAssumptions.PlanHasDistinctNames | backend/app/application/generation.py:217-219 | A plan has different stage names, as generation takes for granted |
| PlanAssumptions.OrderIsDependencyOrder | backend/app/adapters/checkpoints.py:68-103 | The order of a plan is the dependency order that checkpoint reuse takes for granted |
| GenerationRuns.EveryRunKeepsItsPromises | backend/app/application/generation.py:194-339 | For every script of raised errors and cancellation requests: the outcome says exactly which calls raised what; a claimed run ends exactly once and leaves no stage open unless a closing call raises an error that is not handled, and then it does not end; progress is a prefix of the plan and the whole of it on success, resolvers see exactly the earlier outputs, at most one stage is open, at most one step follows a request |
| GenerationRuns.ClosingCallsEndTheRun | backend/app/application/generation.py:292-339 | When no closing call raises, except that the check of the handler or fail_stage may find the cancellation, the run ends exactly once, no stage is left open, and every started stage has ended exactly once |
| GenerationUndisturbed.UndisturbedRunSucceeds | backend/app/application/generation.py:209-322 | When nothing is raised or requested: the whole log, call by call, with each stage completed with the output of its execution and each input resolved from the outputs before it; and the run succeeds |
| GenerationTraces.OutputsComeFromExecutions | backend/app/application/generation.py:249-284 | For every script, each output that is completed or shown to a resolver is the one its stage's execution was answered with |
| GenerationTraces.RequestsAreNoticed | backend/app/application/generation.py:211-288 | No stage is completed or skipped and no run completed after a cancellation request, unless the request came with that very call |
| GenerationTraces.RunsNameTheirStage | backend/app/application/generation.py:292-339 | A run that fails or is cancelled does so with the stage it was at; it raises the delay that fail_run returned, or the failure at that stage when there is none |
| GenerationTraces.EveryRunFitsItsAnswers | backend/app/application/generation.py:209-339 | These together, for the log and the outcome of every run |
| GenerationRuns.ClaimedRunStaysOpen | backend/app/application/generation.py:292-311 | Whatever its plan, a run whose assembly raises, and whose handler's check raises as well, is never ended |
| GenerationRuns.EndingsFit | backend/app/application/generation.py:294-339 | A stage ends twice if and only if it has failed, fail_run raised the cancellation, and cancel_stage did not raise; otherwise at most once |
| GenerationRuns.FailureThenCancellation | backend/app/application/generation.py:294-311 | A script on which that happens, with the log it leads to |
| GenerationRuns.FinishKeeps | backend/app/application/generation.py:209-339 | From any point of a run, whatever is still to come keeps the promises |
| GenerationRuns.EntryStepKeeps | backend/app/application/generation.py:219-285 | Every call made for an entry of the plan keeps order, data flow and the bound after a request |
| GenerationRuns.FrameStepKeeps | backend/app/application/generation.py:211-218 | The calls before and after the loop do |
| GenerationRuns.HandlerStepKeeps | backend/app/application/generation.py:292-339 | The closing calls end stage and run once each, or the error escapes |
| GenerationService.Run | backend/app/application/generation.py:194-322 | The method has the outcome and the log of the machine for every script, and so keeps the promises of every run and fits its answers; each answer of a claim has its own result |
| GenerationService.Body | backend/app/application/generation.py:209-291 | The body refines the machine up to its end or to the first raise |
| GenerationService.RunEntries | backend/app/application/generation.py:219-286 | The loop over the plan refines the machine |
| GenerationService.RunEntry | backend/app/application/generation.py:219-285 | So does one turn of it, with its local variables |
| GenerationService.SkipEntry | backend/app/application/generation.py:222-232 | The check and the skip of an entry |
| GenerationService.PrepareEntry | backend/app/application/generation.py:222-265 | The calls up to the start of a stage |
| GenerationService.RunStage | backend/app/application/generation.py:266-285 | The calls from its start to its completion, with the output that its execution was answered with |
| GenerationService.ExecuteAt | backend/app/application/generation.py:270-275 | The execution, and the output it is answered with |
| GenerationService.HandleError | backend/app/application/generation.py:294-322 | The error handler, up to its end or to a cancellation |
| GenerationService.CancelledResult | backend/app/application/generation.py:324-339 | The cancellation handler; an error raised in it escapes |
| GenerationService.StateStore.CheckCancelled | backend/app/db/generation_state.py:134-141 | The check raises the cancellation only for a request, and passes only without one |
| GenerationService.StateStore.CallFailStage | backend/app/db/generation_state.py:363-388 | A failure that is not raised ends an open stage as failed, and changes no other and nothing else |
| GenerationService.StateStore.CallCancelStage | backend/app/db/generation_state.py:143-170 | A cancellation that is not raised ends an open or a failed stage, and changes no other and nothing else |
| GenerationHistories.StagesStartOnce | backend/app/db/generation_state.py:240-361 | In any sequence of calls over the rows of a run, by any workers, attempts and requests, no stage is started or skipped twice |
| GenerationHistories.StagesEndAgainExactlyWhen | backend/app/db/generation_state.py:143-170 | A stage that has ended ends again if and only if it has failed and cancel_stage is called for it while the run is running |
| GenerationHistories.ClaimsAreBounded | backend/app/db/generation_state.py:53-107 | The attempts counted are the claims granted, at most max_attempts |
| GenerationHistories.RetriesStartFresh | backend/app/db/generation_state.py:433-490 | A granted claim finds no stage row: no stage has been started or skipped by an earlier attempt |
| GenerationHistories.AttemptsDoNotOverlap | backend/app/db/generation_state.py:53-107 | Between two granted claims, fail_run has given the run up for a retry |
| GenerationHistories.AbandonedRunStaysRunning | backend/app/db/generation_state.py:53-132 | A run that its attempt left running stays so under any claims, checks and requests, and claims are told that it is in progress |
| GenerationHistories.DelaysDouble | backend/app/application/generation.py:42-47 | The delays are 30, 60, 120, 240 and then always 300 seconds |
| GenerationHistories.ClaimWaits | backend/app/db/generation_state.py:71-84 | A claim is deferred exactly until the retry is due, by the whole seconds that are left, rounded up |
| GenerationHistories.BackoffIsHonoured | backend/app/db/generation_state.py:71-84 | The claim after a retry is granted no earlier than the delay that fail_run returned, counted from the failure |
| GenerationHistories.RunEndsOnce | backend/app/db/generation_state.py:172-216 | Once a run has succeeded, failed or been cancelled, no call changes any row of it |
| GenerationHistories.SuccessIsComplete | backend/app/db/generation_state.py:390-431 | A run succeeds only without a cancellation request and with rows for exactly the expected stages, all different, each succeeded or skipped |
| GenerationHistories.CompletedRunSucceeds | backend/app/db/generation_state.py:278-431 | The converse: after a granted claim, when every expected stage and no other has been completed or skipped, no call has closed the run and no request was accepted, completing the run is done and it has succeeded |
| GenerationHistories.StageCallsTakeEffect | backend/app/db/generation_state.py:143-388 | When a call for a stage is done, which error it raises otherwise, and the status it leaves: running, skipped, succeeded, failed or cancelled |
| GenerationHistories.RunCallsTakeEffect | backend/app/db/generation_state.py:109-431 | The same for requests, checks, cancelled and completed runs |
| GenerationHistories.ClaimIsGrantedExactlyWhen | backend/app/db/generation_state.py:53-107 | A claim is granted if and only if the run is queued, with attempts left, a full commit hash and capacity and, after a failure, its delay over; it begins an attempt with a clean slate |
| GenerationHistories.FailureIsRetriedExactlyWhen | backend/app/db/generation_state.py:433-490 | A failure of an open run is queued again if and only if it is transient, no stage has a row and attempts are left; otherwise the run has failed |
| GenerationHistories.NewRunCanStart | backend/app/db/generation_state.py:53-107 | The first claim of a new run is granted |
| GenerationHistories.RequestIsHonoured | backend/app/db/generation_state.py:109-132 | Once a cancellation is requested nothing changes but stages and the run to cancelled |
| GenerationHistories.OneRequestIsNew | backend/app/db/generation_state.py:109-132 | After a request that was accepted every further one is declined |
| GenerationState.StepKeeps | backend/app/db/generation_state.py:53-490 | Every transaction keeps run, job and stage rows consistent, changes nothing when it raises or the run is over, and moves statuses forward only |
| GenerationStateStore.StateStore.Claim | backend/app/db/generation_state.py:53-107 | A claim is granted for queued rows, without a request, with a retry that is due, attempts left, a commit and capacity; it answers or raises otherwise, and then changes no row |
| GenerationStateStore.StateStore.RequestCancel | backend/app/db/generation_state.py:109-132 | A request cancels a queued run at once, marks a running one, and is declined for a run that is over or marked already |
| GenerationStateStore.StateStore.Insert | backend/app/db/generation_state.py:240-361 | Starting or skipping a stage inserts its row, once |
| GenerationStateStore.StateStore.CompleteStage | backend/app/db/generation_state.py:278-305 | Only a running stage succeeds, and it is then succeeded |
| GenerationStateStore.StateStore.FailStage | backend/app/db/generation_state.py:363-388 | Only a running stage fails |
| GenerationStateStore.StateStore.CancelStage | backend/app/db/generation_state.py:143-170 | Only a running or failed stage is cancelled |
| GenerationStateStore.StateStore.CompleteRun | backend/app/db/generation_state.py:390-431 | The run succeeds with all its stages |
| GenerationStateStore.StateStore.FailRun | backend/app/db/generation_state.py:433-490 | The run fails, or is queued again for a transient error without stage rows and with attempts left |
| GenerationStateStore.StateStore.CancelRun | backend/app/db/generation_state.py:172-216 | A running run is cancelled, requested or not |
| Ranking.Ranks | backend/app/application/run_compare.py:309-334 | Sorting and scanning gives each present value one more than the number of strictly better ones, and none to missing values or unrankable directions |
| Ranking.RanksOrderValues | backend/app/application/run_compare.py:309-334 | A smaller rank is exactly a better value, equal ranks are exactly equal values, and ranks stay within the number of present values |
| Ranking.RanksFollowDirection | backend/app/application/run_compare.py:319-324 | More is better or less is, as the direction has it; the best value ranks first; other directions are not ranked |
| Ranking.RanksPermute | backend/app/application/run_compare.py:309-334 | A value keeps its rank under any permutation |
| Ranking.NegationKeepsRanks | backend/app/application/run_compare.py:319-324 | Ranking negated values in the opposite direction gives the same ranks |
| RunCompare.ContractsAgreeExactlyForSameRules | backend/app/application/run_compare.py:291-306 | Contracts are equal if and only if configuration and profile agree and the metrics carry the same weightings in any order |
| RunCompare.SameRulesExactlyWhen | backend/app/application/run_compare.py:291-306 | The rules are the same exactly when the scores differ in nothing but their values and the order of their metrics |
| RunCompare.CompareScores | backend/app/application/run_compare.py:179-210 | Scores are ranked and compared with the baseline exactly when all runs were scored under the same rules |
| RunCompare.CompareRow | backend/app/application/run_compare.py:216-240 | Deltas and ranks of one row, missing values staying missing |
| RunCompare.CompareMetrics | backend/app/application/run_compare.py:208-244 | One row per metric that some run reports, in registry order, with the values the runs report, each ranked in its own direction |
| RunCompare.LastEntryIsReported | backend/app/application/run_compare.py:207-217 | What a run reports for a metric is the value of its last entry for it |
| RunCompare.NothingIsReported | backend/app/application/run_compare.py:207-217 | And nothing without an entry |
| RunCompare.ReportedExactly | backend/app/application/run_compare.py:212-217 | The rows are the registered metrics that some run has an entry for |
| RunCompare.ReportedInOrder | backend/app/application/run_compare.py:212-217 | In the order of the registry |
| RunCompare.RanksAgreeWithDeltas | backend/app/application/run_compare.py:185-240 | A run ranks before the baseline exactly when its delta points in the metric's direction, and with it exactly when the delta is zero |
| SourceReference.AcceptsExactlyCanonical | backend/app/adapters/fixed_road_source_reader.py:37-54 | Accepted are exactly the prefix, a canonical UUID and a positive decimal without leading zero, however lenient the library parsers are |
| SourceReference.PrintedReadsBack | backend/app/adapters/pipeline_context.py:249-255 | What is printed for a version is read back as that version |
| SourceReference.AcceptedPrintsBack | backend/app/adapters/fixed_road_source_reader.py:37-54 | What is accepted is, character for character, what would be printed |
| SourceReference.PrintedIsInjective | backend/app/adapters/pipeline_context.py:253 | Different versions have different references |
| SourceReference.ReferenceLooksLike | backend/app/adapters/pipeline_context.py:249-255 | A reference in full |
| SourceReference.UuidLooksLike | backend/app/adapters/pipeline_context.py:249-255 | The text of a UUID: lower-case digits with dashes after 8, 12, 16 and 20 of them |
| SourceReference.DecimalLooksLike | backend/app/adapters/pipeline_context.py:249-255 | The text of a number, digit by digit |
| SourceReference.StrictParsersReadWhatIsPrinted | backend/app/adapters/fixed_road_source_reader.py:43-54 | Parsers that read back what is printed exist |
| FixedRoads.Read | backend/app/adapters/fixed_road_source_reader.py:81-180 | The result is every road of every referenced version in order, at most max_roads, if and only if all references are canonical, different and authorized, the rows usable and few enough; at most one row beyond the limit is fetched |
| FixedRoads.AllRoadsIsComplete | backend/app/adapters/fixed_road_source_reader.py:129-179 | No row is left out, none is added, and the sizes add up |
| FixedRoads.AllRoadsInOrder | backend/app/adapters/fixed_road_source_reader.py:88-179 | References are read one after the other |
| FixedRoads.RowsInOrder | backend/app/adapters/fixed_road_source_reader.py:129-179 | And the rows of each in the order of their query |
| FixedRoads.HydrateRows | backend/app/adapters/fixed_road_source_reader.py:153-179 | All rows of a version, or a refusal exactly when one is not a usable line in the metric system |
| FixedRoads.RoadsKeepTheirRows | backend/app/adapters/fixed_road_source_reader.py:164-179 | A road keeps geometry, layer, bridge, tunnel and class of its row, and is named after its version and its feature, or else its row |
| FixedRoads.RoadIdsTellVersionsApart | backend/app/adapters/fixed_road_source_reader.py:169 | Roads of different versions never share an identifier |
| FixedRoads.UsableExactlyWhen | backend/app/adapters/fixed_road_source_reader.py:153-167 | What makes a row unusable |
| FixedRoads.ReadRoadsAreTheRunsOwn | backend/app/adapters/fixed_road_source_reader.py:95-167 | Every road that is read comes from a ready road version of the project, linked to the run, in its metric system, and no version is read twice |
| Snapshots.BuildSnapshot | backend/app/adapters/pipeline_context.py:168-274 | A snapshot is built exactly when run and project agree and every linked version is ready, of the project and of some layer; it has their identifiers and metric system |
| Snapshots.BuildLayers | backend/app/adapters/pipeline_context.py:190-256 | Each layer lists the references of its versions, once each and in the order of the query |
| Snapshots.FilledHolds | backend/app/adapters/pipeline_context.py:276-288 | An OSM version belongs to exactly the layers whose tables it fills, each once |
| Snapshots.KindsExactly | backend/app/adapters/pipeline_context.py:63-88 | A version belongs to the layer of its dataset kind; an OSM import to every layer whose table it fills, of the six that have one |
| Snapshots.AcceptableExactlyWhen | backend/app/adapters/pipeline_context.py:213-240 | Accepted are ready versions of the project that belong to some layer |
| Snapshots.LayersHoldWhatBelongs | backend/app/adapters/pipeline_context.py:241-247 | A layer of a built snapshot holds a reference exactly when it is that of a linked version that belongs to the layer |
| Snapshots.LayersKeepOrder | backend/app/adapters/pipeline_context.py:206-247 | In the order of the query |
| Snapshots.RoadLayerReadsBack | backend/app/adapters/pipeline_context.py:249-265 | Each road reference of a built snapshot reads back as its version, which the reader is authorized to read |
| Snapshots.BuiltSnapshotIsRefusedOnlyForItsRows | backend/app/adapters/fixed_road_source_reader.py:81-180 | Over an unchanged database a built snapshot is refused only for too many or unusable rows |
| Upload.ByteSource.Read | backend/app/application/uploads.py:172 | A short read: some bytes, none only at the end, or an exception |
| Upload.SizeLimitedReader.Read | backend/app/application/uploads.py:164-180 | Everything handed on fits in the limit, at most one byte more is taken, and exactly that byte raises |
| Upload.StagePayload | backend/app/adapters/local_artifact_store.py:308-335 | However source and store chunk the bytes, the outcome is the whole source, too large, or a failed source |
| Upload.DrainsExactlyWhen | backend/app/application/uploads.py:164-180 | Which of these: by what is left of the source, the limit, and where it breaks |
| Upload.UploadService.Upload | backend/app/application/uploads.py:67-117 | Under a fresh key: the whole source is stored ready with a row that describes it exactly when nothing goes wrong; otherwise there is no row and, deletes working, no blob; the first failure is the one reported |
| Upload.UploadFailsExactlyWhen | backend/app/application/uploads.py:75-113 | When an upload fails, and with which error |
| Upload.ContentTypeIsStripped | backend/app/application/uploads.py:187-191 | A content type is kept without the blanks around it, and dropped when nothing else is there |
| Upload.UploadService.PutPromoteCreate | backend/app/application/uploads.py:94-113 | The guarded part, step by step |
| Upload.UploadService.Cleanup | backend/app/application/uploads.py:119-122 | Both deletes are attempted, and together leave no file of the key |
| ScenarioMatrix.ExpansionIsCanonical | backend/app/application/scenario_matrix.py:161-178 | Between 3 and 10 rows at positions 0, 1, 2 and so on, strictly increasing by variant name and seed, each a pair of the matrix, each pair exactly once |
| ScenarioMatrix.ValidExactlyWhen | backend/app/application/scenario_matrix.py:95-146 | A specification is valid exactly when it is bounded, in range, free of repetitions and complete |
| ScenarioMatrix.SameRowsExactlyWhenPermuted | backend/app/application/scenario_matrix.py:161-178 | Two valid specifications expand alike if and only if one permutes the seeds and variants of the other |
| ScenarioMatrix.RowsAreDifferentRuns | backend/app/application/scenario_matrix.py:95-122 | No two rows have the same seed and configuration |

## Left out

- HTTP, request signing, XML, page parsing and S3 semantics beyond an atomic key map with conditional copy, listing after a key and delete.
- Real file systems: symbolic links as targets, fsync, staging files, directory creation, pruning of empty parents, the error for a root that is not a directory; `os.replace` and `unlink` are atomic.
- SHA-256 is a collision-free function of the bytes; UTF-8 texts are the byte sequences they encode to.
- S3Promotion.PromotionLosesNothing: excludes a put of the same key, for which `S3PutRace` holds the results, and deletes from outside.
- S3PutRace.LatePayloadIsLostExactlyWhen: one put; two overlapping puts replace each other's payload, as two puts always do.
- S3GcScan.S3RunScanner.ListRunObjects: the service answers the same request with a page of the same size; an empty answer that is truncated, and listed entries without key or time, are not modelled.
- S3GcScan.S3RunScanner.StaleRunRefs: the bucket lists legal keys only; a listed key that is no legal artifact key makes the call raise, with the cursor moved up to it and the candidates found so far dropped.
- CheckpointReuse.ReuseAgreesWithExecution: resolving with reuse is what `resolve` is written for; no caller does it yet, and what the caller does instead is `CheckpointReuse.DrivenExactlyWithoutRows`.
- Validation of content types, keys, stage names, stage versions, variant names, JSON texts and time zones: character classes and library checks without a deeper property.
- LocalGcScan.PassCollectsTree: the tree holds legal keys only; a file whose path is no legal key makes the generator raise.
- LocalGcScan.IterRunEntries: the order of entries within a directory is the one given, as `scandir` promises none.
- Locks: calls of one scanner are serial, as the lock in both adapters makes them.
- GenerationService.Run: `run` starts from an empty log, as a claim promises; retry delays, claims, the factory and the stages are arbitrary outcomes, and a store call may raise the cancellation at any time, also where the rows would not make it.
- GenerationStateStore.StateStore.Claim: batches are an arbitrary answer about capacity; of a row only what the transactions look at is modelled, and reading checkpoints changes none. A missing or doubled job row, and a job of another project, are left out.
- The arguments of store calls other than stage name and output, such as errors and skip reasons.
- SQL: queries are the rows they return. The runs, projects and versions that authorization joins are maps.
- FixedRoads.Read: which message a refusal carries; the source has one exception type for all of them.
- SourceReference.AcceptsExactlyCanonical: Python's limit on the number of digits that `int` and `str` convert is not modelled.
- Floating point: ranks, lengths, scores and ratios are exact reals.
- Counts are maps; the sorted order in which the counters are written is not modelled.
- Run comparison before the scores: loading, decoding and checking the stored evaluations and validation reports.
- Upload.UploadService.Upload: the key is taken to be unused, as a fresh random identifier is; file names are not sanitised; `strip` removes ASCII blanks only.
- ScenarioMatrix.ExpansionIsCanonical: identifiers of projects and datasets are texts, and their types are not checked.
- Upload over S3, reading payloads back, `has_run_ref`, the layer catalog, viewport queries, exports, ingest jobs, the database layer and the frontend.
