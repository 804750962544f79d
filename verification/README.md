# MyS3 in Dafny

A model of MyS3, a replicated object store, with proofs about its replication protocol, the life of an object on one
node, listings, disk and database reconciliation, media tokens and byte ranges.

`dafny verify dfyconfig.toml` checks everything.

## How it is built

* **One node** (`Store`, `StoreLaws`, `Lifecycle`, `Operations`, `Rename`). The SQLite tables are maps from row ids, with the two
  uniqueness rules of the schema (`filepath`, and the partial index on the active bucket and key) as invariants. Each
  operation is a specification function from node to node. A PUT takes a parameter that says which of its steps fails.
* **The node as it runs** (`NodeServers`, `FolderOperations`, `PurgeOperations`, `RehashOperations`,
  `ReplicationServer`, `AntiEntropyLoop`, `ReplicationWorker`). A class holds the tables and the blob directory as
  mutable fields. Its methods do what the program does, step by step, loop by loop and undo by undo, and each is proved
  to have exactly the effect of its specification function.
* **The outbox** (`Outbox`, `OutboxAudit`, `OutboxJobs`). The queue and its single worker are a machine over events. An audit trail
  that no transition reads records what was enqueued and what was acknowledged.
* **The cluster** (`ClusterSteps`, `ReplicationLaws`, `ClusterSafety`, `ClusterDelivery`, `ClusterDurability`, `ClusterOutbox`,
  `ClusterOrder`, `ClusterQuota`). Any number of nodes step: local operations, claims, RPCs with three outcomes (applied
  and acknowledged, applied with the acknowledgement lost, not applied) that may fail to be recorded, restarts of a
  worker, repairs, sweeps, administration. `origin` remembers the bytes first written under each path.
* **Anti-entropy** (`AntiEntropy`, `AntiEntropyDrain`, `AntiEntropyHeal`, `AntiEntropyLaws`, `AntiEntropyProgress`).
* **Listings** (`Ordering`, `LikePatterns`, `Listing`, `ListingLaws`, `Paging`).
* **Reconciliation** (`Reconcile`, `ReconcileLaws`).
* **Codecs** (`Text`, `Numerals`, `Base64Url`, `Utf8`, `PercentEncoding`, `MediaTokens`, `MediaTokenLaws`, `ByteRanges`).

Digests are symbolic: a digest is its algorithm with the bytes hashed, so equal digests mean equal bytes. The keyed hash
of the media tokens is a parameter that yields hexadecimal digits. Clocks, random paths, file system failures, read
failures and the order in which tables and maps yield their entries are parameters.

## What the code does not give

The properties below were expected and fail. Each is stated with the exact condition under which it holds, and for each
`Counterexamples`, `DestructiveRetry` or the module of the property has an input on which it fails.

* A replica is not safe from its own replication: a retried PUT whose payload fails its check, because a read error cut
  it short or the sender's file is gone, removes the receiver's good blob and leaves the row
  (`ClusterDelivery.RedeliveredPutIsHarmless`, `DestructiveRetry.RetryDestroysDeliveredBlob`,
  `AntiEntropyProgress.UnreadableRepairDestroysCopy`). What else removes a blob is `ClusterDurability.BlobLostExactly`.
* Nothing resets IN_FLIGHT: jobs of a batch that a restart loses, and jobs whose completing or failing statement fails,
  are never tried again, and block anti-entropy for their object (`OutboxJobs.DroppedJobsAreStranded`,
  `ClusterOutbox.StrandedBlocksRepairs`).
* An upload that fails in its insert transaction leaves the object it was to replace in the recycle bin, because that
  row is recycled outside the transaction (`Operations.FailedPutLeavesNoTrace`).
* `LIKE` folds ASCII case, so deleting a folder also recycles keys under the same name in other case
  (`Rename.SoftDeletePrefixExactness`), and a rename of a folder that exists only in other case succeeds and moves
  nothing (`Rename.RenameMovesNothingExactly`). A listing without a delimiter shows such keys as well
  (`Paging.FlatListingIsExact`).
* Renaming there and back restores the keys only if nothing else lived under the target (`Rename.RenameRoundTrip`).
* The slice after a delimiter match keeps one byte: with a longer delimiter an object can be listed and counted in a
  folder as well, and with a delimiter beyond ASCII the slice can fall inside a character and panic
  (`ListingLaws.TotalsAddUpExactly`, `ListingLaws.WideDelimiterPanics`).
* A restore and a received replica are not checked against quotas (`Operations.RestoreRespectsExactly`,
  `ClusterQuota.ReceiveRespectsExactly`, `ClusterQuota.ClusterQuotaHolds`).
* Deletion is final for non-empty objects only: a late PUT of an empty object carries a valid digest of no bytes
  (`ClusterDelivery.StalePutRecreatesExactly`).
* Anti-entropy compares digests of rows, so it does not bring back a blob that is missing under an agreeing row
  (`AntiEntropyLaws.AntiEntropyHeals`), and a repair whose key the peer uses for another object is retried for ever
  (`AntiEntropyProgress.DrainableExactly`).
* A replayed PUT whose bucket was renamed on the receiver creates that bucket again, though no row
  (`ClusterDelivery.RedeliveredPutIsHarmless`).
* The reconciler trims stored paths and strips leading "./" before it compares them as text; the engine does neither, and
  the file system skips empty and "." components. So it takes the file of a row for an orphan, and removes it, exactly
  when the stored path is not tidy and no other row is taken for the file (`ReconcileLaws.NormalizeResolvesExactly`, `ReconcileLaws.FileIsRecognisedExactly`,
  `ReconcileLaws.RepairKeepsOwnFileExactly`).

The comment on `rename_prefix` says that both prefixes must end with "/"; the function does not ask for it and neither
does the model. The comment on the anti-entropy loop says that it enqueues objects the peer is missing; the code also
enqueues those whose digest differs, and so does the model.

## Model

| member | source | states |
|---|---|---|
| ReplicationLaws.NodeClaimsExactly | src/db/repository.rs:1264-1309 | A job is handed out by a claim of a node exactly when it is PENDING or FAILED, its retry time has come, its peer is registered and active, and fewer than fifty such jobs are older. |
| OutboxAudit.FlightStep | src/cluster/worker.rs:35-62 | Every queue event keeps the batch IN_FLIGHT and in id order, and strands, IN_FLIGHT without a worker, exactly the jobs it makes the worker forget. |
| OutboxAudit.NoJobLost | src/cluster/worker.rs:35-62 | Over every run with any failures, lost records and restarts, enqueued jobs are the disjoint union of outstanding and completed ones, and the IN_FLIGHT rows are the rest of the batch and the jobs forgotten on the way. |
| ReplicationLaws.ClaimTouchesOnlyItsJobs | src/db/repository.rs:1264-1309 | A claim sets the jobs it hands out to IN_FLIGHT and changes nothing else; the batch is in id order, each job with its own columns and those of its object and bucket. |
| OutboxJobs.CompletedNeverReturns | src/db/repository.rs:1312-1318 | Over every later run, a completed job has no row and is never handed to the worker again. |
| OutboxJobs.FailedWaitsOut | src/db/repository.rs:1320-1334 | A failed job keeps its increased count and its retry time, thirty seconds later per attempt, and is not handed out, over every run whose claims come earlier. |
| OutboxJobs.DroppedJobsAreStranded | src/cluster/worker.rs:43-62 | Over every run with any number of restarts and lost records, the stranded jobs are those that were, every batch a restart lost and every job whose completion or failure could not be recorded: none is ever freed. |
| OutboxAudit.RetriesBackOff | src/db/repository.rs:1320-1334 | The stored attempt count of every job the worker has not forgotten is the number of its failures, and the k-th retry comes at least 15 k (k + 1) seconds after the first attempt, under a clock that never goes back. |
| ClusterOrder.PeersHandleInOrder | src/db/repository.rs:1291-1309 | In a cluster run in which no call of a node fails and it is not restarted, each peer handles a prefix of what that node enqueued for it, in order, and all of it once nothing for it is outstanding. |
| ClusterOrder.CallsSlowDown | src/db/repository.rs:1320-1334 | In every cluster run a node repeats a call for the k-th time at least 15 k (k + 1) seconds after the first. |
| ClusterOutbox.NodeQueueIsQueueRun | src/cluster/worker.rs:35-62 | In every cluster run each node's outbox goes through a run of the outbox machine. |
| ClusterOutbox.NoJobLostAnywhere | src/cluster/worker.rs:35-62 | No job is lost on any node of any cluster run, with restarts and lost records, and the IN_FLIGHT rows are accounted for. |
| Counterexamples.RestartStrandsJob | src/cluster/worker.rs:35-62 | A job that is claimed before a restart is IN_FLIGHT without a worker after it. |
| ClusterOutbox.StrandedBlocksRepairs | src/db/repository.rs:1359-1397 | In every cluster run a stranded PUT stays and keeps anti-entropy from enqueueing that object for that peer. |
| ClusterOutbox.EmptiedMeansRecorded | src/cluster/worker.rs:43-62 | A cluster run that empties a node's outbox began without stranded jobs and recorded the outcome of every call of that node. |
| ClusterOutbox.DeliveryCountsDown | src/cluster/grpc_server.rs:29-121 | While nodes only deliver to each other, each outbox shrinks by exactly its completed sends: receivers never enqueue. |
| ClusterSafety.StepKeepsInv | src/storage/engine.rs:119-177 | Every step of every node keeps both uniqueness rules, and keeps every blob, row and job true to the bytes first written under its path. |
| ClusterSafety.ContentAgreement | src/cluster/grpc_server.rs:29-104 | In every reachable cluster a row with a blob carries the blob's digest and size, and two nodes with a blob under one path hold the same bytes. |
| ClusterSafety.UniquenessEverywhere | migrations/0003_settings_rbac.sql:74-122 | In every reachable cluster every node has at most one active row per bucket and key and one row per path. |
| ClusterSafety.ReceivePutTrue | src/cluster/grpc_server.rs:48-90 | A payload with the announced digest is the original content; any other is rejected, in any chunking. |
| ClusterDelivery.DeletionIsFinal | src/cluster/grpc_client.rs:74-102 | Once no sending node holds the blob of a non-empty object, no run gives its row or blob to a node without them. |
| ClusterDelivery.PurgeAndDeleteAreFinal | src/server/purge.rs:56-79 | After a purge at the only sender and a delivered DELETE, no retry in any order brings a non-empty object back on either node. |
| ClusterDelivery.StalePutRecreatesExactly | src/storage/engine.rs:160-167 | A PUT whose blob is gone re-creates the object exactly when the object is empty and no other active object holds its key. |
| Counterexamples.LatePutRecreatesEmptyObject | src/storage/engine.rs:160-167 | A late PUT brings an empty object back. |
| ClusterDelivery.RedeliveredPutIsHarmless | src/cluster/grpc_server.rs:29-104 | Receiving a PUT again changes no row and no job, whatever its payload; it changes nothing at all exactly when the payload verifies and blob and bucket are there, or does not verify and there is no blob to lose. |
| Counterexamples.ReplayRecreatesBucket | src/db/rbac.rs:396-414 | A replayed PUT whose bucket was renamed creates that bucket again. |
| ClusterDelivery.RedeliveredDeleteIsHarmless | src/cluster/grpc_server.rs:106-121 | Receiving a DELETE twice is receiving it once. |
| ClusterDelivery.OnlyRestoreReactivates | src/db/repository.rs:615-646 | Over every run, a recycled row turns active only by a restore of that row on its own node. |
| ClusterDurability.BlobLostExactly | src/storage/engine.rs:119-177 | A step of any node takes a blob from a node exactly when it purges its row there, delivers a DELETE of its path, sweeps it without a row, or delivers a PUT of its path that fails its check. |
| ClusterDurability.BlobEndures | src/storage/engine.rs:119-177 | Over every run without such a step, a stored blob stays on its node with its bytes. |
| ClusterDurability.RowLostExactly | src/cluster/grpc_server.rs:106-121 | A step takes a row from a node exactly when it purges it there or delivers a DELETE of its path. |
| ClusterDurability.RowEndures | src/cluster/grpc_server.rs:106-121 | Over every run without such a step, a row stays on its node. |
| DestructiveRetry.RetryDestroysDeliveredBlob | src/cluster/grpc_client.rs:74-102 | A run in which a delivered object whose acknowledgement was lost is destroyed on the receiver by the retry, cut short by a read error: the row stays, the blob is gone. |
| AntiEntropy.RunOnceEnqueuesExactly | src/cluster/anti_entropy.rs:53-135 | After a pass a PUT waits for a peer and path exactly if one did before, or the peer is active and was compared, the path is active in a bucket that replicates to all or to that peer, and the digest lacks its etag; nothing else changes. |
| AntiEntropyLaws.AntiEntropyHeals | src/cluster/anti_entropy.rs:53-135 | From an empty outbox, a pass and any drain that empties it leave every active object of a bucket that replicates to all or to a compared peer in that peer's table, with the original bytes exactly if the digests disagreed or the blob was there. |
| AntiEntropyProgress.CleanSendShrinks | src/cluster/worker.rs:43-62 | When every repair is deliverable, every failure-free send is accepted and takes one job off the outbox. |
| AntiEntropyProgress.DrainableExactly | src/db/repository.rs:1359-1397 | The outbox can be drained after a pass exactly when every repair can be streamed and no peer uses its key for another object. |
| AntiEntropyProgress.DeliverableHeals | src/cluster/anti_entropy.rs:53-135 | When every repair is deliverable, some run of the worker after the pass heals every compared peer. |
| AntiEntropyProgress.UnreadableRepairDestroysCopy | src/storage/engine.rs:147-167 | A repair whose blob the sender has lost removes the receiver's blob of that path whenever it is handled, and is only put off. |
| Counterexamples.RivalIsNeverDrained | src/db/repository.rs:1160-1197 | Two nodes that took an upload of one key each: no run of the worker ever empties the outbox after the pass. |
| Counterexamples.AgreeingRowHidesLostBlob | src/cluster/anti_entropy.rs:53-135 | A node that has lost a blob but not its row is sent nothing. |
| AntiEntropyLoop.RunPass | src/cluster/anti_entropy.rs:53-135 | The nested loops over peers and digest have the effect of the pass. |
| AntiEntropy.LacksIsTested | src/db/repository.rs:134-160 | The pass tests just that: an active row, in a bucket that replicates to all or to the peer, whose etag the digest has not got. |
| AntiEntropyLoop.LocalDigest | src/db/repository.rs:1336-1357 | The loop builds the digest that AntiEntropy.DigestMapExactly describes: exactly the paths of active rows with their etags. |
| AntiEntropy.DigestMapExactly | src/db/repository.rs:1336-1357 | A path has an etag in the digest exactly when an active row has both. |
| AntiEntropyLoop.EnqueuePutForPeer | src/db/repository.rs:1359-1397 | A repair is enqueued unless a PUT for that peer and path is waiting. |
| ReplicationWorker.Tick | src/cluster/worker.rs:20-64 | A worker tick over running nodes is a run of the cluster: the claim at its time, then for each claimed job the send with the outcome, record and time of its call, carrying the whole file, its first buffers when a read fails, or nothing when it is gone. |
| ReplicationWorker.CleanBatchCompletes | src/cluster/worker.rs:43-62 | A batch whose calls are all accepted and recorded is completed: exactly its jobs leave the outbox. |
| ReplicationLaws.SendFate | src/cluster/worker.rs:43-62 | After a call its job is gone exactly when the peer accepted, the answer came and could be recorded; otherwise it is FAILED and put off by thirty seconds per attempt, or left IN_FLIGHT when nothing could be recorded; all other jobs stay. |
| ReplicationLaws.SendReachesPeer | src/cluster/worker.rs:66-83 | A call that reaches its peer has the effect of the receiving handler there; no other node changes, and the sender only in its outbox. |
| ReplicationLaws.QuietSteps | src/storage/reconcile.rs:205-213 | A restart loses the batch and nothing else, a sweep takes exactly the listed files without a row, a repair adds one due PUT unless one waits; each on one node only. |
| ReplicationLaws.EveryStepIsOpen | src/cluster/worker.rs:20-64 | The runs leave out nothing a node can do at any moment: restarts, sweeps, operations, repairs, configurations, and calls with any outcome and any cut of the file. |
| ReplicationWorker.ProcessJob | src/cluster/worker.rs:66-83 | A job's call has one of three outcomes at its receiver, and succeeds only when handled and acknowledged. |
| ReplicationServer.ReplicateObject | src/cluster/grpc_server.rs:29-104 | The collected stream is stored, verified and recorded as the receiving specification says; without metadata nothing happens. |
| ReplicationServer.CollectsExactly | src/cluster/grpc_server.rs:36-47 | Of several metadata messages the last one counts; all payloads do, in their order. |
| ReplicationServer.NoHeader | src/cluster/grpc_server.rs:36-49 | Without a metadata message there is no header. |
| ReplicationServer.PayloadsExactly | src/cluster/grpc_server.rs:36-47 | Each payload counts once and an empty message not at all. |
| ReplicationLaws.ReceivedExactly | src/cluster/grpc_server.rs:48-90 | After a PUT, table by table: a wrong digest removes the file and changes nothing else; a right one leaves file and bucket, and records the object with every column of the message unless its path is there or another active row holds its key. |
| ReplicationLaws.ReplicaIsCopy | src/cluster/grpc_client.rs:27-102 | An object delivered whole to a node without its path and key is recorded there with the same key, path, format, size, digest, times and bytes, in the bucket of the same name. |
| ReplicationServer.DeleteObject | src/cluster/grpc_server.rs:106-121 | The blob and the row under the path are gone, and jobs of the row lose their reference. |
| ReplicationLaws.DeletedExactly | src/cluster/grpc_server.rs:106-121 | After a DELETE no file and no row has the path; exactly the references to that row are nulled, and all else stays. |
| ReplicationServer.ResolveBucket | src/db/rbac.rs:396-414 | The bucket of that name is found or created, replicating to all. |
| StoreLaws.EnsureBucketExactly | src/db/rbac.rs:396-414 | The bucket of that name if there is one and nothing changes, else a new one that replicates to all, without allocations and hashing with MD5. |
| ReplicationServer.InsertObjectIdempotent | src/db/repository.rs:1160-1197 | Nothing when the path is taken, an error when the active key is, otherwise a new row. |
| ReplicationLaws.InsertedExactly | src/db/repository.rs:1160-1197 | A row is recorded unless its path is there, which is no error, or another active row of the bucket holds its key, which is one. |
| ReplicationServer.StreamCarriesMessage | src/cluster/grpc_client.rs:27-102 | What the sender streams for a job arrives as that job's message, with the fallbacks for a row that is gone. |
| ReplicationLaws.MessageExactly | src/cluster/grpc_client.rs:32-73 | A PUT announces the columns of its object and the name of its bucket, or without the row the job's own path and digest, format "bin", MD5 and bucket "storage". |
| NodeServers.NodeServer.PutUpload | src/server/s3_routes.rs:86-214 | An upload through all its steps and undos has exactly the specified state and outcome, whichever step fails. |
| NodeServers.NodeServer.PutChunks | src/storage/engine.rs:119-177 | A stream is written and hashed chunk by chunk; a broken one leaves what arrived, a wrong digest removes the file. |
| NodeServers.NodeServer.HashFilepath | src/storage/engine.rs:187-199 | Reading the file buffer by buffer and once more for its end yields the digest of its bytes, unless one of those reads fails. |
| NodeServers.NodeServer.StreamBlob | src/cluster/grpc_client.rs:74-102 | The payload stream is the file, as many buffers of 64 KiB as were read before a read failed, or nothing when it cannot be opened. |
| NodeServers.NodeServer.CheckHardQuota | src/db/repository.rs:436-468 | Growth is allowed exactly if not positive or if usage and growth, cut off at the largest 64-bit integer, are within every hard allocation; soft ones do not count. |
| StoreLaws.EnqueueReachesTargets | src/db/repository.rs:64-97 | Enqueueing for a row gives one due job to every active peer but the node itself, if the bucket replicates to all or to that peer, and to nobody else; the jobs that were there stay. |
| NodeServers.NodeServer.Enqueue | src/db/repository.rs:99-132 | The loop over the peers has that effect, and none once the row is gone (StoreLaws.EnqueueWithoutRow). |
| StoreLaws.EnqueueWithoutRow | src/db/repository.rs:74-76 | Nothing is enqueued for a row that is gone. |
| StoreLaws.ReceiversExactly | src/db/repository.rs:134-160 | A peer receives a bucket's objects exactly when it is active, not the node itself, and the bucket replicates to all or to it. |
| NodeServers.NodeServer.ClaimOutboxJobs | src/db/repository.rs:1264-1309 | The joined query and one update per job have the effect of the claim that ReplicationLaws.NodeClaimsExactly describes. |
| Hashing.DigestChunks | src/storage/hasher.rs:26-71 | Feeding a stream in any chunking gives the digest of the concatenated bytes. |
| Operations.ApplyKeepsSound | migrations/0003_settings_rbac.sql:74-122 | Every local operation, failed or not, keeps the uniqueness rules and the foreign key to buckets. |
| Operations.PutChangesUsageExactly | src/server/s3_routes.rs:134-161 | A stored upload changes its bucket's usage by the new size minus the replaced one, and no other bucket's. |
| Operations.NothingUsed | src/db/repository.rs:436-468 | A bucket without active rows uses nothing. |
| Operations.HardQuotaHolds | src/db/repository.rs:436-468 | Over every run of operations of one node, each step keeps a bucket within a hard allocation, or does not let one that is over it grow, exactly when every restore fits and, at the largest 64-bit integer, every upload does. |
| Operations.RestoreRespectsExactly | src/db/repository.rs:615-646 | A restore keeps a limit exactly when usage plus the size of the row is within it, or the row is empty. |
| Operations.UploadsAreGuarded | src/db/repository.rs:436-468 | Every run without restores keeps every hard allocation below the largest 64-bit integer. |
| ClusterQuota.ReceiveRespectsExactly | src/db/repository.rs:1160-1197 | A received replica keeps a limit exactly when it adds no row to the bucket, or usage plus its size is within the limit, or it is empty. |
| ClusterQuota.ClusterQuotaHolds | src/db/repository.rs:436-468 | Over every cluster run, each step keeps a bucket of a node within a hard allocation, or does not let one that is over it grow, exactly when every restore and every received replica fits. |
| ClusterQuota.KeptToTheEnd | src/db/repository.rs:436-468 | A run whose steps all keep the allocation ends within it, or with no more used than at its start. |
| Counterexamples.RestorePassesHardLimit | src/db/repository.rs:615-646 | A restore passes a hard allocation of one byte by another, where an upload of the same bytes is refused. |
| Counterexamples.ReplicaPassesHardLimit | src/db/repository.rs:1160-1197 | A received replica of two bytes passes a hard allocation of one byte. |
| Operations.FailedPutLeavesNoTrace | src/server/s3_routes.rs:126-203 | A failed upload leaves no new row, job or blob (but for a broken stream); it leaves the table untouched exactly if it did not fail after recycling a replaced row. |
| Counterexamples.FailedOverwriteHidesKey | src/server/s3_routes.rs:158-203 | An overwrite whose insert fails leaves its key without an object. |
| Operations.StoredPutIsVisible | src/server/s3_routes.rs:158-214 | A stored upload serves its key with the digest of its bytes; the replaced row is recycled and no other row changes. |
| StoreLaws.UploadReachesTargets | src/db/repository.rs:64-97 | A stored upload gives one due PUT of the new row to every active peer but the node itself that the bucket replicates to, and to nobody else. |
| StoreLaws.UploadOutcomes | src/server/s3_routes.rs:86-214 | An upload is stored exactly when nothing fails, the path is new, and the bucket does not grow or the growth fits; it is over quota exactly when the growth does not fit and no earlier step fails. |
| StoreLaws.UploadedRow | src/server/s3_routes.rs:158-190 | The new row has the requested digest algorithm, or else that of the bucket, and the size and digest of the bytes, column by column. |
| StoreLaws.FailedUploadLeaves | src/server/s3_routes.rs:126-203 | A failed upload removes its file, unless its body broke: then the chunks that came stay; the old row is recycled exactly if the transaction was reached. |
| Operations.PurgeRemoves | src/server/settings_routes.rs:1863-1890 | A purge removes exactly the row and its blob and leaves no job pointing at the row. |
| StoreLaws.PurgeReachesTargets | src/db/repository.rs:99-132 | A purge gives one due DELETE of the path to every active peer but the node itself that the bucket replicates to, and to nobody else, and nulls exactly the references to the row. |
| FolderOperations.SoftDeleteObject | src/db/repository.rs:490-532 | Deleting a key recycles one active row that has it, in the given bucket or in any; without one nothing happens. |
| StoreLaws.SoftDeleteExactly | src/db/repository.rs:490-532 | A recycled row gets its deletion mark and modification time, nothing active is left under its key in its bucket, and all other rows stay; any other id changes nothing. |
| StoreLaws.SoftDeletePrefixRows | src/db/repository.rs:771-793 | Deleting a folder marks exactly the active rows of the bucket under the prefix up to ASCII case, and changes no other row or column. |
| StoreLaws.RestoreExactly | src/db/repository.rs:615-646 | A restore is refused for an unknown or active row, and exactly while an active row of the same bucket has the key; else it clears the mark. |
| PurgeOperations.HardPurge | src/server/settings_routes.rs:1863-1890 | Announce, delete, null the references and unlink have the effect of the specified purge. |
| PurgeOperations.PurgeOnce | src/server/purge.rs:43-81 | The loop over expired rows purges each of them, up to the one at which the database fails it. |
| PurgeOperations.PurgeOnceRemovesExactly | src/server/purge.rs:43-81 | Exactly the listed rows and their blobs are gone, no job refers to them, and active rows survive with their blobs. |
| PurgeOperations.PurgeEachAnnounces | src/server/purge.rs:56-72 | Every active peer that the bucket of a purged object replicates to is told to delete it. |
| PurgeOperations.DeleteBucket | src/server/settings_routes.rs:1226-1280 | Nothing of a deleted bucket remains, active or recycled, and everything else is as it was; others than the owner and the default bucket are refused; a database error keeps the bucket and purges exactly the objects before it. |
| RehashOperations.RunBucketRehash | src/server/etag_rehash.rs:16-58 | The loop has the specified effect: an object that fails is skipped, and one that is re-hashed but cannot be counted ends it. |
| RehashOperations.RehashOne | src/server/etag_rehash.rs:60-80 | One object is re-hashed from its blob and announced, whichever step fails: after the row is updated, a failing announcement leaves it updated. |
| RehashOperations.BucketRehashExact | src/db/repository.rs:1554-1572 | Exactly the rows that are reached and can be written get the new digest of their blob, and nothing else changes but the outbox; without failures these are the active objects of the bucket with a blob that are no folder markers, in any case of ".keep" after a slash. |
| RehashOperations.RehashProgress | src/server/etag_rehash.rs:16-58 | The loop ends at the first object that is rewritten and announced but not counted, or at the end of the list, and reports the tries counted by then. |
| StoreLaws.RehashReachesTargets | src/server/etag_rehash.rs:60-80 | A re-hash that is announced gives one PUT of the new digest to every peer the bucket replicates to. |
| StoreLaws.RehashExactly | src/server/etag_rehash.rs:60-80 | A re-hash changes digest, algorithm and modification time of an active row with a blob, and nothing for any other. |
| Rename.PartialRenameIsSafe | src/db/repository.rs:833-848 | However many rows the update loop has rewritten, in any order, both uniqueness rules hold. |
| Rename.RenameIsExact | src/db/repository.rs:795-850 | On success exactly the bucket's active keys under the prefix get the new one, and the time of the rename; all other columns and rows stay; the count is that of the moved keys. |
| Rename.RenameRefusals | src/db/repository.rs:801-831 | When and why a rename is refused: no key under the prefix up to case, or some key would land on another. A rename to the same name is not refused and moves nothing. |
| StoreLaws.RenameFolderExactly | src/db/repository.rs:795-850 | In all runs a rename rewrites key and time of exactly the active rows under the old prefix, if it is not to the same name and no target key is taken, and changes nothing else. |
| Rename.RenameMovesNothingExactly | src/db/repository.rs:801-850 | A rename succeeds over no rows exactly when no active key begins with the old prefix but some does in other case. |
| Counterexamples.RenameOfOtherCaseMovesNothing | src/db/repository.rs:801-850 | Renaming "d/" when the folder is called "D/" reports success and changes nothing. |
| Rename.EmptyRenameRoundTrip | src/db/repository.rs:795-850 | A rename that succeeds over no rows changes none, and neither does its reverse when every active key under the target is under the source. |
| Rename.RenameRoundTrip | src/db/repository.rs:795-850 | Renaming back succeeds and restores every key exactly when every active key under the target was under the source. |
| Counterexamples.RenameBackMovesStranger | src/db/repository.rs:795-850 | Renaming "a/" to "b/" and back moves the object that was under "b/" before. |
| Rename.SoftDeletePrefixReach | src/db/repository.rs:771-793 | Deleting a folder recycles exactly the active keys under its prefix up to ASCII case, in that bucket only. |
| Rename.SoftDeletePrefixExactness | src/db/repository.rs:771-793 | It leaves all other keys alone exactly when none begins with the prefix in other case. |
| Counterexamples.DeleteTakesOtherCase | src/db/repository.rs:771-793 | Deleting the folder "d/" recycles the key "D/x". |
| FolderOperations.RenamePrefix | src/db/repository.rs:795-850 | The conflict loop and the update loop have the effect and outcome of the specified rename. |
| FolderOperations.ApplyRenames | src/db/repository.rs:835-847 | One update per rename in any order, with the unique index satisfied after each. |
| FolderOperations.CollectRenames | src/db/repository.rs:806-831 | The first loop succeeds exactly when no target key is in use, and collects every rename. |
| FolderOperations.SoftDeletePrefix | src/db/repository.rs:771-793 | The rows LIKE selects are recycled and counted. |
| FolderOperations.RestoreObject | src/db/repository.rs:615-646 | A recycled row is restored unless another active row holds its key. |
| LikePatterns.EscapingIsPerCharacter | src/db/repository.rs:684-688 | The three successive replacements escape character by character. |
| LikePatterns.PrefixPatternSelects | src/db/repository.rs:684-688 | The escaped prefix pattern matches exactly the strings that begin with the prefix up to ASCII case. |
| LikePatterns.ContainsPatternSelects | src/db/repository.rs:985-987 | The escaped search pattern matches exactly the strings that contain the text up to ASCII case. |
| LikePatterns.FoldsAsciiOnly | src/db/repository.rs:684-688 | Two characters are the same to LIKE exactly when they are equal or the two cases of an ASCII letter. |
| LikePatterns.SuffixMatches | src/db/repository.rs:1563-1564 | "%" before plain text matches exactly what ends with it up to ASCII case. |
| LikePatterns.UnderscoreMatchesOne | src/db/repository.rs:684-688 | "_" matches any one character, which is why it is escaped. |
| Listing.FolderEntryFromRows | src/db/repository.rs:852-879 | Count, bytes, earliest upload and latest change of exactly the rows whose key begins with the prefix. |
| Listing.ListWithDelimiter | src/db/repository.rs:1083-1111 | The grouping loop yields the folders of the rows in order without duplicates, each summed up, and the direct objects in row order, unless a byte slice falls inside a character. |
| ListingLaws.FolderExactly | src/db/repository.rs:1092-1099 | A key falls into the folder that ends with the first character of the first delimiter after the prefix. |
| ListingLaws.NoFolderExactly | src/db/repository.rs:1092-1099 | It falls into none exactly when it is outside the prefix or has no delimiter after it. |
| Listing.MarkerExactly | src/db/repository.rs:1099-1101 | A marker is ".keep" itself or a key that ends with "/.keep". |
| ListingLaws.ListingPartitionsKeys | src/db/repository.rs:1083-1111 | With a delimiter of one byte no slice fails, and each active key under the prefix is exactly one of a listed object, a dropped marker, or under one listed folder; nothing else is listed; both lists are sorted. |
| ListingLaws.TotalsAddUpExactly | src/db/repository.rs:1092-1111 | The listing never panics, and folder totals, objects and markers add up to the rows under the prefix, in number and bytes, for all rows exactly when the delimiter is one byte long. |
| ListingLaws.LongDelimiterCountsTwice | src/db/repository.rs:1096-1097 | Under every longer delimiter that begins with a one-byte character there are two rows that are listed without a panic and whose totals do not add up: one is counted at its level and in a folder as well. |
| ListingLaws.WideDelimiterBreaks | src/db/repository.rs:1096-1097 | Under every delimiter that begins with a longer character, each key that has it right after the prefix makes the byte slice panic. |
| ListingLaws.WideDelimiterPanics | src/db/repository.rs:1096-1097 | The one-character delimiter "é" and the key "aéb" make the byte slice panic. |
| Paging.PageIsWindow | src/db/repository.rs:925-974 | Every page is the window of folders then objects at its offset and limit, without a bounds failure; it says truly what they are, how many entries there are, and whether there is more. |
| Paging.WindowExactly | src/db/repository.rs:925-974 | A window begins at its offset, or at 0, and is as long as its limit and the listing allow; a limit of zero or less is none. |
| Ordering.BeforeExactly | src/db/repository.rs:1070-1083 | In the order of keys the first place where two differ decides, and a proper prefix comes first. |
| Paging.ListObjects | src/db/repository.rs:1065-1115 | A listing, grouped or flat, contains no marker and is paged; a flat one is all other rows of the query, in order; only a grouped one can fail, at a byte slice. |
| Paging.FlatListingSelects | src/db/repository.rs:1070-1083 | A listing without a delimiter shows exactly the active keys that begin with the prefix up to ASCII case and are no markers, in key order. |
| Paging.FlatListingIsExact | src/db/repository.rs:1070-1083 | It shows keys under the prefix only exactly when no active key other than markers begins with the prefix in other case alone. |
| Counterexamples.FlatListingShowsOtherCase | src/db/repository.rs:1070-1083 | A flat listing of "d/" shows the key "D/x". |
| Paging.Browse | web-ui/static/app.js:505-520 | The explorer's loop terminates and shows every entry once and in order. |
| Reconcile.Classify | src/storage/reconcile.rs:92-154 | Orphans are exactly the disk files no row refers to; every row falls into one of four groups by state and presence. |
| Reconcile.ReportedExactly | src/storage/reconcile.rs:50-66 | A path is in a group once for every row in that state whose normalised path it is, if its file is there or missing as the group says. |
| Reconcile.RowsConserved | src/storage/reconcile.rs:127-143 | Present plus missing rows are all rows, for active and recycled ones. |
| Reconcile.Inspect | src/storage/reconcile.rs:165-192 | The dry run reports the classification: sums that add up, and the first fifty missing paths and orphans in order. |
| Reconcile.Repair | src/storage/reconcile.rs:194-233 | Exactly the visible unreferenced files the file system lets go are removed; the report's sums add up, and it shows the first fifty removed and missing paths in order. |
| Reconcile.ObjectsDir.List | src/storage/reconcile.rs:68-90 | The listing is the files in order whose names hold no slash and do not begin with a dot. |
| ReconcileLaws.RepairKeepsVerdicts | src/storage/reconcile.rs:194-233 | A repair changes no row's verdict, whatever it could not unlink. |
| ReconcileLaws.RepairIsIdempotent | src/storage/reconcile.rs:194-233 | When every unlink succeeds, what is left is what is referenced, and a second repair removes nothing. |
| ReconcileLaws.NormalizeResolvesExactly | src/storage/reconcile.rs:39-48 | For paths without ".." components, a normalised name resolves to the file the engine opens exactly when the path has no white space at its ends, and stripping leading "./" leaves it alone or leaves a relative path with a directory in it. |
| Reconcile.NormalizeExactly | src/storage/reconcile.rs:39-48 | Without white space at its ends and leading "./", a path with a directory is kept, and a plain name is put under "objects/". |
| Reconcile.StripDotsExactly | src/storage/reconcile.rs:39-48 | Every leading "./" is stripped, one after the other, until there is none. |
| Text.TrimExactly | src/storage/reconcile.rs:39-48 | Trimming takes white space off both ends, all of it, and nothing else. |
| Text.SpacesExactly | src/storage/reconcile.rs:39-48 | White space is the 25 characters with the Unicode property White_Space. |
| Counterexamples.NormalizeMisses | src/storage/reconcile.rs:39-48 | The reconciler looks for "./x" and for " x" elsewhere than the engine. |
| ReconcileLaws.FileIsRecognisedExactly | src/storage/engine.rs:48-55 | The file the engine opens for a row is taken for referenced by that row exactly when the stored path has no white space at its ends and, after leading "./", no empty, "." or ".." component. |
| ReconcileLaws.ClimbingIsNeverRecognised | src/storage/reconcile.rs:39-48 | A path with a ".." component is never taken for a listed file, whatever it opens. |
| ReconcileLaws.RepairKeepsOpenedFiles | src/storage/reconcile.rs:205-213 | A repair never removes a file the engine opens for a row with such a path. |
| ReconcileLaws.RepairKeepsOwnFileExactly | src/storage/reconcile.rs:205-213 | When no other row is taken for it, a repair keeps the file the engine opens for a row exactly when its path is such, or the unlink fails. |
| Counterexamples.RepairRemovesOpenedFile | src/storage/reconcile.rs:92-125 | The repair removes the file "x" that the engine opens for the row "objects//x". |
| MediaTokenLaws.ShareTokenRoundTrip | src/server/media_access.rs:81-157 | A share token verifies to its own grant exactly until the whole second of its expiry is over; the expiry is a week from minting, or that of the share if it is earlier. |
| MediaTokenLaws.ShareTokenMinted | src/server/media_access.rs:81-90 | A share token is minted exactly when the share has not expired. |
| MediaTokenLaws.PersonalTokenRoundTrip | src/server/media_access.rs:97-157 | A personal token verifies to its own grant, for every account, bucket and key, exactly until the whole second of its expiry is over, a day from minting. |
| MediaTokenLaws.OnlySignedTokensVerify | src/server/media_access.rs:111-157 | A grant comes only from a payload that carries its own signature, reads as that grant and has not expired. |
| MediaTokenLaws.RefusalsExactly | src/server/media_access.rs:111-121 | An empty token, one without a dot and one whose last field is not the signature of the rest are refused as such; any other is judged by its payload. |
| MediaTokenLaws.ShareFieldsRead | src/server/media_access.rs:122-136 | A share payload needs three 64-bit integers and a time that is not over, in this order of refusals. |
| MediaTokenLaws.PersonalFieldsRead | src/server/media_access.rs:137-155 | A personal payload needs three integers, a time that is not over, a base64url key and UTF-8 in it, in this order of refusals. |
| MediaTokenLaws.OtherPayloads | src/server/media_access.rs:156 | No other payload is accepted. |
| MediaTokenLaws.PayloadInjective | src/server/media_access.rs:92-106 | Distinct grants have distinct payloads. |
| MediaTokenLaws.PayloadExactly | src/server/media_access.rs:92-106 | The text of a payload, field by field. |
| MediaTokenLaws.SameSignatureIsEquality | src/server/media_access.rs:65-79 | The comparison that looks at every byte accepts exactly equal signatures. |
| MediaTokenLaws.TokenSurvivesQuery | src/server/media_access.rs:209-219 | A link carries every minted token verbatim. |
| MediaTokenLaws.AccessIsReadBack | src/server/media_access.rs:209-219 | Whatever the access text, a reader of the link finds its bytes as one more access parameter, after all parameters the path had; the path is a prefix of the link. |
| Numerals.PrintParses | src/server/media_access.rs:92-135 | Parsing a printed 64-bit integer gives it back. |
| Numerals.ParsesExactly | src/server/media_access.rs:123-125 | Digits after an optional sign parse exactly if their value fits; an unsigned integer takes no minus. |
| Numerals.OnlyDigitsParse | src/server/media_access.rs:123-125 | Nothing else parses. |
| Numerals.ZerosInFront | src/server/media_access.rs:123-125 | Zeros in front do not change a value. |
| Numerals.PrintNatCanonical | src/server/media_access.rs:92 | Only zero is printed with a zero in front. |
| Base64Url.DecodeEncode | src/server/media_access.rs:104-150 | Decoding encoded bytes gives them back. |
| Base64Url.EncodeDecode | src/server/media_access.rs:147-150 | Only the canonical unpadded encoding decodes. |
| Base64Url.EncodeExactly | src/server/media_access.rs:105 | Bytes are encoded three by three, the last one or two without padding. |
| Base64Url.GroupsExactly | src/server/media_access.rs:105 | A group holds the bits of its bytes in order, filled up with zeros. |
| Base64Url.AlphabetExactly | src/server/media_access.rs:105 | The URL-safe alphabet. |
| Utf8.DecodeEncode | src/server/media_access.rs:104-150 | Decoding the UTF-8 form of a string gives it back. |
| Utf8.EncodeDecode | src/server/media_access.rs:150 | Only the encoding of a string decodes. |
| Utf8.EncodeCharExactly | src/server/media_access.rs:105 | One to four bytes as the code point needs, whose bits after the marks are the code point. |
| PercentEncoding.UrlEncode | src/server/media_access.rs:171-182 | Encoding byte by byte keeps unreserved characters and writes every other byte as two upper-case digits. |
| PercentEncoding.EncodeByteExactly | src/server/media_access.rs:171-182 | Letters, digits and "-", ".", "_", "~" stand for themselves; every other byte is "%" and two upper-case digits. |
| PercentEncoding.KeyPathDecodes | src/server/media_access.rs:164-169 | A key's link path decodes to the bytes of that key, for every key. |
| PercentEncoding.KeyPathKeepsSlashes | src/server/media_access.rs:164-169 | Slashes of a key stay, and the text between them is encoded segment by segment. |
| PercentEncoding.KeyPathInjective | src/server/media_access.rs:164-169 | Distinct keys have distinct link paths. |
| ByteRanges.ParseBytesRange | src/server/s3_routes.rs:230-260 | An accepted range lies inside the file and is not backwards. |
| ByteRanges.FromToParses | src/server/s3_routes.rs:244-259 | A two-sided range is accepted exactly when it begins inside the file and is not backwards, and is cut at the end. |
| ByteRanges.FromParses | src/server/s3_routes.rs:244-259 | An open range is accepted exactly when it begins inside the file, and runs to its end. |
| ByteRanges.LastParses | src/server/s3_routes.rs:237-243 | A suffix range is the last bytes of the file, all of it when it asks for more. |
| ByteRanges.ParsesExactly | src/server/s3_routes.rs:236-260 | Every range: a suffix length after a dash, a first byte and a dash, or two bytes in order; anything else is none. |
| ByteRanges.FirstOfMany | src/server/s3_routes.rs:231-234 | Of several ranges the first is used, without the white space around it. |
| ByteRanges.OtherUnits | src/server/s3_routes.rs:231-232 | A header that does not begin with "bytes=" is no range. |
| ByteRanges.GetExactly | src/server/s3_routes.rs:263-366 | The whole file without a range header or when it is empty, 416 when the header is no range of it, otherwise its bytes from the first to the last. |
| ByteRanges.FetchInBlocks | src/server/s3_routes.rs:263-366 | Asking for consecutive blocks delivers the file once and in order. |

## Left out

* Transport, TLS, connection handling and async scheduling: a call is one atomic step, and an operation of one node is
  not interleaved with another of the same node.
* Aliases: outside reconciliation a blob is known by its stored path, so two paths never name one file.
* A crash in the middle of an operation that is one step here. A restart of the worker between two steps is modelled.
- Operations.HardQuotaHolds: uploads of one node do not overlap; in the program the quota check is not in the transaction of the insert.
- OutboxAudit.RetriesBackOff: times are whole seconds, as SQLite's are, and the clock does not go back.
- ListingLaws.TotalsAddUpExactly: sums are unbounded; the program adds 64-bit sizes, which a bucket of more than eight exabytes would overflow.
- LikePatterns.PrefixPatternSelects: strings without NUL and below SQLite's pattern length limit, which the model does not have.
- ClusterDelivery.PurgeAndDeleteAreFinal: the commit and the unlink of a purge are one step.
- MediaTokenLaws.ShareTokenRoundTrip: the expiry in seconds fits a 64-bit integer, as every date of the program does.
- Reconcile.Repair: the disk is not changed by others while a repair runs.
- ReconcileLaws.NormalizeResolvesExactly: ".." components are kept as names; what they open depends on the directories that are there.
- ReplicationServer.DeleteObject: the unlink succeeds; the program ignores its failure.
- PurgeOperations.HardPurge: the unlink after the commit succeeds; the program only logs or ignores its failure, which leaves a file without a row for the reconciler.
- PurgeOperations.PurgeOnce: which rows have expired is a parameter, because the program compares stored text timestamps with a bound one.
* Search listings: their folders match by Unicode lower case; only the pattern is modelled.
* The status and error texts of a re-hash in the bucket row.
* Text forms of digests, timestamps and algorithm names, and the fallback to MD5 for an unknown name.
* Two-sided ranges beyond one per request, multipart answers, and headers other than the range.
* Accounts, roles, sessions, share links, key normalisation, archives, relocation, request signing, the terminal
  dashboard and the web UI: single-branch rules, or foreign libraries.
* Full convergence of the cluster, which the code does not give: a peer rejects the PUT of an overwrite while it has the
  old row active, a re-hashed etag does not replace a peer's row, and another node's anti-entropy can send a purged
  object back to its origin.
