/** Whole runs of local operations on one node: soundness, quota, and what only a restore can do. */
module Operations {
  import opened Basics
  import opened Hashing
  import opened Outbox
  import opened Store
  import opened Lifecycle
  import opened Rename

  datatype LocalOp =
    | Upload(req: PutRequest, fault: PutFault)
    | RecycleItem(id: nat)
    | DeleteFolder(bucket: nat, prefix: string)
    | RestoreItem(id: nat)
    | RenameFolder(bucket: nat, from: string, to: string)
    | PurgeItem(id: nat)
    | RehashItem(id: nat, alg: EtagType, announced: bool)

  datatype Timed = Timed(op: LocalOp, at: int)

  ghost function Apply(n: Node, self: string, op: LocalOp, now: int): Node {
    match op
    case Upload(req, fault) => PutObject(n, self, req, fault, now).0
    case RecycleItem(id) => SoftDelete(n, id, now)
    case DeleteFolder(bucket, prefix) => SoftDeletePrefix(n, bucket, prefix, now)
    case RestoreItem(id) => Restore(n, id, now).0
    case RenameFolder(bucket, from, to) => RenamePrefix(n, bucket, from, to, now).0
    case PurgeItem(id) => Purge(n, self, id, now)
    case RehashItem(id, alg, announced) => Rehash(n, self, id, alg, announced, now)
  }

  ghost function ApplyAll(n: Node, self: string, ops: seq<Timed>): Node
    decreases |ops|
  {
    if ops == [] then n else ApplyAll(Apply(n, self, ops[0].op, ops[0].at), self, ops[1..])
  }

  // ----- Soundness -----

  lemma RenameKeepsSound(n: Node, bucket: nat, from: string, to: string, now: int)
    requires Sound(n)
    ensures Sound(RenamePrefix(n, bucket, from, to, now).0)
  {
    if from != to && RenamePrefix(n, bucket, from, to, now).1.Renamed? {
      RenameIsExact(n, bucket, from, to, now);
    }
  }

  /** Rows only leave, are recycled or are re-hashed; no row is added and no size changes. */
  ghost predicate OnlyShrinks(n: Node, m: Node) {
    && Shrinks(n.objects, m.objects)
    && (forall i :: i in m.objects ==> m.objects[i].size == n.objects[i].size)
    && m.nextObject == n.nextObject && m.buckets == n.buckets && m.nextBucket == n.nextBucket
  }

  lemma SoftDeleteShrinks(n: Node, id: nat, now: int)
    ensures OnlyShrinks(n, SoftDelete(n, id, now))
  {
  }

  lemma SoftDeletePrefixShrinks(n: Node, bucket: nat, prefix: string, now: int)
    ensures OnlyShrinks(n, SoftDeletePrefix(n, bucket, prefix, now))
  {
  }

  lemma PurgeShrinks(n: Node, self: string, id: nat, now: int)
    ensures OnlyShrinks(n, Purge(n, self, id, now))
  {
  }

  lemma RehashShrinks(n: Node, self: string, id: nat, alg: EtagType, announced: bool, now: int)
    ensures OnlyShrinks(n, Rehash(n, self, id, alg, announced, now))
  {
  }

  lemma ShrinkingOps(n: Node, self: string, op: LocalOp, now: int)
    requires op.RecycleItem? || op.DeleteFolder? || op.PurgeItem? || op.RehashItem?
    ensures OnlyShrinks(n, Apply(n, self, op, now))
  {
    match op {
      case RecycleItem(id) => SoftDeleteShrinks(n, id, now);
      case DeleteFolder(bucket, prefix) => SoftDeletePrefixShrinks(n, bucket, prefix, now);
      case PurgeItem(id) => PurgeShrinks(n, self, id, now);
      case RehashItem(id, alg, announced) => RehashShrinks(n, self, id, alg, announced, now);
    }
  }

  lemma ApplyKeepsSound(n: Node, self: string, op: LocalOp, now: int)
    requires Sound(n)
    ensures Sound(Apply(n, self, op, now))
  {
    match op {
      case Upload(req, fault) => PutKeepsSound(n, self, req, fault, now);
      case RestoreItem(id) => RestoreKeepsSound(n, id, now);
      case RenameFolder(bucket, from, to) => RenameKeepsSound(n, bucket, from, to, now);
      case _ =>
        ShrinkingOps(n, self, op, now);
        ShrinkingKeepsSound(n, Apply(n, self, op, now));
    }
  }

  // ----- Quota -----

  lemma {:induction false} UsedSame(a: map<nat, Row>, b: map<nat, Row>, bucket: nat, upTo: nat)
    requires forall i: nat :: i < upTo ==> Weight(a, bucket, i) == Weight(b, bucket, i)
    ensures UsedBelow(a, bucket, upTo) == UsedBelow(b, bucket, upTo)
  {
    if upTo > 0 { UsedSame(a, b, bucket, upTo - 1); }
  }

  lemma {:induction false} UsedShrinks(a: map<nat, Row>, b: map<nat, Row>, bucket: nat, upTo: nat)
    requires forall i: nat :: i < upTo ==> Weight(b, bucket, i) <= Weight(a, bucket, i)
    ensures UsedBelow(b, bucket, upTo) <= UsedBelow(a, bucket, upTo)
  {
    if upTo > 0 { UsedShrinks(a, b, bucket, upTo - 1); }
  }

  /** Changing one row changes the sum by that row's change. */
  lemma {:induction false} UsedChangesBy(a: map<nat, Row>, b: map<nat, Row>, bucket: nat, upTo: nat, at: nat)
    requires at < upTo
    requires forall i: nat :: i < upTo && i != at ==> Weight(a, bucket, i) == Weight(b, bucket, i)
    ensures UsedBelow(b, bucket, upTo) == UsedBelow(a, bucket, upTo) + Weight(b, bucket, at) - Weight(a, bucket, at)
  {
    if at == upTo - 1 {
      UsedSame(a, b, bucket, upTo - 1);
    } else {
      UsedChangesBy(a, b, bucket, upTo - 1, at);
    }
  }

  lemma RecycleUsage(n: Node, bucket: nat, key: string, now: int, b: nat)
    requires Sound(n)
    ensures UsedBelow(RecycleActive(n.objects, bucket, key, now), b, n.nextObject) ==
              UsedBytes(n, b) - (if b == bucket then ReplacedSize(n, bucket, key) else 0)
  {
    var found := FindActive(n.objects, bucket, key);
    if found.Some? {
      UsedChangesBy(n.objects, RecycleActive(n.objects, bucket, key, now), b, n.nextObject, found.value);
    }
  }

  lemma InsertUsage(objects: map<nat, Row>, next: nat, row: Row, b: nat)
    requires next !in objects && Active(row)
    ensures UsedBelow(objects[next := row], b, next + 1) == UsedBelow(objects, b, next) + (if b == row.bucket then row.size else 0)
  {
    UsedSame(objects, objects[next := row], b, next);
  }

  lemma PutUsage(n: Node, req: PutRequest, now: int, b: nat)
    requires Sound(n) && req.bucket in n.buckets
    ensures UsedBelow(RecycleActive(n.objects, req.bucket, req.key, now)[n.nextObject := NewRow(n, req, now)], b, n.nextObject + 1) ==
              UsedBytes(n, b) + (if b == req.bucket then |Flatten(req.chunks)| - ReplacedSize(n, req.bucket, req.key) else 0)
  {
    RecycleUsage(n, req.bucket, req.key, now, b);
    RecycleFrees(n.objects, req.bucket, req.key, now);
    InsertUsage(RecycleActive(n.objects, req.bucket, req.key, now), n.nextObject, NewRow(n, req, now), b);
  }

  /** A stored upload changes its bucket's usage by exactly the new size minus the size of the row it replaced,
      and no other bucket's. */
  lemma PutChangesUsageExactly(n: Node, self: string, req: PutRequest, fault: PutFault, now: int, bucket: nat)
    requires Sound(n) && PutObject(n, self, req, fault, now).1.Stored?
    ensures UsedBytes(PutObject(n, self, req, fault, now).0, bucket) == UsedBytes(n, bucket) +
              (if bucket == req.bucket then |Flatten(req.chunks)| - ReplacedSize(n, req.bucket, req.key) else 0)
  {
    PutTables(n, self, req, fault, now);
    PutUsage(n, req, now, bucket);
  }

  /** Usage of a bucket does not go past the limit, or, if it was already past it, does not grow. */
  ghost predicate Respects(n: Node, m: Node, bucket: nat, limit: int) {
    UsedBytes(m, bucket) <= limit || UsedBytes(m, bucket) <= UsedBytes(n, bucket)
  }

  predicate HardLimit(n: Node, bucket: nat, limit: int) {
    bucket in n.buckets && exists p :: p in n.buckets[bucket].nodes && n.buckets[bucket].nodes[p] == Allocation(limit, true)
  }

  lemma ShrinkingRespects(n: Node, m: Node, bucket: nat)
    requires OnlyShrinks(n, m)
    ensures UsedBytes(m, bucket) <= UsedBytes(n, bucket)
  {
    UsedShrinks(n.objects, m.objects, bucket, n.nextObject);
  }

  /** The quota check of an upload holds for every limit below the largest 64-bit integer; at that value the
      saturating sum cannot pass it, and only a sum that is not cut off is checked. */
  lemma AllowedStaysWithin(n: Node, bucket: nat, growth: int, limit: int)
    requires HardLimit(n, bucket, limit) && QuotaAllows(n, bucket, growth)
    ensures growth <= 0 || limit >= I64_MAX || UsedBytes(n, bucket) + growth <= limit
  {
  }

  /** By how much an upload would change its bucket's usage. */
  ghost function PutGrowth(n: Node, req: PutRequest): int {
    |Flatten(req.chunks)| - ReplacedSize(n, req.bucket, req.key)
  }

  /** The step is one that keeps a hard limit: a restore is not checked at all, so its row has to fit, and an upload
      under a limit that the saturating sum cannot pass has to fit by itself. */
  ghost predicate Guarded(n: Node, self: string, op: LocalOp, now: int, bucket: nat, limit: int) {
    match op
    case RestoreItem(id) =>
      Restore(n, id, now).1.Restored? && n.objects[id].bucket == bucket ==>
        UsedBytes(n, bucket) + n.objects[id].size <= limit || n.objects[id].size == 0
    case Upload(req, fault) =>
      limit >= I64_MAX && req.bucket == bucket && PutObject(n, self, req, fault, now).1.Stored? ==>
        UsedBytes(n, bucket) + PutGrowth(n, req) <= limit || PutGrowth(n, req) <= 0
    case _ => true
  }

  lemma PutRespects(n: Node, self: string, req: PutRequest, fault: PutFault, now: int, bucket: nat, limit: int)
    requires Sound(n) && HardLimit(n, bucket, limit)
    ensures Respects(n, PutObject(n, self, req, fault, now).0, bucket, limit) <==>
              Guarded(n, self, Upload(req, fault), now, bucket, limit)
  {
    PutTables(n, self, req, fault, now);
    if PutObject(n, self, req, fault, now).1.Stored? {
      PutChangesUsageExactly(n, self, req, fault, now, bucket);
      if bucket == req.bucket { AllowedStaysWithin(n, bucket, PutGrowth(n, req), limit); }
    } else {
      RecycleUsage(n, req.bucket, req.key, now, bucket);
    }
  }

  lemma RenameSomeUsage(objects: map<nat, Row>, ids: set<nat>, from: string, to: string, now: int, bucket: nat, upTo: nat)
    requires forall i :: i in ids ==> i in objects && from <= objects[i].key
    ensures UsedBelow(RenameSome(objects, ids, from, to, now), bucket, upTo) == UsedBelow(objects, bucket, upTo)
  {
    UsedSame(objects, RenameSome(objects, ids, from, to, now), bucket, upTo);
  }

  lemma RenameRespects(n: Node, b: nat, from: string, to: string, now: int, bucket: nat)
    ensures UsedBytes(RenamePrefix(n, b, from, to, now).0, bucket) == UsedBytes(n, bucket)
  {
    RenameSomeUsage(n.objects, RenameRows(n.objects, b, from), from, to, now, bucket, n.nextObject);
  }

  lemma RestoreUsage(n: Node, id: nat, now: int, bucket: nat)
    requires Sound(n) && Restore(n, id, now).1.Restored?
    ensures UsedBytes(Restore(n, id, now).0, bucket) ==
              UsedBytes(n, bucket) + (if n.objects[id].bucket == bucket then n.objects[id].size else 0)
  {
    UsedChangesBy(n.objects, Restore(n, id, now).0.objects, bucket, n.nextObject, id);
  }

  /** A restore is not checked against quotas: it keeps a limit exactly when usage plus the row's size does. */
  lemma RestoreRespectsExactly(n: Node, id: nat, now: int, limit: int)
    requires Sound(n) && Restore(n, id, now).1.Restored?
    ensures var bucket := n.objects[id].bucket;
      Respects(n, Restore(n, id, now).0, bucket, limit) <==>
        UsedBytes(n, bucket) + n.objects[id].size <= limit || n.objects[id].size == 0
  {
    RestoreUsage(n, id, now, n.objects[id].bucket);
  }

  lemma RestoreGuarded(n: Node, self: string, id: nat, now: int, bucket: nat, limit: int)
    requires Sound(n)
    ensures Respects(n, Restore(n, id, now).0, bucket, limit) <==> Guarded(n, self, RestoreItem(id), now, bucket, limit)
  {
    if Restore(n, id, now).1.Restored? { RestoreUsage(n, id, now, bucket); }
  }

  /** One step keeps a hard limit exactly when it is guarded. */
  lemma ApplyRespects(n: Node, self: string, op: LocalOp, now: int, bucket: nat, limit: int)
    requires Sound(n) && HardLimit(n, bucket, limit)
    ensures Respects(n, Apply(n, self, op, now), bucket, limit) <==> Guarded(n, self, op, now, bucket, limit)
  {
    match op {
      case Upload(req, fault) => PutRespects(n, self, req, fault, now, bucket, limit);
      case RestoreItem(id) => RestoreGuarded(n, self, id, now, bucket, limit);
      case RenameFolder(b, from, to) => RenameRespects(n, b, from, to, now, bucket);
      case _ =>
        ShrinkingOps(n, self, op, now);
        ShrinkingRespects(n, Apply(n, self, op, now), bucket);
    }
  }

  lemma ApplyKeepsBuckets(n: Node, self: string, op: LocalOp, now: int)
    ensures Apply(n, self, op, now).buckets == n.buckets
  {
    match op {
      case Upload(req, fault) => PutTables(n, self, req, fault, now);
      case RenameFolder(b, from, to) =>
      case RestoreItem(id) =>
      case _ => ShrinkingOps(n, self, op, now);
    }
  }

  ghost predicate GuardedRun(n: Node, self: string, ops: seq<Timed>, bucket: nat, limit: int)
    decreases |ops|
  {
    ops == [] ||
    (Guarded(n, self, ops[0].op, ops[0].at, bucket, limit) &&
     GuardedRun(Apply(n, self, ops[0].op, ops[0].at), self, ops[1..], bucket, limit))
  }

  /** Every single step of the run keeps the limit. */
  ghost predicate RespectsThroughout(n: Node, self: string, ops: seq<Timed>, bucket: nat, limit: int)
    decreases |ops|
  {
    ops == [] ||
    var m := Apply(n, self, ops[0].op, ops[0].at);
    Respects(n, m, bucket, limit) && RespectsThroughout(m, self, ops[1..], bucket, limit)
  }

  /** Over every run of uploads (failed or not), deletions, restores, renames, purges and rehashes, no hard allocation a
      bucket is within is ever passed, and a bucket that is over one never grows, exactly when every restore fits. */
  lemma {:induction false} HardQuotaHolds(n: Node, self: string, ops: seq<Timed>, bucket: nat, limit: int)
    requires Sound(n) && HardLimit(n, bucket, limit)
    ensures RespectsThroughout(n, self, ops, bucket, limit) <==> GuardedRun(n, self, ops, bucket, limit)
    ensures GuardedRun(n, self, ops, bucket, limit) ==> Respects(n, ApplyAll(n, self, ops), bucket, limit)
    decreases |ops|
  {
    if ops != [] {
      var m := Apply(n, self, ops[0].op, ops[0].at);
      ApplyRespects(n, self, ops[0].op, ops[0].at, bucket, limit);
      ApplyKeepsSound(n, self, ops[0].op, ops[0].at);
      ApplyKeepsBuckets(n, self, ops[0].op, ops[0].at);
      HardQuotaHolds(m, self, ops[1..], bucket, limit);
    }
  }

  /** A run without restores is guarded under every limit below the largest 64-bit integer. */
  lemma {:induction false} UploadsAreGuarded(n: Node, self: string, ops: seq<Timed>, bucket: nat, limit: int)
    requires limit < I64_MAX && forall i :: 0 <= i < |ops| ==> !ops[i].op.RestoreItem?
    ensures GuardedRun(n, self, ops, bucket, limit)
    decreases |ops|
  {
    if ops != [] { UploadsAreGuarded(Apply(n, self, ops[0].op, ops[0].at), self, ops[1..], bucket, limit); }
  }

  /** Nothing is used where nothing is active. */
  lemma NothingUsed(n: Node, bucket: nat)
    requires forall i :: i in n.objects && n.objects[i].bucket == bucket ==> n.objects[i].deletedAt != None
    ensures UsedBytes(n, bucket) == 0
  {
    EmptySum(n.objects, bucket, n.nextObject);
  }

  lemma {:induction false} EmptySum(objects: map<nat, Row>, bucket: nat, upTo: nat)
    requires forall i :: i in objects && objects[i].bucket == bucket ==> objects[i].deletedAt != None
    ensures UsedBelow(objects, bucket, upTo) == 0
  {
    if upTo > 0 { EmptySum(objects, bucket, upTo - 1); }
  }

  // ----- Failed uploads -----

  /** Whether a failing upload fails only after the old row was recycled outside the transaction. */
  ghost predicate FailsLate(n: Node, req: PutRequest, fault: PutFault) {
    && req.bucket in n.buckets
    && (fault.InsertFault? || fault.EnqueueFault? || fault.CommitFault?)
    && QuotaAllows(n, req.bucket, |Flatten(req.chunks)| - ReplacedSize(n, req.bucket, req.key))
  }

  /** A failed upload under a fresh path leaves no new row, no new job and (unless the body broke) no blob.
      It leaves the table itself untouched exactly when it did not fail late over an existing object:
      then that object is left in the recycle bin. */
  lemma FailedPutLeavesNoTrace(n: Node, self: string, req: PutRequest, fault: PutFault, now: int)
    requires !PathTaken(n.objects, req.filepath) && req.filepath !in n.blobs
    requires !PutObject(n, self, req, fault, now).1.Stored?
    ensures var m := PutObject(n, self, req, fault, now).0;
      && m.objects.Keys == n.objects.Keys
      && m.nextObject == n.nextObject
      && m.queue == n.queue
      && (!fault.StreamFault? ==> m.blobs == n.blobs)
      && (m.objects == n.objects <==> !(FailsLate(n, req, fault) && FindActive(n.objects, req.bucket, req.key).Some?))
  {
    var m := PutObject(n, self, req, fault, now).0;
    var found := FindActive(n.objects, req.bucket, req.key);
    assert n.blobs - {req.filepath} == n.blobs;
    if found.Some? {
      assert Active(n.objects[found.value]);
      assert !Active(Recycle(n.objects, found.value, now)[found.value]);
    }
  }

  /** A row once a new object has taken its key: recycled if it served that key, otherwise as it was. */
  function Superseded(r: Row, bucket: nat, key: string, now: int): Row {
    if Serves(r, bucket, key) then r.(deletedAt := Some(now), modified := now) else r
  }

  lemma InsertedRowServes(objects: map<nat, Row>, next: nat, buckets: set<nat>, row: Row, now: int)
    requires SoundRows(objects, next, buckets) && Active(row)
    ensures var after := RecycleActive(objects, row.bucket, row.key, now)[next := row];
      && next !in objects && after.Keys == objects.Keys + {next}
      && FindActive(after, row.bucket, row.key) == Some(next)
      && (forall i :: i in objects ==> after[i] == Superseded(objects[i], row.bucket, row.key, now))
  {
    var recycled := RecycleActive(objects, row.bucket, row.key, now);
    RecycleFrees(objects, row.bucket, row.key, now);
    forall i | i in objects && Serves(objects[i], row.bucket, row.key)
      ensures recycled[i] == objects[i].(deletedAt := Some(now), modified := now)
    {
      FindActiveUnique(objects, row.bucket, row.key, i);
    }
  }

  /** A stored upload serves its key with the digest of the bytes it was given, and keeps the replaced row
      in the recycle bin and every other row as it was. */
  lemma StoredPutIsVisible(n: Node, self: string, req: PutRequest, fault: PutFault, now: int)
    requires Sound(n) && PutObject(n, self, req, fault, now).1.Stored?
    ensures var (m, outcome) := PutObject(n, self, req, fault, now);
      && outcome.id !in n.objects && m.objects.Keys == n.objects.Keys + {outcome.id}
      && FindActive(m.objects, req.bucket, req.key) == Some(outcome.id)
      && m.blobs == n.blobs[req.filepath := Flatten(req.chunks)]
      && m.objects[outcome.id].filepath == req.filepath
      && m.objects[outcome.id].etag == Digest(m.objects[outcome.id].etagType, Flatten(req.chunks))
      && (forall i :: i in n.objects ==> m.objects[i] == Superseded(n.objects[i], req.bucket, req.key, now))
  {
    PutTables(n, self, req, fault, now);
    InsertedRowServes(n.objects, n.nextObject, n.buckets.Keys, NewRow(n, req, now), now);
  }

  /** The queue after one job per receiver has been appended. */
  ghost predicate Appended(q: Queue, q': Queue, receivers: seq<string>, oid: nat, filepath: string, etag: Etag, op: Operation, now: int) {
    && q'.next == q.next + |receivers|
    && (forall i :: i in q'.jobs <==> i in q.jobs || q.next <= i < q'.next)
    && (forall i :: i in q.jobs ==> q'.jobs[i] == q.jobs[i])
    && (forall k :: 0 <= k < |receivers| ==> q'.jobs[q.next + k] == FreshJob(Ticket(receivers[k], oid, filepath, etag, op), now))
  }

  lemma TicketsAppend(q: Queue, receivers: seq<string>, oid: nat, filepath: string, etag: Etag, op: Operation, now: int)
    requires forall i :: i in q.jobs ==> i < q.next
    ensures Appended(q, PushAll(q, Tickets(receivers, oid, filepath, etag, op), now), receivers, oid, filepath, etag, op, now)
  {
    var tickets := Tickets(receivers, oid, filepath, etag, op);
    PushAllFacts(q, tickets, now);
    assert forall k :: 0 <= k < |receivers| ==> tickets[k] == Ticket(receivers[k], oid, filepath, etag, op);
  }

  /** In the same transaction a stored upload enqueues one PUT for every active peer of its bucket. */
  lemma StoredPutIsEnqueued(n: Node, self: string, req: PutRequest, fault: PutFault, now: int)
    requires PutObject(n, self, req, fault, now).1.Stored?
    requires forall i :: i in n.queue.jobs ==> i < n.queue.next
    ensures var (m, outcome) := PutObject(n, self, req, fault, now);
      Appended(n.queue, m.queue, Receivers(n.peers, n.buckets[req.bucket], self), outcome.id, req.filepath,
               NewRow(n, req, now).etag, Put, now)
  {
    var id := PutObject(n, self, req, fault, now).1.id;
    TicketsAppend(n.queue, Receivers(n.peers, n.buckets[req.bucket], self), id, req.filepath, NewRow(n, req, now).etag, Put, now);
  }

  /** The DELETE job for a removed row: its object reference is already nulled. */
  function DeleteNotice(peer: string, row: Row, now: int): Job {
    Job(peer, None, row.filepath, row.etag, Delete, Pending, 0, now)
  }

  /** A purge removes exactly the row and its blob, and no job is left pointing at the row. */
  lemma PurgeRemoves(n: Node, self: string, id: nat, now: int)
    requires id in n.objects
    ensures var m := Purge(n, self, id, now);
      && m.objects == n.objects - {id}
      && m.blobs == n.blobs - {n.objects[id].filepath}
      && m.nextObject == n.nextObject && m.buckets == n.buckets && m.nextBucket == n.nextBucket && m.peers == n.peers
      && m.queue.batch == n.queue.batch
      && (forall i :: i in m.queue.jobs ==> m.queue.jobs[i].objectId != Some(id))
  {
    PushAllKeepsBatch(n.queue, EnqueuedTickets(n, self, id, n.objects[id].filepath, n.objects[id].etag, Delete), now);
  }

  lemma {:induction false} PushAllKeepsBatch(q: Queue, ts: seq<Ticket>, now: int)
    ensures PushAll(q, ts, now).batch == q.batch
    decreases |ts|
  {
    if ts != [] { PushAllKeepsBatch(Push(q, ts[0], now), ts[1..], now); }
  }

  lemma DetachNotice(q: Queue, oid: nat, at: nat, peer: string, row: Row, now: int)
    requires at in q.jobs && q.jobs[at] == FreshJob(Ticket(peer, oid, row.filepath, row.etag, Delete), now)
    ensures at in Detach(q, oid).jobs && Detach(q, oid).jobs[at] == DeleteNotice(peer, row, now)
  {
  }

  /** A purge enqueues one DELETE for every active peer of the object's bucket, before the row is gone. */
  lemma PurgeAnnounces(n: Node, self: string, id: nat, now: int)
    requires id in n.objects && n.objects[id].bucket in n.buckets
    requires forall i :: i in n.queue.jobs ==> i < n.queue.next
    ensures var m := Purge(n, self, id, now);
      var receivers := Receivers(n.peers, n.buckets[n.objects[id].bucket], self);
      && m.queue.next == n.queue.next + |receivers|
      && (forall i :: i in m.queue.jobs <==> i in n.queue.jobs || n.queue.next <= i < m.queue.next)
      && (forall k :: 0 <= k < |receivers| ==> n.queue.next + k in m.queue.jobs &&
                                                m.queue.jobs[n.queue.next + k] == DeleteNotice(receivers[k], n.objects[id], now))
  {
    var row := n.objects[id];
    var receivers := Receivers(n.peers, n.buckets[row.bucket], self);
    var pushed := PushAll(n.queue, Tickets(receivers, id, row.filepath, row.etag, Delete), now);
    TicketsAppend(n.queue, receivers, id, row.filepath, row.etag, Delete, now);
    forall k | 0 <= k < |receivers|
      ensures n.queue.next + k in Detach(pushed, id).jobs && Detach(pushed, id).jobs[n.queue.next + k] == DeleteNotice(receivers[k], row, now)
    {
      DetachNotice(pushed, id, n.queue.next + k, receivers[k], row, now);
    }
  }
}
