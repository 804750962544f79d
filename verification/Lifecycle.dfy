/** The object lifecycle on one node: uploads, restores and received replicas keep the uniqueness rules of the schema,
    and the tables an upload can leave behind. */
module Lifecycle {
  import opened Basics
  import opened Hashing
  import opened Outbox
  import opened Text
  import opened Store

  // ----- Uniqueness through every operation -----

  /** Rows may go away, be recycled or change their etag, but keep their identity, place and key. */
  ghost predicate Shrinks(before: map<nat, Row>, after: map<nat, Row>) {
    forall i :: i in after ==>
      && i in before
      && after[i].bucket == before[i].bucket
      && after[i].key == before[i].key
      && after[i].filepath == before[i].filepath
      && (Active(after[i]) ==> Active(before[i]))
  }

  lemma ShrinkingKeepsUnique(before: map<nat, Row>, after: map<nat, Row>)
    requires Shrinks(before, after) && UniqueKeys(before) && UniquePaths(before)
    ensures UniqueKeys(after) && UniquePaths(after)
  {
  }

  lemma ShrinkingKeepsSound(n: Node, m: Node)
    requires Sound(n) && Shrinks(n.objects, m.objects)
    requires m.nextObject == n.nextObject && m.buckets == n.buckets && m.nextBucket == n.nextBucket
    ensures Sound(m)
  {
    ShrinkingKeepsUnique(n.objects, m.objects);
  }

  lemma InsertKeepsRows(objects: map<nat, Row>, id: nat, row: Row, buckets: set<nat>)
    requires SoundRows(objects, id, buckets) && row.bucket in buckets
    requires !PathTaken(objects, row.filepath)
    requires FindActive(objects, row.bucket, row.key).None?
    ensures SoundRows(objects[id := row], id + 1, buckets)
  {
  }

  lemma RecycleFrees(objects: map<nat, Row>, bucket: nat, key: string, now: int)
    requires UniqueKeys(objects)
    ensures var after := RecycleActive(objects, bucket, key, now);
      Shrinks(objects, after) && after.Keys == objects.Keys && FindActive(after, bucket, key).None?
  {
    var after := RecycleActive(objects, bucket, key, now);
    var left := FindActive(after, bucket, key);
    if left.Some? { FindActiveUnique(objects, bucket, key, left.value); }
  }

  lemma RecycleKeepsRows(objects: map<nat, Row>, next: nat, buckets: set<nat>, bucket: nat, key: string, now: int)
    requires SoundRows(objects, next, buckets)
    ensures SoundRows(RecycleActive(objects, bucket, key, now), next, buckets)
  {
    RecycleFrees(objects, bucket, key, now);
    ShrinkingKeepsUnique(objects, RecycleActive(objects, bucket, key, now));
  }

  /** The three tables a PUT can leave: untouched, old row recycled, or recycled and the new row added. */
  lemma PutTables(n: Node, self: string, req: PutRequest, fault: PutFault, now: int)
    ensures var (m, outcome) := PutObject(n, self, req, fault, now);
      var recycled := RecycleActive(n.objects, req.bucket, req.key, now);
      && m.buckets == n.buckets && m.nextBucket == n.nextBucket && m.peers == n.peers
      && (outcome.Stored? ==>
            && req.bucket in n.buckets
            && outcome.id == n.nextObject
            && !PathTaken(recycled, req.filepath)
            && m.objects == recycled[n.nextObject := NewRow(n, req, now)]
            && m.nextObject == n.nextObject + 1
            && m.blobs == n.blobs[req.filepath := Flatten(req.chunks)]
            && m.queue == PushAll(n.queue, Tickets(Receivers(n.peers, n.buckets[req.bucket], self), n.nextObject, req.filepath,
                                                   NewRow(n, req, now).etag, Put), now)
            && QuotaAllows(n, req.bucket, |Flatten(req.chunks)| - ReplacedSize(n, req.bucket, req.key)))
      && (!outcome.Stored? ==>
            && (m.objects == n.objects || m.objects == recycled)
            && m.nextObject == n.nextObject
            && m.queue == n.queue
            && (forall fp :: fp in m.blobs && (fp != req.filepath || !fault.StreamFault?) ==> fp in n.blobs && m.blobs[fp] == n.blobs[fp])
            && (fault.StreamFault? && req.filepath in m.blobs && req.bucket in n.buckets ==> m.blobs[req.filepath] == Written(req, fault)))
  {
  }

  lemma PutKeepsSound(n: Node, self: string, req: PutRequest, fault: PutFault, now: int)
    requires Sound(n)
    ensures Sound(PutObject(n, self, req, fault, now).0)
  {
    PutTables(n, self, req, fault, now);
    var outcome := PutObject(n, self, req, fault, now).1;
    RecycleKeepsRows(n.objects, n.nextObject, n.buckets.Keys, req.bucket, req.key, now);
    if outcome.Stored? {
      RecycleFrees(n.objects, req.bucket, req.key, now);
      InsertKeepsRows(RecycleActive(n.objects, req.bucket, req.key, now), n.nextObject, NewRow(n, req, now), n.buckets.Keys);
    }
  }

  lemma RestoreKeepsSound(n: Node, id: nat, now: int)
    requires Sound(n)
    ensures Sound(Restore(n, id, now).0)
  {
    var (m, outcome) := Restore(n, id, now);
    if outcome.Restored? {
      var row := n.objects[id];
      assert FindActive(n.objects, row.bucket, row.key).None?;
      assert m.objects == n.objects[id := row.(deletedAt := None, modified := now)];
      RestoreKeepsRows(n.objects, n.nextObject, n.buckets.Keys, id, now);
    }
  }

  lemma RestoreKeepsRows(objects: map<nat, Row>, next: nat, buckets: set<nat>, id: nat, now: int)
    requires SoundRows(objects, next, buckets) && id in objects
    requires FindActive(objects, objects[id].bucket, objects[id].key).None?
    ensures SoundRows(objects[id := objects[id].(deletedAt := None, modified := now)], next, buckets)
  {
  }

  lemma TrimTwice(s: string)
    ensures Trim(Trim(s)) == Trim(s)
  {
    TrimFacts(s);
    TrimFixed(Trim(s));
  }

  lemma EnsureBucketKeepsSound(n: Node, raw: string)
    requires Sound(n)
    ensures var (placed, bucket) := EnsureBucket(n, TargetName(raw));
      Sound(placed) && bucket in placed.buckets && placed.buckets[bucket].name == TargetName(raw)
  {
    var name := TargetName(raw);
    assert name != "" && Trim(name) == name by {
      TrimFixed(DEFAULT_BUCKET);
      TrimTwice(raw);
    }
    var (placed, bucket) := EnsureBucket(n, name);
    assert n.buckets.Keys <= placed.buckets.Keys;
  }

  lemma InsertKeepsSound(n: Node, row: Row)
    requires Sound(n) && row.bucket in n.buckets && Active(row)
    ensures Sound(InsertIdempotent(n, row).0)
  {
    if !PathTaken(n.objects, row.filepath) && FindActive(n.objects, row.bucket, row.key).None? {
      InsertKeepsRows(n.objects, n.nextObject, row, n.buckets.Keys);
    }
  }

  lemma ReceivePutKeepsSound(n: Node, m: PutMessage)
    requires Sound(n)
    ensures Sound(ReceivePut(n, m).0)
  {
    var bytes := Flatten(m.chunks);
    if Digest(m.etagType, bytes) == m.etag {
      var written := n.(blobs := n.blobs[m.filepath := bytes]);
      EnsureBucketKeepsSound(written, m.bucketName);
      var (placed, bucket) := EnsureBucket(written, TargetName(m.bucketName));
      InsertKeepsSound(placed, Row(bucket, m.name, m.filepath, m.format, |bytes|, m.etagType, m.etag, m.uploaded, m.modified, None));
    }
  }

  // ----- What an upload does -----

  lemma {:induction false} PushAllFacts(q: Queue, ts: seq<Ticket>, now: int)
    requires forall i :: i in q.jobs ==> i < q.next
    ensures var q' := PushAll(q, ts, now);
      && q'.next == q.next + |ts|
      && q'.batch == q.batch
      && (forall i :: i in q'.jobs <==> i in q.jobs || q.next <= i < q'.next)
      && (forall i :: i in q.jobs ==> q'.jobs[i] == q.jobs[i])
      && (forall k :: 0 <= k < |ts| ==> q.next + k in q'.jobs && q'.jobs[q.next + k] == FreshJob(ts[k], now))
    decreases |ts|
  {
    if ts != [] {
      var p := Push(q, ts[0], now);
      PushAllFacts(p, ts[1..], now);
      forall k | 0 <= k < |ts|
        ensures q.next + k in PushAll(q, ts, now).jobs && PushAll(q, ts, now).jobs[q.next + k] == FreshJob(ts[k], now)
      {
        if k > 0 { assert ts[1..][k - 1] == ts[k] && p.next + (k - 1) == q.next + k; }
      }
    }
  }
}
