/** What the tables of one node promise, spelled out without the functions that compute it: who receives an object, when
    an upload is stored, and what the recycle bin does to a row. */
module StoreLaws {
  import opened Basics
  import opened Hashing
  import opened Outbox
  import opened Store
  import opened Lifecycle
  import opened Operations
  import opened LikePatterns
  import opened Rename

  // ----- Who receives -----

  /** An active peer, not the node itself, that the bucket replicates to: to all peers, or to this one by selection. */
  ghost predicate IsTarget(peers: seq<Peer>, b: Bucket, self: string, p: string) {
    p != self && (exists k :: 0 <= k < |peers| && peers[k] == Peer(p, true)) && (b.replicateToAll || p in b.nodes)
  }

  lemma {:induction false} ReceiversExactly(peers: seq<Peer>, b: Bucket, self: string, p: string)
    ensures p in Receivers(peers, b, self) <==> IsTarget(peers, b, self, p)
  {
    if peers != [] {
      ReceiversExactly(peers[1..], b, self, p);
      assert forall k :: 1 <= k < |peers| ==> peers[k] == peers[1..][k - 1];
      if k :| 0 <= k < |peers| && peers[k] == Peer(p, true) {
        assert k > 0 ==> peers[1..][k - 1] == Peer(p, true);
      }
      if j :| 0 <= j < |peers[1..]| && peers[1..][j] == Peer(p, true) { assert peers[j + 1] == Peer(p, true); }
    }
  }

  /** Peer ids are a primary key. */
  ghost predicate DistinctPeers(peers: seq<Peer>) {
    forall i, j :: 0 <= i < j < |peers| ==> peers[i].id != peers[j].id
  }

  lemma {:induction false} ReceiversDistinct(peers: seq<Peer>, b: Bucket, self: string)
    requires DistinctPeers(peers)
    ensures forall i, j :: 0 <= i < j < |Receivers(peers, b, self)| ==> Receivers(peers, b, self)[i] != Receivers(peers, b, self)[j]
  {
    if peers != [] {
      var head, rest := peers[0], Receivers(peers[1..], b, self);
      assert forall k :: 1 <= k < |peers| ==> peers[k] == peers[1..][k - 1];
      ReceiversDistinct(peers[1..], b, self);
      forall j | 0 <= j < |rest| ensures rest[j] != head.id {
        ReceiversExactly(peers[1..], b, self, rest[j]);
        assert rest[j] in rest;
      }
    }
  }

  /** A job that was not there before is for this peer. */
  ghost predicate HasNew(q: Queue, q': Queue, p: string) {
    exists j :: j in q'.jobs && j !in q.jobs && q'.jobs[j].peer == p
  }

  /** A job once the row `gone` has been removed. */
  function Orphaned(j: Job, gone: Option<nat>): Job {
    if gone.Some? && j.objectId == gone then j.(objectId := None) else j
  }

  /** Every target of the bucket has got a job, nobody else has, no peer has got two, and each is PENDING and due at once;
      the jobs that were there stay, but for references to the row `gone`. */
  ghost predicate Announces(q: Queue, q': Queue, peers: seq<Peer>, b: Bucket, self: string, oid: Option<nat>, filepath: string, etag: Etag,
                            op: Operation, gone: Option<nat>, now: int) {
    && q'.batch == q.batch
    && (forall j :: j in q.jobs ==> j in q'.jobs && q'.jobs[j] == Orphaned(q.jobs[j], gone))
    && (forall j :: j in q'.jobs && j !in q.jobs ==> j >= q.next && q'.jobs[j] == Job(q'.jobs[j].peer, oid, filepath, etag, op, Pending, 0, now))
    && (forall p :: HasNew(q, q', p) <==> IsTarget(peers, b, self, p))
    && (DistinctPeers(peers) ==>
          forall i, j :: i in q'.jobs && i !in q.jobs && j in q'.jobs && j !in q.jobs && q'.jobs[i].peer == q'.jobs[j].peer ==> i == j)
  }

  lemma AppendedReaches(q: Queue, q': Queue, peers: seq<Peer>, b: Bucket, self: string, oid: nat, filepath: string, etag: Etag, op: Operation, now: int)
    requires forall j :: j in q.jobs ==> j < q.next
    requires Appended(q, q', Receivers(peers, b, self), oid, filepath, etag, op, now)
    ensures forall p :: HasNew(q, q', p) <==> IsTarget(peers, b, self, p)
  {
    var receivers := Receivers(peers, b, self);
    forall p ensures HasNew(q, q', p) <==> IsTarget(peers, b, self, p) {
      ReceiversExactly(peers, b, self, p);
      if HasNew(q, q', p) {
        var j :| j in q'.jobs && j !in q.jobs && q'.jobs[j].peer == p;
        assert q'.jobs[q.next + (j - q.next)] == FreshJob(Ticket(receivers[j - q.next], oid, filepath, etag, op), now);
      }
      if p in receivers {
        var k :| 0 <= k < |receivers| && receivers[k] == p;
        assert q'.jobs[q.next + k].peer == p;
      }
    }
  }

  lemma AppendedAnnounces(q: Queue, q': Queue, peers: seq<Peer>, b: Bucket, self: string, oid: nat, filepath: string, etag: Etag, op: Operation, now: int)
    requires forall j :: j in q.jobs ==> j < q.next
    requires q'.batch == q.batch && Appended(q, q', Receivers(peers, b, self), oid, filepath, etag, op, now)
    ensures Announces(q, q', peers, b, self, Some(oid), filepath, etag, op, None, now)
  {
    var receivers := Receivers(peers, b, self);
    AppendedReaches(q, q', peers, b, self, oid, filepath, etag, op, now);
    forall j | j in q'.jobs && j !in q.jobs
      ensures j >= q.next && q'.jobs[j] == Job(q'.jobs[j].peer, Some(oid), filepath, etag, op, Pending, 0, now)
      ensures q'.jobs[j].peer == receivers[j - q.next]
    {
      assert q'.jobs[q.next + (j - q.next)] == FreshJob(Ticket(receivers[j - q.next], oid, filepath, etag, op), now);
    }
    if DistinctPeers(peers) { ReceiversDistinct(peers, b, self); }
  }

  /** Enqueueing for a row reaches exactly the targets of its bucket, once each. */
  lemma EnqueueReachesTargets(n: Node, self: string, oid: nat, filepath: string, etag: Etag, op: Operation, now: int)
    requires (forall j :: j in n.queue.jobs ==> j < n.queue.next) && oid in n.objects && n.objects[oid].bucket in n.buckets
    ensures var m := EnqueueForPeers(n, self, oid, filepath, etag, op, now);
      && m == n.(queue := m.queue)
      && Announces(n.queue, m.queue, n.peers, n.buckets[n.objects[oid].bucket], self, Some(oid), filepath, etag, op, None, now)
  {
    var receivers := Receivers(n.peers, n.buckets[n.objects[oid].bucket], self);
    TicketsAppend(n.queue, receivers, oid, filepath, etag, op, now);
    PushAllKeepsBatch(n.queue, Tickets(receivers, oid, filepath, etag, op), now);
    AppendedAnnounces(n.queue, EnqueueForPeers(n, self, oid, filepath, etag, op, now).queue, n.peers, n.buckets[n.objects[oid].bucket],
                      self, oid, filepath, etag, op, now);
  }

  /** And nothing is enqueued for a row that is gone. */
  lemma EnqueueWithoutRow(n: Node, self: string, oid: nat, filepath: string, etag: Etag, op: Operation, now: int)
    requires oid !in n.objects
    ensures EnqueueForPeers(n, self, oid, filepath, etag, op, now) == n
  {
  }

  /** A stored upload announces a PUT of the new row to every target of its bucket, in the insert's transaction. */
  lemma UploadReachesTargets(n: Node, self: string, req: PutRequest, fault: PutFault, now: int)
    requires PutObject(n, self, req, fault, now).1.Stored? && forall j :: j in n.queue.jobs ==> j < n.queue.next
    ensures var (m, outcome) := PutObject(n, self, req, fault, now);
      && m == Apply(n, self, Upload(req, fault), now) && req.bucket in n.buckets && outcome.id in m.objects
      && Announces(n.queue, m.queue, n.peers, n.buckets[req.bucket], self, Some(outcome.id), req.filepath, m.objects[outcome.id].etag, Put, None, now)
  {
    var (m, outcome) := PutObject(n, self, req, fault, now);
    PutTables(n, self, req, fault, now);
    StoredPutIsEnqueued(n, self, req, fault, now);
    PushAllKeepsBatch(n.queue, Tickets(Receivers(n.peers, n.buckets[req.bucket], self), n.nextObject, req.filepath, NewRow(n, req, now).etag, Put), now);
    AppendedAnnounces(n.queue, m.queue, n.peers, n.buckets[req.bucket], self, outcome.id, req.filepath, NewRow(n, req, now).etag, Put, now);
  }

  lemma DetachedAnnounces(q: Queue, q': Queue, peers: seq<Peer>, b: Bucket, self: string, oid: nat, filepath: string, etag: Etag, op: Operation, now: int)
    requires Announces(q, q', peers, b, self, Some(oid), filepath, etag, op, None, now)
    ensures Announces(q, Detach(q', oid), peers, b, self, None, filepath, etag, op, Some(oid), now)
  {
    var d := Detach(q', oid);
    forall p ensures HasNew(q, d, p) <==> IsTarget(peers, b, self, p) {
      assert HasNew(q, q', p) <==> IsTarget(peers, b, self, p);
      if HasNew(q, q', p) {
        var j :| j in q'.jobs && j !in q.jobs && q'.jobs[j].peer == p;
        assert d.jobs[j].peer == p;
      }
      if HasNew(q, d, p) {
        var j :| j in d.jobs && j !in q.jobs && d.jobs[j].peer == p;
        assert q'.jobs[j].peer == p;
      }
    }
  }

  /** A purge announces a DELETE of the path to every target of the bucket, before the row is gone. */
  lemma PurgeReachesTargets(n: Node, self: string, id: nat, now: int)
    requires (forall j :: j in n.queue.jobs ==> j < n.queue.next) && id in n.objects && n.objects[id].bucket in n.buckets
    ensures Announces(n.queue, Apply(n, self, PurgeItem(id), now).queue, n.peers, n.buckets[n.objects[id].bucket], self, None,
                      n.objects[id].filepath, n.objects[id].etag, Delete, Some(id), now)
  {
    var row := n.objects[id];
    EnqueueReachesTargets(n, self, id, row.filepath, row.etag, Delete, now);
    DetachedAnnounces(n.queue, EnqueueForPeers(n, self, id, row.filepath, row.etag, Delete, now).queue, n.peers, n.buckets[row.bucket], self, id,
                      row.filepath, row.etag, Delete, now);
  }

  /** A re-hash whose announcement succeeds writes the new digest and announces it to every target. */
  lemma RehashReachesTargets(n: Node, self: string, id: nat, alg: EtagType, now: int)
    requires (forall j :: j in n.queue.jobs ==> j < n.queue.next) && id in n.objects && n.objects[id].bucket in n.buckets
    requires n.objects[id].deletedAt == None && n.objects[id].filepath in n.blobs
    ensures var m := Apply(n, self, RehashItem(id, alg, true), now);
      var etag := Digest(alg, n.blobs[n.objects[id].filepath]);
      && m == n.(objects := n.objects[id := n.objects[id].(etagType := alg, etag := etag, modified := now)], queue := m.queue)
      && Announces(n.queue, m.queue, n.peers, n.buckets[n.objects[id].bucket], self, Some(id), n.objects[id].filepath, etag, Put, None, now)
  {
    var row := n.objects[id];
    var etag := Digest(alg, n.blobs[row.filepath]);
    var m := n.(objects := n.objects[id := row.(etagType := alg, etag := etag, modified := now)]);
    EnqueueReachesTargets(m, self, id, row.filepath, etag, Put, now);
  }

  // ----- When an upload is stored -----

  /** Growth by this much keeps the bucket within every hard allocation, added as 64-bit integers with saturation.
      Soft allocations do not count. */
  ghost predicate Fits(n: Node, bucket: nat, growth: int)
    requires bucket in n.buckets
  {
    forall p :: p in n.buckets[bucket].nodes && n.buckets[bucket].nodes[p].hard ==>
      Min(UsedBytes(n, bucket) + growth, I64_MAX) <= n.buckets[bucket].nodes[p].bytes
  }

  lemma QuotaExactly(n: Node, bucket: nat, growth: int)
    requires bucket in n.buckets
    ensures QuotaAllows(n, bucket, growth) <==> growth <= 0 || Fits(n, bucket, growth)
  {
  }

  /** The outcome of every upload: refused without its bucket; stored exactly when nothing fails, the path is new, and the
      bucket does not grow or the growth fits; over quota exactly when it does not fit and no earlier step fails; else
      aborted. */
  lemma UploadOutcomes(n: Node, self: string, req: PutRequest, fault: PutFault, now: int)
    ensures var outcome := PutObject(n, self, req, fault, now).1;
      && (outcome.BucketMissing? <==> req.bucket !in n.buckets)
      && (req.bucket in n.buckets ==>
            var growth := |Flatten(req.chunks)| - ReplacedSize(n, req.bucket, req.key);
            && (outcome.Stored? <==> fault.NoFault? && (growth <= 0 || Fits(n, req.bucket, growth)) &&
                                     forall i :: i in n.objects ==> n.objects[i].filepath != req.filepath)
            && (outcome.QuotaExceeded? <==> !(fault.StreamFault? || fault.BeginFault? || fault.LookupFault? || fault.QuotaFault?) &&
                                            !(growth <= 0 || Fits(n, req.bucket, growth)))
            && (outcome.Stored? ==> outcome.id == n.nextObject))
  {
    if req.bucket in n.buckets {
      QuotaExactly(n, req.bucket, |Flatten(req.chunks)| - ReplacedSize(n, req.bucket, req.key));
      var recycled := RecycleActive(n.objects, req.bucket, req.key, now);
      if i :| i in n.objects && n.objects[i].filepath == req.filepath { assert recycled[i].filepath == req.filepath; }
    }
  }

  /** An upload that is not stored removes what it wrote, but for a body that breaks, which leaves the chunks that came;
      and it recycles the row under its key when it fails after that. */
  lemma FailedUploadLeaves(n: Node, self: string, req: PutRequest, fault: PutFault, now: int)
    requires req.bucket in n.buckets && !PutObject(n, self, req, fault, now).1.Stored?
    ensures var m := PutObject(n, self, req, fault, now).0;
      if fault.StreamFault? then
        m == n.(blobs := n.blobs[req.filepath := Flatten(if fault.chunks <= |req.chunks| then req.chunks[..fault.chunks] else req.chunks)])
      else
        && m == n.(blobs := n.blobs - {req.filepath}, objects := m.objects)
        && m.objects == (if PutObject(n, self, req, fault, now).1.QuotaExceeded? || fault.BeginFault? || fault.LookupFault? ||
                            fault.QuotaFault? || fault.SoftDeleteFault? then n.objects
                         else RecycleActive(n.objects, req.bucket, req.key, now))
  {
  }

  /** The row of a stored upload, column by column: the requested digest algorithm, or else that of the bucket. */
  lemma UploadedRow(n: Node, self: string, req: PutRequest, fault: PutFault, now: int)
    requires PutObject(n, self, req, fault, now).1.Stored?
    ensures var (m, outcome) := PutObject(n, self, req, fault, now);
      var bytes := Flatten(req.chunks);
      && outcome.id in m.objects && req.bucket in n.buckets
      && var alg := if req.alg == None then n.buckets[req.bucket].etagType else req.alg.value;
         m.objects[outcome.id] == Row(req.bucket, req.key, req.filepath, req.format, |bytes|, alg, Digest(alg, bytes), now, now, None)
  {
    PutTables(n, self, req, fault, now);
  }

  // ----- The recycle bin -----

  /** Deleting an object sets two columns of its row; nothing active is left under its key, and all else stays. */
  lemma SoftDeleteExactly(n: Node, self: string, id: nat, now: int)
    requires Sound(n)
    ensures var m := Apply(n, self, RecycleItem(id), now);
      if id in n.objects && n.objects[id].deletedAt == None then
        && m == n.(objects := n.objects[id := n.objects[id].(deletedAt := Some(now), modified := now)])
        && (forall i :: i in m.objects && m.objects[i].bucket == n.objects[id].bucket && m.objects[i].key == n.objects[id].key ==>
              m.objects[i].deletedAt != None)
      else m == n
  {
  }

  /** Deleting a folder sets the same two columns of exactly the active rows of the bucket under the prefix, up to case. */
  lemma SoftDeletePrefixRows(n: Node, self: string, bucket: nat, prefix: string, now: int)
    ensures var m := Apply(n, self, DeleteFolder(bucket, prefix), now);
      && m == n.(objects := m.objects) && m.objects.Keys == n.objects.Keys
      && (forall i :: i in n.objects ==>
            var r := n.objects[i];
            m.objects[i] == if r.deletedAt == None && r.bucket == bucket && FoldedPrefix(prefix, r.key)
                            then r.(deletedAt := Some(now), modified := now) else r)
  {
    LikeRowsMean(n.objects, bucket, prefix);
  }

  /** These rows are as a rename makes them. */
  ghost predicate AreRenamed(n: Node, m: Node, bucket: nat, from: string, to: string, now: int) {
    && m == n.(objects := m.objects) && m.objects.Keys == n.objects.Keys
    && forall i :: i in n.objects ==> m.objects[i] == RenamedRow(n.objects[i], bucket, from, to, now)
  }

  lemma AcceptedRename(n: Node, bucket: nat, from: string, to: string, now: int)
    requires Sound(n) && from != to && RenamePrefix(n, bucket, from, to, now).1.Renamed?
    ensures AreRenamed(n, RenamePrefix(n, bucket, from, to, now).0, bucket, from, to, now)
  {
    RenameIsExact(n, bucket, from, to, now);
  }

  lemma EmptyRename(n: Node, bucket: nat, from: string, to: string, now: int)
    requires forall k :: k in ActiveKeys(n.objects, bucket) ==> !FoldedPrefix(from, k)
    ensures AreRenamed(n, n, bucket, from, to, now)
  {
    forall i | i in n.objects && Active(n.objects[i]) && n.objects[i].bucket == bucket ensures !(from <= n.objects[i].key) {
      assert n.objects[i].key in ActiveKeys(n.objects, bucket);
      PrefixPatternSelects(from, n.objects[i].key);
      ExactPrefixAfterFilter(from, n.objects[i].key);
    }
  }

  lemma FreeRename(n: Node, bucket: nat, from: string, to: string, now: int)
    requires Sound(n) && from != to && !Collides(ActiveKeys(n.objects, bucket), from, to)
    ensures AreRenamed(n, RenamePrefix(n, bucket, from, to, now).0, bucket, from, to, now)
  {
    RenameRefusals(n, bucket, from, to, now);
    if RenamePrefix(n, bucket, from, to, now).1.FolderEmpty? {
      EmptyRename(n, bucket, from, to, now);
    } else {
      AcceptedRename(n, bucket, from, to, now);
    }
  }

  lemma RefusedRename(n: Node, bucket: nat, from: string, to: string, now: int)
    requires from == to || Collides(ActiveKeys(n.objects, bucket), from, to)
    ensures RenamePrefix(n, bucket, from, to, now).0 == n
  {
    RenameRefusals(n, bucket, from, to, now);
  }

  /** Renaming a folder rewrites exactly the active rows of the bucket under the old prefix, unless a target key is taken;
      it sets two columns of them, and all else stays. */
  lemma RenameFolderExactly(n: Node, self: string, bucket: nat, from: string, to: string, now: int)
    requires Sound(n)
    ensures var m := Apply(n, self, RenameFolder(bucket, from, to), now);
      if from == to || Collides(ActiveKeys(n.objects, bucket), from, to) then m == n else AreRenamed(n, m, bucket, from, to, now)
  {
    if from == to || Collides(ActiveKeys(n.objects, bucket), from, to) {
      RefusedRename(n, bucket, from, to, now);
    } else {
      FreeRename(n, bucket, from, to, now);
    }
  }

  ghost predicate HoldsKey(n: Node, bucket: nat, key: string) {
    exists i :: i in n.objects && n.objects[i].deletedAt == None && n.objects[i].bucket == bucket && n.objects[i].key == key
  }

  /** A restore is refused for an unknown row, for an active one, and while an active row of the same bucket has the key;
      otherwise it clears the deletion mark, and all else stays. */
  lemma RestoreExactly(n: Node, self: string, id: nat, now: int)
    ensures var (m, outcome) := Restore(n, id, now);
      && (outcome == NotFound <==> id !in n.objects)
      && (outcome == NotRecycled <==> id in n.objects && n.objects[id].deletedAt == None)
      && (outcome == KeyInUse <==> id in n.objects && n.objects[id].deletedAt != None && HoldsKey(n, n.objects[id].bucket, n.objects[id].key))
      && m == Apply(n, self, RestoreItem(id), now)
      && m == if outcome == Restored && id in n.objects then n.(objects := n.objects[id := n.objects[id].(deletedAt := None, modified := now)]) else n
  {
    if id in n.objects {
      var found := FindActive(n.objects, n.objects[id].bucket, n.objects[id].key);
      if found.Some? { assert Serves(n.objects[found.value], n.objects[id].bucket, n.objects[id].key); }
    }
  }

  /** An unannounced re-hash changes the same row, and no re-hash changes a row that is not active or has no blob. */
  lemma RehashExactly(n: Node, self: string, id: nat, alg: EtagType, announced: bool, now: int)
    ensures var m := Apply(n, self, RehashItem(id, alg, announced), now);
      if id in n.objects && n.objects[id].deletedAt == None && n.objects[id].filepath in n.blobs then
        var r := n.objects[id];
        && m == n.(objects := n.objects[id := r.(etagType := alg, etag := Digest(alg, n.blobs[r.filepath]), modified := now)], queue := m.queue)
        && (!announced ==> m.queue == n.queue)
      else m == n
  {
  }

  // ----- Receiving -----

  /** A bucket is found by its name, or created: replicating to all, without allocations, hashing with MD5. */
  lemma EnsureBucketExactly(n: Node, name: string)
    requires TidyBuckets(n.buckets, n.nextBucket)
    ensures var (m, b) := EnsureBucket(n, name);
      && b in m.buckets && m.buckets[b].name == name
      && (if exists k :: k in n.buckets && n.buckets[k].name == name then m == n
          else b !in n.buckets && m.buckets == n.buckets[b := Bucket(name, true, map[], Md5)] &&
               m == n.(buckets := m.buckets, nextBucket := n.nextBucket + 1))
  {
  }
}
