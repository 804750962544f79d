/** Safety of the whole cluster: every step of every node keeps content agreement and uniqueness. */
module ClusterSafety {
  import opened Basics
  import opened Hashing
  import opened Outbox
  import opened Store
  import opened Lifecycle
  import opened Operations
  import opened ClusterSteps

  // ----- Queues -----

  ghost predicate TicketsTrue(ts: seq<Ticket>, origin: map<string, Bytes>) {
    forall k :: 0 <= k < |ts| ==> Names(ts[k].filepath, ts[k].etag, origin)
  }

  lemma {:induction false} PushAllTrue(q: Queue, ts: seq<Ticket>, now: int, origin: map<string, Bytes>)
    requires QueueTrue(q, origin) && TicketsTrue(ts, origin)
    ensures QueueTrue(PushAll(q, ts, now), origin)
    decreases |ts|
  {
    if ts != [] {
      assert Names(ts[0].filepath, ts[0].etag, origin);
      PushAllTrue(Push(q, ts[0], now), ts[1..], now, origin);
    }
  }

  lemma DetachTrue(q: Queue, oid: nat, origin: map<string, Bytes>)
    requires QueueTrue(q, origin)
    ensures QueueTrue(Detach(q, oid), origin)
  {
  }

  lemma DisposedTrue(q: Queue, ok: bool, recorded: bool, now: int, origin: map<string, Bytes>)
    requires QueueTrue(q, origin) && q.batch != []
    ensures QueueTrue(Disposed(q, ok, recorded, now), origin)
  {
  }

  lemma ClaimJobsTrue(n: Node, now: int, origin: map<string, Bytes>)
    requires NodeTrue(n, origin)
    ensures NodeTrue(ClaimJobs(n, now), origin)
  {
    var m := ClaimJobs(n, now);
    var ids := ClaimIds(n.queue, now, ActivePeers(n));
    forall k | 0 <= k < |m.queue.batch|
      ensures ClaimTrue(m.queue.batch[k], origin)
    {
      assert ids[k] in ids;
      assert m.queue.batch[k] == View(ids[k], n.queue.jobs[ids[k]], JoinedMeta(n));
      var oid := n.queue.jobs[ids[k]].objectId;
      if oid.Some? && oid.value in n.objects { assert RowTrue(n.objects[oid.value], origin); }
    }
  }

  lemma EnqueueTrue(n: Node, self: string, oid: nat, filepath: string, etag: Etag, op: Operation, now: int, origin: map<string, Bytes>)
    requires NodeTrue(n, origin) && Names(filepath, etag, origin)
    ensures NodeTrue(EnqueueForPeers(n, self, oid, filepath, etag, op, now), origin)
  {
    PushAllTrue(n.queue, EnqueuedTickets(n, self, oid, filepath, etag, op), now, origin);
  }

  // ----- Local operations -----

  /** Allocating a new path disturbs nothing. */
  lemma FreshPathKeepsTrue(n: Node, origin: map<string, Bytes>, fp: string, bytes: Bytes)
    requires NodeTrue(n, origin) && fp !in origin
    ensures NodeTrue(n, origin[fp := bytes])
  {
    var wider := origin[fp := bytes];
    forall i | i in n.objects ensures RowTrue(n.objects[i], wider) { assert RowTrue(n.objects[i], origin); }
    forall i | i in n.queue.jobs ensures Names(n.queue.jobs[i].filepath, n.queue.jobs[i].etag, wider) {
      assert Names(n.queue.jobs[i].filepath, n.queue.jobs[i].etag, origin);
    }
    forall k | 0 <= k < |n.queue.batch| ensures ClaimTrue(n.queue.batch[k], wider) { assert ClaimTrue(n.queue.batch[k], origin); }
  }

  lemma RecycledTrue(objects: map<nat, Row>, bucket: nat, key: string, now: int, origin: map<string, Bytes>)
    requires RowsTrue(objects, origin)
    ensures RowsTrue(RecycleActive(objects, bucket, key, now), origin)
  {
    var after := RecycleActive(objects, bucket, key, now);
    forall i | i in after ensures RowTrue(after[i], origin) { assert RowTrue(objects[i], origin); }
  }

  lemma UploadTrue(n: Node, self: string, req: PutRequest, fault: PutFault, now: int, origin: map<string, Bytes>)
    requires NodeTrue(n, origin) && req.filepath !in origin
    ensures NodeTrue(PutObject(n, self, req, fault, now).0, origin[req.filepath := Written(req, fault)])
  {
    var wider := origin[req.filepath := Written(req, fault)];
    var (m, outcome) := PutObject(n, self, req, fault, now);
    FreshPathKeepsTrue(n, origin, req.filepath, Written(req, fault));
    PutTables(n, self, req, fault, now);
    RecycledTrue(n.objects, req.bucket, req.key, now, wider);
    if outcome.Stored? {
      assert !fault.StreamFault?;
      var ts := Tickets(Receivers(n.peers, n.buckets[req.bucket], self), n.nextObject, req.filepath, NewRow(n, req, now).etag, Put);
      PushAllTrue(n.queue, ts, now, wider);
      assert RowTrue(NewRow(n, req, now), wider);
    }
  }

  lemma RehashTrue(n: Node, self: string, id: nat, alg: EtagType, announced: bool, now: int, origin: map<string, Bytes>)
    requires NodeTrue(n, origin)
    ensures NodeTrue(Rehash(n, self, id, alg, announced, now), origin)
  {
    if id in n.objects && Active(n.objects[id]) && n.objects[id].filepath in n.blobs {
      var row := n.objects[id];
      var etag := Digest(alg, n.blobs[row.filepath]);
      var m := n.(objects := n.objects[id := row.(etagType := alg, etag := etag, modified := now)]);
      assert RowTrue(row, origin);
      assert RowTrue(m.objects[id], origin);
      assert NodeTrue(m, origin);
      EnqueueTrue(m, self, id, row.filepath, etag, Put, now, origin);
    }
  }

  lemma PurgeTrue(n: Node, self: string, id: nat, now: int, origin: map<string, Bytes>)
    requires NodeTrue(n, origin)
    ensures NodeTrue(Purge(n, self, id, now), origin)
  {
    if id in n.objects {
      var row := n.objects[id];
      assert RowTrue(row, origin);
      EnqueueTrue(n, self, id, row.filepath, row.etag, Delete, now, origin);
      DetachTrue(EnqueueForPeers(n, self, id, row.filepath, row.etag, Delete, now).queue, id, origin);
    }
  }

  ghost predicate SameContent(a: Row, b: Row) {
    a.filepath == b.filepath && a.size == b.size && a.etag == b.etag && a.etagType == b.etagType
  }

  /** Operations that keep each row's path, size and etag keep the rows true. */
  lemma SameContentTrue(n: Node, m: Node, origin: map<string, Bytes>)
    requires NodeTrue(n, origin) && m.blobs == n.blobs && m.queue == n.queue
    requires forall i :: i in m.objects ==> i in n.objects && SameContent(n.objects[i], m.objects[i])
    ensures NodeTrue(m, origin)
  {
    forall i | i in m.objects ensures RowTrue(m.objects[i], origin) { assert RowTrue(n.objects[i], origin); }
  }

  lemma RenameTrue(n: Node, bucket: nat, from: string, to: string, now: int, origin: map<string, Bytes>)
    requires NodeTrue(n, origin)
    ensures NodeTrue(RenamePrefix(n, bucket, from, to, now).0, origin)
  {
    SameContentTrue(n, RenamePrefix(n, bucket, from, to, now).0, origin);
  }

  lemma RecycleBinTrue(n: Node, id: nat, bucket: nat, prefix: string, now: int, origin: map<string, Bytes>)
    requires NodeTrue(n, origin)
    ensures NodeTrue(SoftDelete(n, id, now), origin)
    ensures NodeTrue(SoftDeletePrefix(n, bucket, prefix, now), origin)
  {
    SameContentTrue(n, SoftDelete(n, id, now), origin);
    SameContentTrue(n, SoftDeletePrefix(n, bucket, prefix, now), origin);
  }

  lemma RestoreTrue(n: Node, id: nat, now: int, origin: map<string, Bytes>)
    requires NodeTrue(n, origin)
    ensures NodeTrue(Restore(n, id, now).0, origin)
  {
    SameContentTrue(n, Restore(n, id, now).0, origin);
  }

  lemma ApplyTrue(n: Node, self: string, op: LocalOp, now: int, origin: map<string, Bytes>)
    requires NodeTrue(n, origin) && !op.Upload?
    ensures NodeTrue(Apply(n, self, op, now), origin)
  {
    match op {
      case PurgeItem(id) => PurgeTrue(n, self, id, now, origin);
      case RehashItem(id, alg, announced) => RehashTrue(n, self, id, alg, announced, now, origin);
      case RenameFolder(bucket, from, to) => RenameTrue(n, bucket, from, to, now, origin);
      case RecycleItem(id) => RecycleBinTrue(n, id, 0, "", now, origin);
      case DeleteFolder(bucket, prefix) => RecycleBinTrue(n, 0, bucket, prefix, now, origin);
      case RestoreItem(id) => RestoreTrue(n, id, now, origin);
    }
  }

  // ----- Receiving -----

  lemma InsertTrue(n: Node, row: Row, origin: map<string, Bytes>)
    requires NodeTrue(n, origin) && RowTrue(row, origin)
    ensures NodeTrue(InsertIdempotent(n, row).0, origin)
  {
  }

  /** A payload that carries its claimed etag is the original content; any other is rejected. */
  lemma ReceivePutTrue(n: Node, m: PutMessage, origin: map<string, Bytes>)
    requires NodeTrue(n, origin) && Names(m.filepath, m.etag, origin)
    ensures NodeTrue(ReceivePut(n, m).0, origin)
  {
    var bytes := Flatten(m.chunks);
    if Digest(m.etagType, bytes) == m.etag {
      assert bytes == origin[m.filepath];
      var written := n.(blobs := n.blobs[m.filepath := bytes]);
      var (placed, bucket) := EnsureBucket(written, TargetName(m.bucketName));
      assert NodeTrue(placed, origin);
      InsertTrue(placed, Row(bucket, m.name, m.filepath, m.format, |bytes|, m.etagType, m.etag, m.uploaded, m.modified, None), origin);
    }
  }

  lemma HandleTrue(peer: Node, job: Claimed, chunks: seq<Bytes>, now: int, origin: map<string, Bytes>)
    requires NodeTrue(peer, origin) && ClaimTrue(job, origin)
    ensures NodeTrue(Handle(peer, job, chunks, now).0, origin)
  {
    match job.op {
      case Put => ReceivePutTrue(peer, MessageFor(job, chunks, now), origin);
      case Delete =>
        var found := FindPath(peer.objects, job.filepath);
        if found.Some? { DetachTrue(peer.queue, found.value, origin); }
    }
  }

  lemma HandleSound(peer: Node, job: Claimed, chunks: seq<Bytes>, now: int)
    requires Sound(peer)
    ensures Sound(Handle(peer, job, chunks, now).0)
  {
    match job.op {
      case Put => ReceivePutKeepsSound(peer, MessageFor(job, chunks, now));
      case Delete => ShrinkingKeepsSound(peer, ReceiveDelete(peer, job.filepath));
    }
  }

  // ----- Every step -----

  /** Replacing one node by a good one keeps the invariant. */
  lemma UpdateKeepsInv(c: Cluster, at: string, n: Node)
    requires Inv(c) && Sound(n) && NodeTrue(n, c.origin)
    ensures Inv(c.(nodes := c.nodes[at := n]))
  {
  }

  lemma UploadKeepsInv(c: Cluster, a: Action)
    requires Inv(c) && MayStep(c, a) && a.Local? && a.op.Upload?
    ensures Inv(Step(c, a))
  {
    var wider := c.origin[a.op.req.filepath := Written(a.op.req, a.op.fault)];
    forall b | b in c.nodes ensures NodeTrue(c.nodes[b], wider) {
      FreshPathKeepsTrue(c.nodes[b], c.origin, a.op.req.filepath, Written(a.op.req, a.op.fault));
    }
    UploadTrue(c.nodes[a.at], a.at, a.op.req, a.op.fault, a.now, c.origin);
    PutKeepsSound(c.nodes[a.at], a.at, a.op.req, a.op.fault, a.now);
    UpdateKeepsInv(c.(origin := wider), a.at, Apply(c.nodes[a.at], a.at, a.op, a.now));
  }

  lemma HandlerKeepsInv(c: Cluster, job: Claimed, outcome: Outcome, chunks: seq<Bytes>, now: int)
    requires Inv(c) && ClaimTrue(job, c.origin)
    ensures Inv(c.(nodes := AfterHandler(c, job, outcome, chunks, now).0))
  {
    if !outcome.Unreached? && job.peer in c.nodes {
      HandleTrue(c.nodes[job.peer], job, chunks, now, c.origin);
      HandleSound(c.nodes[job.peer], job, chunks, now);
      UpdateKeepsInv(c, job.peer, Handle(c.nodes[job.peer], job, chunks, now).0);
    }
  }

  lemma DisposedKeepsInv(c: Cluster, at: string, ok: bool, recorded: bool, now: int)
    requires Inv(c) && at in c.nodes && c.nodes[at].queue.batch != []
    ensures Inv(c.(nodes := c.nodes[at := c.nodes[at].(queue := Disposed(c.nodes[at].queue, ok, recorded, now))]))
  {
    DisposedTrue(c.nodes[at].queue, ok, recorded, now, c.origin);
    UpdateKeepsInv(c, at, c.nodes[at].(queue := Disposed(c.nodes[at].queue, ok, recorded, now)));
  }

  lemma SendKeepsInv(c: Cluster, at: string, outcome: Outcome, recorded: bool, chunks: seq<Bytes>, now: int)
    requires Inv(c) && at in c.nodes && c.nodes[at].queue.batch != []
    ensures Inv(Send(c, at, outcome, recorded, chunks, now))
  {
    var job := c.nodes[at].queue.batch[0];
    var (nodes, ok) := AfterHandler(c, job, outcome, chunks, now);
    assert ClaimTrue(job, c.origin);
    HandlerKeepsInv(c, job, outcome, chunks, now);
    HandlerKeepsBatch(c, at, job, outcome, chunks, now);
    DisposedKeepsInv(c.(nodes := nodes), at, ok, recorded, now);
  }

  /** Receive handlers never claim, finish or enqueue: every node's batch and job ids stay. */
  lemma HandlerKeepsBatch(c: Cluster, at: string, job: Claimed, outcome: Outcome, chunks: seq<Bytes>, now: int)
    requires at in c.nodes
    ensures var nodes := AfterHandler(c, job, outcome, chunks, now).0;
      && nodes.Keys == c.nodes.Keys
      && nodes[at].queue.batch == c.nodes[at].queue.batch
      && nodes[at].queue.jobs.Keys == c.nodes[at].queue.jobs.Keys
      && nodes[at].queue.next == c.nodes[at].queue.next
  {
  }

  lemma RepairTrue(n: Node, peer: string, id: nat, now: int, origin: map<string, Bytes>)
    requires NodeTrue(n, origin) && id in n.objects
    ensures NodeTrue(Repair(n, peer, id, now), origin)
  {
    var row := n.objects[id];
    assert RowTrue(row, origin);
  }

  lemma StepKeepsInv(c: Cluster, a: Action)
    requires Inv(c) && MayStep(c, a)
    ensures Inv(Step(c, a))
  {
    var n := c.nodes[a.at];
    match a {
      case Local(at, op, now) =>
        if op.Upload? {
          UploadKeepsInv(c, a);
        } else {
          ApplyTrue(n, at, op, now, c.origin);
          ApplyKeepsSound(n, at, op, now);
          UpdateKeepsInv(c, at, Apply(n, at, op, now));
        }
      case Claims(at, now) =>
        ClaimJobsTrue(n, now, c.origin);
        UpdateKeepsInv(c, at, ClaimJobs(n, now));
      case Sends(at, outcome, recorded, chunks, now) => SendKeepsInv(c, at, outcome, recorded, chunks, now);
      case Restarts(at) => UpdateKeepsInv(c, at, n.(queue := n.queue.(batch := [])));
      case Repairs(at, peer, id, now) =>
        RepairTrue(n, peer, id, now, c.origin);
        UpdateKeepsInv(c, at, Repair(n, peer, id, now));
      case Sweeps(at, paths) => UpdateKeepsInv(c, at, Sweep(n, paths));
      case Configures(at, peers, buckets, nextBucket) =>
        UpdateKeepsInv(c, at, n.(peers := peers, buckets := buckets, nextBucket := nextBucket));
    }
  }

  lemma {:induction false} RunKeepsInv(c: Cluster, run: seq<Action>)
    requires Inv(c) && IsRun(c, run)
    ensures Inv(Exec(c, run))
    decreases |run|
  {
    if run != [] {
      StepKeepsInv(c, run[0]);
      RunKeepsInv(Step(c, run[0]), run[1..]);
    }
  }

  lemma FreshIsInv(c: Cluster)
    requires Fresh(c)
    ensures Inv(c)
  {
  }

  // ----- Content agreement -----

  /** In every reachable cluster, a row whose blob is present carries that blob's digest and size, and any two
      nodes holding a blob under one path hold identical bytes. */
  lemma ContentAgreement(c: Cluster, run: seq<Action>)
    requires Fresh(c) && IsRun(c, run)
    ensures var d := Exec(c, run);
      && (forall a, i :: a in d.nodes && i in d.nodes[a].objects && d.nodes[a].objects[i].filepath in d.nodes[a].blobs ==>
            var r := d.nodes[a].objects[i]; var blob := d.nodes[a].blobs[r.filepath];
            r.etag == Digest(r.etagType, blob) && r.size == |blob|)
      && (forall a, b, fp :: a in d.nodes && b in d.nodes && fp in d.nodes[a].blobs && fp in d.nodes[b].blobs ==>
            d.nodes[a].blobs[fp] == d.nodes[b].blobs[fp])
  {
    FreshIsInv(c);
    RunKeepsInv(c, run);
    var d := Exec(c, run);
    forall a, i | a in d.nodes && i in d.nodes[a].objects ensures RowTrue(d.nodes[a].objects[i], d.origin) {}
  }

  /** Over every run interleaving uploads, overwrites, deletions, restores, renames, purges, rehashes and received
      replicas, every node keeps at most one active row per (bucket, key) and one row per path. */
  lemma UniquenessEverywhere(c: Cluster, run: seq<Action>)
    requires Fresh(c) && IsRun(c, run)
    ensures forall a :: a in Exec(c, run).nodes ==>
              UniqueKeys(Exec(c, run).nodes[a].objects) && UniquePaths(Exec(c, run).nodes[a].objects)
  {
    FreshIsInv(c);
    RunKeepsInv(c, run);
  }
}
