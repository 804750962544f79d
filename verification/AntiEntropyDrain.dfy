/** Draining the repairs of one anti-entropy pass: what a drain keeps, one send at a time. */
module AntiEntropyDrain {
  import opened Basics
  import opened Hashing
  import opened Outbox
  import opened OutboxAudit
  import opened Store
  import opened ClusterSteps
  import opened AntiEntropy

  /** One pass: the repairing node as it was, its own id, the digests it obtained, and the time. */
  datatype Pass = Pass(sender: Node, self: string, remotes: map<string, map<string, Etag>>, now: int)

  /** Peer `p` is to be sent the row `id`. */
  ghost predicate Wanted(x: Pass, p: string, id: nat) {
    Compared(x.sender.peers, x.self, x.remotes, p) && NeedsRepair(x.sender, p, x.remotes[p], id)
  }

  ghost predicate Served(n: Node, fp: string) {
    PathTaken(n.objects, fp) && fp in n.blobs
  }

  // ----- The sender's queue -----

  ghost predicate RepairsRow(x: Pass, j: Job) {
    && j.objectId.Some? && j.op == Put && Wanted(x, j.peer, j.objectId.value)
    && j.filepath == x.sender.objects[j.objectId.value].filepath
  }

  ghost predicate Snapshot(x: Pass, q: Queue, b: Claimed) {
    && b.id in q.jobs && RepairsRow(x, q.jobs[b.id])
    && b.meta == Some(JoinedMeta(x.sender)[q.jobs[b.id].objectId.value])
  }

  /** Nothing but repairs is queued, and the batch describes the rows as they are. */
  ghost predicate RepairQueue(x: Pass, q: Queue) {
    && Flight(q) && Stranded(q) == {}
    && (forall j :: j in q.jobs ==> RepairsRow(x, q.jobs[j]))
    && (forall k :: 0 <= k < |q.batch| ==> Snapshot(x, q, q.batch[k]))
  }

  lemma ClaimKeepsRepairs(x: Pass, q: Queue, now: int, active: set<string>)
    requires RepairQueue(x, q) && q.batch == []
    ensures RepairQueue(x, Claim(q, now, active, JoinedMeta(x.sender)))
  {
    var meta := JoinedMeta(x.sender);
    var q' := Claim(q, now, active, meta);
    var ids := ClaimIds(q, now, active);
    FlightClaim(q, now, active, meta);
    forall k | 0 <= k < |q'.batch| ensures Snapshot(x, q', q'.batch[k]) {
      assert ids[k] in ids;
      SnapshotOf(x, q, q', ids[k]);
    }
  }

  lemma SnapshotOf(x: Pass, q: Queue, q': Queue, id: nat)
    requires id in q.jobs && RepairsRow(x, q.jobs[id])
    requires id in q'.jobs && q'.jobs[id] == q.jobs[id].(status := InFlight)
    ensures Snapshot(x, q', View(id, q.jobs[id], JoinedMeta(x.sender)))
  {
  }

  lemma ClaimKeepsWaiting(q: Queue, now: int, active: set<string>, meta: map<nat, Meta>, p: string, fp: string)
    requires RepairQueued(q, p, fp)
    ensures RepairQueued(Claim(q, now, active, meta), p, fp)
  {
    var j :| j in q.jobs && q.jobs[j].peer == p && q.jobs[j].filepath == fp && q.jobs[j].op == Put;
    var jobs := Claim(q, now, active, meta).jobs;
    assert jobs[j].peer == p && jobs[j].filepath == fp && jobs[j].op == Put;
  }

  lemma FinishKeepsRepairs(x: Pass, q: Queue, ok: bool, now: int)
    requires RepairQueue(x, q) && q.batch != []
    ensures RepairQueue(x, Finish(q, ok, now))
  {
    var q' := Finish(q, ok, now);
    FlightFinish(q, ok, now);
    assert Held(q, q.batch[0]);
    forall k | 0 <= k < |q'.batch| ensures Snapshot(x, q', q'.batch[k]) {
      assert q'.batch[k] == q.batch[k + 1];
      assert Snapshot(x, q, q.batch[k + 1]);
    }
  }

  /** An acknowledged job leaves the table, a failed one stays. */
  lemma FinishCounts(q: Queue, ok: bool, now: int)
    requires Flight(q) && q.batch != []
    ensures |Finish(q, ok, now).jobs| == |q.jobs| - (if ok then 1 else 0)
  {
    var q' := Finish(q, ok, now);
    assert Held(q, q.batch[0]);
    if ok {
      assert q'.jobs.Keys == q.jobs.Keys - {q.batch[0].id};
    } else {
      assert q'.jobs.Keys == q.jobs.Keys;
    }
    assert |q.jobs| == |q.jobs.Keys| && |q'.jobs| == |q'.jobs.Keys|;
  }

  /** A waiting repair stays waiting unless its own send was acknowledged. */
  lemma FinishKeepsWaiting(q: Queue, ok: bool, now: int, p: string, fp: string)
    requires Flight(q) && q.batch != [] && RepairQueued(q, p, fp)
    requires !(ok && q.batch[0].peer == p && q.batch[0].filepath == fp)
    ensures RepairQueued(Finish(q, ok, now), p, fp)
  {
    var q' := Finish(q, ok, now);
    var j :| j in q.jobs && q.jobs[j].peer == p && q.jobs[j].filepath == fp && q.jobs[j].op == Put;
    assert Held(q, q.batch[0]);
    assert j in q'.jobs && q'.jobs[j].peer == p && q'.jobs[j].filepath == fp && q'.jobs[j].op == Put;
  }

  // ----- A receiver -----

  /** A row a repair brought: an active copy of a wanted row, in the bucket of that name. */
  ghost predicate Brought(x: Pass, p: string, r: Row, buckets: map<nat, Bucket>) {
    exists id :: Wanted(x, p, id) && Copies(x, id, r, buckets)
  }

  ghost predicate Copies(x: Pass, id: nat, r: Row, buckets: map<nat, Bucket>) {
    && id in x.sender.objects && x.sender.objects[id].bucket in x.sender.buckets
    && Active(r) && r.filepath == x.sender.objects[id].filepath && r.key == x.sender.objects[id].key
    && r.bucket in buckets && buckets[r.bucket].name == x.sender.buckets[x.sender.objects[id].bucket].name
  }

  ghost predicate WantedPath(x: Pass, p: string, fp: string) {
    exists id :: Wanted(x, p, id) && x.sender.objects[id].filepath == fp
  }

  /** Repairs only ever add: rows and buckets stay, new rows are copies, and only wanted blobs come or go. */
  ghost predicate Gains(x: Pass, p: string, before: Node, after: Node) {
    && (forall i :: i in before.objects ==> i in after.objects && after.objects[i] == before.objects[i])
    && (forall i :: i in after.objects && i !in before.objects ==> Brought(x, p, after.objects[i], after.buckets))
    && (forall b :: b in before.buckets ==> b in after.buckets && after.buckets[b] == before.buckets[b])
    && (forall fp :: (fp in before.blobs) != (fp in after.blobs) ==> WantedPath(x, p, fp))
  }

  /** The message a repair of row `id` sends. */
  ghost function RepairMessage(x: Pass, id: nat, chunks: seq<Bytes>): PutMessage
    requires id in x.sender.objects && x.sender.objects[id].bucket in x.sender.buckets
  {
    var r := x.sender.objects[id];
    PutMessage(r.key, r.filepath, r.format, r.etagType, r.etag, r.uploaded, r.modified, x.sender.buckets[r.bucket].name, chunks)
  }

  lemma BroughtKeeps(x: Pass, p: string, r: Row, buckets: map<nat, Bucket>, wider: map<nat, Bucket>)
    requires Brought(x, p, r, buckets)
    requires forall b :: b in buckets ==> b in wider && wider[b] == buckets[b]
    ensures Brought(x, p, r, wider)
  {
    var id :| Wanted(x, p, id) && Copies(x, id, r, buckets);
    assert Copies(x, id, r, wider);
  }

  /** What a receiver can make of a PUT, table by table. */
  ghost predicate Received(n: Node, m: PutMessage, got: Node, ok: bool) {
    && got.queue == n.queue
    && if Digest(m.etagType, Flatten(m.chunks)) != m.etag then
         !ok && got.objects == n.objects && got.buckets == n.buckets && got.blobs == n.blobs - {m.filepath}
       else
         && got.blobs == n.blobs[m.filepath := Flatten(m.chunks)]
         && (forall b :: b in n.buckets ==> b in got.buckets && got.buckets[b] == n.buckets[b])
         && if PathTaken(n.objects, m.filepath) then ok && got.objects == n.objects
            else exists b :: Lands(n, m, b, got, ok)
  }

  predicate IsFor(r: Row, m: PutMessage, b: nat) {
    Active(r) && r.bucket == b && r.key == m.name && r.filepath == m.filepath
  }

  /** The object goes to bucket `b`, unless another active object holds its key there. */
  ghost predicate Lands(n: Node, m: PutMessage, b: nat, got: Node, ok: bool) {
    && b in got.buckets && got.buckets[b].name == TargetName(m.bucketName)
    && ok == FindActive(n.objects, b, m.name).None?
    && (!ok ==> got.objects == n.objects)
    && (ok ==> n.nextObject !in n.objects && n.nextObject in got.objects && got.objects == n.objects[n.nextObject := got.objects[n.nextObject]])
    && (ok ==> IsFor(got.objects[n.nextObject], m, b))
  }

  lemma ReceivedIs(n: Node, m: PutMessage)
    requires Sound(n)
    ensures Received(n, m, ReceivePut(n, m).0, ReceivePut(n, m).1)
  {
    var (got, ok) := ReceivePut(n, m);
    if Digest(m.etagType, Flatten(m.chunks)) == m.etag && !PathTaken(n.objects, m.filepath) {
      var (placed, b) := EnsureBucket(n.(blobs := n.blobs[m.filepath := Flatten(m.chunks)]), TargetName(m.bucketName));
      var r := Row(b, m.name, m.filepath, m.format, |Flatten(m.chunks)|, m.etagType, m.etag, m.uploaded, m.modified, None);
      assert n.nextObject !in n.objects;
      assert ok ==> got.objects == n.objects[n.nextObject := r];
      assert Lands(n, m, b, got, ok);
    }
  }

  /** A repair names the bucket of its row. */
  lemma RepairNamesBucket(x: Pass, id: nat, chunks: seq<Bytes>)
    requires Sound(x.sender) && id in x.sender.objects && x.sender.objects[id].bucket in x.sender.buckets
    ensures TargetName(RepairMessage(x, id, chunks).bucketName) == x.sender.buckets[x.sender.objects[id].bucket].name
  {
  }

  lemma ReceiveBrings(x: Pass, p: string, before: Node, after: Node, id: nat, chunks: seq<Bytes>, got: Node, ok: bool)
    requires Sound(x.sender) && Wanted(x, p, id) && Gains(x, p, before, after)
    requires Received(after, RepairMessage(x, id, chunks), got, ok)
    ensures forall i :: i in got.objects && i !in before.objects ==> Brought(x, p, got.objects[i], got.buckets)
  {
    RepairNamesBucket(x, id, chunks);
    forall i | i in got.objects && i !in before.objects ensures Brought(x, p, got.objects[i], got.buckets) {
      if i in after.objects {
        BroughtKeeps(x, p, after.objects[i], after.buckets, got.buckets);
      } else {
        assert Copies(x, id, got.objects[i], got.buckets);
      }
    }
  }

  lemma ReceiveGains(x: Pass, p: string, before: Node, after: Node, id: nat, chunks: seq<Bytes>, got: Node, ok: bool)
    requires Sound(x.sender) && Wanted(x, p, id) && Gains(x, p, before, after)
    requires Received(after, RepairMessage(x, id, chunks), got, ok)
    ensures Gains(x, p, before, got)
  {
    ReceiveBrings(x, p, before, after, id, chunks, got, ok);
    assert WantedPath(x, p, x.sender.objects[id].filepath);
  }

  /** A repair that is accepted leaves row and blob at the receiver; no repair takes a row away, or brings a row or
      touches a blob under any other path. */
  lemma ReceiveServes(n: Node, m: PutMessage, got: Node, ok: bool)
    requires Received(n, m, got, ok)
    ensures ok ==> Served(got, m.filepath)
    ensures forall fp :: PathTaken(n.objects, fp) ==> PathTaken(got.objects, fp)
    ensures forall fp :: fp != m.filepath ==> (PathTaken(got.objects, fp) <==> PathTaken(n.objects, fp))
    ensures forall fp :: fp != m.filepath ==> (fp in got.blobs <==> fp in n.blobs)
    ensures !ok ==> got.objects == n.objects
  {
    if got.objects != n.objects {
      assert got.objects[n.nextObject].filepath == m.filepath;
      forall fp | PathTaken(n.objects, fp) ensures PathTaken(got.objects, fp) {
        var i :| i in n.objects && n.objects[i].filepath == fp;
        assert got.objects[i].filepath == fp;
      }
    }
  }
}
