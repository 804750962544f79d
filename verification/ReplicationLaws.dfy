/** Replication of one object, spelled out column by column: which jobs a claim hands out, what is sent for them, what the
    receiver makes of it, and what becomes of the job. */
module ReplicationLaws {
  import opened Basics
  import opened Hashing
  import opened Outbox
  import opened OutboxAudit
  import opened OutboxJobs
  import opened Text
  import opened Store
  import opened StoreLaws
  import opened Operations
  import opened ClusterSteps
  import opened ClusterDelivery
  import opened AntiEntropy

  // ----- Claiming -----

  /** The job waits, its time has come, and its peer is active. */
  ghost predicate IsDue(n: Node, now: int, id: nat) {
    && id in n.queue.jobs && (n.queue.jobs[id].status == Pending || n.queue.jobs[id].status == Failed)
    && n.queue.jobs[id].nextRetry <= now
    && exists k :: 0 <= k < |n.peers| && n.peers[k] == Peer(n.queue.jobs[id].peer, true)
  }

  lemma DueIsEligible(n: Node, now: int)
    ensures forall id :: IsDue(n, now, id) <==> id in EligibleIds(n.queue, now, ActivePeers(n))
  {
    forall p ensures p in ActivePeers(n) <==> exists k :: 0 <= k < |n.peers| && n.peers[k] == Peer(p, true) {
      if p in ActivePeers(n) {
        var k :| 0 <= k < |n.peers| && n.peers[k].active && n.peers[k].id == p;
        assert n.peers[k] == Peer(p, true);
      }
    }
  }

  /** Due jobs older than this one. */
  ghost function DueBefore(n: Node, now: int, id: nat): set<nat> {
    set e | e in n.queue.jobs && IsDue(n, now, e) && e < id
  }

  /** A claim hands out a job exactly when it is due and fewer than fifty older jobs are. */
  lemma NodeClaimsExactly(n: Node, now: int, id: nat)
    requires forall i :: i in n.queue.jobs ==> i < n.queue.next
    ensures InBatch(ClaimJobs(n, now).queue, id) <==> IsDue(n, now, id) && |DueBefore(n, now, id)| < 50
  {
    var active := ActivePeers(n);
    DueIsEligible(n, now);
    assert DueBefore(n, now, id) == Ahead(n.queue, now, active, id);
    if id in n.queue.jobs {
      ClaimedExactly(n.queue, now, active, JoinedMeta(n), id);
    } else {
      BatchAfterClaim(n.queue, now, active, JoinedMeta(n));
      assert id !in ClaimIds(n.queue, now, active);
    }
  }

  /** What the worker is handed for a job: the job's own columns, and those of its object and bucket if they are there. */
  function Snapshot(n: Node, id: nat): Claimed
    requires id in n.queue.jobs
  {
    var j := n.queue.jobs[id];
    Claimed(id, j.peer, j.filepath, j.etag, j.op,
            if j.objectId.Some? && j.objectId.value in n.objects && n.objects[j.objectId.value].bucket in n.buckets then
              var r := n.objects[j.objectId.value];
              Some(Meta(r.key, r.filepath, r.format, r.size, r.etagType, r.etag, r.uploaded, r.modified, n.buckets[r.bucket].name))
            else None)
  }

  /** A claim changes nothing but the status of the jobs it hands out, and hands them out oldest first. */
  lemma ClaimTouchesOnlyItsJobs(n: Node, now: int)
    requires forall i :: i in n.queue.jobs ==> i < n.queue.next
    ensures var q := ClaimJobs(n, now).queue;
      && ClaimJobs(n, now) == n.(queue := q) && q.next == n.queue.next && q.jobs.Keys == n.queue.jobs.Keys
      && (forall k :: 0 <= k < |q.batch| ==> q.batch[k].id in n.queue.jobs && q.batch[k] == Snapshot(n, q.batch[k].id))
      && (forall k, l :: 0 <= k < l < |q.batch| ==> q.batch[k].id < q.batch[l].id)
      && (forall i :: i in n.queue.jobs ==>
            q.jobs[i] == if InBatch(q, i) then n.queue.jobs[i].(status := InFlight) else n.queue.jobs[i])
  {
    var ids := ClaimIds(n.queue, now, ActivePeers(n));
    var q := ClaimJobs(n, now).queue;
    ClaimTakesOldest(n.queue, now, ActivePeers(n));
    BatchAfterClaim(n.queue, now, ActivePeers(n), JoinedMeta(n));
    forall k | 0 <= k < |ids| ensures q.batch[k].id == ids[k] && ids[k] in n.queue.jobs && q.batch[k] == Snapshot(n, ids[k]) {
      assert ids[k] in ids;
    }
  }

  // ----- Receiving -----

  /** The bucket name a message means. */
  function MeantName(m: PutMessage): string {
    if Trim(m.bucketName) == "" then "storage" else Trim(m.bucketName)
  }

  /** The tables and files after a PUT. A wrong digest removes the file and changes nothing else. A right one leaves the
      file, and the bucket, which is created if need be; then a path that is there is enough, a key that another active row
      holds is an error, and otherwise the object is recorded with every column of the message. */
  lemma ReceivedExactly(n: Node, m: PutMessage)
    requires Sound(n)
    ensures var (after, ok) := ReceivePut(n, m);
      var bytes := Flatten(m.chunks);
      if m.etag != Digest(m.etagType, bytes) then !ok && after == n.(blobs := n.blobs - {m.filepath})
      else
        && after.blobs == n.blobs[m.filepath := bytes] && after.queue == n.queue && after.peers == n.peers
        && after.buckets == EnsureBucket(n, MeantName(m)).0.buckets && after.nextBucket == EnsureBucket(n, MeantName(m)).0.nextBucket
        && var b := EnsureBucket(n, MeantName(m)).1;
           if exists i :: i in n.objects && n.objects[i].filepath == m.filepath then
             ok && after.objects == n.objects && after.nextObject == n.nextObject
           else if HoldsKey(n, b, m.name) then
             !ok && after.objects == n.objects && after.nextObject == n.nextObject
           else
             ok && after.nextObject == n.nextObject + 1 &&
             after.objects == n.objects[n.nextObject := Row(b, m.name, m.filepath, m.format, |bytes|, m.etagType, m.etag, m.uploaded, m.modified, None)]
  {
    var bytes := Flatten(m.chunks);
    if m.etag == Digest(m.etagType, bytes) {
      var b := EnsureBucket(n, MeantName(m)).1;
      EnsureIgnoresFiles(n, n.blobs[m.filepath := bytes], MeantName(m));
      InsertedExactly(EnsureBucket(n, MeantName(m)).0.(blobs := n.blobs[m.filepath := bytes]),
                      Row(b, m.name, m.filepath, m.format, |bytes|, m.etagType, m.etag, m.uploaded, m.modified, None));
    }
  }

  lemma EnsureIgnoresFiles(n: Node, blobs: map<string, Bytes>, name: string)
    ensures EnsureBucket(n.(blobs := blobs), name) == (EnsureBucket(n, name).0.(blobs := blobs), EnsureBucket(n, name).1)
    ensures EnsureBucket(n, name).0.objects == n.objects && EnsureBucket(n, name).0.nextObject == n.nextObject
    ensures EnsureBucket(n, name).0.queue == n.queue && EnsureBucket(n, name).0.peers == n.peers
  {
  }

  /** A row is recorded unless its path is there already, which is no error, or another active row holds its key, which
      is one. */
  lemma InsertedExactly(n: Node, row: Row)
    ensures InsertIdempotent(n, row) ==
              if exists i :: i in n.objects && n.objects[i].filepath == row.filepath then (n, true)
              else if HoldsKey(n, row.bucket, row.key) then (n, false)
              else (n.(objects := n.objects[n.nextObject := row], nextObject := n.nextObject + 1), true)
  {
    KeyIsHeld(n, row.bucket, row.key);
  }

  lemma KeyIsHeld(n: Node, b: nat, key: string)
    ensures HoldsKey(n, b, key) <==> FindActive(n.objects, b, key).Some?
  {
    var found := FindActive(n.objects, b, key);
    if found.Some? { assert Serves(n.objects[found.value], b, key); }
    if HoldsKey(n, b, key) {
      var i :| i in n.objects && n.objects[i].deletedAt == None && n.objects[i].bucket == b && n.objects[i].key == key;
      assert Serves(n.objects[i], b, key);
    }
  }

  /** A DELETE leaves no file and no row under its path; references to the row are nulled, and all else stays. */
  lemma DeletedExactly(n: Node, filepath: string)
    requires UniquePaths(n.objects)
    ensures var m := ReceiveDelete(n, filepath);
      && m == n.(objects := m.objects, queue := m.queue, blobs := n.blobs - {filepath})
      && m.queue == n.queue.(jobs := m.queue.jobs) && m.queue.jobs.Keys == n.queue.jobs.Keys
      && (forall i :: i in m.objects <==> i in n.objects && n.objects[i].filepath != filepath)
      && (forall i :: i in m.objects ==> m.objects[i] == n.objects[i])
      && (forall j :: j in n.queue.jobs ==>
            var oid := n.queue.jobs[j].objectId;
            m.queue.jobs[j] == if oid.Some? && oid.value in n.objects && n.objects[oid.value].filepath == filepath
                               then n.queue.jobs[j].(objectId := None) else n.queue.jobs[j])
  {
    var found := FindPath(n.objects, filepath);
    if found.Some? { assert n.objects[found.value].filepath == filepath; }
  }

  // ----- From node to node -----

  /** The message for a job whose object is there carries the object's columns; for one whose object is gone, the path for
      a name, MD5 for the algorithm and the default bucket. */
  lemma MessageExactly(n: Node, id: nat, chunks: seq<Bytes>, now: int)
    requires id in n.queue.jobs
    ensures var j := n.queue.jobs[id];
      MessageFor(Snapshot(n, id), chunks, now) ==
        if j.objectId.Some? && j.objectId.value in n.objects && n.objects[j.objectId.value].bucket in n.buckets then
          var r := n.objects[j.objectId.value];
          PutMessage(r.key, r.filepath, r.format, r.etagType, r.etag, r.uploaded, r.modified, n.buckets[r.bucket].name, chunks)
        else PutMessage(j.filepath, j.filepath, "bin", Md5, j.etag, now, now, "storage", chunks)
  {
  }

  /** An object arrives as it left: delivered whole to a node that has neither its path nor its key, it is recorded there
      under the same key, path, format, size, digest and times, in the bucket of the same name. */
  lemma ReplicaIsCopy(s: Node, id: nat, n: Node, chunks: seq<Bytes>, now: int, origin: map<string, Bytes>)
    requires Sound(s) && Sound(n) && RowsTrue(s.objects, origin)
    requires id in s.queue.jobs && s.queue.jobs[id].objectId.Some? && s.queue.jobs[id].objectId.value in s.objects
    requires var r := s.objects[s.queue.jobs[id].objectId.value];
      && r.filepath in origin && Flatten(chunks) == origin[r.filepath]
      && (forall i :: i in n.objects ==> n.objects[i].filepath != r.filepath)
      && !HeldByAnother(n, s.buckets[r.bucket].name, r.key)
    ensures var (m, ok) := ReceivePut(n, MessageFor(Snapshot(s, id), chunks, now));
      var r := s.objects[s.queue.jobs[id].objectId.value];
      && ok && n.nextObject in m.objects && m.objects[n.nextObject].bucket in m.buckets
      && m.objects[n.nextObject] == r.(bucket := m.objects[n.nextObject].bucket, deletedAt := None)
      && m.buckets[m.objects[n.nextObject].bucket].name == s.buckets[r.bucket].name
      && r.filepath in m.blobs && m.blobs[r.filepath] == origin[r.filepath]
  {
    var r := s.objects[s.queue.jobs[id].objectId.value];
    var msg := MessageFor(Snapshot(s, id), chunks, now);
    var (placed, b) := EnsureBucket(n, MeantName(msg));
    assert RowTrue(r, origin);
    assert MeantName(msg) == s.buckets[r.bucket].name;
    EnsureBucketExactly(n, MeantName(msg));
    ReceivedExactly(n, msg);
    assert forall i :: i in n.objects ==> n.objects[i].bucket in n.buckets;
    assert !HoldsKey(n, b, r.key);
  }

  // ----- What becomes of the job -----

  /** The call reached its peer, was accepted there, and the answer came back. */
  ghost predicate Accepted(c: Cluster, a: Action)
    requires MayStep(c, a) && a.Sends?
  {
    var job := c.nodes[a.at].queue.batch[0];
    && a.outcome == ClusterSteps.Acked && job.peer in c.nodes
    && (job.op == Put ==> ReceivePut(c.nodes[job.peer], MessageFor(job, a.chunks, a.now)).1)
  }

  /** One job off the batch: gone when it was accepted, FAILED and put off by thirty seconds per attempt when it was not,
      and left IN_FLIGHT when that cannot be recorded. All other jobs stay, and nobody is handed anything. */
  lemma SendFate(c: Cluster, a: Action)
    requires MayStep(c, a) && a.Sends? && c.nodes[a.at].queue.batch[0].id in c.nodes[a.at].queue.jobs
    ensures var job := c.nodes[a.at].queue.batch[0]; var q := c.nodes[a.at].queue;
      && a.at in Step(c, a).nodes
      && var q' := Step(c, a).nodes[a.at].queue;
         && q'.batch == q.batch[1..] && q'.next == q.next
         && (forall i :: i != job.id ==> (i in q'.jobs <==> i in q.jobs))
         && (forall i :: i in q'.jobs && i != job.id ==> q'.jobs[i].(objectId := q.jobs[i].objectId) == q.jobs[i])
         && (job.id in q'.jobs <==> !(a.recorded && Accepted(c, a)))
         && (a.recorded && !Accepted(c, a) ==>
               var tried := q.jobs[job.id].attempts + 1;
               && q'.jobs[job.id].status == Failed && q'.jobs[job.id].attempts == tried && q'.jobs[job.id].nextRetry == a.now + 30 * tried
               && q'.jobs[job.id].peer == q.jobs[job.id].peer && q'.jobs[job.id].op == q.jobs[job.id].op
               && q'.jobs[job.id].filepath == q.jobs[job.id].filepath && q'.jobs[job.id].etag == q.jobs[job.id].etag)
         && (!a.recorded ==> q'.jobs[job.id].(objectId := q.jobs[job.id].objectId) == q.jobs[job.id])
  {
    HandlerKeepsJobs(c, a);
  }

  /** What a call does elsewhere: a peer it reaches takes the object in or drops it, and no other node notices. The sender
      itself changes only in its outbox. */
  lemma SendReachesPeer(c: Cluster, a: Action)
    requires MayStep(c, a) && a.Sends?
    ensures var job := c.nodes[a.at].queue.batch[0]; var d := Step(c, a);
      && d.origin == c.origin && d.nodes.Keys == c.nodes.Keys
      && (job.peer != a.at ==> d.nodes[a.at] == c.nodes[a.at].(queue := d.nodes[a.at].queue))
      && forall b :: b in c.nodes && b != a.at ==>
           d.nodes[b] == if a.outcome == Unreached || b != job.peer then c.nodes[b]
                         else if job.op == Put then ReceivePut(c.nodes[b], MessageFor(job, a.chunks, a.now)).0
                         else ReceiveDelete(c.nodes[b], job.filepath)
  {
  }

  /** Runs leave nothing out that a node can do at any moment: restart, sweep any files, run any operation but an upload
      to a used path, be given any peers and any tidy buckets that keep those in use, claim when its batch is worked off,
      and send the head of a batch with any outcome, cutting the file anywhere and into any chunks. */
  lemma EveryStepIsOpen(c: Cluster, at: string, now: int)
    requires at in c.nodes
    ensures MayStep(c, Restarts(at))
    ensures forall paths: set<string> :: MayStep(c, Sweeps(at, paths))
    ensures forall op: LocalOp :: (op.Upload? ==> op.req.filepath !in c.origin) ==> MayStep(c, Local(at, op, now))
    ensures c.nodes[at].queue.batch == [] ==> MayStep(c, Claims(at, now))
    ensures forall peer: string, i: nat :: i in c.nodes[at].objects && c.nodes[at].objects[i].deletedAt == None ==> MayStep(c, Repairs(at, peer, i, now))
    ensures forall peers: seq<Peer>, buckets: map<nat, Bucket>, next: nat ::
              TidyBuckets(buckets, next) && (forall i :: i in c.nodes[at].objects ==> c.nodes[at].objects[i].bucket in buckets) ==>
                MayStep(c, Configures(at, peers, buckets, next))
    ensures forall outcome: Outcome, recorded: bool, chunks: seq<Bytes> ::
              c.nodes[at].queue.batch != [] && CutOf(c.nodes[at], c.nodes[at].queue.batch[0], chunks) ==>
                MayStep(c, Sends(at, outcome, recorded, chunks, now))
  {
  }

  /** A DELETE carries nothing; a PUT, the beginning of its file, or nothing when the file is gone. */
  ghost predicate CutOf(n: Node, job: Claimed, chunks: seq<Bytes>) {
    var fp := if job.meta == None then job.filepath else job.meta.value.filepath;
    job.op == Put ==> if fp in n.blobs then Flatten(chunks) <= n.blobs[fp] else chunks == []
  }

  /** Every other step changes one node only: a restart forgets the batch, a sweep takes listed files without a row, a
      repair adds one due PUT unless one waits, and an administrator changes peers and buckets. */
  lemma QuietSteps(c: Cluster, a: Action)
    requires MayStep(c, a) && !a.Sends?
    ensures var n := c.nodes[a.at]; var d := Step(c, a);
      && (!a.Local? ==> d.origin == c.origin) && a.at in d.nodes && d.nodes == c.nodes[a.at := d.nodes[a.at]]
      && var m := d.nodes[a.at];
         && (a.Restarts? ==> m == n.(queue := n.queue.(batch := [])))
         && (a.Configures? ==> m == n.(peers := a.peers, buckets := a.buckets, nextBucket := a.nextBucket))
         && (a.Sweeps? ==> m == n.(blobs := m.blobs) &&
                           (forall fp :: fp in m.blobs <==> fp in n.blobs && (fp in a.paths ==> HasPath(n, fp))) &&
                           (forall fp :: fp in m.blobs ==> m.blobs[fp] == n.blobs[fp]))
         && (a.Repairs? ==> m == n.(queue := m.queue) && m.queue.batch == n.queue.batch &&
                            var r := n.objects[a.id];
                            if PutWaits(n.queue.jobs, a.peer, r.filepath) then m.queue == n.queue
                            else m.queue.next == n.queue.next + 1 &&
                                 m.queue.jobs == n.queue.jobs[n.queue.next := Job(a.peer, Some(a.id), r.filepath, r.etag, Put, Pending, 0, a.now)])
  {
    if a.Repairs? { WaitingIsTested(c.nodes[a.at].queue, a.peer, c.nodes[a.at].objects[a.id].filepath); }
  }

  ghost predicate HasPath(n: Node, fp: string) {
    exists i :: i in n.objects && n.objects[i].filepath == fp
  }

  lemma HandlerKeepsJobs(c: Cluster, a: Action)
    requires MayStep(c, a) && a.Sends?
    ensures var job := c.nodes[a.at].queue.batch[0];
      var (nodes, ok) := AfterHandler(c, job, a.outcome, a.chunks, a.now);
      && a.at in nodes && nodes[a.at].queue.batch == c.nodes[a.at].queue.batch && nodes[a.at].queue.next == c.nodes[a.at].queue.next
      && nodes[a.at].queue.jobs.Keys == c.nodes[a.at].queue.jobs.Keys
      && (forall i :: i in c.nodes[a.at].queue.jobs ==>
            nodes[a.at].queue.jobs[i].(objectId := c.nodes[a.at].queue.jobs[i].objectId) == c.nodes[a.at].queue.jobs[i])
      && (ok <==> Accepted(c, a))
  {
  }
}
