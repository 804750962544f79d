/** What replication can and cannot do: deletion is final, retries are harmless, only a restore reactivates. */
module ClusterDelivery {
  import opened Basics
  import opened Hashing
  import opened Outbox
  import opened Store
  import opened Lifecycle
  import opened Operations
  import opened ClusterSteps
  import opened ClusterSafety

  // ----- Finality of deletion -----

  /** Neither a row nor a blob under this path. */
  ghost predicate Absent(n: Node, fp: string) {
    fp !in n.blobs && !PathTaken(n.objects, fp)
  }

  ghost predicate NoGain(n: Node, m: Node, fp: string) {
    && (fp !in n.blobs ==> fp !in m.blobs)
    && (!PathTaken(n.objects, fp) ==> !PathTaken(m.objects, fp))
  }

  lemma LocalNoGain(n: Node, self: string, op: LocalOp, now: int, fp: string)
    requires op.Upload? ==> op.req.filepath != fp
    ensures NoGain(n, Apply(n, self, op, now), fp)
  {
    match op {
      case Upload(req, fault) =>
        PutTables(n, self, req, fault, now);
        RecycleNoGain(n.objects, req.bucket, req.key, now, fp);
      case RestoreItem(id) =>
      case RenameFolder(bucket, from, to) =>
      case _ => ShrinkingOps(n, self, op, now);
    }
  }

  lemma RecycleNoGain(objects: map<nat, Row>, bucket: nat, key: string, now: int, fp: string)
    ensures PathTaken(RecycleActive(objects, bucket, key, now), fp) ==> PathTaken(objects, fp)
  {
  }

  /** A PUT retried after its blob is gone re-creates the object on a node that lacks it exactly when the object was
      empty and no other active object holds its key there: deletion is final for non-empty objects only. */
  lemma StalePutRecreatesExactly(n: Node, m: PutMessage)
    requires m.chunks == [] && Absent(n, m.filepath) && Sound(n)
    ensures PathTaken(ReceivePut(n, m).0.objects, m.filepath) <==>
              m.etag == Digest(m.etagType, []) && !HeldByAnother(n, TargetName(m.bucketName), m.name)
  {
    if m.etag == Digest(m.etagType, []) {
      var (placed, bucket) := EnsureBucket(n.(blobs := n.blobs[m.filepath := []]), TargetName(m.bucketName));
      if FindActive(placed.objects, bucket, m.name).None? {
        assert ReceivePut(n, m).0.objects[n.nextObject].filepath == m.filepath;
      } else {
        var i := FindActive(placed.objects, bucket, m.name).value;
        assert n.objects[i].bucket in n.buckets;
        assert HeldByAnother(n, TargetName(m.bucketName), m.name);
      }
      if HeldByAnother(n, TargetName(m.bucketName), m.name) { assert FindActive(placed.objects, bucket, m.name).Some?; }
    }
  }

  /** Some active object has this key in the bucket of this name. */
  ghost predicate HeldByAnother(n: Node, name: string, key: string) {
    exists i :: i in n.objects && Active(n.objects[i]) && n.objects[i].key == key && n.objects[i].bucket in n.buckets &&
      n.buckets[n.objects[i].bucket].name == name
  }

  lemma ReceiveNoGain(n: Node, m: PutMessage, fp: string)
    requires m.filepath == fp ==> Digest(m.etagType, Flatten(m.chunks)) != m.etag
    ensures NoGain(n, ReceivePut(n, m).0, fp)
  {
  }

  lemma HandleNoGain(peer: Node, sender: Node, job: Claimed, chunks: seq<Bytes>, now: int, fp: string, origin: map<string, Bytes>)
    requires ClaimTrue(job, origin) && fp in origin && origin[fp] != []
    requires fp !in sender.blobs
    requires job.op == Put ==> MaySend(sender, SourcePath(job), chunks)
    ensures NoGain(peer, Handle(peer, job, chunks, now).0, fp)
  {
    if job.op == Put {
      ReceiveNoGain(peer, MessageFor(job, chunks, now), fp);
    }
  }

  lemma HandlerNoGain(c: Cluster, a: Action, fp: string, b: string)
    requires Inv(c) && MayStep(c, a) && a.Sends? && b in c.nodes
    requires fp in c.origin && c.origin[fp] != [] && fp !in c.nodes[a.at].blobs
    ensures var nodes := AfterHandler(c, c.nodes[a.at].queue.batch[0], a.outcome, a.chunks, a.now).0;
      b in nodes && NoGain(c.nodes[b], nodes[b], fp)
  {
    var job := c.nodes[a.at].queue.batch[0];
    assert ClaimTrue(job, c.origin);
    if job.peer in c.nodes {
      HandleNoGain(c.nodes[job.peer], c.nodes[a.at], job, a.chunks, a.now, fp, c.origin);
    }
  }

  /** Disposing of the job touches only the sender's queue. */
  lemma FinishTouchesOnlyQueue(c: Cluster, a: Action, b: string)
    requires MayStep(c, a) && a.Sends? && b in c.nodes
    ensures var nodes := AfterHandler(c, c.nodes[a.at].queue.batch[0], a.outcome, a.chunks, a.now).0;
      && b in nodes && b in Step(c, a).nodes
      && Step(c, a).nodes[b].blobs == nodes[b].blobs && Step(c, a).nodes[b].objects == nodes[b].objects
  {
  }

  lemma SendNoGain(c: Cluster, a: Action, fp: string, b: string)
    requires Inv(c) && MayStep(c, a) && a.Sends? && b in c.nodes
    requires fp in c.origin && c.origin[fp] != [] && fp !in c.nodes[a.at].blobs
    ensures b in Step(c, a).nodes && NoGain(c.nodes[b], Step(c, a).nodes[b], fp)
  {
    HandlerNoGain(c, a, fp, b);
    FinishTouchesOnlyQueue(c, a, b);
  }

  lemma StepNoGain(c: Cluster, a: Action, fp: string, b: string)
    requires Inv(c) && MayStep(c, a) && b in c.nodes
    requires fp in c.origin && c.origin[fp] != []
    requires a.Sends? ==> fp !in c.nodes[a.at].blobs
    ensures b in Step(c, a).nodes && NoGain(c.nodes[b], Step(c, a).nodes[b], fp)
  {
    match a {
      case Local(at, op, now) => LocalNoGain(c.nodes[at], at, op, now, fp);
      case Sends(_, _, _, _, _) => SendNoGain(c, a, fp, b);
      case _ => QuietNoGain(c, a, fp, b);
    }
  }

  lemma QuietNoGain(c: Cluster, a: Action, fp: string, b: string)
    requires MayStep(c, a) && b in c.nodes && !a.Local? && !a.Sends?
    ensures b in Step(c, a).nodes && NoGain(c.nodes[b], Step(c, a).nodes[b], fp)
  {
    var d := Step(c, a);
    assert d.nodes[b].objects == c.nodes[b].objects;
    assert fp in d.nodes[b].blobs ==> fp in c.nodes[b].blobs;
  }

  lemma StepKeepsOrigin(c: Cluster, a: Action, fp: string)
    requires MayStep(c, a) && fp in c.origin
    ensures fp in Step(c, a).origin && Step(c, a).origin[fp] == c.origin[fp]
    ensures Step(c, a).nodes.Keys == c.nodes.Keys
  {
    if a.Sends? { HandlerKeepsBatch(c, a.at, c.nodes[a.at].queue.batch[0], a.outcome, a.chunks, a.now); }
  }

  ghost predicate SentOnlyBy(run: seq<Action>, senders: set<string>) {
    forall i :: 0 <= i < |run| ==> run[i].Sends? ==> run[i].at in senders
  }

  ghost predicate NoneHolds(c: Cluster, holders: set<string>, fp: string) {
    forall s :: s in holders && s in c.nodes ==> fp !in c.nodes[s].blobs
  }

  /** Once no node that still sends holds the blob of a non-empty object, no run, in any order of retries and
      failures, gives the object's row or blob to a node that lacks it. */
  lemma {:induction false} DeletionIsFinal(c: Cluster, run: seq<Action>, senders: set<string>, fp: string)
    requires Inv(c) && IsRun(c, run) && SentOnlyBy(run, senders) && NoneHolds(c, senders, fp)
    requires fp in c.origin && c.origin[fp] != []
    ensures Exec(c, run).nodes.Keys == c.nodes.Keys
    ensures NoneHolds(Exec(c, run), senders, fp)
    ensures forall b :: b in c.nodes && Absent(c.nodes[b], fp) ==> Absent(Exec(c, run).nodes[b], fp)
    decreases |run|
  {
    if run != [] {
      var d := Step(c, run[0]);
      StepKeepsInv(c, run[0]);
      StepKeepsOrigin(c, run[0], fp);
      forall b | b in c.nodes ensures NoGain(c.nodes[b], d.nodes[b], fp) {
        StepNoGain(c, run[0], fp, b);
      }
      DeletionIsFinal(d, run[1..], senders, fp);
    }
  }

  lemma PurgedIsAbsent(n: Node, self: string, id: nat, now: int)
    requires UniquePaths(n.objects) && id in n.objects
    ensures Absent(Purge(n, self, id, now), n.objects[id].filepath)
  {
  }

  lemma DeletedIsAbsent(n: Node, filepath: string)
    requires UniquePaths(n.objects)
    ensures Absent(ReceiveDelete(n, filepath), filepath)
  {
  }

  lemma DeliveredDeleteIsAbsent(c: Cluster, send: Action)
    requires Inv(c) && MayStep(c, send) && send.Sends? && !send.outcome.Unreached?
    requires var job := c.nodes[send.at].queue.batch[0]; job.op == Delete && job.peer in c.nodes && job.peer != send.at
    ensures var job := c.nodes[send.at].queue.batch[0];
      job.peer in Step(c, send).nodes && Absent(Step(c, send).nodes[job.peer], job.filepath)
  {
    var job := c.nodes[send.at].queue.batch[0];
    DeletedIsAbsent(c.nodes[job.peer], job.filepath);
  }

  lemma {:induction false} RunKeepsOrigin(c: Cluster, run: seq<Action>, fp: string)
    requires IsRun(c, run) && fp in c.origin
    ensures fp in Exec(c, run).origin && Exec(c, run).origin[fp] == c.origin[fp]
    decreases |run|
  {
    if run != [] {
      StepKeepsOrigin(c, run[0], fp);
      RunKeepsOrigin(Step(c, run[0]), run[1..], fp);
    }
  }

  /** `send` carries the DELETE of `fp` from `o` to another node and reaches it, acknowledged or not. */
  ghost predicate DeletesAt(c: Cluster, send: Action, o: string, fp: string) {
    && MayStep(c, send) && send.Sends? && send.at == o && !send.outcome.Unreached?
    && var job := c.nodes[o].queue.batch[0];
       job.op == Delete && job.filepath == fp && job.peer in c.nodes && job.peer != o
  }

  lemma DeleteDelivered(c: Cluster, send: Action, o: string, fp: string)
    requires Inv(c) && o in c.nodes && Absent(c.nodes[o], fp) && fp in c.origin && c.origin[fp] != []
    requires DeletesAt(c, send, o, fp)
    ensures var next := Step(c, send); var p := c.nodes[o].queue.batch[0].peer;
      && Inv(next) && o in next.nodes && p in next.nodes && Absent(next.nodes[o], fp) && Absent(next.nodes[p], fp)
      && fp in next.origin && next.origin[fp] != []
  {
    DeliveredDeleteIsAbsent(c, send);
    StepKeepsInv(c, send);
    StepKeepsOrigin(c, send, fp);
    StepNoGain(c, send, fp, o);
  }

  lemma GoneAfterDelete(c: Cluster, send: Action, rest: seq<Action>, o: string, fp: string)
    requires Inv(c) && o in c.nodes && Absent(c.nodes[o], fp) && fp in c.origin && c.origin[fp] != []
    requires DeletesAt(c, send, o, fp) && IsRun(Step(c, send), rest) && SentOnlyBy(rest, {o})
    ensures var d := Exec(Step(c, send), rest); var p := c.nodes[o].queue.batch[0].peer;
      o in d.nodes && p in d.nodes && Absent(d.nodes[o], fp) && Absent(d.nodes[p], fp)
  {
    DeleteDelivered(c, send, o, fp);
    DeletionIsFinal(Step(c, send), rest, {o}, fp);
  }

  lemma PurgeStep(c: Cluster, o: string, id: nat, now: int)
    requires Inv(c) && o in c.nodes && id in c.nodes[o].objects && c.nodes[o].objects[id].size > 0
    ensures var d := Step(c, Local(o, PurgeItem(id), now)); var fp := c.nodes[o].objects[id].filepath;
      Inv(d) && o in d.nodes && Absent(d.nodes[o], fp) && fp in d.origin && d.origin[fp] != []
  {
    assert RowTrue(c.nodes[o].objects[id], c.origin);
    PurgedIsAbsent(c.nodes[o], o, id, now);
    StepKeepsInv(c, Local(o, PurgeItem(id), now));
  }

  lemma AbsentUntilDelete(c: Cluster, o: string, id: nat, now: int, mid: seq<Action>)
    requires Inv(c) && o in c.nodes && id in c.nodes[o].objects && c.nodes[o].objects[id].size > 0
    requires IsRun(Step(c, Local(o, PurgeItem(id), now)), mid) && SentOnlyBy(mid, {o})
    ensures var d := Exec(Step(c, Local(o, PurgeItem(id), now)), mid); var fp := c.nodes[o].objects[id].filepath;
      Inv(d) && o in d.nodes && Absent(d.nodes[o], fp) && fp in d.origin && d.origin[fp] != []
  {
    var purged := Step(c, Local(o, PurgeItem(id), now));
    var fp := c.nodes[o].objects[id].filepath;
    PurgeStep(c, o, id, now);
    DeletionIsFinal(purged, mid, {o}, fp);
    RunKeepsInv(purged, mid);
    RunKeepsOrigin(purged, mid, fp);
  }

  /** Single origin: after the origin purged a non-empty object and a DELETE for it reached a peer, no continuation
      in which only the origin sends brings the object back, on either node, whatever PUTs are still retried. */
  lemma PurgeAndDeleteAreFinal(c: Cluster, o: string, id: nat, now: int, mid: seq<Action>, send: Action, rest: seq<Action>)
    requires Inv(c) && o in c.nodes && id in c.nodes[o].objects && c.nodes[o].objects[id].size > 0
    requires IsRun(Step(c, Local(o, PurgeItem(id), now)), mid) && SentOnlyBy(mid, {o})
    requires var reached := Exec(Step(c, Local(o, PurgeItem(id), now)), mid);
      DeletesAt(reached, send, o, c.nodes[o].objects[id].filepath) && IsRun(Step(reached, send), rest) && SentOnlyBy(rest, {o})
    ensures var reached := Exec(Step(c, Local(o, PurgeItem(id), now)), mid);
      var fp := c.nodes[o].objects[id].filepath;
      var d := Exec(Step(reached, send), rest);
      var p := reached.nodes[o].queue.batch[0].peer;
      o in d.nodes && p in d.nodes && Absent(d.nodes[o], fp) && Absent(d.nodes[p], fp)
  {
    AbsentUntilDelete(c, o, id, now, mid);
    GoneAfterDelete(Exec(Step(c, Local(o, PurgeItem(id), now)), mid), send, rest, o, c.nodes[o].objects[id].filepath);
  }

  // ----- Redelivery -----

  /** Receiving again a PUT whose row is there never changes a row or a job. It is harmless exactly when its payload
      carries the announced digest and blob and bucket are there, or does not and there is no blob to lose: a payload
      cut short by a read error, or empty because the sender's file is gone, removes the receiver's blob. */
  lemma RedeliveredPutIsHarmless(n: Node, m: PutMessage, origin: map<string, Bytes>)
    requires NodeTrue(n, origin) && Names(m.filepath, m.etag, origin)
    requires PathTaken(n.objects, m.filepath)
    ensures var (after, ok) := ReceivePut(n, m);
      var verifies := Digest(m.etagType, Flatten(m.chunks)) == m.etag;
      && (ok <==> verifies)
      && after.objects == n.objects && after.queue == n.queue
      && after.blobs == (if !verifies then n.blobs - {m.filepath}
                         else if m.filepath in n.blobs then n.blobs else n.blobs[m.filepath := origin[m.filepath]])
      && (after == n <==> if verifies then m.filepath in n.blobs && FindBucket(n.buckets, TargetName(m.bucketName)).Some?
                          else m.filepath !in n.blobs)
  {
    var after := ReceivePut(n, m).0;
    if Digest(m.etagType, Flatten(m.chunks)) != m.etag {
      assert m.filepath !in n.blobs ==> n.blobs - {m.filepath} == n.blobs;
    }
  }

  /** Receiving a DELETE twice is receiving it once. */
  lemma RedeliveredDeleteIsHarmless(n: Node, filepath: string)
    requires UniquePaths(n.objects)
    ensures ReceiveDelete(ReceiveDelete(n, filepath), filepath) == ReceiveDelete(n, filepath)
  {
    DeletedIsAbsent(n, filepath);
  }

  // ----- Reactivation -----

  /** The row is in the recycle bin, or gone for good. */
  ghost predicate Dormant(n: Node, i: nat) {
    i < n.nextObject && (i in n.objects ==> !Active(n.objects[i]))
  }

  lemma LocalKeepsDormant(n: Node, self: string, op: LocalOp, now: int, i: nat)
    requires Dormant(n, i) && op != RestoreItem(i)
    ensures Dormant(Apply(n, self, op, now), i)
  {
    match op {
      case Upload(req, fault) => PutTables(n, self, req, fault, now);
      case RestoreItem(id) =>
      case RenameFolder(bucket, from, to) =>
      case _ => ShrinkingOps(n, self, op, now);
    }
  }

  lemma HandleKeepsDormant(peer: Node, job: Claimed, chunks: seq<Bytes>, now: int, i: nat)
    requires Dormant(peer, i)
    ensures Dormant(Handle(peer, job, chunks, now).0, i)
  {
  }

  lemma StepKeepsDormant(c: Cluster, a: Action, b: string, i: nat)
    requires MayStep(c, a) && b in c.nodes && Dormant(c.nodes[b], i)
    requires !(a.Local? && a.at == b && a.op == RestoreItem(i))
    ensures b in Step(c, a).nodes && Dormant(Step(c, a).nodes[b], i)
  {
    match a {
      case Local(at, op, now) => if at == b { LocalKeepsDormant(c.nodes[at], at, op, now, i); }
      case Sends(at, outcome, recorded, chunks, now) =>
        var job := c.nodes[at].queue.batch[0];
        if job.peer in c.nodes && job.peer == b { HandleKeepsDormant(c.nodes[b], job, chunks, now, i); }
      case _ =>
    }
  }

  /** Only a restore on the node itself brings a recycled row back: no replicated message, repair, upload or rename does,
      over any run. */
  lemma {:induction false} OnlyRestoreReactivates(c: Cluster, run: seq<Action>, b: string, i: nat)
    requires IsRun(c, run) && b in c.nodes && Dormant(c.nodes[b], i)
    requires forall k :: 0 <= k < |run| ==> !(run[k].Local? && run[k].at == b && run[k].op == RestoreItem(i))
    ensures b in Exec(c, run).nodes && Dormant(Exec(c, run).nodes[b], i)
    decreases |run|
  {
    if run != [] {
      StepKeepsDormant(c, run[0], b, i);
      OnlyRestoreReactivates(Step(c, run[0]), run[1..], b, i);
    }
  }
}
